/**
 * `src/lib/llm-to-markdown.js`: the image is sent to a chat-completions endpoint as a URL (a
 * remote one as given, anything else as a Base64 `data:` URL) and the reply's code fences are
 * stripped; every failure comes back as a string starting with `Error`.
 */
module LlmToMarkdown {
  import opened Wrappers
  import opened Strings
  import opened PdfPage
  import opened Base64

  /** What `image` holds: a string (a path or URL) or the image's bytes. */
  datatype ImageInput = Text(s: string) | Bytes(data: seq<uint8>)

  /** `isRemoteFile(filePath)`: only a string can be remote, and only with an `http://` or `https://` prefix. */
  predicate IsRemoteFile(image: ImageInput) {
    image.Text? && (StartsWith(image.s, "http://") || StartsWith(image.s, "https://"))
  }

  /**
   * `finalImageUrl`: a remote file as given, anything else as a `data:` URL of its bytes.
   * `utf8` stands for `Buffer.from` on a string that is not remote.
   */
  function ImageUrl(image: ImageInput, imageType: string, utf8: string -> seq<uint8>): (url: string)
    ensures IsRemoteFile(image) ==> url == image.s
    ensures image.Bytes? ==> url == DataUrl(image.data, imageType)
    ensures image.Text? && !IsRemoteFile(image) ==> url == DataUrl(utf8(image.s), imageType)
  {
    if IsRemoteFile(image) then image.s
    else if image.Bytes? then DataUrl(image.data, imageType)
    else DataUrl(utf8(image.s), imageType)
  }

  /** A local image reaches the endpoint intact: its URL reads back as its type and bytes. */
  lemma {:induction false} LocalImageIntact(data: seq<uint8>, imageType: string, utf8: string -> seq<uint8>)
    requires ';' !in imageType
    ensures ParseDataUrl(ImageUrl(Bytes(data), imageType, utf8)) == Some((imageType, data))
  {
    ParseDataUrlInverse(data, imageType);
  }

  // ---------------------------------------------------------------------------
  // Stripping the code fences
  // ---------------------------------------------------------------------------

  /** Three backticks. */
  const Fence := "```"

  /** `markdown.replace(/```markdown/g, '').replace(/```/g, '')` */
  function StripFences(markdown: string): string {
    ReplaceAll(ReplaceAll(markdown, "```markdown", ""), Fence, "")
  }

  /** `s` starts with `n` backticks. */
  predicate Ticks(s: string, n: nat) {
    n <= |s| && forall k :: 0 <= k < n ==> s[k] == '`'
  }

  /**
   * Removing every ``` leaves none: a kept backtick never sits right before a removed fence (it
   * would have started that fence itself), and the result starts with as many backticks as the
   * text did, up to two.
   */
  lemma {:induction false} RemoveFencesLeavesNone(s: string)
    ensures forall j :: !OccursAt(ReplaceAll(s, Fence, ""), Fence, j)
    ensures Ticks(ReplaceAll(s, Fence, ""), 1) ==> Ticks(s, 1)
    ensures Ticks(ReplaceAll(s, Fence, ""), 2) ==> Ticks(s, 2)
    decreases |s|
  {
    var r := ReplaceAll(s, Fence, "");
    if StartsWith(s, Fence) {
      RemoveFencesLeavesNone(s[3..]);
      assert r == ReplaceAll(s[3..], Fence, "");
      assert s[..3] == Fence;
    } else if s != [] {
      var rest := ReplaceAll(s[1..], Fence, "");
      RemoveFencesLeavesNone(s[1..]);
      assert r == [s[0]] + rest;
      // A kept backtick is not followed by two more in the rest, or it would open a fence.
      assert Ticks(rest, 2) ==> s[1] == '`' && s[2] == '`' by {
        if Ticks(rest, 2) {
          assert Ticks(s[1..], 2);
          assert s[1..][0] == s[1] && s[1..][1] == s[2];
        }
      }
      assert |s| >= 3 ==> s[..3] == [s[0], s[1], s[2]];
      assert |s| >= 3 ==> !(s[0] == '`' && s[1] == '`' && s[2] == '`');
      forall j ensures !OccursAt(r, Fence, j) {
        if 1 <= j && j + 3 <= |r| {
          assert r[j..j + 3] == rest[j - 1..j + 2];
          assert !OccursAt(rest, Fence, j - 1);
        }
        if j == 0 && 3 <= |r| {
          assert r[..3] == [s[0], rest[0], rest[1]];
          assert Ticks(rest, 2) <==> rest[0] == '`' && rest[1] == '`';
        }
      }
      if Ticks(r, 1) {
        assert r[0] == s[0];
        assert Ticks(s, 1);
      }
      if Ticks(r, 2) {
        assert r[0] == s[0] && r[1] == rest[0];
        assert Ticks(rest, 1);
        assert Ticks(s[1..], 1);
        assert s[1..][0] == s[1];
        assert s[0] == '`' && s[1] == '`';
        assert Ticks(s, 2);
      }
    }
  }

  /** After stripping, the reply holds no code fence. */
  lemma {:induction false} StripFencesLeavesNone(markdown: string)
    ensures !Contains(StripFences(markdown), Fence)
  {
    RemoveFencesLeavesNone(ReplaceAll(markdown, "```markdown", ""));
    ContainsAt(StripFences(markdown), Fence);
  }

  // ---------------------------------------------------------------------------
  // llmToMarkdown
  // ---------------------------------------------------------------------------

  /** What `llmParams` supplies to the request. */
  datatype LlmParams = LlmParams(apiKey: string, baseURL: string, model: string, systemPrompt: string,
                                 userPrompt: string)

  /** The request: the model, the two prompts and the image URL. */
  datatype Request = Request(model: string, systemPrompt: string, userPrompt: string, imageUrl: string)

  /**
   * What the call gives: a thrown error's message, or a response with an optional `error` (its
   * `message`, `""` when missing) and the first choice's message content (`None` when missing).
   */
  datatype Response = Threw(message: string) | Responded(error: Option<string>, content: Option<string>)

  /** The reply carries usable content. */
  predicate Answered(response: Response) {
    response.Responded? && response.error.None? && response.content.Some? && response.content.value != ""
  }

  /**
   * `llmToMarkdown(image, imageType, llmParams)` once the request has answered `response`.
   * A failure is reported in the returned string, never thrown.
   */
  function LlmToMarkdownWith(response: Response): (r: string)
    ensures !Answered(response) ==> StartsWith(r, "Error")
    ensures Answered(response) ==> r == StripFences(response.content.value)
    ensures response.Responded? && response.error.None? && !Answered(response) ==>
      r == "Error: Unexpected API response format"
  {
    match response
    case Threw(m) => "Error processing image: " + m
    case Responded(error, content) =>
      if error.Some? then "Error processing image: " + (if error.value != "" then error.value else "Unknown error")
      else if content.None? || content.value == "" then "Error: Unexpected API response format"
      else StripFences(content.value)
  }

  /**
   * `llmToMarkdown` with the request it sends: `call` stands for the chat-completions request.
   */
  function LlmToMarkdown(image: ImageInput, imageType: string, llmParams: LlmParams,
                         call: Request -> Response, utf8: string -> seq<uint8>): string
  {
    var request := Request(llmParams.model, llmParams.systemPrompt, llmParams.userPrompt,
                           ImageUrl(image, imageType, utf8));
    LlmToMarkdownWith(call(request))
  }

  /** An answered request gives the content without code fences. */
  lemma {:induction false} AnsweredHasNoFence(response: Response)
    requires Answered(response)
    ensures !Contains(LlmToMarkdownWith(response), Fence)
  {
    StripFencesLeavesNone(response.content.value);
  }
}
