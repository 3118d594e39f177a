/**
 * `src/lib/image-ocr.js`: the recogniser is handed the image as a `data:` URL; `performOCR`
 * returns its text, `performOCRWithMarkdown` turns the text into markdown line by line.
 */
module ImageOcr {
  import opened Wrappers
  import opened Strings
  import opened PdfPage
  import opened Base64

  // ---------------------------------------------------------------------------
  // The list test /^\s*[\d-]+\.\s/
  // ---------------------------------------------------------------------------

  /** The class `[\d-]`. */
  predicate IsDigitOrDash(c: char) {
    IsAsciiDigit(c) || c == '-'
  }

  /** The end of the run of `[\d-]` characters that starts at `i`. */
  function DigitRun(s: string, i: nat): (r: nat)
    requires i <= |s|
    ensures i <= r <= |s| && (r == |s| || !IsDigitOrDash(s[r]))
    ensures forall k :: i <= k < r ==> IsDigitOrDash(s[k])
    decreases |s| - i
  {
    if i < |s| && IsDigitOrDash(s[i]) then DigitRun(s, i + 1) else i
  }

  /**
   * `line.match(/^\s*[\d-]+\.\s/)`, scanned: `\s*` takes the leading whitespace, `[\d-]+` the run
   * after it, and a full stop and a whitespace character must follow.
   */
  predicate IsListLine(line: string) {
    var p := SkipSpace(line, 0);
    var q := DigitRun(line, p);
    p < q && q + 1 < |line| && line[q] == '.' && IsSpace(line[q + 1])
  }

  /** `line[..q + 2]` is whitespace up to `p`, digits and dashes up to `q`, a full stop and a whitespace character. */
  predicate ListMarker(line: string, p: nat, q: nat)
    requires p < q && q + 1 < |line|
  {
    (forall k :: 0 <= k < p ==> IsSpace(line[k])) &&
    (forall k :: p <= k < q ==> IsDigitOrDash(line[k])) &&
    line[q] == '.' && IsSpace(line[q + 1])
  }

  /** The regular expression read directly: some split of the line's head matches it. */
  ghost predicate ListPattern(line: string) {
    exists p: nat, q: nat :: p < q && q + 1 < |line| && ListMarker(line, p, q)
  }

  /** The scan finds the list marker exactly when the regular expression matches. */
  lemma {:induction false} ListLineMatches(line: string)
    ensures IsListLine(line) <==> ListPattern(line)
  {
    var p := SkipSpace(line, 0);
    SkipSpaceSkipsSpace(line, 0);
    if IsListLine(line) {
      var q := DigitRun(line, p);
      assert ListMarker(line, p, q);
    }
    if ListPattern(line) {
      var p': nat, q': nat :| p' < q' && q' + 1 < |line| && ListMarker(line, p', q');
      assert !IsSpace(line[p']) by { assert IsDigitOrDash(line[p']); }
      assert p <= p';
      assert p < |line| && !IsSpace(line[p]);
      assert p == p';
      var q := DigitRun(line, p);
      assert !IsDigitOrDash(line[q']);
      assert q <= q';
      assert q < |line| && !IsDigitOrDash(line[q]);
      assert q == q';
    }
  }

  // ---------------------------------------------------------------------------
  // The heading test /^[A-Z\s]{5,}$/ and the line mapping
  // ---------------------------------------------------------------------------

  /** `line.match(/^[A-Z\s]{5,}$/)`: five or more characters, each an upper-case ASCII letter or whitespace. */
  predicate IsHeadingLine(line: string) {
    |line| >= 5 && forall k :: 0 <= k < |line| ==> IsAsciiUpper(line[k]) || IsSpace(line[k])
  }

  /** The callback of `lines.map(...)`. */
  function FormatLine(line: string): string {
    if IsListLine(line) then Trim(line)
    else if IsHeadingLine(line) then "## " + Trim(line)
    else Trim(line)
  }

  /**
   * A list line is returned trimmed and never becomes a heading; an upper-case line of five or
   * more characters becomes a level-2 heading; every other line is returned trimmed.
   */
  lemma {:induction false} FormatLineCases(line: string)
    ensures ListPattern(line) ==> FormatLine(line) == Trim(line)
    ensures IsHeadingLine(line) ==> !ListPattern(line) && FormatLine(line) == "## " + Trim(line)
    ensures !ListPattern(line) && !IsHeadingLine(line) ==> FormatLine(line) == Trim(line)
  {
    ListLineMatches(line);
    if ListPattern(line) {
      var p: nat, q: nat :| p < q && q + 1 < |line| && ListMarker(line, p, q);
      assert !IsAsciiUpper(line[q]) && !IsSpace(line[q]);
    }
  }

  /** A formatted line holds no line break when the input line holds none. */
  lemma {:induction false} FormatLineNoBreak(line: string)
    requires '\n' !in line
    ensures '\n' !in FormatLine(line)
  {
    TrimIsInfix(line);
    var t := Trim(line);
    forall k | 0 <= k < |t| ensures t[k] != '\n' {
      assert t[k] == line[SkipSpace(line, 0) + k];
    }
  }

  /** Each line formatted, in order. */
  function Pieces(lines: seq<string>): (r: seq<string>)
    ensures |r| == |lines|
  {
    seq(|lines|, i requires 0 <= i < |lines| => FormatLine(lines[i]))
  }

  /** `lines.map(...).join('\n\n')` over `text.split('\n')`. */
  function OcrMarkdown(text: string): string {
    Join(Pieces(Split(text, '\n')), "\n\n")
  }

  /** The pieces with an empty line between neighbours. */
  function Spaced(pieces: seq<string>): (r: seq<string>)
    requires pieces != []
    ensures |r| == 2 * |pieces| - 1
    decreases |pieces|
  {
    if |pieces| == 1 then pieces else [pieces[0], ""] + Spaced(pieces[1..])
  }

  /** In the spaced pieces, piece `i` is line `2 * i` and the lines between pieces are empty. */
  lemma {:induction false} SpacedAt(pieces: seq<string>)
    requires pieces != []
    ensures forall i :: 0 <= i < |pieces| ==> Spaced(pieces)[2 * i] == pieces[i]
    ensures forall i :: 0 <= i < |pieces| - 1 ==> Spaced(pieces)[2 * i + 1] == ""
    decreases |pieces|
  {
    if |pieces| > 1 {
      var rest := pieces[1..];
      SpacedAt(rest);
      var r := Spaced(pieces);
      forall i | 1 <= i < |pieces| ensures r[2 * i] == pieces[i] {
        assert r[2 * i] == Spaced(rest)[2 * (i - 1)];
        assert rest[i - 1] == pieces[i];
      }
      forall i | 1 <= i < |pieces| - 1 ensures r[2 * i + 1] == "" {
        assert r[2 * i + 1] == Spaced(rest)[2 * (i - 1) + 1];
      }
    }
  }

  /** Spacing pieces without line breaks gives lines without line breaks. */
  lemma {:induction false} SpacedNoBreak(pieces: seq<string>)
    requires pieces != []
    requires forall i :: 0 <= i < |pieces| ==> '\n' !in pieces[i]
    ensures forall k :: 0 <= k < |Spaced(pieces)| ==> '\n' !in Spaced(pieces)[k]
    decreases |pieces|
  {
    if |pieces| > 1 {
      SpacedNoBreak(pieces[1..]);
      var r := Spaced(pieces);
      forall k | 2 <= k < |r| ensures '\n' !in r[k] {
        assert r[k] == Spaced(pieces[1..])[k - 2];
      }
    }
  }

  /** Joining with a blank line between is joining with a line break around an empty line. */
  lemma {:induction false} JoinSpaced(pieces: seq<string>)
    requires pieces != []
    ensures Join(pieces, "\n\n") == Join(Spaced(pieces), "\n")
    decreases |pieces|
  {
    if |pieces| > 1 {
      JoinSpaced(pieces[1..]);
      var rest := Spaced(pieces[1..]);
      assert Spaced(pieces) == [pieces[0]] + ([""] + rest);
      assert ([""] + rest)[1..] == rest;
    }
  }

  /**
   * The markdown has one piece per line of the recognised text, in order, separated by blank
   * lines: its even lines are the formatted input lines and its odd lines are empty.
   */
  lemma {:induction false} OcrMarkdownLines(text: string)
    ensures var lines := Split(text, '\n');
            var out := Split(OcrMarkdown(text), '\n');
            |out| == 2 * |lines| - 1 &&
            (forall i :: 0 <= i < |lines| ==> out[2 * i] == FormatLine(lines[i])) &&
            (forall i :: 0 <= i < |lines| - 1 ==> out[2 * i + 1] == "")
  {
    var lines := Split(text, '\n');
    var pieces := Pieces(lines);
    JoinSpaced(pieces);
    SpacedAt(pieces);
    forall i | 0 <= i < |pieces| ensures '\n' !in pieces[i] {
      FormatLineNoBreak(lines[i]);
    }
    SpacedNoBreak(pieces);
    SplitJoin(Spaced(pieces), '\n');
  }

  // ---------------------------------------------------------------------------
  // performOCR and performOCRWithMarkdown
  // ---------------------------------------------------------------------------

  /**
   * The worker around one recognition, as both functions use it: `createWorker` is awaited before
   * the `try`, so its failure (`createError`) escapes as it is and nothing is recognised; once the
   * worker exists, `run` is the outcome of the `try` block, and a failing `terminate()` in the
   * `finally` (`terminateError`) replaces it, result or error alike.
   */
  function WithWorker(createError: Option<string>, run: Result<string, string>, terminateError: Option<string>)
    : Result<string, string>
  {
    if createError.Some? then Err(createError.value)
    else if terminateError.Some? then Err(terminateError.value)
    else run
  }

  /**
   * `performOCR(fileBuffer, imageType)`: `recognise` stands for the worker's recogniser on a
   * `data:` URL. Its text is returned unchanged; its failure is rethrown with `OCR failed: `.
   */
  function PerformOcr(fileBuffer: seq<uint8>, imageType: string, createError: Option<string>,
                      recognise: string -> Result<string, string>, terminateError: Option<string>)
    : (r: Result<string, string>)
    ensures createError.Some? ==> r == Err(createError.value)
    ensures createError.None? && terminateError.Some? ==> r == Err(terminateError.value)
    ensures createError.None? && terminateError.None? ==>
      var rec := recognise(DataUrl(fileBuffer, imageType));
      (r.Err? <==> rec.Err?) &&
      (r.Ok? ==> r.value == rec.value) &&
      (r.Err? ==> r.error == "OCR failed: " + rec.error)
  {
    var run := match recognise(DataUrl(fileBuffer, imageType))
      case Ok(text) => Ok(text)
      case Err(m) => Err("OCR failed: " + m);
    WithWorker(createError, run, terminateError)
  }

  /**
   * `performOCRWithMarkdown(fileBuffer, imageType)`: the recognised text through the line
   * mapping; its failure is rethrown with `OCR with markdown failed: `.
   */
  function PerformOcrWithMarkdown(fileBuffer: seq<uint8>, imageType: string, createError: Option<string>,
                                  recognise: string -> Result<string, string>, terminateError: Option<string>)
    : (r: Result<string, string>)
    ensures createError.Some? ==> r == Err(createError.value)
    ensures createError.None? && terminateError.Some? ==> r == Err(terminateError.value)
    ensures createError.None? && terminateError.None? ==>
      var rec := recognise(DataUrl(fileBuffer, imageType));
      (r.Err? <==> rec.Err?) &&
      (r.Ok? ==> r.value == OcrMarkdown(rec.value)) &&
      (r.Err? ==> r.error == "OCR with markdown failed: " + rec.error)
  {
    var run := match recognise(DataUrl(fileBuffer, imageType))
      case Ok(text) => Ok(OcrMarkdown(text))
      case Err(m) => Err("OCR with markdown failed: " + m);
    WithWorker(createError, run, terminateError)
  }

  /** The recogniser is handed the image itself: its URL reads back as the image's type and bytes. */
  lemma {:induction false} RecogniserSeesImage(fileBuffer: seq<uint8>, imageType: string)
    requires ';' !in imageType
    ensures ParseDataUrl(DataUrl(fileBuffer, imageType)) == Some((imageType, fileBuffer))
  {
    ParseDataUrlInverse(fileBuffer, imageType);
  }
}
