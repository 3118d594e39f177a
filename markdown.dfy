/**
 * `src/lib/markdown.js`: plain text is wrapped in paragraphs before the HTML-to-markdown library
 * sees it, and `formatMarkdown` adds an ATX heading (section 4.2 of the CommonMark
 * specification) and a fenced code block (section 4.5).
 */
module Markdown {
  import opened Wrappers
  import opened Strings

  // ---------------------------------------------------------------------------
  // convertToMarkdown
  // ---------------------------------------------------------------------------

  /** `<p>${line}</p>` */
  function Paragraph(line: string): string {
    "<p>" + line + "</p>"
  }

  /** Each line in a paragraph. */
  function Paragraphs(lines: seq<string>): (r: seq<string>)
    ensures |r| == |lines|
  {
    seq(|lines|, i requires 0 <= i < |lines| => Paragraph(lines[i]))
  }

  /**
   * The HTML handed to the library: content whose trimmed text holds a `<` is taken as HTML,
   * anything else becomes one paragraph per line.
   */
  function HtmlInput(content: string): string {
    if Contains(Trim(content), "<") then content
    else Join(Paragraphs(Split(content, '\n')), "\n")
  }

  /**
   * HTML passes through unchanged; plain text comes out as exactly one `<p>` line per line of the
   * text, in order.
   */
  lemma {:induction false} HtmlInputLines(content: string)
    ensures Contains(Trim(content), "<") ==> HtmlInput(content) == content
    ensures !Contains(Trim(content), "<") ==>
      Split(HtmlInput(content), '\n') == Paragraphs(Split(content, '\n'))
  {
    if !Contains(Trim(content), "<") {
      var lines := Split(content, '\n');
      var ps := Paragraphs(lines);
      forall k | 0 <= k < |ps| ensures '\n' !in ps[k] {
        assert ps[k] == "<p>" + lines[k] + "</p>";
      }
      SplitJoin(ps, '\n');
    }
  }

  /**
   * `convertToMarkdown(content)`: `turndown` stands for the configured HTML-to-markdown library;
   * its failure is rethrown with `Markdown conversion failed: `.
   */
  function ConvertToMarkdown(content: string, turndown: string -> Result<string, string>): (r: Result<string, string>)
    ensures r.Err? <==> turndown(HtmlInput(content)).Err?
    ensures r.Ok? ==> r.value == turndown(HtmlInput(content)).value
    ensures r.Err? ==> r.error == "Markdown conversion failed: " + turndown(HtmlInput(content)).error
  {
    match turndown(HtmlInput(content))
    case Ok(md) => Ok(md)
    case Err(m) => Err("Markdown conversion failed: " + m)
  }

  // ---------------------------------------------------------------------------
  // formatMarkdown
  // ---------------------------------------------------------------------------

  /** The options of `formatMarkdown`; a missing field is `None`. */
  datatype Formatting = Formatting(addHeading: bool, headingLevel: Option<int>, addCodeBlock: bool,
                                   language: Option<string>)

  /**
   * `Math.min(Math.max(formatting.headingLevel || 1, 1), 6)`: a missing or zero level is 1, and any
   * other level is clamped to the ATX heading levels 1 to 6.
   */
  function Level(headingLevel: Option<int>): (r: nat)
    ensures 1 <= r <= 6
    ensures headingLevel.None? || headingLevel.value == 0 ==> r == 1
    ensures headingLevel.Some? && 1 <= headingLevel.value <= 6 ==> r == headingLevel.value
    ensures headingLevel.Some? && headingLevel.value > 6 ==> r == 6
    ensures headingLevel.Some? && headingLevel.value < 1 ==> r == 1
  {
    var given := if headingLevel.None? || headingLevel.value == 0 then 1 else headingLevel.value;
    var atLeastOne := if given < 1 then 1 else given;
    if atLeastOne > 6 then 6 else atLeastOne
  }

  /** `${hashes} ${result}` */
  function Heading(level: nat, text: string): string {
    Repeat('#', level) + " " + text
  }

  /** "```" + lang + "\n" + result + "\n```" */
  function Fence(lang: string, text: string): string {
    "```" + lang + "\n" + text + "\n```"
  }

  /** `formatting.language ? formatting.language : ''` */
  function Language(language: Option<string>): string {
    if language.Some? then language.value else ""
  }

  /** `formatMarkdown(text, formatting)`: the heading first, then the fence around the result. */
  function FormatMarkdown(text: string, formatting: Formatting): string {
    var headed := if formatting.addHeading then Heading(Level(formatting.headingLevel), text) else text;
    if formatting.addCodeBlock then Fence(Language(formatting.language), headed) else headed
  }

  /**
   * With neither flag the text is unchanged; a heading alone reads back as the clamped level and
   * the text; with both flags the heading sits inside the fence.
   */
  lemma {:induction false} FormatMarkdownOrder(text: string, formatting: Formatting)
    ensures !formatting.addHeading && !formatting.addCodeBlock ==> FormatMarkdown(text, formatting) == text
    ensures formatting.addHeading && !formatting.addCodeBlock ==>
      ParseHeading(FormatMarkdown(text, formatting)) == Some((Level(formatting.headingLevel), text))
    ensures formatting.addHeading && formatting.addCodeBlock && '\n' !in Language(formatting.language) ==>
      ParseFence(FormatMarkdown(text, formatting)) ==
        Some((Language(formatting.language), Heading(Level(formatting.headingLevel), text)))
  {
    if formatting.addHeading {
      ParseHeadingOfHeading(Level(formatting.headingLevel), text);
    }
    if formatting.addHeading && formatting.addCodeBlock && '\n' !in Language(formatting.language) {
      ParseFenceOfFence(Language(formatting.language), Heading(Level(formatting.headingLevel), text));
    }
  }

  // ---------------------------------------------------------------------------
  // Reading a heading and a fence back
  // ---------------------------------------------------------------------------

  /** The number of `#` characters at the start of `s`. */
  function Hashes(s: string): (n: nat)
    ensures n <= |s| && (n == |s| || s[n] != '#')
    ensures forall k :: 0 <= k < n ==> s[k] == '#'
  {
    if s != [] && s[0] == '#' then 1 + Hashes(s[1..]) else 0
  }

  /** An ATX heading read back: its level, the count of opening `#`s, and the text after the one space. */
  function ParseHeading(s: string): Option<(nat, string)> {
    var n := Hashes(s);
    if 1 <= n <= 6 && n < |s| && s[n] == ' ' then Some((n, s[n + 1..])) else None
  }

  /** The heading prefix is exactly `level` `#`s and one space: reading it back gives the level and the text. */
  lemma {:induction false} ParseHeadingOfHeading(level: nat, text: string)
    requires 1 <= level <= 6
    ensures ParseHeading(Heading(level, text)) == Some((level, text))
  {
    var s := Heading(level, text);
    assert s[..level] == Repeat('#', level);
    assert s[level] == ' ';
    var n := Hashes(s);
    assert s[n] != '#' ==> n >= level;
    assert n == level;
    assert s[level + 1..] == text;
  }

  /** A fenced block read back: the info string up to the first line break, and the body before the closing fence. */
  function ParseFence(s: string): Option<(string, string)> {
    if |s| < 7 || s[..3] != "```" || s[|s| - 4..] != "\n```" then None
    else
      var inner := s[3..];
      match IndexOf(inner, "\n")
      case None => None
      case Some(k) =>
        if k + 1 > |inner| - 4 then None else Some((inner[..k], inner[k + 1..|inner| - 4]))
  }

  /** For an info string without a line break, reading the fence back gives the info string and the text. */
  lemma {:induction false} ParseFenceOfFence(lang: string, text: string)
    requires '\n' !in lang
    ensures ParseFence(Fence(lang, text)) == Some((lang, text))
  {
    var s := Fence(lang, text);
    assert s[..3] == "```";
    assert s[|s| - 4..] == "\n```";
    var inner := s[3..];
    assert inner == lang + "\n" + text + "\n```";
    var k := |lang|;
    assert OccursAt(inner, "\n", k);
    forall j | 0 <= j < k ensures !OccursAt(inner, "\n", j) {
      assert inner[j] == lang[j];
    }
    assert IndexOf(inner, "\n") == Some(k);
    assert inner[..k] == lang;
    assert inner[k + 1..|inner| - 4] == text;
  }
}
