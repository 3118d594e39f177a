/**
 * The second half of `hybridPdfToMarkdown` (`src/converters/hybrid-pdf.js`): each image's OCR text,
 * cleaned line by line, replaces the image's placeholder as a blockquote; and the converter's
 * entry point, which chains pdf2md, the image saver, the placeholders, OCR and the quotes.
 */
module HybridOcr {
  import opened Wrappers
  import opened Strings
  import opened SaveImages
  import opened OcrPipeline
  import opened HybridPdf

  // ---------------------------------------------------------------------------
  // Cleaning the OCR text: the regular expression /^\s+|\s+$/gm as written
  // ---------------------------------------------------------------------------

  /** The characters `^` and `$` treat as line ends in a multiline regular expression. */
  predicate IsLineTerminator(c: char) {
    c == '\n' || c == '\r' || c == '\U{2028}' || c == '\U{2029}'
  }

  /** `^` under the `m` flag: the start of the text, or just after a line terminator. */
  predicate LineStart(s: string, p: nat)
    requires p <= |s|
  {
    p == 0 || IsLineTerminator(s[p - 1])
  }

  /** `$` under the `m` flag: the end of the text, or just before a line terminator. */
  predicate LineEnd(s: string, q: nat)
    requires q <= |s|
  {
    q == |s| || IsLineTerminator(s[q])
  }

  /**
   * `\s+$` from `p` after the greedy run reached `q`: backtracking gives the longest run
   * `s[p..q']` with `q' <= q` that ends at a line end.
   */
  function TrailingRun(s: string, p: nat, q: nat): (r: Option<nat>)
    requires p <= q <= |s|
    ensures r.Some? ==> p < r.value <= q && LineEnd(s, r.value)
    ensures r.None? ==> forall k :: p < k <= q ==> !LineEnd(s, k)
    decreases q
  {
    if q == p then None
    else if LineEnd(s, q) then Some(q)
    else TrailingRun(s, p, q - 1)
  }

  /** The end of the match of `^\s+|\s+$` that starts at `p`, trying the first alternative first. */
  function EdgeMatch(s: string, p: nat): (r: Option<nat>)
    requires p < |s|
    ensures r.Some? ==> p < r.value <= |s|
  {
    if LineStart(s, p) && IsSpace(s[p]) then Some(SkipSpace(s, p))
    else TrailingRun(s, p, SkipSpace(s, p))
  }

  /**
   * `s.replace(/^\s+|\s+$/gm, '')` from position `p`: every match is removed and the scan
   * resumes after it; where no match starts, the character is kept.
   */
  function StripEdges(s: string, p: nat): string
    requires p <= |s|
    decreases |s| - p
  {
    if p == |s| then ""
    else match EdgeMatch(s, p)
      case Some(q) => StripEdges(s, q)
      case None => [s[p]] + StripEdges(s, p + 1)
  }

  /** `lines.filter(line => line.length > 0)` */
  function NonEmptyLines(lines: seq<string>): (r: seq<string>)
    ensures |r| <= |lines|
    ensures forall k :: 0 <= k < |r| ==> r[k] != "" && r[k] in lines
  {
    if lines == [] then []
    else if lines[0] != "" then [lines[0]] + NonEmptyLines(lines[1..])
    else NonEmptyLines(lines[1..])
  }

  /** Every non-empty line is kept, as often as it occurs, and no empty line is. */
  lemma {:induction false} NonEmptyLinesExactly(lines: seq<string>)
    ensures forall x :: multiset(NonEmptyLines(lines))[x] == if x != "" then multiset(lines)[x] else 0
    decreases |lines|
  {
    if lines != [] {
      NonEmptyLinesExactly(lines[1..]);
      assert lines == [lines[0]] + lines[1..];
      assert multiset(lines) == multiset{lines[0]} + multiset(lines[1..]);
    }
  }

  /** `cleanedText` as the converter computes it. */
  function CleanLinesAsWritten(ocrText: string): string {
    Join(NonEmptyLines(Split(StripEdges(Trim(ocrText), 0), '\n')), "\n")
  }

  /**
   * Finding: `\s` matches line terminators, so `^\s+` at an empty line and `\s+$` before one eat
   * the line breaks themselves, and lines separated by a blank line run together.
   */
  lemma {:induction false} CleanLinesMergesLines()
    ensures CleanLinesAsWritten("a\n\nb") == "ab"
    ensures CleanLinesAsWritten("a\r\nb") == "ab"
  {
    var s := "a\n\nb";
    assert Trim(s) == s by { assert SkipSpace(s, 0) == 0 && BackSpace(s, 0, 4) == 4; }
    assert EdgeMatch(s, 0) == None by { assert SkipSpace(s, 0) == 0; }
    assert EdgeMatch(s, 1) == Some(2) by { assert SkipSpace(s, 1) == 3; }
    assert EdgeMatch(s, 2) == Some(3) by { assert SkipSpace(s, 2) == 3; }
    assert EdgeMatch(s, 3) == None by { assert SkipSpace(s, 3) == 3; }
    assert StripEdges(s, 0) == "ab";
    SplitNoSep("ab", '\n');
    var u := "a\r\nb";
    assert Trim(u) == u by { assert SkipSpace(u, 0) == 0 && BackSpace(u, 0, 4) == 4; }
    assert EdgeMatch(u, 0) == None by { assert SkipSpace(u, 0) == 0; }
    assert EdgeMatch(u, 1) == Some(2) by { assert SkipSpace(u, 1) == 3; }
    assert EdgeMatch(u, 2) == Some(3) by { assert SkipSpace(u, 2) == 3; }
    assert EdgeMatch(u, 3) == None by { assert SkipSpace(u, 3) == 3; }
    assert StripEdges(u, 0) == "ab";
  }

  // ---------------------------------------------------------------------------
  // Cleaning the OCR text as intended: trim each line, drop the empty ones
  // ---------------------------------------------------------------------------

  /** Each line trimmed. */
  function TrimLines(lines: seq<string>): (r: seq<string>)
    ensures |r| == |lines|
  {
    seq(|lines|, i requires 0 <= i < |lines| => Trim(lines[i]))
  }

  /** The lines of the trimmed text, each trimmed, the empty ones dropped. */
  function CleanedLines(ocrText: string): seq<string> {
    NonEmptyLines(TrimLines(Split(Trim(ocrText), '\n')))
  }

  /** `cleanedText` as the comment beside the regular expression describes it. */
  function CleanLines(ocrText: string): string {
    Join(CleanedLines(ocrText), "\n")
  }

  /** `s` holds no line terminator. */
  predicate SingleLine(s: string) {
    forall k :: 0 <= k < |s| ==> !IsLineTerminator(s[k])
  }

  /** A trimmed line is non-empty, holds no line break and has no whitespace at either end. */
  predicate CleanLine(line: string) {
    line != "" && '\n' !in line && !IsSpace(line[0]) && !IsSpace(line[|line| - 1])
  }

  /**
   * The intended cleaning keeps one line per non-blank input line: the text's lines are exactly
   * the cleaned lines, each non-empty, without a break and with no whitespace at either end.
   */
  lemma {:induction false} CleanLinesKeepsLines(ocrText: string)
    ensures forall k :: 0 <= k < |CleanedLines(ocrText)| ==> CleanLine(CleanedLines(ocrText)[k])
    ensures CleanedLines(ocrText) != [] ==> Split(CleanLines(ocrText), '\n') == CleanedLines(ocrText)
    ensures CleanedLines(ocrText) == [] <==> CleanLines(ocrText) == ""
  {
    var lines := Split(Trim(ocrText), '\n');
    var trimmed := TrimLines(lines);
    var kept := CleanedLines(ocrText);
    forall k | 0 <= k < |kept| ensures CleanLine(kept[k]) {
      var i :| 0 <= i < |trimmed| && trimmed[i] == kept[k];
      assert kept[k] == Trim(lines[i]);
      TrimLacks(lines[i], '\n');
    }
    if kept != [] {
      SplitJoin(kept, '\n');
    }
    if kept != [] && CleanLines(ocrText) == "" {
      JoinHead(kept, "\n");
      assert false;
    }
  }

  /** A join starts with its first part. */
  lemma {:induction false} JoinHead(parts: seq<string>, sep: string)
    requires parts != []
    ensures |Join(parts, sep)| >= |parts[0]| && Join(parts, sep)[..|parts[0]|] == parts[0]
  {
  }

  /** The stray characters of a line without line terminators are kept: no match ends inside it. */
  lemma {:induction false} StripSingleLine(s: string, p: nat)
    requires p <= |s| && SingleLine(s)
    requires s == [] || (!IsSpace(s[0]) && !IsSpace(s[|s| - 1]))
    ensures StripEdges(s, p) == s[p..]
    decreases |s| - p
  {
    if p < |s| {
      var run := SkipSpace(s, p);
      SkipSpaceSkipsSpace(s, p);
      assert run < |s|;
      assert TrailingRun(s, p, run) == None;
      assert EdgeMatch(s, p) == None;
      StripSingleLine(s, p + 1);
      assert s[p..] == [s[p]] + s[p + 1..];
    }
  }

  /** The trimmed text of a text without line terminators has none either. */
  lemma {:induction false} TrimSingleLine(t: string)
    requires SingleLine(t)
    ensures SingleLine(Trim(t)) && '\n' !in Trim(t)
  {
    TrimIsInfix(t);
    var s := Trim(t);
    forall k | 0 <= k < |s| ensures !IsLineTerminator(s[k]) {
      assert s[k] == t[SkipSpace(t, 0) + k];
    }
  }

  /** On a single line the two cleanings agree: both give the trimmed text. */
  lemma {:induction false} CleanLinesAgreeOnOneLine(ocrText: string)
    requires SingleLine(ocrText)
    ensures CleanLinesAsWritten(ocrText) == Trim(ocrText)
    ensures CleanLines(ocrText) == Trim(ocrText)
  {
    var s := Trim(ocrText);
    TrimSingleLine(ocrText);
    StripSingleLine(s, 0);
    SplitNoSep(s, '\n');
    var one: seq<string> := [s];
    assert one[1..] == [];
    TrimIdempotent(ocrText);
    assert TrimLines(one) == one;
  }

  /** Text that came out of `cleanOcrText` is a single line, so it does not show the defect. */
  lemma {:induction false} RecognisedTextIsOneLine(text: Option<string>)
    ensures SingleLine(CleanOcrText(text))
  {
    CleanOcrTextTidy(text);
    var s := CleanOcrText(text);
    forall k | 0 <= k < |s| ensures !IsLineTerminator(s[k]) {
      assert IsSpace(s[k]) ==> s[k] == ' ';
    }
  }

  // ---------------------------------------------------------------------------
  // The blockquote
  // ---------------------------------------------------------------------------

  /** `\n> ${cleanedText.split('\n').join('\n> ')}\n` */
  function Blockquote(cleaned: string): string {
    "\n> " + Join(Split(cleaned, '\n'), "\n> ") + "\n"
  }

  /** Each line behind the blockquote marker `> `. */
  function Prefixed(lines: seq<string>): (r: seq<string>)
    ensures |r| == |lines|
  {
    seq(|lines|, i requires 0 <= i < |lines| => "> " + lines[i])
  }

  /** Joining with `\n> ` after a leading `> ` puts `> ` in front of every line. */
  lemma {:induction false} JoinPrefixed(lines: seq<string>)
    requires lines != []
    ensures "> " + Join(lines, "\n> ") == Join(Prefixed(lines), "\n")
    decreases |lines|
  {
    if |lines| > 1 {
      JoinPrefixed(lines[1..]);
      assert Prefixed(lines)[1..] == Prefixed(lines[1..]);
    }
  }

  /** The blockquote is an empty line, one `> ` line per line of the text, and an empty line. */
  lemma {:induction false} BlockquoteLines(cleaned: string)
    ensures Split(Blockquote(cleaned), '\n') == [""] + Prefixed(Split(cleaned, '\n')) + [""]
  {
    var lines := Split(cleaned, '\n');
    var body := Prefixed(lines);
    JoinPrefixed(lines);
    var all := [""] + body + [""];
    JoinConcat([""], body + [""], "\n");
    JoinConcat(body, [""], "\n");
    assert ([""] + body + [""]) == [""] + (body + [""]);
    assert Blockquote(cleaned) == Join(all, "\n");
    forall k | 0 <= k < |all| ensures '\n' !in all[k] {
      if 0 < k < |all| - 1 {
        assert all[k] == "> " + lines[k - 1];
      }
    }
    SplitJoin(all, '\n');
  }

  /** The quote of an image's OCR text: one `> ` line per non-blank line, trimmed, between empty lines. */
  lemma {:induction false} QuoteOfText(ocrText: string)
    requires CleanedLines(ocrText) != []
    ensures Split(Blockquote(CleanLines(ocrText)), '\n') == [""] + Prefixed(CleanedLines(ocrText)) + [""]
  {
    CleanLinesKeepsLines(ocrText);
    BlockquoteLines(CleanLines(ocrText));
  }

  // ---------------------------------------------------------------------------
  // Replacing the placeholders
  // ---------------------------------------------------------------------------

  /**
   * One turn of the quoting loop: when the map holds non-empty text under the image's name, the
   * first occurrence of its placeholder is replaced by the quote of that text, cleaned as written.
   */
  function Quote(md: string, img: ImageRef, ocrMap: map<string, string>): string {
    if img.name in ocrMap && ocrMap[img.name] != "" then
      ReplaceFirst(md, Placeholder(img), Blockquote(CleanLinesAsWritten(ocrMap[img.name])))
    else md
  }

  /** The markdown after the first `n` turns of the quoting loop. */
  function Quoted(md: string, imgs: seq<ImageRef>, ocrMap: map<string, string>, n: nat): string
    requires n <= |imgs|
  {
    if n == 0 then md else Quote(Quoted(md, imgs, ocrMap, n - 1), imgs[n - 1], ocrMap)
  }

  /** The quoting loop of `hybridPdfToMarkdown`. */
  method InsertOcrText(markdown: string, imagePaths: seq<ImageRef>, imageOcrMap: map<string, string>)
    returns (finalMarkdown: string)
    ensures finalMarkdown == Quoted(markdown, imagePaths, imageOcrMap, |imagePaths|)
  {
    finalMarkdown := markdown;
    for i := 0 to |imagePaths|
      invariant finalMarkdown == Quoted(markdown, imagePaths, imageOcrMap, i)
    {
      var image := imagePaths[i];
      if image.name in imageOcrMap && imageOcrMap[image.name] != "" {
        var cleanedText := CleanLinesAsWritten(imageOcrMap[image.name]);
        finalMarkdown := ReplaceFirst(finalMarkdown, Placeholder(image), Blockquote(cleanedText));
      }
    }
  }

  /**
   * With OCR text the first placeholder occurrence, and only it, becomes the quote; without
   * text, or without the placeholder, the markdown is unchanged.
   */
  lemma {:induction false} QuoteReplacesFirst(md: string, img: ImageRef, ocrMap: map<string, string>, i: nat)
    requires OccursAt(md, Placeholder(img), i)
    requires forall j :: 0 <= j < i ==> !OccursAt(md, Placeholder(img), j)
    ensures img.name in ocrMap && ocrMap[img.name] != "" ==>
      Quote(md, img, ocrMap) ==
        md[..i] + Blockquote(CleanLinesAsWritten(ocrMap[img.name])) + md[i + |Placeholder(img)|..]
    ensures img.name !in ocrMap || ocrMap[img.name] == "" ==> Quote(md, img, ocrMap) == md
  {
    if img.name in ocrMap && ocrMap[img.name] != "" {
      ReplaceFirstAt(md, Placeholder(img), Blockquote(CleanLinesAsWritten(ocrMap[img.name])), i);
    }
  }

  /** An image whose placeholder is no longer in the markdown leaves it unchanged. */
  lemma {:induction false} QuoteWithoutPlaceholder(md: string, img: ImageRef, ocrMap: map<string, string>)
    requires forall j :: !OccursAt(md, Placeholder(img), j)
    ensures Quote(md, img, ocrMap) == md
  {
    ContainsAt(md, Placeholder(img));
  }

  // ---------------------------------------------------------------------------
  // Which text an image gets
  // ---------------------------------------------------------------------------

  /**
   * For an entry built from a saver record as intended, the OCR map key of its result is the
   * entry's own file name, so the quoting loop finds its text.
   */
  lemma {:induction false} KeyIsName(rec: SavedImage, ocrText: string, ocrError: Option<string>)
    requires Named(rec)
    ensures MapKey(OcrRecord(RefOf(rec), ocrText, ocrError)) == RefOf(rec).name
  {
  }

  /** Every result is filed under its own image's name. */
  predicate FiledByName(results: seq<OcrRecord<ImageRef>>) {
    forall j :: 0 <= j < |results| ==> MapKey(results[j]) == results[j].image.name
  }

  /** No two results are for images with the same name. */
  predicate DistinctNames(results: seq<OcrRecord<ImageRef>>) {
    forall j, k :: 0 <= j < k < |results| ==> results[j].image.name != results[k].image.name
  }

  /**
   * When results are filed under their own, distinct names, each image finds exactly its own
   * OCR text in the map, and an image without text finds none.
   */
  lemma {:induction false} OwnText(results: seq<OcrRecord<ImageRef>>, i: nat)
    requires i < |results| && FiledByName(results) && DistinctNames(results)
    ensures results[i].ocrText != "" ==>
      results[i].image.name in TextMap(results, |results|) &&
      TextMap(results, |results|)[results[i].image.name] == results[i].ocrText
    ensures results[i].ocrText == "" ==> results[i].image.name !in TextMap(results, |results|)
  {
    var n := |results|;
    var name := results[i].image.name;
    if results[i].ocrText != "" {
      forall k | i < k < n && results[k].ocrText != "" ensures MapKey(results[k]) != name {
        assert MapKey(results[k]) == results[k].image.name;
      }
      assert LastFiled(results, n, name, i);
      TextMapLastWins(results, n, name, i);
    } else {
      forall j | 0 <= j < n && results[j].ocrText != "" ensures MapKey(results[j]) != name {
        assert MapKey(results[j]) == results[j].image.name;
        assert j < i || i < j;
      }
      TextMapKeys(results, n);
    }
  }

  /**
   * Finding: as written, entries carry no page or index, so every result is filed under
   * `page_1_image_1.png`.
   */
  lemma {:induction false} AsWrittenKeyIsFixed(rec: SavedImage, ocrText: string, ocrError: Option<string>)
    ensures MapKey(OcrRecord(RefAsWritten(rec), ocrText, ocrError)) == "page_1_image_1.png"
  {
    assert NatToString(1) == "1";
  }

  /** As written, every placeholder reads `Image_undefined_undefined`. */
  lemma {:induction false} AsWrittenPlaceholder(rec: SavedImage)
    ensures Placeholder(RefAsWritten(rec)) == "![Image_undefined_undefined](" + rec.path + ")"
  {
    assert FieldText(None) == "undefined";
  }

  /**
   * Finding, the input that shows it: two images on pages 1 and 2 with texts "A" and "B". As
   * written the map holds "B" under the first image's name and nothing under the second's.
   */
  lemma {:induction false} AsWrittenLosesText()
    ensures var r1 := SavedImage(ImageFileName(1, 1), 1, 1, 10, 10);
            var r2 := SavedImage(ImageFileName(2, 1), 2, 1, 10, 10);
            var results := [OcrRecord(RefAsWritten(r1), "A", None), OcrRecord(RefAsWritten(r2), "B", None)];
            ImageFileName(1, 1) in TextMap(results, 2) && TextMap(results, 2)[ImageFileName(1, 1)] == "B" &&
            ImageFileName(2, 1) !in TextMap(results, 2)
  {
    var r1 := SavedImage(ImageFileName(1, 1), 1, 1, 10, 10);
    var r2 := SavedImage(ImageFileName(2, 1), 2, 1, 10, 10);
    var results := [OcrRecord(RefAsWritten(r1), "A", None), OcrRecord(RefAsWritten(r2), "B", None)];
    var key := "page_1_image_1.png";
    AsWrittenKeyIsFixed(r1, "A", None);
    AsWrittenKeyIsFixed(r2, "B", None);
    assert MapKey(results[0]) == key && MapKey(results[1]) == key;
    assert TextMap(results, 1) == map[key := "A"];
    assert TextMap(results, 2) == map[key := "B"];
    assert NatToString(1) == "1" && NatToString(2) == "2";
    assert ImageFileName(1, 1) == key;
    assert ImageFileName(2, 1)[5] == '2';
  }

  /** Two plain placeholders on empty markdown: each appended after a blank line. */
  lemma {:induction false} PlacedTwoAtEnd(p1: string, p2: string)
    requires Plain(p1) && Plain(p2)
    ensures Placed("", [p1, p2], 2) == "\n\n" + p1 + "\n" + "\n\n" + p2 + "\n"
  {
    var ps := [p1, p2];
    PlainNoAnchor("");
    assert Split("", '\n') == [""];
    var md1 := Placed("", ps, 1);
    assert [""][1..] == [];
    assert FindAnchor([""]) == None;
    assert Placed("", ps, 0) == "" && ps[0] == p1;
    assert md1 == InsertPlaceholder("", p1);
    assert md1 == "" + "\n\n" + p1 + "\n";
    assert md1 == "\n\n" + p1 + "\n";
    forall k | 0 <= k < |ps| ensures Plain(ps[k]) {
    }
    PlacedAtEnd("", ps, 1);
    var lines := Split(md1, '\n');
    assert Queued(ps, 1) == [] + Block(p1);
    assert lines == ["", "", p1, ""];
    forall j | 0 <= j < |lines| ensures !Anchor(lines[j]) {
      PlainNoAnchor(lines[j]);
    }
  }

  /**
   * Quoting two appended placeholders when the map holds text for the first entry's name and
   * nothing for the second's: the first becomes the quote, the second stays.
   */
  lemma {:induction false} QuoteFirstOfTwo(a: ImageRef, b: ImageRef, ocrMap: map<string, string>)
    requires a.name in ocrMap && ocrMap[a.name] != "" && b.name !in ocrMap
    ensures var md := "\n\n" + Placeholder(a) + "\n" + "\n\n" + Placeholder(b) + "\n";
            Quoted(md, [a, b], ocrMap, 2) ==
              "\n\n" + Blockquote(CleanLinesAsWritten(ocrMap[a.name])) + "\n" + "\n\n" + Placeholder(b) + "\n"
  {
    var p1, p2 := Placeholder(a), Placeholder(b);
    var q := Blockquote(CleanLinesAsWritten(ocrMap[a.name]));
    var md := "\n\n" + p1 + "\n" + "\n\n" + p2 + "\n";
    var rest := "\n" + "\n\n" + p2 + "\n";
    Regroup("\n\n" + p1, "\n", "\n\n", p2, "\n");
    assert md[2..2 + |p1|] == p1;
    forall j | 0 <= j < 2 ensures !OccursAt(md, p1, j) {
      assert md[j..j + |p1|][0] == md[j] == '\n';
      assert p1[0] == '!';
    }
    QuoteReplacesFirst(md, a, ocrMap, 2);
    assert md[..2] == "\n\n" && md[2 + |p1|..] == rest;
    assert Quoted(md, [a, b], ocrMap, 1) == "\n\n" + q + rest;
    assert Quoted(md, [a, b], ocrMap, 2) == "\n\n" + q + rest;
    Regroup("\n\n" + q, "\n", "\n\n", p2, "\n");
  }

  /** Regrouping a concatenation. */
  lemma {:induction false} Regroup(u: string, w: string, x: string, y: string, z: string)
    ensures u + (w + x + y + z) == u + w + x + y + z
  {
  }

  /** The as-written quote of one word. */
  lemma {:induction false} QuoteOfWord()
    ensures Blockquote(CleanLinesAsWritten("B")) == "\n> B\n"
  {
    assert Trim("B") == "B" by { assert SkipSpace("B", 0) == 0 && BackSpace("B", 0, 1) == 1; }
    CleanLinesAgreeOnOneLine("B");
    SplitNoSep("B", '\n');
  }

  /**
   * The finding at the converter's entry point: for the two-image input of `AsWrittenLosesText`
   * on empty markdown, the first placeholder is replaced by the second image's text "B", and the
   * second placeholder, `![Image_undefined_undefined](page_2_image_1.png)` by
   * `AsWrittenPlaceholder`, stays unquoted.
   */
  lemma {:induction false} AsWrittenTwoImages()
    ensures var r1 := SavedImage(ImageFileName(1, 1), 1, 1, 10, 10);
            var r2 := SavedImage(ImageFileName(2, 1), 2, 1, 10, 10);
            var refs := [RefAsWritten(r1), RefAsWritten(r2)];
            var results := [OcrRecord(RefAsWritten(r1), "A", None), OcrRecord(RefAsWritten(r2), "B", None)];
            Refs([r1, r2], 2) == refs &&
            Converted("", refs, results) == "\n\n" + "\n> B\n" + "\n" + "\n\n" + Placeholder(RefAsWritten(r2)) + "\n"
  {
    var r1 := SavedImage(ImageFileName(1, 1), 1, 1, 10, 10);
    var r2 := SavedImage(ImageFileName(2, 1), 2, 1, 10, 10);
    var a, b := RefAsWritten(r1), RefAsWritten(r2);
    var saved := [r1, r2];
    var refs := [a, b];
    var results := [OcrRecord(a, "A", None), OcrRecord(b, "B", None)];
    assert Refs(saved, 1) == [a];
    assert Refs(saved, 2) == refs;
    var ps := Placeholders(refs);
    assert ps == [Placeholder(a), Placeholder(b)] by {
      PlaceholdersAt(refs, 0);
      PlaceholdersAt(refs, 1);
    }
    assert forall r :: r in saved ==> Named(r);
    RefsPlain(saved);
    assert Plain(ps[0]) && Plain(ps[1]);
    PlacedTwoAtEnd(ps[0], ps[1]);
    AsWrittenLosesText();
    QuoteFirstOfTwo(a, b, TextMap(results, 2));
    QuoteOfWord();
  }

  // ---------------------------------------------------------------------------
  // hybridPdfToMarkdown
  // ---------------------------------------------------------------------------

  /** The markdown for the entries `refs`, given pdf2md's markdown and the OCR results for `refs`. */
  function Converted(baseMarkdown: string, refs: seq<ImageRef>, results: seq<OcrRecord<ImageRef>>): string {
    if refs == [] then baseMarkdown
    else Quoted(Placed(baseMarkdown, Placeholders(refs), |refs|), refs, TextMap(results, |results|), |refs|)
  }

  /** The entries the converter collects for the document's pages. */
  function DocumentRefs(pages: seq<PageSource>, writeFails: (nat, nat) -> bool): seq<ImageRef> {
    var saved := SavedFrom(pages, writeFails, |pages|);
    Refs(saved, |saved|)
  }

  /**
   * `hybridPdfToMarkdown(pdfBuffer)`. `isBuffer` is the `Buffer.isBuffer` test, `baseMarkdown` what
   * pdf2md gives or the message it fails with, `pages` the document's pages or the message loading
   * it fails with. OCR goes through `cache` with the cache switched on.
   */
  method HybridPdfToMarkdown(isBuffer: bool, baseMarkdown: Result<string, string>,
                             pages: Result<seq<PageSource>, string>, writeFails: (nat, nat) -> bool,
                             cache: OcrCache, env: OcrEnv)
    returns (r: Result<string, string>)
    modifies cache
    ensures !isBuffer ==> r == Err("Input must be a Buffer") && cache.entries == old(cache.entries)
    ensures isBuffer && baseMarkdown.Err? ==>
      r == Err("PDF conversion failed: " + baseMarkdown.error) && cache.entries == old(cache.entries)
    ensures isBuffer && baseMarkdown.Ok? && pages.Err? ==>
      r == Err("PDF conversion failed: " + pages.error) && cache.entries == old(cache.entries)
    ensures isBuffer && baseMarkdown.Ok? && pages.Ok? ==>
      var refs := DocumentRefs(pages.value, writeFails);
      var run := RunAll(old(cache.entries), refs, PathOf, true, env, |refs|);
      r == Ok(Converted(baseMarkdown.value, refs, run.0)) &&
      cache.entries == (if refs == [] then old(cache.entries) else run.1)
  {
    if !isBuffer {
      return Err("Input must be a Buffer");
    }
    if baseMarkdown.Err? {
      return Err("PDF conversion failed: " + baseMarkdown.error);
    }
    if pages.Err? {
      return Err("PDF conversion failed: " + pages.error);
    }
    var imageInfo := SaveImagesFromPdf(pages.value, writeFails);
    var imagePaths := CollectImagePaths(imageInfo);
    if |imagePaths| > 0 {
      var finalMarkdown := PlacePlaceholders(baseMarkdown.value, imagePaths);
      var ocrResults := ProcessImagesWithOcr(cache, imagePaths, PathOf, true, env);
      var imageOcrMap := BuildImageOcrMap(ocrResults);
      finalMarkdown := InsertOcrText(finalMarkdown, imagePaths, imageOcrMap);
      return Ok(finalMarkdown);
    }
    return Ok(baseMarkdown.value);
  }

  /** A document without saved images converts to pdf2md's markdown, unchanged. */
  lemma {:induction false} NoImagesNoChange(baseMarkdown: string, pages: seq<PageSource>,
                                            writeFails: (nat, nat) -> bool, results: seq<OcrRecord<ImageRef>>)
    requires SavedFrom(pages, writeFails, |pages|) == []
    ensures Converted(baseMarkdown, DocumentRefs(pages, writeFails), results) == baseMarkdown
  {
    assert DocumentRefs(pages, writeFails) == [];
  }
}
