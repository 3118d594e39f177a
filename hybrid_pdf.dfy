/**
 * `src/converters/hybrid-pdf.js`: pdf2md's markdown, a placeholder for every image the saver
 * wrote, and each image's OCR text quoted in place of its placeholder.
 */
module HybridPdf {
  import opened Wrappers
  import opened Strings
  import opened SaveImages
  import opened OcrPipeline

  /** One entry of `imagePaths`: the file's path, its base name, and the `page` and `index` it is shown with. */
  datatype ImageRef = ImageRef(path: string, name: string, page: Option<nat>, index: Option<nat>)

  /** The path `processImagesWithOCR` reads an entry's image from. */
  function PathOf(img: ImageRef): string {
    img.path
  }

  // ---------------------------------------------------------------------------
  // imagePaths
  // ---------------------------------------------------------------------------

  /**
   * The entry built from a saver record as the converter is written: the saver's records carry
   * `pageNum` and `imageNum`, so `image.page` and `image.index` read `undefined`.
   */
  function RefAsWritten(rec: SavedImage): ImageRef {
    ImageRef(rec.path, rec.path, None, None)
  }

  /** The entry with the page and image numbers the saver recorded, as the converter means to build it. */
  function RefOf(rec: SavedImage): ImageRef {
    ImageRef(rec.path, rec.path, Some(rec.pageNum), Some(rec.imageNum))
  }

  /**
   * The entries for the first `n` saver records, as the converter builds them: one for each
   * record with a non-empty path, with no page and no index.
   */
  function Refs(saved: seq<SavedImage>, n: nat): seq<ImageRef>
    requires n <= |saved|
  {
    if n == 0 then []
    else if saved[n - 1].path != "" then Refs(saved, n - 1) + [RefAsWritten(saved[n - 1])]
    else Refs(saved, n - 1)
  }

  /** The loop that fills `imagePaths` from `imageInfo`. */
  method CollectImagePaths(imageInfo: seq<SavedImage>) returns (imagePaths: seq<ImageRef>)
    ensures imagePaths == Refs(imageInfo, |imageInfo|)
  {
    imagePaths := [];
    for i := 0 to |imageInfo|
      invariant imagePaths == Refs(imageInfo, i)
    {
      var image := imageInfo[i];
      if image.path != "" {
        imagePaths := imagePaths + [RefAsWritten(image)];
      }
    }
  }

  /** A record as the saver writes it: named by the default `nameFormat`, page and image numbered from 1. */
  predicate Named(rec: SavedImage) {
    rec.path == ImageFileName(rec.pageNum, rec.imageNum) && rec.pageNum >= 1 && rec.imageNum >= 1
  }

  /** The records of one page are named by their page and image number. */
  lemma {:induction false} PageSavedNamed(page: PageSource, pageNum: nat, writeFails: (nat, nat) -> bool)
    requires pageNum >= 1
    ensures forall r :: r in PageSaved(page, pageNum, writeFails) ==> Named(r)
  {
    var recs := PageSaved(page, pageNum, writeFails);
    forall r | r in recs
      ensures Named(r)
    {
      var i :| 0 <= i < |recs| && recs[i] == r;
    }
  }

  /** Every record the saver returns is named by its page and image number. */
  lemma {:induction false} SavedNamed(pages: seq<PageSource>, writeFails: (nat, nat) -> bool, n: nat)
    requires n <= |pages|
    ensures forall r :: r in SavedFrom(pages, writeFails, n) ==> Named(r)
  {
    if n > 0 {
      SavedNamed(pages, writeFails, n - 1);
      PageSavedNamed(pages[n - 1], n, writeFails);
    }
  }

  /**
   * Records with a path each give one entry, in order, carrying the record's path as path and
   * name, and neither page nor index.
   */
  lemma {:induction false} RefsOfRecords(saved: seq<SavedImage>, n: nat)
    requires n <= |saved|
    requires forall i :: 0 <= i < |saved| ==> saved[i].path != ""
    ensures |Refs(saved, n)| == n
    ensures forall i :: 0 <= i < n ==>
      Refs(saved, n)[i].path == Refs(saved, n)[i].name == saved[i].path &&
      Refs(saved, n)[i].page.None? && Refs(saved, n)[i].index.None?
  {
    if n > 0 {
      RefsOfRecords(saved, n - 1);
    }
  }

  // ---------------------------------------------------------------------------
  // Placeholders
  // ---------------------------------------------------------------------------

  /** `![Image_${image.page}_${image.index}](${image.name})` */
  function Placeholder(img: ImageRef): string {
    "![Image_" + FieldText(img.page) + "_" + FieldText(img.index) + "](" + img.name + ")"
  }

  /** The placeholder of each entry, in order. */
  function Placeholders(imgs: seq<ImageRef>): (ps: seq<string>)
    ensures |ps| == |imgs|
    decreases |imgs|
  {
    if imgs == [] then [] else Placeholders(imgs[..|imgs| - 1]) + [Placeholder(imgs[|imgs| - 1])]
  }

  /** Entry `i` is the placeholder of entry `i`. */
  lemma {:induction false} PlaceholdersAt(imgs: seq<ImageRef>, i: nat)
    requires i < |imgs|
    ensures Placeholders(imgs)[i] == Placeholder(imgs[i])
    decreases |imgs|
  {
    var init := imgs[..|imgs| - 1];
    assert Placeholders(imgs) == Placeholders(init) + [Placeholder(imgs[|imgs| - 1])];
    if i < |imgs| - 1 {
      PlaceholdersAt(init, i);
      assert init[i] == imgs[i];
    }
  }

  /** `line.includes('image:') || line.includes('Image:')`: one of the markers occurs somewhere in the line. */
  predicate Anchor(line: string) {
    exists i :: 0 <= i <= |line| && (OccursAt(line, "image:", i) || OccursAt(line, "Image:", i))
  }

  /** The anchor test is the two `includes` calls of the source. */
  lemma {:induction false} AnchorIncludes(line: string)
    ensures Anchor(line) <==> Contains(line, "image:") || Contains(line, "Image:")
  {
    ContainsAt(line, "image:");
    ContainsAt(line, "Image:");
  }

  /** `lines.findIndex(...)` for an anchor line, `None` for -1. */
  function FindAnchor(lines: seq<string>): (r: Option<nat>)
    ensures r.Some? ==> r.value < |lines| && Anchor(lines[r.value])
    ensures forall j :: 0 <= j < |lines| && (r.None? || j < r.value) ==> !Anchor(lines[j])
  {
    if |lines| == 0 then None
    else if Anchor(lines[0]) then Some(0)
    else match FindAnchor(lines[1..])
      case None => None
      case Some(k) => Some(k + 1)
  }

  /** The number of lines kept above the insertion: through the first anchor line, or all of them. */
  function Cut(lines: seq<string>): (c: nat)
    ensures c <= |lines|
  {
    match FindAnchor(lines)
    case Some(k) => k + 1
    case None => |lines|
  }

  /** One turn of the placeholder loop: splice the placeholder in after the first anchor line, or append it. */
  function InsertPlaceholder(md: string, placeholder: string): string {
    var lines := Split(md, '\n');
    match FindAnchor(lines)
    case Some(k) => Join(lines[..k + 1] + ["\n" + placeholder + "\n"] + lines[k + 1..], "\n")
    case None => md + "\n\n" + placeholder + "\n"
  }

  /** The markdown after the first `n` turns of the placeholder loop, `ps` the placeholders in turn. */
  function Placed(md: string, ps: seq<string>, n: nat): string
    requires n <= |ps|
  {
    if n == 0 then md else InsertPlaceholder(Placed(md, ps, n - 1), ps[n - 1])
  }

  /** The placeholder loop of `hybridPdfToMarkdown`. */
  method PlacePlaceholders(baseMarkdown: string, imagePaths: seq<ImageRef>) returns (finalMarkdown: string)
    ensures finalMarkdown == Placed(baseMarkdown, Placeholders(imagePaths), |imagePaths|)
  {
    finalMarkdown := baseMarkdown;
    ghost var ps := Placeholders(imagePaths);
    assert finalMarkdown == Placed(baseMarkdown, ps, 0);
    var i := 0;
    while i < |imagePaths|
      invariant i <= |imagePaths| && finalMarkdown == Placed(baseMarkdown, ps, i)
    {
      finalMarkdown := PlaceNext(baseMarkdown, imagePaths, ps, i, finalMarkdown);
      i := i + 1;
    }
  }

  /** Turn `i` of the placeholder loop takes the text after `i` turns to the text after `i + 1`. */
  method PlaceNext(baseMarkdown: string, imagePaths: seq<ImageRef>, ghost ps: seq<string>, i: nat,
                   finalMarkdown: string) returns (md: string)
    requires ps == Placeholders(imagePaths)
    requires i < |imagePaths| && finalMarkdown == Placed(baseMarkdown, ps, i)
    ensures md == Placed(baseMarkdown, ps, i + 1)
  {
    var image := imagePaths[i];
    PlaceholdersAt(imagePaths, i);
    md := PlaceOne(finalMarkdown, Placeholder(image));
  }

  /** The body of the placeholder loop for one image. */
  method PlaceOne(finalMarkdown: string, placeholder: string) returns (md: string)
    ensures md == InsertPlaceholder(finalMarkdown, placeholder)
  {
    var lines := Split(finalMarkdown, '\n');
    var imageIndex := FindAnchor(lines);
    if imageIndex.Some? {
      var k := imageIndex.value;
      md := Join(lines[..k + 1] + ["\n" + placeholder + "\n"] + lines[k + 1..], "\n");
    } else {
      md := finalMarkdown + "\n\n" + placeholder + "\n";
    }
  }

  /** Joining two non-empty runs of parts puts one separator between their joins. */
  lemma {:induction false} JoinConcat(a: seq<string>, b: seq<string>, sep: string)
    requires a != [] && b != []
    ensures Join(a + b, sep) == Join(a, sep) + sep + Join(b, sep)
    decreases |a|
  {
    if |a| > 1 {
      JoinConcat(a[1..], b, sep);
      assert (a + b)[1..] == a[1..] + b;
    } else {
      assert (a + b)[1..] == b;
    }
  }

  /** A part that is itself a join can be spread into the parts it joins. */
  lemma {:induction false} JoinSpread(front: seq<string>, b: seq<string>, rest: seq<string>, sep: string)
    requires front != [] && b != []
    ensures Join(front + [Join(b, sep)] + rest, sep) == Join(front + b + rest, sep)
  {
    JoinConcat(front, b, sep);
    assert Join([Join(b, sep)], sep) == Join(b, sep);
    JoinConcat(front, [Join(b, sep)], sep);
    if rest != [] {
      JoinConcat(front + b, rest, sep);
      JoinConcat(front + [Join(b, sep)], rest, sep);
    } else {
      assert front + b + rest == front + b;
      assert front + [Join(b, sep)] + rest == front + [Join(b, sep)];
    }
  }

  /**
   * A line that can sit among the markdown's lines without splitting it: no newline, and no
   * colon, so that it can never be an anchor.
   */
  predicate Plain(line: string) {
    '\n' !in line && ':' !in line
  }

  /** Both markers end in a colon, so a line without one is no anchor. */
  lemma {:induction false} PlainNoAnchor(line: string)
    requires ':' !in line
    ensures !Anchor(line)
  {
    forall i | 0 <= i <= |line|
      ensures !OccursAt(line, "image:", i) && !OccursAt(line, "Image:", i)
    {
      if i + 6 <= |line| {
        assert line[i..i + 6][5] == line[i + 5];
      }
    }
  }

  /** The three lines a placeholder occupies once inserted: a blank line, the placeholder, a blank line. */
  function Block(p: string): seq<string> {
    ["", p, ""]
  }

  /** The block's three lines joined: the placeholder between two newlines. */
  lemma {:induction false} JoinBlock(p: string)
    ensures Join(Block(p), "\n") == "\n" + p + "\n"
  {
    assert Block(p)[1..] == [p, ""];
    assert [p, ""][1..] == [""];
    assert Join([p, ""], "\n") == p + "\n" + "";
  }

  /** Inserting a placeholder puts its three lines right after the cut, leaving every line around them. */
  lemma {:induction false} InsertLines(md: string, p: string)
    ensures var lines := Split(md, '\n');
            InsertPlaceholder(md, p) == Join(lines[..Cut(lines)] + Block(p) + lines[Cut(lines)..], "\n")
  {
    if FindAnchor(Split(md, '\n')).Some? {
      InsertLinesBelow(md, p);
    } else {
      InsertLinesAppended(md, p);
    }
  }

  /** `InsertLines` when there is an anchor line. */
  lemma {:induction false} InsertLinesBelow(md: string, p: string)
    requires FindAnchor(Split(md, '\n')).Some?
    ensures var lines := Split(md, '\n');
            InsertPlaceholder(md, p) == Join(lines[..Cut(lines)] + Block(p) + lines[Cut(lines)..], "\n")
  {
    var lines := Split(md, '\n');
    var c := Cut(lines);
    JoinBlock(p);
    JoinSpread(lines[..c], Block(p), lines[c..], "\n");
  }

  /** `InsertLines` when there is none. */
  lemma {:induction false} InsertLinesAppended(md: string, p: string)
    requires FindAnchor(Split(md, '\n')).None?
    ensures var lines := Split(md, '\n');
            InsertPlaceholder(md, p) == Join(lines[..Cut(lines)] + Block(p) + lines[Cut(lines)..], "\n")
  {
    var lines := Split(md, '\n');
    var c := Cut(lines);
    assert c == |lines|;
    assert lines[..c] + Block(p) + lines[c..] == lines + Block(p);
    JoinConcat(lines, Block(p), "\n");
    JoinSplit(md, '\n');
    assert Join(lines, "\n") == md;
    JoinBlock(p);
    calc {
      Join(lines + Block(p), "\n");
      md + "\n" + ("\n" + p + "\n");
      { assert "\n" + ("\n" + p + "\n") == "\n\n" + p + "\n"; }
      md + "\n\n" + p + "\n";
      InsertPlaceholder(md, p);
    }
  }

  /** All of `lines` are plain. */
  predicate AllPlain(lines: seq<string>) {
    forall k :: 0 <= k < |lines| ==> Plain(lines[k])
  }

  /** Lines none of which holds a newline. */
  predicate NoNewline(lines: seq<string>) {
    forall k :: 0 <= k < |lines| ==> '\n' !in lines[k]
  }

  /** Plain lines added after an anchor leave that anchor the first one. */
  lemma {:induction false} AnchorKept(lines: seq<string>, extra: seq<string>)
    requires FindAnchor(lines).Some?
    ensures Cut(lines[..Cut(lines)] + extra + lines[Cut(lines)..]) == Cut(lines)
  {
    var k := FindAnchor(lines).value;
    var m := lines[..k + 1] + extra + lines[k + 1..];
    assert m[k] == lines[k];
    forall j | 0 <= j < k
      ensures m[j] == lines[j]
    {
    }
  }

  /** Plain lines appended to anchor-free lines add no anchor. */
  lemma {:induction false} NoAnchorKept(lines: seq<string>, extra: seq<string>)
    requires FindAnchor(lines).None?
    requires AllPlain(extra)
    ensures Cut(lines + extra) == |lines + extra|
  {
    var m := lines + extra;
    forall j | 0 <= j < |m|
      ensures !Anchor(m[j])
    {
      if j < |lines| {
        assert m[j] == lines[j];
      } else {
        PlainNoAnchor(extra[j - |lines|]);
        assert m[j] == extra[j - |lines|];
      }
    }
  }

  /** Newline-free lines followed by newline-free lines. */
  lemma {:induction false} NoNewlineConcat(a: seq<string>, b: seq<string>)
    requires NoNewline(a) && NoNewline(b)
    ensures NoNewline(a + b)
  {
    forall k | 0 <= k < |a + b|
      ensures '\n' !in (a + b)[k]
    {
      if k < |a| { assert (a + b)[k] == a[k]; } else { assert (a + b)[k] == b[k - |a|]; }
    }
  }

  /** `text.split('\n')` is `lines`. */
  predicate LinesAre(text: string, lines: seq<string>) {
    Split(text, '\n') == lines
  }

  /** The blocks of the first `n` placeholders, the latest first. */
  function Stacked(ps: seq<string>, n: nat): seq<string>
    requires n <= |ps|
  {
    if n == 0 then [] else Block(ps[n - 1]) + Stacked(ps, n - 1)
  }

  /** The blocks of the first `n` placeholders, in order. */
  function Queued(ps: seq<string>, n: nat): seq<string>
    requires n <= |ps|
  {
    if n == 0 then [] else Queued(ps, n - 1) + Block(ps[n - 1])
  }

  /** The blocks of newline-free placeholders hold no newline, stacked or queued. */
  lemma {:induction false} BlocksNoNewline(ps: seq<string>, n: nat)
    requires n <= |ps| && NoNewline(ps)
    ensures NoNewline(Stacked(ps, n)) && NoNewline(Queued(ps, n))
  {
    if n > 0 {
      BlocksNoNewline(ps, n - 1);
      NoNewlineConcat(Block(ps[n - 1]), Stacked(ps, n - 1));
      NoNewlineConcat(Queued(ps, n - 1), Block(ps[n - 1]));
    }
  }

  /** The queued blocks of plain placeholders are plain. */
  lemma {:induction false} QueuedPlain(ps: seq<string>, n: nat)
    requires n <= |ps| && AllPlain(ps)
    ensures AllPlain(Queued(ps, n))
  {
    if n > 0 {
      QueuedPlain(ps, n - 1);
      var q, b := Queued(ps, n - 1), Block(ps[n - 1]);
      forall k | 0 <= k < |q + b|
        ensures Plain((q + b)[k])
      {
        if k < |q| { assert (q + b)[k] == q[k]; } else { assert (q + b)[k] == b[k - |q|]; }
      }
    }
  }

  /** The lines `lines[..c]`, `s`, `lines[c..]` with a block spliced in at the cut, which the anchor keeps in place. */
  lemma {:induction false} SpliceBelow(lines: seq<string>, s: seq<string>, p: string)
    requires FindAnchor(lines).Some? && NoNewline(lines)
    requires NoNewline(s) && '\n' !in p
    ensures var c := Cut(lines);
            var m := lines[..c] + s + lines[c..];
            var all := lines[..c] + (Block(p) + s) + lines[c..];
            Cut(m) == c && m[..c] + Block(p) + m[c..] == all && NoNewline(all)
  {
    var c := Cut(lines);
    var m := lines[..c] + s + lines[c..];
    AnchorKept(lines, s);
    assert m[..c] == lines[..c];
    assert m[c..] == s + lines[c..];
    NoNewlineConcat(Block(p), s);
    assert lines[..c] + lines[c..] == lines;
    NoNewlineConcat(lines[..c], Block(p) + s);
    NoNewlineConcat(lines[..c] + (Block(p) + s), lines[c..]);
  }

  /** One placeholder inserted below the anchor of markdown whose lines are `lines[..c]`, `s`, `lines[c..]`. */
  lemma {:induction false} StepBelow(prev: string, p: string, lines: seq<string>, s: seq<string>)
    requires FindAnchor(lines).Some? && NoNewline(lines)
    requires NoNewline(s) && '\n' !in p
    requires LinesAre(prev, lines[..Cut(lines)] + s + lines[Cut(lines)..])
    ensures LinesAre(InsertPlaceholder(prev, p), lines[..Cut(lines)] + (Block(p) + s) + lines[Cut(lines)..])
  {
    InsertLines(prev, p);
    SpliceBelow(lines, s, p);
    SplitJoin(lines[..Cut(lines)] + (Block(p) + s) + lines[Cut(lines)..], '\n');
  }

  /** One placeholder appended to anchor-free markdown whose lines are `lines` then `q`. */
  lemma {:induction false} StepAtEnd(prev: string, p: string, lines: seq<string>, q: seq<string>)
    requires FindAnchor(lines).None? && NoNewline(lines)
    requires AllPlain(q) && Plain(p)
    requires LinesAre(prev, lines + q)
    ensures LinesAre(InsertPlaceholder(prev, p), lines + (q + Block(p)))
  {
    var m := lines + q;
    var all := lines + (q + Block(p));
    InsertLines(prev, p);
    NoAnchorKept(lines, q);
    assert m[..|m|] + Block(p) + m[|m|..] == all by {
      assert m[..|m|] == m && m[|m|..] == [];
    }
    assert NoNewline(all) by {
      assert NoNewline(q);
      NoNewlineConcat(q, Block(p));
      NoNewlineConcat(lines, q + Block(p));
    }
    SplitJoin(all, '\n');
  }

  /**
   * When the markdown has an anchor line, every placeholder lands right below it, the latest on
   * top: the lines become the lines through the anchor, the blocks newest first, then the rest.
   */
  lemma {:induction false} PlacedBelowAnchor(md: string, ps: seq<string>, n: nat)
    requires n <= |ps| && NoNewline(ps)
    requires FindAnchor(Split(md, '\n')).Some?
    ensures var lines := Split(md, '\n');
            LinesAre(Placed(md, ps, n), lines[..Cut(lines)] + Stacked(ps, n) + lines[Cut(lines)..])
  {
    var lines := Split(md, '\n');
    if n == 0 {
      assert lines[..Cut(lines)] + [] + lines[Cut(lines)..] == lines;
    } else {
      var prev := Placed(md, ps, n - 1);
      var p := ps[n - 1];
      var s := Stacked(ps, n - 1);
      PlacedBelowAnchor(md, ps, n - 1);
      BlocksNoNewline(ps, n - 1);
      assert '\n' !in p;
      assert NoNewline(lines);
      StepBelow(prev, p, lines, s);
      assert Stacked(ps, n) == Block(p) + s;
    }
  }

  /**
   * When the markdown has no anchor line, the placeholders are appended in order, each as a
   * blank line, the placeholder and a blank line.
   */
  lemma {:induction false} PlacedAtEnd(md: string, ps: seq<string>, n: nat)
    requires n <= |ps| && AllPlain(ps)
    requires FindAnchor(Split(md, '\n')).None?
    ensures LinesAre(Placed(md, ps, n), Split(md, '\n') + Queued(ps, n))
  {
    var lines := Split(md, '\n');
    if n == 0 {
      assert lines + [] == lines;
    } else {
      PlacedAtEnd(md, ps, n - 1);
      QueuedPlain(ps, n - 1);
      StepAtEnd(Placed(md, ps, n - 1), ps[n - 1], lines, Queued(ps, n - 1));
    }
  }

  /** A name without a colon or a newline gives a plain placeholder. */
  lemma {:induction false} PlaceholderPlain(img: ImageRef)
    requires ':' !in img.name && '\n' !in img.name
    ensures Plain(Placeholder(img))
  {
    var a, b := FieldText(img.page), FieldText(img.index);
    assert ':' !in a && '\n' !in a && ':' !in b && '\n' !in b by {
      if img.page.Some? {
        assert forall k :: 0 <= k < |a| ==> IsAsciiDigit(a[k]);
      }
      if img.index.Some? {
        assert forall k :: 0 <= k < |b| ==> IsAsciiDigit(b[k]);
      }
    }
  }

  /** The saver's file names hold no colon and no newline. */
  lemma {:induction false} FileNamePlain(pageNum: nat, imageNum: nat)
    ensures ':' !in ImageFileName(pageNum, imageNum) && '\n' !in ImageFileName(pageNum, imageNum)
  {
    var a, b := NatToString(pageNum), NatToString(imageNum);
    assert forall k :: 0 <= k < |a| ==> IsAsciiDigit(a[k]);
    assert forall k :: 0 <= k < |b| ==> IsAsciiDigit(b[k]);
  }

  /** The entries built from the saver's records have plain placeholders. */
  lemma {:induction false} RefsPlain(saved: seq<SavedImage>)
    requires forall r :: r in saved ==> Named(r)
    ensures AllPlain(Placeholders(Refs(saved, |saved|)))
    ensures NoNewline(Placeholders(Refs(saved, |saved|)))
  {
    var refs := Refs(saved, |saved|);
    forall i | 0 <= i < |saved|
      ensures saved[i].path != ""
    {
      assert saved[i] in saved;
    }
    RefsOfRecords(saved, |saved|);
    forall i | 0 <= i < |refs|
      ensures Plain(Placeholders(refs)[i])
    {
      assert saved[i] in saved;
      FileNamePlain(saved[i].pageNum, saved[i].imageNum);
      PlaceholderPlain(refs[i]);
      PlaceholdersAt(refs, i);
    }
  }

  // ---------------------------------------------------------------------------
  // The OCR map
  // ---------------------------------------------------------------------------

  /** `x || 1` on a number that may be `undefined`. */
  function OrOne(n: Option<nat>): (r: nat)
    ensures r >= 1
  {
    if n.Some? && n.value != 0 then n.value else 1
  }

  /** `page_${result.page || 1}_image_${result.index || 1}.png` */
  function MapKey(result: OcrRecord<ImageRef>): string {
    "page_" + NatToString(OrOne(result.image.page)) + "_image_" + NatToString(OrOne(result.image.index)) + ".png"
  }

  /** The map after the first `n` results: each result with OCR text filed under its key, later ones winning. */
  function TextMap(results: seq<OcrRecord<ImageRef>>, n: nat): map<string, string>
    requires n <= |results|
  {
    if n == 0 then map[]
    else if results[n - 1].ocrText != "" then TextMap(results, n - 1)[MapKey(results[n - 1]) := results[n - 1].ocrText]
    else TextMap(results, n - 1)
  }

  /** The loop that fills `imageOcrMap`. */
  method BuildImageOcrMap(ocrResults: seq<OcrRecord<ImageRef>>) returns (imageOcrMap: map<string, string>)
    ensures imageOcrMap == TextMap(ocrResults, |ocrResults|)
  {
    imageOcrMap := map[];
    for i := 0 to |ocrResults|
      invariant imageOcrMap == TextMap(ocrResults, i)
    {
      var result := ocrResults[i];
      if result.ocrText != "" {
        var key := MapKey(result);
        imageOcrMap := imageOcrMap[key := result.ocrText];
      }
    }
  }

  /** Result `j` is the last of the first `n` with OCR text filed under `key`. */
  predicate LastFiled(results: seq<OcrRecord<ImageRef>>, n: nat, key: string, j: nat)
    requires n <= |results|
  {
    j < n && results[j].ocrText != "" && MapKey(results[j]) == key &&
    forall k :: j < k < n && results[k].ocrText != "" ==> MapKey(results[k]) != key
  }

  /** The map's keys are the keys of the results with OCR text, and it holds no empty text. */
  lemma {:induction false} TextMapKeys(results: seq<OcrRecord<ImageRef>>, n: nat)
    requires n <= |results|
    ensures forall key :: key in TextMap(results, n) <==>
      exists j :: 0 <= j < n && results[j].ocrText != "" && MapKey(results[j]) == key
    ensures forall key :: key in TextMap(results, n) ==> TextMap(results, n)[key] != ""
  {
    if n > 0 {
      TextMapKeys(results, n - 1);
      var m := TextMap(results, n);
      forall key
        ensures key in m <==> exists j :: 0 <= j < n && results[j].ocrText != "" && MapKey(results[j]) == key
      {
        if key in m && (results[n - 1].ocrText == "" || key != MapKey(results[n - 1])) {
          assert key in TextMap(results, n - 1);
          var j :| 0 <= j < n - 1 && results[j].ocrText != "" && MapKey(results[j]) == key;
          assert 0 <= j < n;
        }
        if exists j :: 0 <= j < n && results[j].ocrText != "" && MapKey(results[j]) == key {
          var j :| 0 <= j < n && results[j].ocrText != "" && MapKey(results[j]) == key;
          if j < n - 1 {
            assert key in TextMap(results, n - 1);
          }
        }
      }
    }
  }

  /** The text under a key is that of the last result with OCR text filed under it. */
  lemma {:induction false} TextMapLastWins(results: seq<OcrRecord<ImageRef>>, n: nat, key: string, j: nat)
    requires n <= |results| && LastFiled(results, n, key, j)
    ensures key in TextMap(results, n) && TextMap(results, n)[key] == results[j].ocrText
  {
    if j < n - 1 {
      assert LastFiled(results, n - 1, key, j);
      TextMapLastWins(results, n - 1, key, j);
    }
  }
}
