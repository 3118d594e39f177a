/**
 * Line reconstruction in `extractPageContent`: the ordered items of a page are scanned
 * once, gathered into lines, and each finished line is flushed into the page text.
 *
 * `Scan`, `Flush` and `Feed` describe the scan one step at a time; `LineWriter` is the
 * scan's mutable state as the source keeps it. `Group` and `RenderLines` are an
 * independent description (cut the items into lines, render each line) and
 * `RenderIsRenderLines` proves the two agree.
 */
module PageText {
  import opened Wrappers
  import opened Strings
  import opened PageItems

  // ---------------------------------------------------------------------------
  // The scan, one step at a time
  // ---------------------------------------------------------------------------

  /** The variables the scan loop and `flushCurrentLine` share. */
  datatype Scan = Scan(text: string, currentLine: string, lastLineWasEmpty: bool,
                       currentItem: Option<Item>, lastY: Option<real>,
                       lineItems: seq<Item>, lastItemWasOcr: bool)

  const Start: Scan := Scan("", "", true, None, None, [], false)

  /** `item.isImageText`: the item comes from an image's OCR text. */
  predicate IsOcr(item: Item) { item.OcrItem? }

  /** `lineItems.some(item => item.isImageText)` */
  predicate AnyOcr(items: seq<Item>) {
    exists i :: 0 <= i < |items| && IsOcr(items[i])
  }

  /** `currentItem?.isItalic`, `?.isHeader`, `?.isBullet`: false for no item and for OCR items. */
  predicate ItalicFlag(item: Option<Item>) { item.Some? && item.value.TextItem? && item.value.isItalic }

  predicate HeaderFlag(item: Option<Item>) { item.Some? && item.value.TextItem? && item.value.isHeader }

  predicate BulletFlag(item: Option<Item>) { item.Some? && item.value.TextItem? && item.value.isBullet }

  function LevelOf(item: Option<Item>): nat {
    if item.Some? && item.value.TextItem? then item.value.headerLevel else 0
  }

  /** `line.replace(/^[•\-\*…]\s*\/, '')`: one leading bullet glyph and the whitespace after it. */
  function StripBullet(line: string): (r: string)
    ensures StartsWithBullet(line) ==> |r| < |line| && r == line[|line| - |r|..]
    ensures StartsWithBullet(line) ==> forall k :: 1 <= k < |line| - |r| ==> IsSpace(line[k])
    ensures StartsWithBullet(line) ==> r == [] || !IsSpace(r[0])
    ensures !StartsWithBullet(line) ==> r == line
  {
    if StartsWithBullet(line) then
      SkipSpaceSkipsSpace(line, 1);
      line[SkipSpace(line, 1)..]
    else line
  }

  /**
   * A text line as it is written out: wrapped in `*` when its first item is italic, then
   * prefixed with `level` hashes and a space for a header, or turned into a `- ` item
   * for a bullet.
   */
  function FormatTextLine(first: Option<Item>, line: string): string {
    var styled := if ItalicFlag(first) then "*" + line + "*" else line;
    if HeaderFlag(first) then Repeat('#', LevelOf(first)) + " " + styled
    else if BulletFlag(first) then "- " + StripBullet(styled)
    else styled
  }

  /**
   * What `flushCurrentLine` appends for a non-empty line: an OCR line becomes a `> ` block
   * followed by a blank line (and preceded by one unless the last line written was an OCR
   * block); any other line is formatted by its first item and ends with a newline.
   */
  function LineOut(lastLineWasEmpty: bool, isOcrLine: bool, first: Option<Item>, line: string): string {
    if isOcrLine then (if lastLineWasEmpty then "" else "\n") + "> " + Trim(line) + "\n\n"
    else FormatTextLine(first, line) + "\n"
  }

  function Emitted(s: Scan): string {
    LineOut(s.lastLineWasEmpty, AnyOcr(s.lineItems), s.currentItem, s.currentLine)
  }

  /** `flushCurrentLine`: nothing for an empty line; otherwise write it out and start a new one. */
  function Flush(s: Scan): (r: Scan)
    ensures s.currentLine == "" ==> r == s
    ensures s.currentLine != "" ==>
      (r.currentLine == "" && r.lineItems == [] &&
       r.text == s.text + Emitted(s) && r.lastLineWasEmpty == AnyOcr(s.lineItems))
  {
    if s.currentLine == "" then s
    else s.(text := s.text + Emitted(s), lastLineWasEmpty := AnyOcr(s.lineItems),
            currentLine := "", lineItems := [])
  }

  /** Break on a change between OCR and other items; a text item after OCR starts after a blank line. */
  function KindBreak(s: Scan, item: Item): Scan {
    if s.lastItemWasOcr != IsOcr(item) then
      var f := Flush(s);
      if !IsOcr(item) && s.lastItemWasOcr then f.(text := f.text + "\n") else f
    else s
  }

  /** Break on a vertical jump of more than 10 from the previous item. */
  function JumpBreak(s: Scan, item: Item): Scan {
    if s.lastY.Some? && Abs(item.y - s.lastY.value) > 10.0 then Flush(s) else s
  }

  /** Add the item to the current line: the first item names the line, later ones follow a space. */
  function Append(s: Scan, item: Item): Scan {
    var starts := s.currentLine == "";
    var sep := if !starts && (!IsOcr(item) || (s.lineItems != [] && IsOcr(s.lineItems[0]))) then " " else "";
    Scan(s.text, s.currentLine + sep + item.str, s.lastLineWasEmpty,
         if starts then Some(item) else s.currentItem, Some(item.y), s.lineItems + [item], IsOcr(item))
  }

  /** One iteration of the scan loop. */
  function Feed(s: Scan, item: Item): Scan {
    Append(JumpBreak(KindBreak(s, item), item), item)
  }

  /** The scan state after the loop has seen `items`. */
  function FeedAll(items: seq<Item>): Scan {
    if items == [] then Start else Feed(FeedAll(items[..|items| - 1]), items[|items| - 1])
  }

  /** The page text before the final trim: the scan, then the last flush. */
  function Render(items: seq<Item>): string {
    Flush(FeedAll(items)).text
  }

  // ---------------------------------------------------------------------------
  // The scan state as an object
  // ---------------------------------------------------------------------------

  /** The variables `flushCurrentLine` closes over, updated in place. */
  class LineWriter {
    var text: string
    var currentLine: string
    var lastLineWasEmpty: bool
    var currentItem: Option<Item>
    var lastY: Option<real>
    var lineItems: seq<Item>
    var lastItemWasOcr: bool

    function State(): Scan
      reads this
    {
      Scan(text, currentLine, lastLineWasEmpty, currentItem, lastY, lineItems, lastItemWasOcr)
    }

    constructor ()
      ensures State() == Start
    {
      text, currentLine, lastLineWasEmpty := "", "", true;
      currentItem, lastY, lineItems, lastItemWasOcr := None, None, [], false;
    }

    /** `flushCurrentLine` */
    method FlushCurrentLine()
      modifies this
      ensures State() == Flush(old(State()))
    {
      if currentLine == "" {
        return;
      }
      var line := currentLine;
      var isOcrLine := false;
      for i := 0 to |lineItems|
        invariant isOcrLine <==> AnyOcr(lineItems[..i])
      {
        assert lineItems[..i + 1] == lineItems[..i] + [lineItems[i]];
        isOcrLine := isOcrLine || lineItems[i].OcrItem?;
      }
      assert lineItems[..|lineItems|] == lineItems;
      var out: string;
      if isOcrLine {
        out := if lastLineWasEmpty then "" else "\n";
        out := out + "> " + Trim(line) + "\n\n";
      } else {
        if ItalicFlag(currentItem) {
          line := "*" + line + "*";
        }
        if HeaderFlag(currentItem) {
          line := Repeat('#', LevelOf(currentItem)) + " " + line;
        } else if BulletFlag(currentItem) {
          line := "- " + StripBullet(line);
        }
        out := line + "\n";
      }
      text := text + out;
      lastLineWasEmpty := isOcrLine;
      currentLine := "";
      lineItems := [];
    }

    /** One iteration of the scan loop over the sorted items. */
    method Add(item: Item)
      modifies this
      ensures State() == Feed(old(State()), item)
    {
      BreakOnKindChange(item);
      BreakOnJump(item);
      AppendItem(item);
    }

    /** Force a line break between OCR and other content. */
    method BreakOnKindChange(item: Item)
      modifies this
      ensures State() == KindBreak(old(State()), item)
    {
      if lastItemWasOcr != item.OcrItem? {
        var wasOcr := lastItemWasOcr;
        FlushCurrentLine();
        if !item.OcrItem? && wasOcr {
          text := text + "\n";
        }
      }
    }

    /** Force a line break on a vertical jump of more than 10. */
    method BreakOnJump(item: Item)
      modifies this
      ensures State() == JumpBreak(old(State()), item)
    {
      if lastY.Some? && Abs(item.y - lastY.value) > 10.0 {
        FlushCurrentLine();
      }
    }

    /** Put the item on the current line. */
    method AppendItem(item: Item)
      modifies this
      ensures State() == Append(old(State()), item)
    {
      if currentLine == "" {
        currentItem := Some(item);
      } else if !item.OcrItem? || (lineItems != [] && lineItems[0].OcrItem?) {
        currentLine := currentLine + " ";
      }
      currentLine := currentLine + item.str;
      lastY := Some(item.y);
      lineItems := lineItems + [item];
      lastItemWasOcr := item.OcrItem?;
    }
  }

  /** The line reconstruction loop and the final flush (the result is trimmed by the caller). */
  method ReconstructLines(items: seq<Item>) returns (text: string)
    ensures text == Render(items)
  {
    var w := new LineWriter();
    for i := 0 to |items|
      invariant w.State() == FeedAll(items[..i])
    {
      assert items[..i + 1][..i] == items[..i];
      w.Add(items[i]);
    }
    assert items[..|items|] == items;
    w.FlushCurrentLine();
    text := w.text;
  }

  // ---------------------------------------------------------------------------
  // The same output, line by line
  // ---------------------------------------------------------------------------

  /** A new line starts at `next`: it is of the other kind, or more than 10 away vertically. */
  predicate Breaks(prev: Item, next: Item) {
    IsOcr(prev) != IsOcr(next) || Abs(next.y - prev.y) > 10.0
  }

  function Last<T>(s: seq<T>): T
    requires s != []
  {
    s[|s| - 1]
  }

  predicate NonEmptyLines(lines: seq<seq<Item>>) {
    forall i :: 0 <= i < |lines| ==> lines[i] != []
  }

  /** Cut the items into lines: a new line starts wherever `Breaks` holds. */
  function Group(items: seq<Item>): (lines: seq<seq<Item>>)
    ensures |lines| == 0 <==> items == []
    ensures NonEmptyLines(lines)
    ensures items != [] ==> Last(Last(lines)) == Last(items)
  {
    if |items| <= 1 then (if items == [] then [] else [items])
    else
      var g := Group(items[..|items| - 1]);
      var x := Last(items);
      if Breaks(items[|items| - 2], x) then g + [[x]]
      else g[..|g| - 1] + [Last(g) + [x]]
  }

  function Concat(lines: seq<seq<Item>>): seq<Item> {
    if lines == [] then [] else Concat(lines[..|lines| - 1]) + Last(lines)
  }

  /** The text of a line: its items' strings joined by one space. */
  function LineText(line: seq<Item>): string {
    Join(Strs(line), " ")
  }

  function Strs(line: seq<Item>): (r: seq<string>)
    ensures |r| == |line| && forall i :: 0 <= i < |line| ==> r[i] == line[i].str
  {
    seq(|line|, i requires 0 <= i < |line| => line[i].str)
  }

  /** After these lines, is the last written line an OCR block (or is nothing written yet)? */
  predicate EndsEmpty(lines: seq<seq<Item>>)
    requires NonEmptyLines(lines)
  {
    lines == [] || IsOcr(Last(lines)[0])
  }

  /** A text line right after an OCR block starts after a blank line. */
  function Opening(prev: seq<seq<Item>>, line: seq<Item>): string
    requires NonEmptyLines(prev) && line != []
  {
    if !IsOcr(line[0]) && prev != [] && IsOcr(Last(prev)[0]) then "\n" else ""
  }

  /**
   * A line as it is written: an OCR line is a `> ` block followed by a blank line (and
   * preceded by one after a text line); a text line is formatted by its first item.
   */
  function Closing(prev: seq<seq<Item>>, line: seq<Item>): string
    requires NonEmptyLines(prev) && line != []
  {
    LineOut(EndsEmpty(prev), IsOcr(line[0]), Some(line[0]), LineText(line))
  }

  /** The page text, written line by line. */
  function RenderLines(lines: seq<seq<Item>>): string
    requires NonEmptyLines(lines)
  {
    if lines == [] then ""
    else
      var prev := lines[..|lines| - 1];
      RenderLines(prev) + Opening(prev, Last(lines)) + Closing(prev, Last(lines))
  }

  predicate AllNonEmpty(items: seq<Item>) {
    forall i :: 0 <= i < |items| ==> items[i].str != []
  }

  /** Within a line the items are all of one kind and the vertical steps are at most 10. */
  predicate Cohesive(line: seq<Item>) {
    forall i :: 0 < i < |line| ==> !Breaks(line[i - 1], line[i])
  }

  /** Grouping loses and reorders nothing, keeps each line cohesive, and cuts exactly at breaks. */
  lemma {:induction false} GroupIsMaximalRuns(items: seq<Item>)
    ensures Concat(Group(items)) == items
    ensures forall i :: 0 <= i < |Group(items)| ==> Cohesive(Group(items)[i])
    ensures forall i :: 0 < i < |Group(items)| ==> Breaks(Last(Group(items)[i - 1]), Group(items)[i][0])
  {
    GroupConcat(items);
    GroupCohesive(items);
    GroupCutsAtBreaks(items);
  }

  lemma {:induction false} GroupConcat(items: seq<Item>)
    ensures Concat(Group(items)) == items
  {
    if items == [] {
      assert Group(items) == [];
    } else if |items| == 1 {
      var r := [items];
      assert Group(items) == r && r[..0] == [] && Last(r) == items;
      assert Concat(r) == Concat([]) + items;
    } else {
      var p := items[..|items| - 1];
      var x := Last(items);
      assert items == p + [x];
      GroupConcat(p);
      var g := Group(p);
      var r := Group(p + [x]);
      if Breaks(Last(p), x) {
        GroupBreak(p, x);
        assert r[..|r| - 1] == g && Last(r) == [x];
        assert Concat(r) == Concat(g) + [x];
      } else {
        GroupExtend(p, x);
        var h := g[..|g| - 1];
        assert r[..|r| - 1] == h && Last(r) == Last(g) + [x];
        assert Concat(g) == Concat(h) + Last(g);
        assert Concat(r) == Concat(h) + (Last(g) + [x]);
      }
      assert Concat(r) == p + [x];
    }
  }

  lemma {:induction false} GroupCohesive(items: seq<Item>)
    ensures forall i :: 0 <= i < |Group(items)| ==> Cohesive(Group(items)[i])
  {
    if |items| > 1 {
      var p := items[..|items| - 1];
      var x := Last(items);
      assert items == p + [x];
      GroupCohesive(p);
      var g := Group(p);
      if Breaks(Last(p), x) {
        GroupBreak(p, x);
        var r := g + [[x]];
        assert forall i :: 0 <= i < |g| ==> r[i] == g[i];
      } else {
        GroupExtend(p, x);
        var r := g[..|g| - 1] + [Last(g) + [x]];
        assert forall i :: 0 <= i < |g| - 1 ==> r[i] == g[i];
        CohesiveExtend(Last(g), x);
      }
    }
  }

  /** A cohesive line stays cohesive when an item without a break after its last joins it. */
  lemma {:induction false} CohesiveExtend(l: seq<Item>, x: Item)
    requires l != [] && Cohesive(l) && !Breaks(Last(l), x)
    ensures Cohesive(l + [x])
  {
    var m := l + [x];
    forall j | 0 < j < |m| ensures !Breaks(m[j - 1], m[j]) {
      if j < |m| - 1 {
        assert m[j - 1] == l[j - 1] && m[j] == l[j];
      }
    }
  }

  lemma {:induction false} GroupCutsAtBreaks(items: seq<Item>)
    ensures forall i :: 0 < i < |Group(items)| ==> Breaks(Last(Group(items)[i - 1]), Group(items)[i][0])
  {
    if |items| > 1 {
      var p := items[..|items| - 1];
      var x := Last(items);
      assert items == p + [x];
      GroupCutsAtBreaks(p);
      var g := Group(p);
      if Breaks(Last(p), x) {
        GroupBreak(p, x);
        var r := g + [[x]];
        assert forall i :: 0 <= i < |g| ==> r[i] == g[i];
      } else {
        GroupExtend(p, x);
        var r := g[..|g| - 1] + [Last(g) + [x]];
        assert forall i :: 0 <= i < |g| - 1 ==> r[i] == g[i];
        assert r[|g| - 1][0] == g[|g| - 1][0];
      }
    }
  }

  /** In a cohesive line every item is of the kind of the first. */
  lemma {:induction false} CohesiveKind(line: seq<Item>)
    requires line != [] && Cohesive(line)
    ensures forall i :: 0 <= i < |line| ==> IsOcr(line[i]) == IsOcr(line[0])
    ensures AnyOcr(line) <==> IsOcr(line[0])
  {
    if |line| > 1 {
      var p := line[..|line| - 1];
      assert Cohesive(p) by {
        forall i | 0 < i < |p| ensures !Breaks(p[i - 1], p[i]) {
          assert p[i - 1] == line[i - 1] && p[i] == line[i];
        }
      }
      CohesiveKind(p);
      assert forall i :: 0 <= i < |p| ==> p[i] == line[i];
      assert !Breaks(line[|line| - 2], line[|line| - 1]);
    }
    assert IsOcr(line[0]) ==> AnyOcr(line);
  }

  /** What the scan holds after `items`: the finished lines written, the last line pending. */
  predicate Pending(s: Scan, items: seq<Item>)
    requires items != []
  {
    var g := Group(items);
    var prev := g[..|g| - 1];
    s.text == RenderLines(prev) + Opening(prev, Last(g)) &&
    s.lastLineWasEmpty == EndsEmpty(prev) &&
    s.currentLine == LineText(Last(g)) &&
    s.currentItem == Some(Last(g)[0]) &&
    s.lineItems == Last(g) &&
    s.lastY == Some(Last(items).y) &&
    s.lastItemWasOcr == IsOcr(Last(items))
  }

  /** The scan keeps exactly the pending-line picture, item after item. */
  lemma {:induction false} FeedAllPending(items: seq<Item>)
    requires items != [] && AllNonEmpty(items)
    ensures Pending(FeedAll(items), items)
    ensures FeedAll(items).currentLine != ""
  {
    var x := Last(items);
    var p := items[..|items| - 1];
    assert items == p + [x];
    assert FeedAll(items) == Feed(FeedAll(p), x);
    if p == [] {
      assert items == [x];
      FeedFirst(x);
    } else {
      assert AllNonEmpty(p) by {
        forall i | 0 <= i < |p| ensures p[i].str != [] { assert p[i] == items[i]; }
      }
      FeedAllPending(p);
      FeedStep(FeedAll(p), p, x);
    }
  }

  /** The first item starts the first line; nothing is written yet. */
  lemma {:induction false} FeedFirst(x: Item)
    requires x.str != []
    ensures Pending(Feed(Start, x), [x]) && Feed(Start, x).currentLine != ""
  {
    assert Group([x]) == [[x]];
    assert LineText([x]) == x.str;
    assert JumpBreak(KindBreak(Start, x), x) == Start.(lastItemWasOcr := Start.lastItemWasOcr);
  }

  /** One step of `FeedAllPending`: feeding the next item keeps the picture. */
  lemma {:induction false} FeedStep(s: Scan, p: seq<Item>, x: Item)
    requires p != [] && x.str != []
    requires Pending(s, p) && s.currentLine != ""
    ensures Pending(Feed(s, x), p + [x])
    ensures Feed(s, x).currentLine != ""
  {
    var g := Group(p);
    GroupIsMaximalRuns(p);
    CohesiveKind(Last(g));
    if Breaks(Last(p), x) {
      GroupBreak(p, x);
      FlushedLine(s, g);
      BreakStep(s, g, x);
      PendingFresh(Feed(s, x), p, x);
    } else {
      ExtendStep(s, p, x);
    }
  }

  /** A break after `p` puts the next item on a line of its own. */
  lemma {:induction false} GroupBreak(p: seq<Item>, x: Item)
    requires p != [] && Breaks(Last(p), x)
    ensures Group(p + [x]) == Group(p) + [[x]]
  {
    var items := p + [x];
    assert items[..|items| - 1] == p;
    assert items[|items| - 2] == Last(p);
  }

  /** Without a break the next item joins the last line. */
  lemma {:induction false} GroupExtend(p: seq<Item>, x: Item)
    requires p != [] && !Breaks(Last(p), x)
    ensures var g := Group(p); Group(p + [x]) == g[..|g| - 1] + [Last(g) + [x]]
  {
    var items := p + [x];
    assert items[..|items| - 1] == p;
    assert items[|items| - 2] == Last(p);
  }

  /** The pending picture for an item that starts a line. */
  lemma {:induction false} PendingFresh(t: Scan, p: seq<Item>, x: Item)
    requires p != [] && Group(p + [x]) == Group(p) + [[x]]
    requires var g := Group(p);
      t.text == RenderLines(g) + Opening(g, [x]) && t.lastLineWasEmpty == EndsEmpty(g) &&
      t.currentLine == LineText([x]) && t.currentItem == Some(x) &&
      t.lineItems == [x] && t.lastY == Some(x.y) && t.lastItemWasOcr == IsOcr(x)
    ensures Pending(t, p + [x])
  {
    var g := Group(p);
    var r := g + [[x]];
    assert r[..|r| - 1] == g;
    assert Last(p + [x]) == x;
  }

  /** Flushing the pending line writes it out as `RenderLines` does. */
  lemma {:induction false} FlushedLine(s: Scan, g: seq<seq<Item>>)
    requires g != [] && NonEmptyLines(g)
    requires s.text == RenderLines(g[..|g| - 1]) + Opening(g[..|g| - 1], Last(g))
    requires s.lastLineWasEmpty == EndsEmpty(g[..|g| - 1])
    requires s.currentLine == LineText(Last(g)) && s.currentLine != ""
    requires s.currentItem == Some(Last(g)[0]) && s.lineItems == Last(g)
    requires AnyOcr(s.lineItems) <==> IsOcr(Last(g)[0])
    ensures Flush(s).text == RenderLines(g) && Flush(s).currentLine == "" && Flush(s).lineItems == []
    ensures Flush(s).lastLineWasEmpty == EndsEmpty(g)
  {
    var prev := g[..|g| - 1];
    var l := Last(g);
    assert Emitted(s) == LineOut(EndsEmpty(prev), IsOcr(l[0]), Some(l[0]), LineText(l));
    assert RenderLines(g) == RenderLines(prev) + Opening(prev, l) + Closing(prev, l);
  }

  /** A break: the pending line is written and the new item starts a line of its own. */
  lemma {:induction false} BreakStep(s: Scan, g: seq<seq<Item>>, x: Item)
    requires g != [] && NonEmptyLines(g) && x.str != []
    requires s.currentLine != "" && s.lastY.Some?
    requires s.lastItemWasOcr == IsOcr(Last(g)[0])
    requires Flush(s).text == RenderLines(g) && Flush(s).currentLine == "" && Flush(s).lineItems == []
    requires Flush(s).lastLineWasEmpty == EndsEmpty(g)
    requires IsOcr(Last(g)[0]) != IsOcr(x) || Abs(x.y - s.lastY.value) > 10.0
    ensures var t := Feed(s, x);
      t.text == RenderLines(g) + Opening(g, [x]) && t.lastLineWasEmpty == EndsEmpty(g) &&
      t.currentLine == LineText([x]) && t.currentLine != "" && t.currentItem == Some(x) &&
      t.lineItems == [x] && t.lastY == Some(x.y) && t.lastItemWasOcr == IsOcr(x)
  {
    assert LineText([x]) == x.str;
    var k := KindBreak(s, x);
    var j := JumpBreak(k, x);
    assert j.currentLine == "" && j.lineItems == [];
    assert j.text == RenderLines(g) + Opening(g, [x]);
    assert j.lastLineWasEmpty == EndsEmpty(g);
  }

  /** Feeding an item of the same kind within 10 of the previous one appends it after a space. */
  lemma {:induction false} FeedJoins(s: Scan, x: Item)
    requires s.currentLine != "" && s.lastItemWasOcr == IsOcr(x)
    requires s.lastY.Some? && Abs(x.y - s.lastY.value) <= 10.0
    requires s.lineItems != [] && IsOcr(s.lineItems[0]) == IsOcr(x)
    ensures Feed(s, x) == s.(currentLine := s.currentLine + " " + x.str, lastY := Some(x.y),
                             lineItems := s.lineItems + [x], lastItemWasOcr := IsOcr(x))
  {
    assert KindBreak(s, x) == s;
    assert JumpBreak(s, x) == s;
  }

  /** A line's text grows by a space and the new item's string. */
  lemma {:induction false} LineTextAppend(line: seq<Item>, x: Item)
    requires line != []
    ensures LineText(line + [x]) == LineText(line) + " " + x.str
  {
    JoinAppend(Strs(line), x.str, " ");
    assert Strs(line + [x]) == Strs(line) + [x.str];
  }

  /** No break: the item joins the pending line after one space. */
  lemma {:induction false} ExtendStep(s: Scan, p: seq<Item>, x: Item)
    requires p != [] && x.str != []
    requires Pending(s, p) && s.currentLine != ""
    requires Cohesive(Last(Group(p))) && Last(Last(Group(p))) == Last(p)
    requires !Breaks(Last(p), x)
    ensures Pending(Feed(s, x), p + [x]) && Feed(s, x).currentLine != ""
  {
    var g := Group(p);
    var h := g[..|g| - 1];
    var l := Last(g);
    CohesiveKind(l);
    assert IsOcr(l[0]) == IsOcr(Last(p));
    FeedJoins(s, x);
    GroupExtend(p, x);
    LineTextAppend(l, x);
    var r := h + [l + [x]];
    assert r[..|r| - 1] == h;
    assert Last(r) == l + [x] && (l + [x])[0] == l[0];
    assert Last(p + [x]) == x;
  }

  /**
   * The scan writes exactly the line-by-line text: the items are cut into lines at kind
   * changes and vertical jumps over 10, and each line is written from its first item.
   */
  lemma {:induction false} RenderIsRenderLines(items: seq<Item>)
    requires AllNonEmpty(items)
    ensures Render(items) == RenderLines(Group(items))
  {
    if items != [] {
      FeedAllPending(items);
      var g := Group(items);
      GroupIsMaximalRuns(items);
      CohesiveKind(Last(g));
      FlushedLine(FeedAll(items), g);
    }
  }
}
