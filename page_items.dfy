/**
 * The first half of `extractPageContent`: font-size statistics, heading levels,
 * classification of text runs and the OCR-derived image items of one page.
 */
module PageItems {
  import opened Wrappers
  import opened Strings
  import opened PdfPage

  /** A content item: a classified text run, or the OCR text of an image (which has no `x`). */
  datatype Item =
    | TextItem(str: string, x: real, y: real, fontSize: real, isHeader: bool, headerLevel: nat,
               isItalic: bool, isBullet: bool)
    | OcrItem(str: string, y: real)

  function Abs(r: real): real { if r < 0.0 then -r else r }

  function Min(a: nat, b: nat): nat { if a < b then a else b }

  /** `Math.abs(textItem.transform[0])` */
  function FontSize(run: TextRun): real { Abs(run.transform.a) }

  function Sizes(runs: seq<TextRun>): (r: seq<real>)
    ensures |r| == |runs| && forall i :: 0 <= i < |runs| ==> r[i] == FontSize(runs[i])
  {
    if runs == [] then [] else Sizes(runs[..|runs| - 1]) + [FontSize(runs[|runs| - 1])]
  }

  // ---------------------------------------------------------------------------
  // Font histogram (first pass)
  // ---------------------------------------------------------------------------

  /** How often `sizes[i]` occurs among `sizes[0..i]`: its count right after it is added. */
  function RunningCount(sizes: seq<real>, i: nat): nat
    requires i < |sizes|
  {
    multiset(sizes[..i + 1])[sizes[i]]
  }

  /** The histogram after counting the first `n` sizes in order. */
  function Counts(sizes: seq<real>, n: nat): map<real, nat>
    requires n <= |sizes|
  {
    if n == 0 then map[]
    else
      var prev := Counts(sizes, n - 1);
      var s := sizes[n - 1];
      prev[s := if s in prev then prev[s] + 1 else 1]
  }

  /**
   * The running maximum and default size after counting the first `n` sizes: a size
   * becomes the default when its running count goes strictly above the maximum.
   */
  function Mode(sizes: seq<real>, n: nat): (r: (nat, Option<real>))
    requires n <= |sizes|
    ensures r.1.Some? <==> n > 0
  {
    if n == 0 then (0, None)
    else
      var prev := Mode(sizes, n - 1);
      var c := RunningCount(sizes, n - 1);
      assert c >= 1 by { assert sizes[n - 1] in sizes[..n]; }
      if c > prev.0 then (c, Some(sizes[n - 1])) else prev
  }

  /** The histogram holds exactly the sizes counted so far, each with its number of occurrences. */
  lemma {:induction false} CountsAreMultiplicities(sizes: seq<real>, n: nat)
    requires n <= |sizes|
    ensures forall s :: s in Counts(sizes, n) <==> s in sizes[..n]
    ensures forall s :: s in Counts(sizes, n) ==> Counts(sizes, n)[s] == multiset(sizes[..n])[s]
  {
    if n > 0 {
      CountsAreMultiplicities(sizes, n - 1);
      assert sizes[..n] == sizes[..n - 1] + [sizes[n - 1]];
    }
  }

  /** Counting `sizes[i]` raises its count by one, so the running count is the new count. */
  lemma {:induction false} HistogramStep(sizes: seq<real>, i: nat)
    requires i < |sizes|
    ensures RunningCount(sizes, i) ==
      (var c := Counts(sizes, i); if sizes[i] in c then c[sizes[i]] + 1 else 1)
  {
    CountsAreMultiplicities(sizes, i);
    var x := sizes[i];
    assert sizes[..i + 1] == sizes[..i] + [x];
    assert multiset(sizes[..i + 1])[x] == multiset(sizes[..i])[x] + 1;
    if x !in Counts(sizes, i) {
      assert x !in multiset(sizes[..i]);
    }
  }

  /** The maximum is the largest count, and the default size is counted that often. */
  lemma {:induction false} ModeIsMaximal(sizes: seq<real>, n: nat)
    requires n <= |sizes|
    ensures forall s :: multiset(sizes[..n])[s] <= Mode(sizes, n).0
    ensures n > 0 ==> multiset(sizes[..n])[Mode(sizes, n).1.value] == Mode(sizes, n).0
  {
    if n > 0 {
      ModeIsMaximal(sizes, n - 1);
      assert sizes[..n] == sizes[..n - 1] + [sizes[n - 1]];
    }
  }

  /**
   * Tie-break: the default size is the one whose running count reached the maximum
   * first; no size reached it at an earlier position.
   */
  lemma {:induction false} ModeFirstToReach(sizes: seq<real>, n: nat)
    requires 0 < n <= |sizes|
    ensures exists j :: 0 <= j < n && sizes[j] == Mode(sizes, n).1.value &&
              RunningCount(sizes, j) == Mode(sizes, n).0 &&
              forall i :: 0 <= i < j ==> RunningCount(sizes, i) < Mode(sizes, n).0
  {
    var c := RunningCount(sizes, n - 1);
    ModeIsMaximal(sizes, n - 1);
    if c > Mode(sizes, n - 1).0 {
      assert Mode(sizes, n).0 == c;
      forall i | 0 <= i < n - 1 ensures RunningCount(sizes, i) < Mode(sizes, n).0 {
        var v: real := sizes[i];
        assert sizes[..n - 1] == sizes[..i + 1] + sizes[i + 1..n - 1];
        assert multiset(sizes[..n - 1]) == multiset(sizes[..i + 1]) + multiset(sizes[i + 1..n - 1]);
        assert RunningCount(sizes, i) <= multiset(sizes[..n - 1])[v];
        assert multiset(sizes[..n - 1])[v] <= Mode(sizes, n - 1).0;
      }
      assert sizes[n - 1] == Mode(sizes, n).1.value && RunningCount(sizes, n - 1) == Mode(sizes, n).0;
    } else {
      assert n - 1 > 0;
      ModeFirstToReach(sizes, n - 1);
    }
  }

  predicate Distinct(s: seq<real>) {
    forall i, j :: 0 <= i < j < |s| ==> s[i] != s[j]
  }

  /** The histogram's keys in insertion order: each size where it is first met. */
  function FirstSeen(sizes: seq<real>, n: nat): (r: seq<real>)
    requires n <= |sizes|
    ensures Distinct(r)
    ensures forall s :: s in r <==> s in Counts(sizes, n)
  {
    if n == 0 then []
    else
      var prev := FirstSeen(sizes, n - 1);
      if sizes[n - 1] in Counts(sizes, n - 1) then prev else prev + [sizes[n - 1]]
  }

  /**
   * The first pass of `extractPageContent`: counts every run (whitespace-only ones
   * included) and picks the default (body) font size.
   */
  method FontHistogram(runs: seq<TextRun>) returns (fontSizes: map<real, nat>, keys: seq<real>,
                                                     maxCount: nat, defaultFontSize: Option<real>)
    ensures fontSizes == Counts(Sizes(runs), |runs|)
    ensures keys == FirstSeen(Sizes(runs), |runs|)
    ensures (maxCount, defaultFontSize) == Mode(Sizes(runs), |runs|)
  {
    ghost var sizes := Sizes(runs);
    fontSizes, keys, maxCount, defaultFontSize := map[], [], 0, None;
    var i := 0;
    while i < |runs|
      invariant 0 <= i <= |runs|
      invariant fontSizes == Counts(sizes, i)
      invariant keys == FirstSeen(sizes, i)
      invariant (maxCount, defaultFontSize) == Mode(sizes, i)
    {
      var fontSize := FontSize(runs[i]);
      HistogramStep(sizes, i);
      var count := if fontSize in fontSizes then fontSizes[fontSize] else 0;
      if fontSize !in fontSizes {
        keys := keys + [fontSize];
      }
      fontSizes := fontSizes[fontSize := count + 1];
      if count + 1 > maxCount {
        maxCount := count + 1;
        defaultFontSize := Some(fontSize);
      }
      i := i + 1;
    }
  }

  // ---------------------------------------------------------------------------
  // Heading map
  // ---------------------------------------------------------------------------

  predicate StrictlyDecreasing(s: seq<real>) {
    forall i, j :: 0 <= i < j < |s| ==> s[i] > s[j]
  }

  /** Insert into a strictly decreasing sequence (the comparator `b[0] - a[0]`). */
  function InsertDesc(x: real, s: seq<real>): (r: seq<real>)
    requires StrictlyDecreasing(s) && x !in s
    ensures StrictlyDecreasing(r)
    ensures forall y :: y in r <==> y == x || y in s
  {
    if s == [] || x > s[0] then
      assert forall j :: 0 <= j < |s| ==> x > s[j];
      [x] + s
    else
      var t := InsertDesc(x, s[1..]);
      assert s[0] in s && x < s[0];
      assert forall y :: y in s[1..] ==> y < s[0];
      assert forall j :: 0 <= j < |t| ==> s[0] > t[j] by {
        forall j | 0 <= j < |t| ensures s[0] > t[j] { assert t[j] in t; }
      }
      [s[0]] + t
  }

  /** The histogram's distinct sizes sorted from largest to smallest. */
  function SortDesc(keys: seq<real>): (r: seq<real>)
    requires Distinct(keys)
    ensures StrictlyDecreasing(r)
    ensures forall y :: y in r <==> y in keys
  {
    if keys == [] then []
    else
      assert forall j :: 1 <= j < |keys| ==> keys[j] != keys[0];
      InsertDesc(keys[0], SortDesc(keys[1..]))
  }

  function Threshold(defaultFontSize: Option<real>): real {
    if defaultFontSize.Some? then defaultFontSize.value * 1.1 else 0.0
  }

  /** `.filter(([size]) => size > defaultFontSize * 1.1)`; a missing default counts as 0. */
  function AboveBody(s: seq<real>, defaultFontSize: Option<real>): (r: seq<real>)
    ensures forall x :: x in r <==> x in s && x > Threshold(defaultFontSize)
    ensures StrictlyDecreasing(s) ==> StrictlyDecreasing(r)
  {
    if s == [] then []
    else
      var rest := AboveBody(s[1..], defaultFontSize);
      assert StrictlyDecreasing(s) ==> StrictlyDecreasing([s[0]] + rest) by {
        if StrictlyDecreasing(s) {
          forall j | 0 <= j < |rest| ensures rest[j] < s[0] {
            assert rest[j] in rest;
            var i :| 0 <= i < |s[1..]| && s[1..][i] == rest[j];
            assert s[i + 1] == rest[j];
          }
        }
      }
      if s[0] > Threshold(defaultFontSize) then [s[0]] + rest else rest
  }

  /** The sizes that become headings: above 1.1 times the body size, the four largest of them. */
  function HeadingSizes(keys: seq<real>, defaultFontSize: Option<real>): (r: seq<real>)
    requires Distinct(keys)
    ensures StrictlyDecreasing(r) && |r| <= 4
    ensures forall y :: y in r ==> y in keys && y > Threshold(defaultFontSize)
  {
    var candidates := AboveBody(SortDesc(keys), defaultFontSize);
    if |candidates| <= 4 then candidates
    else
      var r := candidates[..4];
      assert forall y :: y in r ==> y in candidates;
      r
  }

  /**
   * A size above 1.1 times the body size is left without a heading level only when
   * four larger sizes took the levels.
   */
  lemma {:induction false} HeadingSizesTopFour(keys: seq<real>, defaultFontSize: Option<real>, y: real)
    requires Distinct(keys)
    requires y in keys && y > Threshold(defaultFontSize)
    requires y !in HeadingSizes(keys, defaultFontSize)
    ensures |HeadingSizes(keys, defaultFontSize)| == 4
    ensures forall z :: z in HeadingSizes(keys, defaultFontSize) ==> z > y
  {
    var candidates := AboveBody(SortDesc(keys), defaultFontSize);
    var hs := HeadingSizes(keys, defaultFontSize);
    var k :| 0 <= k < |candidates| && candidates[k] == y;
    assert forall j :: 0 <= j < |hs| ==> hs[j] == candidates[j];
    assert k >= |hs|;
    forall z | z in hs ensures z > y {
      var j :| 0 <= j < |hs| && hs[j] == z;
      assert candidates[j] == z;
    }
  }

  /** The header level map as `sortedFontSizes.forEach` fills it, entry after entry. */
  function LevelMap(sorted: seq<real>): (m: map<real, nat>)
    ensures forall x :: x in m <==> x in sorted
    ensures forall x :: x in m ==> 1 <= m[x] <= 3
  {
    if sorted == [] then map[]
    else LevelMap(sorted[..|sorted| - 1])[sorted[|sorted| - 1] := Min(|sorted|, 3)]
  }

  /** `headerLevelMap.set(size, Math.min(index + 1, 3))` for each size in order. */
  method BuildHeaderLevelMap(sorted: seq<real>) returns (headerLevelMap: map<real, nat>)
    ensures headerLevelMap == LevelMap(sorted)
  {
    headerLevelMap := map[];
    for index := 0 to |sorted|
      invariant headerLevelMap == LevelMap(sorted[..index])
    {
      assert sorted[..index + 1][..index] == sorted[..index];
      headerLevelMap := headerLevelMap[sorted[index] := Min(index + 1, 3)];
    }
    assert sorted[..|sorted|] == sorted;
  }

  /** The `i`-th largest heading size gets level `min(i + 1, 3)`: 1, 2, 3, 3. */
  lemma {:induction false} LevelMapRank(sorted: seq<real>)
    requires StrictlyDecreasing(sorted)
    ensures forall i :: 0 <= i < |sorted| ==> LevelMap(sorted)[sorted[i]] == Min(i + 1, 3)
  {
    if sorted != [] {
      var p := sorted[..|sorted| - 1];
      LevelMapRank(p);
      forall i | 0 <= i < |sorted| ensures LevelMap(sorted)[sorted[i]] == Min(i + 1, 3) {
        if i < |sorted| - 1 {
          assert p[i] == sorted[i];
        }
      }
    }
  }

  /** A larger size never gets a deeper heading level. */
  lemma {:induction false} LevelMapMonotone(sorted: seq<real>, s: real, t: real)
    requires StrictlyDecreasing(sorted)
    requires s in LevelMap(sorted) && t in LevelMap(sorted) && s > t
    ensures LevelMap(sorted)[s] <= LevelMap(sorted)[t]
  {
    LevelMapRank(sorted);
    var i :| 0 <= i < |sorted| && sorted[i] == s;
    var j :| 0 <= j < |sorted| && sorted[j] == t;
    assert i < j;
  }

  // ---------------------------------------------------------------------------
  // Classification (second pass)
  // ---------------------------------------------------------------------------

  /** The bullet class of the source: bullet, hyphen, asterisk, triangle, white, hyphen and operator bullets. */
  predicate IsBulletGlyph(c: char) {
    c == '\U{2022}' || c == '-' || c == '*' || c == '\U{2023}' || c == '\U{25E6}' ||
    c == '\U{2043}' || c == '\U{2219}'
  }

  predicate StartsWithBullet(s: string) { s != [] && IsBulletGlyph(s[0]) }

  /** `textItem.fontName?.toLowerCase().includes('italic')` */
  predicate IsItalicFont(fontName: Option<string>) {
    fontName.Some? && Contains(ToLowerAscii(fontName.value), "italic")
  }

  /** The item a kept run becomes, given the y of the previous kept run (`currentY`). */
  function ClassifyRun(run: TextRun, currentY: Option<real>, headerLevelMap: map<real, nat>): Item
  {
    var fontSize := FontSize(run);
    var str := Trim(run.str);
    var y := run.transform.f;
    var isBullet := StartsWithBullet(str);
    var isNewSection := currentY.None? || Abs(y - currentY.value) > fontSize * 1.5;
    var isHeader := !isBullet && fontSize in headerLevelMap && isNewSection;
    TextItem(str, run.transform.e, y, fontSize, isHeader,
             if isHeader then headerLevelMap[fontSize] else 0,
             IsItalicFont(run.fontName), isBullet)
  }

  /** The runs whose trimmed text is not empty, in order. */
  function KeptRuns(runs: seq<TextRun>): (r: seq<TextRun>)
    ensures forall k :: 0 <= k < |r| ==> Kept(r[k])
  {
    if runs == [] then []
    else
      var prev := KeptRuns(runs[..|runs| - 1]);
      var last := runs[|runs| - 1];
      if Kept(last) then prev + [last] else prev
  }

  /** Every run whose trimmed text is not empty is kept, as often as it occurs, and no other run is. */
  lemma {:induction false} KeptRunsExactly(runs: seq<TextRun>)
    ensures forall x :: multiset(KeptRuns(runs))[x] == if Kept(x) then multiset(runs)[x] else 0
    decreases |runs|
  {
    if runs != [] {
      var init := runs[..|runs| - 1];
      var last := runs[|runs| - 1];
      KeptRunsExactly(init);
      assert runs == init + [last];
      assert multiset(runs) == multiset(init) + multiset{last};
      if Kept(last) {
        assert multiset(KeptRuns(init) + [last]) == multiset(KeptRuns(init)) + multiset{last};
      }
    }
  }

  /** A run is kept when its trimmed text is not empty. */
  predicate Kept(run: TextRun) {
    Trim(run.str) != ""
  }

  /** The y of the kept run before the `k`-th one. */
  function PrevY(kept: seq<TextRun>, k: nat): Option<real>
    requires k < |kept|
  {
    if k == 0 then None else Some(kept[k - 1].transform.f)
  }

  /** The y of the last kept run (`currentY` once they are all classified), if any. */
  function LastY(kept: seq<TextRun>): Option<real> {
    if kept == [] then None else Some(kept[|kept| - 1].transform.f)
  }

  /** The `k`-th kept run, classified against the one before it. */
  function ClassifyAt(kept: seq<TextRun>, k: nat, headerLevelMap: map<real, nat>): Item
    requires k < |kept|
  {
    ClassifyRun(kept[k], PrevY(kept, k), headerLevelMap)
  }

  /** Each kept run classified against the y of the kept run before it. */
  function ClassifyAll(kept: seq<TextRun>, headerLevelMap: map<real, nat>): (items: seq<Item>)
    ensures |items| == |kept|
    ensures forall k :: 0 <= k < |kept| ==> items[k] == ClassifyAt(kept, k, headerLevelMap)
  {
    seq(|kept|, k requires 0 <= k < |kept| => ClassifyAt(kept, k, headerLevelMap))
  }

  /** The text items of a page: runs that trim to empty are dropped and leave `currentY` alone. */
  function Classified(runs: seq<TextRun>, headerLevelMap: map<real, nat>): seq<Item>
  {
    ClassifyAll(KeptRuns(runs), headerLevelMap)
  }

  /** The second pass of `extractPageContent`: classifies each run with non-empty trimmed text. */
  method ClassifyRuns(runs: seq<TextRun>, headerLevelMap: map<real, nat>) returns (items: seq<Item>)
    ensures items == Classified(runs, headerLevelMap)
  {
    items := [];
    var currentY: Option<real> := None;
    ghost var kept: seq<TextRun> := [];
    for i := 0 to |runs|
      invariant kept == KeptRuns(runs[..i])
      invariant items == ClassifyAll(kept, headerLevelMap)
      invariant currentY == LastY(kept)
    {
      assert runs[..i + 1][..i] == runs[..i];
      var run := runs[i];
      var str := Trim(run.str);
      if str != "" {
        var item := ClassifyRun(run, currentY, headerLevelMap);
        ClassifyAllExtend(kept, run, headerLevelMap);
        items := items + [item];
        kept := kept + [run];
        currentY := Some(item.y);
      }
    }
    assert runs[..|runs|] == runs;
  }

  /** Classifying one more kept run appends its item and leaves the earlier ones alone. */
  lemma {:induction false} ClassifyAllExtend(kept: seq<TextRun>, run: TextRun, m: map<real, nat>)
    ensures ClassifyAll(kept + [run], m) == ClassifyAll(kept, m) + [ClassifyRun(run, LastY(kept), m)]
  {
    var lhs := ClassifyAll(kept + [run], m);
    var rhs := ClassifyAll(kept, m) + [ClassifyRun(run, LastY(kept), m)];
    assert |lhs| == |rhs|;
    forall k | 0 <= k < |lhs| ensures lhs[k] == rhs[k] {
      ClassifyAtExtend(kept, run, m, k);
      if k < |kept| {
        assert rhs[k] == ClassifyAll(kept, m)[k];
      } else {
        assert rhs[k] == ClassifyRun(run, LastY(kept), m);
      }
    }
  }

  lemma {:induction false} ClassifyAtExtend(kept: seq<TextRun>, run: TextRun, m: map<real, nat>, k: nat)
    requires k <= |kept|
    ensures ClassifyAt(kept + [run], k, m) ==
      if k < |kept| then ClassifyAt(kept, k, m) else ClassifyRun(run, LastY(kept), m)
  {
    if k < |kept| {
      assert (kept + [run])[k] == kept[k];
      assert PrevY(kept + [run], k) == PrevY(kept, k);
    }
  }

  /**
   * The header rule: a kept run becomes a header exactly when its text does not start
   * with a bullet glyph, its size has a level, and it is the first kept run or lies more
   * than 1.5 times its size away (vertically) from the kept run before it; a non-header
   * has level 0.
   */
  lemma {:induction false} ClassifyAtRule(kept: seq<TextRun>, k: nat, m: map<real, nat>)
    requires k < |kept|
    ensures var it := ClassifyAt(kept, k, m);
      && it.TextItem? && it.y == kept[k].transform.f && it.fontSize == FontSize(kept[k])
      && (it.isHeader <==>
            !it.isBullet && it.fontSize in m &&
            (k == 0 || Abs(it.y - kept[k - 1].transform.f) > it.fontSize * 1.5))
      && it.headerLevel == (if it.isHeader then m[it.fontSize] else 0)
  {
    var run := kept[k];
    var it := ClassifyAt(kept, k, m);
    var str := Trim(run.str);
    var isBullet := StartsWithBullet(str);
    var fontSize := FontSize(run);
    var isNewSection := k == 0 || Abs(run.transform.f - kept[k - 1].transform.f) > fontSize * 1.5;
    var isHeader := !isBullet && fontSize in m && isNewSection;
    assert it == TextItem(str, run.transform.e, run.transform.f, fontSize, isHeader,
                          if isHeader then m[fontSize] else 0, IsItalicFont(run.fontName), isBullet);
  }

  /**
   * Every text item carries trimmed, non-empty text, and it is a bullet exactly when that
   * text starts with a bullet glyph.
   */
  lemma {:induction false} ClassifiedText(runs: seq<TextRun>, m: map<real, nat>)
    ensures var items := Classified(runs, m);
      forall k :: 0 <= k < |items| ==>
        items[k].TextItem? && items[k].str != [] && Trim(items[k].str) == items[k].str &&
        (items[k].isBullet <==> StartsWithBullet(items[k].str))
  {
    var kept := KeptRuns(runs);
    var items := Classified(runs, m);
    forall k | 0 <= k < |items|
      ensures items[k].TextItem? && items[k].str != [] && Trim(items[k].str) == items[k].str &&
              (items[k].isBullet <==> StartsWithBullet(items[k].str))
    {
      var run := kept[k];
      TrimIdempotent(run.str);
      assert items[k] == ClassifyAt(kept, k, m);
      assert items[k].str == Trim(run.str) && items[k].isBullet == StartsWithBullet(Trim(run.str));
    }
  }

  // ---------------------------------------------------------------------------
  // Image items
  // ---------------------------------------------------------------------------

  /** The identity of an image: `page_${pageNum}_image_${imageIndex}.png`. */
  function ImageKey(pageNum: nat, imageIndex: nat): string {
    "page_" + NatToString(pageNum) + "_image_" + NatToString(imageIndex) + ".png"
  }

  /** `imageOcrMap[imageName]?.trim() || ''` */
  function OcrTextFor(imageOcrMap: map<string, string>, key: string): string {
    if key in imageOcrMap then Trim(imageOcrMap[key]) else ""
  }

  /** `height - transform[5]` when the third argument is a matrix, `height / 2` otherwise. */
  function ImageY(matrix: Option<Transform>, height: real): real {
    if matrix.Some? then height - matrix.value.f else height / 2.0
  }

  /** The third arguments of the `paintImageXObject` operators, in operator order. */
  function Paints(ops: seq<Op>): seq<Option<Transform>>
  {
    if ops == [] then []
    else
      var prev := Paints(ops[..|ops| - 1]);
      if ops[|ops| - 1].PaintImageXObject? then prev + [ops[|ops| - 1].matrix] else prev
  }

  /** One candidate item per paint: the `k`-th paint (1-based) is keyed `page_N_image_k.png`. */
  function Candidates(paints: seq<Option<Transform>>, pageNum: nat, imageOcrMap: map<string, string>,
                      height: real): (r: seq<Item>)
    ensures |r| == |paints|
    ensures forall k :: 0 <= k < |paints| ==>
      r[k] == OcrItem(OcrTextFor(imageOcrMap, ImageKey(pageNum, k + 1)), ImageY(paints[k], height))
  {
    if paints == [] then []
    else
      Candidates(paints[..|paints| - 1], pageNum, imageOcrMap, height) +
      [OcrItem(OcrTextFor(imageOcrMap, ImageKey(pageNum, |paints|)), ImageY(paints[|paints| - 1], height))]
  }

  /** Keep the items with non-empty text, in order. */
  function NonEmpty(items: seq<Item>): (r: seq<Item>)
    ensures forall c :: c in r <==> c in items && c.str != []
  {
    if items == [] then []
    else
      var prev := NonEmpty(items[..|items| - 1]);
      var last := items[|items| - 1];
      assert items == items[..|items| - 1] + [last];
      if last.str == "" then prev else prev + [last]
  }

  /** Every item with non-empty text is kept, as often as it occurs, and no other item is. */
  lemma {:induction false} NonEmptyExactly(items: seq<Item>)
    ensures forall c :: multiset(NonEmpty(items))[c] == if c.str != [] then multiset(items)[c] else 0
    decreases |items|
  {
    if items != [] {
      var init := items[..|items| - 1];
      var last := items[|items| - 1];
      NonEmptyExactly(init);
      assert items == init + [last];
      assert multiset(items) == multiset(init) + multiset{last};
      if last.str != "" {
        assert multiset(NonEmpty(init) + [last]) == multiset(NonEmpty(init)) + multiset{last};
      }
    }
  }

  /** The image items of a page: the candidates whose OCR text is not empty. */
  function ImageItemsOf(paints: seq<Option<Transform>>, pageNum: nat, imageOcrMap: map<string, string>,
                        height: real): seq<Item>
  {
    NonEmpty(Candidates(paints, pageNum, imageOcrMap, height))
  }

  /** Every image item is an OCR item whose text is trimmed and not empty. */
  lemma {:induction false} ImageItemsTrimmed(paints: seq<Option<Transform>>, pageNum: nat,
                          imageOcrMap: map<string, string>, height: real)
    ensures forall c :: c in ImageItemsOf(paints, pageNum, imageOcrMap, height) ==>
      c.OcrItem? && c.str != [] && Trim(c.str) == c.str
  {
    var cands := Candidates(paints, pageNum, imageOcrMap, height);
    forall c | c in cands ensures c.OcrItem? && Trim(c.str) == c.str {
      var k :| 0 <= k < |cands| && cands[k] == c;
      var key := ImageKey(pageNum, k + 1);
      if key in imageOcrMap { TrimIdempotent(imageOcrMap[key]); }
    }
  }

  /** The image loop of `extractPageContent`: every paint advances the index, empty texts are skipped. */
  method ImageItems(ops: seq<Op>, pageNum: nat, imageOcrMap: map<string, string>, height: real)
    returns (imageItems: seq<Item>)
    ensures imageItems == ImageItemsOf(Paints(ops), pageNum, imageOcrMap, height)
  {
    var imageIndex := 0;
    imageItems := [];
    for i := 0 to |ops|
      invariant imageIndex == |Paints(ops[..i])|
      invariant imageItems == ImageItemsOf(Paints(ops[..i]), pageNum, imageOcrMap, height)
    {
      assert ops[..i + 1][..i] == ops[..i];
      if ops[i].PaintImageXObject? {
        ghost var before := Paints(ops[..i]);
        ghost var after := Paints(ops[..i + 1]);
        assert after == before + [ops[i].matrix];
        assert after[..|before|] == before;
        ghost var cands := Candidates(after, pageNum, imageOcrMap, height);
        assert cands[..|before|] == Candidates(before, pageNum, imageOcrMap, height);
        imageIndex := imageIndex + 1;
        var imageName := ImageKey(pageNum, imageIndex);
        var ocrText := OcrTextFor(imageOcrMap, imageName);
        var y := ImageY(ops[i].matrix, height);
        if ocrText == "" {
          continue;
        }
        imageItems := imageItems + [OcrItem(ocrText, y)];
      }
    }
    assert ops[..|ops|] == ops;
  }

  // ---------------------------------------------------------------------------
  // Comparator
  // ---------------------------------------------------------------------------

  /** The x of an item; an OCR item has none (JavaScript `undefined`). */
  function X(item: Item): Option<real> {
    if item.TextItem? then Some(item.x) else None
  }

  /**
   * The sort comparator: within the 10-unit band `a.x - b.x`, otherwise `b.y - a.y`.
   * `None` stands for `NaN`, the value of `a.x - b.x` when an OCR item takes part.
   */
  function Compare(a: Item, b: Item): (r: Option<real>)
    ensures Abs(a.y - b.y) < 10.0 && a.TextItem? && b.TextItem? ==>
      r.Some? && (r.value < 0.0 <==> a.x < b.x)
    ensures Abs(a.y - b.y) >= 10.0 ==> r.Some? && (r.value < 0.0 <==> a.y > b.y)
    ensures Abs(a.y - b.y) < 10.0 && (a.OcrItem? || b.OcrItem?) ==> r.None?
  {
    if Abs(a.y - b.y) < 10.0 then
      if X(a).Some? && X(b).Some? then Some(X(a).value - X(b).value) else None
    else Some(b.y - a.y)
  }

  /** Swapping the arguments negates the comparison. */
  lemma {:induction false} CompareAntisymmetric(a: Item, b: Item)
    ensures Compare(a, b).Some? <==> Compare(b, a).Some?
    ensures Compare(a, b).Some? ==> Compare(a, b).value == -Compare(b, a).value
  {
  }

  /**
   * The 10-unit band makes the comparator cyclic on three text items, so it is not a
   * consistent ordering and the result of sorting with it is left to the engine.
   */
  lemma {:induction false} CompareNotTransitive()
    ensures var a := TextItem("a", 2.0, 0.0, 10.0, false, 0, false, false);
      var b := TextItem("b", 3.0, 9.0, 10.0, false, 0, false, false);
      var c := TextItem("c", 5.0, 18.0, 10.0, false, 0, false, false);
      Compare(a, b).value < 0.0 && Compare(b, c).value < 0.0 && Compare(c, a).value < 0.0
  {
  }
}
