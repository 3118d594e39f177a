/**
 * Page assembly and document conversion of the placeholder converter: one
 * page's Markdown from its runs, operators and the OCR map; the per-page join
 * with `\n---\n`; and the OCR map built from the processed image records.
 */
module ScribePdf {
  import opened Wrappers
  import opened Strings
  import opened PdfPage
  import opened PageItems
  import opened PageText

  // ---------------------------------------------------------------------------
  // One page
  // ---------------------------------------------------------------------------

  /** The heading-level map of a page: its font histogram's keys above the body size. */
  function PageLevels(runs: seq<TextRun>): (m: map<real, nat>)
    ensures forall x :: x in m ==> 1 <= m[x] <= 3
  {
    var sizes := Sizes(runs);
    LevelMap(HeadingSizes(FirstSeen(sizes, |runs|), Mode(sizes, |runs|).1))
  }

  /** `[...items, ...imageItems]`: the classified text items, then the image text items. */
  function PageItemsOf(page: Page, pageNum: nat, imageOcrMap: map<string, string>): seq<Item>
  {
    Classified(page.runs, PageLevels(page.runs)) +
    ImageItemsOf(Paints(page.ops), pageNum, imageOcrMap, page.height)
  }

  /**
   * What `extractPageContent` returns: the items put in order by `arrange`
   * (the sort with the line-band comparator), scanned into lines, trimmed.
   */
  function PageMarkdown(page: Page, pageNum: nat, imageOcrMap: map<string, string>,
                        arrange: seq<Item> -> seq<Item>): string
  {
    Trim(Render(arrange(PageItemsOf(page, pageNum, imageOcrMap))))
  }

  /** The stages of `extractPageContent`, in the source's order. */
  method ExtractPageContent(page: Page, pageNum: nat, imageOcrMap: map<string, string>,
                            arrange: seq<Item> -> seq<Item>) returns (text: string)
    ensures text == PageMarkdown(page, pageNum, imageOcrMap, arrange)
  {
    var imageItems := ImageItems(page.ops, pageNum, imageOcrMap, page.height);
    var fontSizes, keys, maxCount, defaultFontSize := FontHistogram(page.runs);
    var sortedSizes := HeadingSizes(keys, defaultFontSize);
    var headerLevelMap := BuildHeaderLevelMap(sortedSizes);
    var items := ClassifyRuns(page.runs, headerLevelMap);
    var allItems := arrange(items + imageItems);
    text := ReconstructLines(allItems);
    text := Trim(text);
  }

  /** A reordering that loses and invents nothing, as `Array.prototype.sort` does. */
  predicate Permutes(arrange: seq<Item> -> seq<Item>, s: seq<Item>) {
    multiset(arrange(s)) == multiset(s)
  }

  /** Every item that reaches the scan has non-empty text. */
  lemma {:induction false} PageItemsNonEmpty(page: Page, pageNum: nat, imageOcrMap: map<string, string>,
                                             arrange: seq<Item> -> seq<Item>)
    requires Permutes(arrange, PageItemsOf(page, pageNum, imageOcrMap))
    ensures AllNonEmpty(arrange(PageItemsOf(page, pageNum, imageOcrMap)))
  {
    var text := Classified(page.runs, PageLevels(page.runs));
    var images := ImageItemsOf(Paints(page.ops), pageNum, imageOcrMap, page.height);
    var all := text + images;
    var sorted := arrange(all);
    ClassifiedText(page.runs, PageLevels(page.runs));
    ImageItemsTrimmed(Paints(page.ops), pageNum, imageOcrMap, page.height);
    forall i | 0 <= i < |sorted|
      ensures sorted[i].str != []
    {
      var it := sorted[i];
      assert it in multiset(sorted);
      assert it in multiset(all);
      assert it in all;
      if it !in images {
        var k :| 0 <= k < |all| && all[k] == it;
        assert k < |text| && text[k] == it;
      }
    }
  }

  /**
   * A page's Markdown is the trimmed rendering of the maximal runs of items
   * that share a kind and move at most 10 units between neighbours, whatever
   * order the sort leaves the items in.
   */
  lemma {:induction false} PageMarkdownByLines(page: Page, pageNum: nat, imageOcrMap: map<string, string>,
                                               arrange: seq<Item> -> seq<Item>)
    requires Permutes(arrange, PageItemsOf(page, pageNum, imageOcrMap))
    ensures PageMarkdown(page, pageNum, imageOcrMap, arrange) ==
            Trim(RenderLines(Group(arrange(PageItemsOf(page, pageNum, imageOcrMap)))))
  {
    PageItemsNonEmpty(page, pageNum, imageOcrMap, arrange);
    RenderIsRenderLines(arrange(PageItemsOf(page, pageNum, imageOcrMap)));
  }

  /** A page with no text runs and no painted images has no items. */
  lemma {:induction false} EmptyPageNoItems(page: Page, pageNum: nat, imageOcrMap: map<string, string>)
    requires page.runs == [] && Paints(page.ops) == []
    ensures PageItemsOf(page, pageNum, imageOcrMap) == []
  {
    assert KeptRuns(page.runs) == [];
  }

  /** A page with no text runs and no painted images renders as the empty string. */
  lemma {:induction false} EmptyPageIsBlank(page: Page, pageNum: nat, imageOcrMap: map<string, string>,
                                            arrange: seq<Item> -> seq<Item>)
    requires page.runs == [] && Paints(page.ops) == []
    requires Permutes(arrange, PageItemsOf(page, pageNum, imageOcrMap))
    ensures PageMarkdown(page, pageNum, imageOcrMap, arrange) == ""
  {
    var all := PageItemsOf(page, pageNum, imageOcrMap);
    EmptyPageNoItems(page, pageNum, imageOcrMap);
    assert |multiset(arrange(all))| == 0;
    assert arrange(all) == [];
    assert Render([]) == "";
  }

  // ---------------------------------------------------------------------------
  // The document: pages joined with a separator
  // ---------------------------------------------------------------------------

  const Separator: string := "\n---\n"

  /** One page added to `markdownContent`: its text, then the separator unless it is the last page; nothing if it failed. */
  function AddPage(markdownContent: string, outcome: Option<string>, last: bool): string {
    match outcome
    case None => markdownContent
    case Some(t) => if last then markdownContent + t else markdownContent + t + Separator
  }

  /** `markdownContent` after the first `n` of `total` pages. */
  function Joined(outcomes: seq<Option<string>>, n: nat, total: nat): string
    requires n <= |outcomes|
  {
    if n == 0 then "" else AddPage(Joined(outcomes, n - 1, total), outcomes[n - 1], n >= total)
  }

  /** The trimmed concatenation of every page's contribution. */
  function JoinPages(contents: seq<Option<string>>): string {
    Trim(Joined(contents, |contents|, |contents|))
  }

  /**
   * The outcome of page `pageNum`: its Markdown, or `None` where `extractPageContent` threw (its
   * `getTextContent` or `getOperatorList` failed), which the per-page `catch` swallows.
   */
  function PageOutcome(page: Option<Page>, pageNum: nat, imageOcrMap: map<string, string>,
                       arrange: seq<Item> -> seq<Item>): Option<string>
  {
    if page.Some? then Some(PageMarkdown(page.value, pageNum, imageOcrMap, arrange)) else None
  }

  /** The outcome of every page, numbered from 1. */
  function PageContents(pages: seq<Option<Page>>, imageOcrMap: map<string, string>,
                        arrange: seq<Item> -> seq<Item>): (r: seq<Option<string>>)
    ensures |r| == |pages|
    decreases |pages|
  {
    if pages == [] then []
    else PageContents(pages[..|pages| - 1], imageOcrMap, arrange) +
         [PageOutcome(pages[|pages| - 1], |pages|, imageOcrMap, arrange)]
  }

  /** Entry `i` of the page contents is the outcome of page `i + 1`. */
  lemma {:induction false} PageContentsAt(pages: seq<Option<Page>>, imageOcrMap: map<string, string>,
                                          arrange: seq<Item> -> seq<Item>, i: nat)
    requires i < |pages|
    ensures PageContents(pages, imageOcrMap, arrange)[i] == PageOutcome(pages[i], i + 1, imageOcrMap, arrange)
    decreases |pages|
  {
    var init := pages[..|pages| - 1];
    var front := PageContents(init, imageOcrMap, arrange);
    var last := PageOutcome(pages[|pages| - 1], |pages|, imageOcrMap, arrange);
    assert PageContents(pages, imageOcrMap, arrange) == front + [last];
    if i < |pages| - 1 {
      PageContentsAt(init, imageOcrMap, arrange, i);
      assert init[i] == pages[i];
      assert (front + [last])[i] == front[i];
    }
  }

  /** The contents of one more page are the earlier contents and that page's outcome. */
  lemma {:induction false} PageContentsStep(pages: seq<Option<Page>>, imageOcrMap: map<string, string>,
                                            arrange: seq<Item> -> seq<Item>, k: nat)
    requires k < |pages|
    ensures PageContents(pages[..k + 1], imageOcrMap, arrange) ==
            PageContents(pages[..k], imageOcrMap, arrange) + [PageOutcome(pages[k], k + 1, imageOcrMap, arrange)]
  {
    assert pages[..k + 1][..k] == pages[..k];
  }

  /** `convertPdfWithPlaceholders`: the page loop, then the trimmed text. */
  method ConvertPdfWithPlaceholders(pages: seq<Option<Page>>, imageOcrMap: map<string, string>,
                                    arrange: seq<Item> -> seq<Item>) returns (markdown: string)
    ensures markdown == JoinPages(PageContents(pages, imageOcrMap, arrange))
  {
    var markdownContent := ConvertPages(pages, imageOcrMap, arrange);
    markdown := Trim(markdownContent);
  }

  /** The page loop of `convertPdfWithPlaceholders`; pages are numbered from 1. */
  method ConvertPages(pages: seq<Option<Page>>, imageOcrMap: map<string, string>,
                      arrange: seq<Item> -> seq<Item>) returns (markdownContent: string)
    ensures markdownContent == Joined(PageContents(pages, imageOcrMap, arrange), |pages|, |pages|)
  {
    markdownContent := "";
    for pageNum := 1 to |pages| + 1
      invariant markdownContent == Joined(PageContents(pages[..pageNum - 1], imageOcrMap, arrange), pageNum - 1, |pages|)
    {
      ghost var before := markdownContent;
      ghost var outcome;
      markdownContent, outcome := ConvertPage(markdownContent, pages, pageNum, imageOcrMap, arrange);
      PagesStep(pages, imageOcrMap, arrange, pageNum - 1, before, outcome, markdownContent);
    }
    assert pages[..|pages|] == pages;
  }

  /** One pass of the page loop extends the text of the earlier pages by this page's outcome. */
  lemma {:induction false} PagesStep(pages: seq<Option<Page>>, imageOcrMap: map<string, string>,
                                     arrange: seq<Item> -> seq<Item>, k: nat,
                                     before: string, outcome: Option<string>, after: string)
    requires k < |pages|
    requires before == Joined(PageContents(pages[..k], imageOcrMap, arrange), k, |pages|)
    requires outcome == PageOutcome(pages[k], k + 1, imageOcrMap, arrange)
    requires after == AddPage(before, outcome, k + 1 >= |pages|)
    ensures after == Joined(PageContents(pages[..k + 1], imageOcrMap, arrange), k + 1, |pages|)
  {
    PageContentsStep(pages, imageOcrMap, arrange, k);
    JoinedStep(PageContents(pages[..k], imageOcrMap, arrange), outcome, |pages|);
  }

  /** One pass of the page loop: a page that throws adds nothing, any other its text and maybe the separator. */
  method ConvertPage(markdownContent: string, pages: seq<Option<Page>>, pageNum: nat,
                     imageOcrMap: map<string, string>, arrange: seq<Item> -> seq<Item>)
    returns (next: string, ghost outcome: Option<string>)
    requires 1 <= pageNum <= |pages|
    ensures outcome == PageOutcome(pages[pageNum - 1], pageNum, imageOcrMap, arrange)
    ensures next == AddPage(markdownContent, outcome, pageNum >= |pages|)
  {
    outcome := PageOutcome(pages[pageNum - 1], pageNum, imageOcrMap, arrange);
    next := markdownContent;
    match pages[pageNum - 1]
    case None =>
    case Some(page) =>
      var pageContent := ExtractPageContent(page, pageNum, imageOcrMap, arrange);
      next := next + pageContent;
      if pageNum < |pages| {
        next := next + Separator;
      }
  }

  /** One more outcome adds its page to the text of the earlier ones. */
  lemma {:induction false} JoinedStep(outcomes: seq<Option<string>>, x: Option<string>, total: nat)
    ensures Joined(outcomes + [x], |outcomes| + 1, total) ==
            AddPage(Joined(outcomes, |outcomes|, total), x, |outcomes| + 1 >= total)
  {
    JoinedExtend(outcomes, x, |outcomes|, total);
    assert (outcomes + [x])[|outcomes|] == x;
  }

  /** Appending outcomes leaves the text of a prefix unchanged. */
  lemma {:induction false} JoinedExtend(outcomes: seq<Option<string>>, x: Option<string>, n: nat, total: nat)
    requires n <= |outcomes|
    ensures Joined(outcomes + [x], n, total) == Joined(outcomes, n, total)
  {
    if n > 0 {
      JoinedExtend(outcomes, x, n - 1, total);
      assert (outcomes + [x])[n - 1] == outcomes[n - 1];
    }
  }

  /** The page texts of `contents`, where every page succeeded. */
  function Texts(contents: seq<Option<string>>): (r: seq<string>)
    requires forall i :: 0 <= i < |contents| ==> contents[i].Some?
    ensures |r| == |contents| && forall i :: 0 <= i < |contents| ==> r[i] == contents[i].value
  {
    seq(|contents|, i requires 0 <= i < |contents| => contents[i].value)
  }

  /** Before the last page, every succeeded prefix ends with the separator. */
  lemma {:induction false} JoinedAllPages(contents: seq<Option<string>>, n: nat)
    requires forall i :: 0 <= i < |contents| ==> contents[i].Some?
    requires 1 <= n < |contents|
    ensures Joined(contents, n, |contents|) == Join(Texts(contents)[..n], Separator) + Separator
  {
    var t := Texts(contents);
    if n == 1 {
      assert Joined(contents, 1, |contents|) == "" + t[0] + Separator;
      assert t[..1] == [t[0]];
      assert Join(t[..1], Separator) == t[0];
    } else {
      JoinedAllPages(contents, n - 1);
      JoinAppend(t[..n - 1], t[n - 1], Separator);
      assert t[..n - 1] + [t[n - 1]] == t[..n];
    }
  }

  /** When every page succeeds, the result is the page texts joined by the separator, trimmed. */
  lemma {:induction false} JoinPagesAllSucceed(contents: seq<Option<string>>)
    requires forall i :: 0 <= i < |contents| ==> contents[i].Some?
    ensures JoinPages(contents) == Trim(Join(Texts(contents), Separator))
  {
    var t := Texts(contents);
    var n := |contents|;
    if n == 0 {
      assert Joined(contents, 0, 0) == "" == Join(t, Separator);
    } else if n == 1 {
      assert Joined(contents, 1, 1) == "" + t[0] == t[0];
      assert Join(t, Separator) == t[0];
    } else {
      JoinedAllPages(contents, n - 1);
      JoinAppend(t[..n - 1], t[n - 1], Separator);
      assert t[..n - 1] + [t[n - 1]] == t;
    }
  }

  /** Pieces before a failed page are unaffected by removing it. */
  lemma {:induction false} DropBefore(contents: seq<Option<string>>, i: nat, n: nat)
    requires i < |contents| - 1 && n <= i
    ensures Joined(contents, n, |contents|) == Joined(contents[..i] + contents[i + 1..], n, |contents| - 1)
  {
    var d := contents[..i] + contents[i + 1..];
    if n > 0 {
      DropBefore(contents, i, n - 1);
      assert d[n - 1] == contents[n - 1];
    }
  }

  /** From the failed page on, the pieces are those of the shortened sequence, one place earlier. */
  lemma {:induction false} DropAfter(contents: seq<Option<string>>, i: nat, n: nat)
    requires i < |contents| - 1 && contents[i].None? && i < n <= |contents|
    ensures Joined(contents, n, |contents|) == Joined(contents[..i] + contents[i + 1..], n - 1, |contents| - 1)
  {
    var d := contents[..i] + contents[i + 1..];
    if n == i + 1 {
      DropBefore(contents, i, i);
    } else {
      DropAfter(contents, i, n - 1);
      assert d[n - 2] == contents[n - 1];
    }
  }

  /** A failed page that is not the last contributes neither text nor separator. */
  lemma {:induction false} FailedPageVanishes(contents: seq<Option<string>>, i: nat)
    requires i < |contents| - 1 && contents[i].None?
    ensures JoinPages(contents) == JoinPages(contents[..i] + contents[i + 1..])
  {
    DropAfter(contents, i, |contents|);
  }

  /** When the last page fails, the page before it still carries its separator. */
  lemma {:induction false} FailedLastPageLeavesSeparator()
    ensures JoinPages([Some("a"), None]) == "a\n---"
  {
    var c: seq<Option<string>> := [Some("a"), None];
    assert Joined(c, 1, 2) == "a\n---\n";
    assert Joined(c, 2, 2) == "a\n---\n";
    assert SkipSpace("a\n---\n", 0) == 0;
    assert BackSpace("a\n---\n", 0, 6) == 5;
  }

  // ---------------------------------------------------------------------------
  // The OCR map
  // ---------------------------------------------------------------------------

  /**
   * A processed image record as the map reads it. `page` and `index` are
   * absent (`undefined`) on the records made without OCR, which carry
   * `pageNum`/`imageNum` instead; `ocrError` is absent, `null` or a message.
   */
  datatype ProcessedImage = ProcessedImage(page: Option<nat>, index: Option<nat>, ocrText: string,
                                           ocrError: Option<string>)

  /** `page_${img.page}_image_${img.index}.png` */
  function ImageName(img: ProcessedImage): string {
    "page_" + FieldText(img.page) + "_image_" + FieldText(img.index) + ".png"
  }

  /** `!img.ocrError && img.ocrText ? img.ocrText : ''` */
  function MapValue(img: ProcessedImage): (v: string)
    ensures v == "" || v == img.ocrText
    ensures v == img.ocrText <==> img.ocrText == "" || img.ocrError.None? || img.ocrError.value == ""
  {
    if (img.ocrError.None? || img.ocrError.value == "") && img.ocrText != "" then img.ocrText else ""
  }

  /** The map after the first `n` of `xs`, each filed under its key; a later entry overwrites an earlier one. */
  function Overwrite<X, K, V>(xs: seq<X>, n: nat, key: X -> K, val: X -> V): map<K, V>
    requires n <= |xs|
  {
    if n == 0 then map[] else Overwrite(xs, n - 1, key, val)[key(xs[n - 1]) := val(xs[n - 1])]
  }

  /** The map after the first `n` records; later records overwrite earlier ones with the same name. */
  function OcrMapOf(imgs: seq<ProcessedImage>, n: nat): map<string, string>
    requires n <= |imgs|
  {
    Overwrite(imgs, n, ImageName, MapValue)
  }

  /** The loop that fills `imageOcrMap`. */
  method BuildOcrMap(processedImages: seq<ProcessedImage>) returns (imageOcrMap: map<string, string>)
    ensures imageOcrMap == OcrMapOf(processedImages, |processedImages|)
  {
    imageOcrMap := map[];
    for i := 0 to |processedImages|
      invariant imageOcrMap == OcrMapOf(processedImages, i)
    {
      var img := processedImages[i];
      var imageName := ImageName(img);
      imageOcrMap := imageOcrMap[imageName := MapValue(img)];
    }
  }

  /** The keys of the map are exactly the keys of the first `n` entries. */
  lemma {:induction false} OverwriteKeys<X, K, V>(xs: seq<X>, n: nat, key: X -> K, val: X -> V)
    requires n <= |xs|
    ensures forall k :: k in Overwrite(xs, n, key, val) <==> exists j :: 0 <= j < n && key(xs[j]) == k
  {
    if n > 0 {
      OverwriteKeys(xs, n - 1, key, val);
      forall k
        ensures k in Overwrite(xs, n, key, val) <==> exists j :: 0 <= j < n && key(xs[j]) == k
      {
        if k in Overwrite(xs, n, key, val) && k != key(xs[n - 1]) {
          assert k in Overwrite(xs, n - 1, key, val);
          var j :| 0 <= j < n - 1 && key(xs[j]) == k;
          assert 0 <= j < n && key(xs[j]) == k;
        }
        if exists j :: 0 <= j < n && key(xs[j]) == k {
          var j :| 0 <= j < n && key(xs[j]) == k;
          if j < n - 1 {
            assert k in Overwrite(xs, n - 1, key, val);
          }
        }
      }
    }
  }

  /** The entry under a key is the value of the last of the first `n` entries with that key. */
  lemma {:induction false} OverwriteLastWins<X, K, V>(xs: seq<X>, n: nat, key: X -> K, val: X -> V, k: K, j: nat)
    requires n <= |xs| && j < n && key(xs[j]) == k
    requires forall i :: j < i < n ==> key(xs[i]) != k
    ensures k in Overwrite(xs, n, key, val) && Overwrite(xs, n, key, val)[k] == val(xs[j])
  {
    if j < n - 1 {
      OverwriteLastWins(xs, n - 1, key, val, k, j);
    }
  }

  /** Every value in the map is the value of one of the first `n` entries. */
  lemma {:induction false} OverwriteValues<X, K, V>(xs: seq<X>, n: nat, key: X -> K, val: X -> V)
    requires n <= |xs|
    ensures forall k :: k in Overwrite(xs, n, key, val) ==>
      exists j :: 0 <= j < n && Overwrite(xs, n, key, val)[k] == val(xs[j])
  {
    if n > 0 {
      OverwriteValues(xs, n - 1, key, val);
      var m := Overwrite(xs, n, key, val);
      forall k | k in m
        ensures exists j :: 0 <= j < n && m[k] == val(xs[j])
      {
        if k == key(xs[n - 1]) {
          assert m[k] == val(xs[n - 1]);
        } else {
          assert k in Overwrite(xs, n - 1, key, val);
          var j :| 0 <= j < n - 1 && Overwrite(xs, n - 1, key, val)[k] == val(xs[j]);
          assert m[k] == val(xs[j]);
        }
      }
    }
  }

  /** Record `j` is the last one of the first `n` to carry `name`. */
  predicate LastNamed(imgs: seq<ProcessedImage>, n: nat, name: string, j: nat)
    requires n <= |imgs|
  {
    j < n && ImageName(imgs[j]) == name && forall k :: j < k < n ==> ImageName(imgs[k]) != name
  }

  /** The map has an entry exactly for the names of the records. */
  lemma {:induction false} OcrMapKeys(imgs: seq<ProcessedImage>, n: nat)
    requires n <= |imgs|
    ensures forall name :: name in OcrMapOf(imgs, n) <==> exists j :: 0 <= j < n && ImageName(imgs[j]) == name
  {
    OverwriteKeys(imgs, n, ImageName, MapValue);
  }

  /** The entry under a name comes from the last record with that name. */
  lemma {:induction false} OcrMapLastWins(imgs: seq<ProcessedImage>, n: nat, name: string, j: nat)
    requires n <= |imgs| && LastNamed(imgs, n, name, j)
    ensures name in OcrMapOf(imgs, n) && OcrMapOf(imgs, n)[name] == MapValue(imgs[j])
  {
    OverwriteLastWins(imgs, n, ImageName, MapValue, name, j);
  }

  /** With OCR off every record has empty text, so every map entry is empty. */
  lemma {:induction false} OcrMapWithoutText(imgs: seq<ProcessedImage>, n: nat)
    requires n <= |imgs|
    requires forall i :: 0 <= i < |imgs| ==> imgs[i].ocrText == ""
    ensures forall name :: name in OcrMapOf(imgs, n) ==> OcrMapOf(imgs, n)[name] == ""
  {
    OverwriteValues(imgs, n, ImageName, MapValue);
  }

  /** An OCR map whose entries are all empty yields no image text items on any page. */
  lemma {:induction false} BlankMapNoImageItems(paints: seq<Option<Transform>>, pageNum: nat,
                                                imageOcrMap: map<string, string>, height: real)
    requires forall name :: name in imageOcrMap ==> imageOcrMap[name] == ""
    ensures ImageItemsOf(paints, pageNum, imageOcrMap, height) == []
  {
    var c := Candidates(paints, pageNum, imageOcrMap, height);
    var r := ImageItemsOf(paints, pageNum, imageOcrMap, height);
    forall k | 0 <= k < |c|
      ensures c[k].str == []
    {
      var key := ImageKey(pageNum, k + 1);
      if key in imageOcrMap {
        assert Trim(imageOcrMap[key]) == Trim("");
        assert SkipSpace("", 0) == 0;
      }
    }
    NonEmptyOfBlank(c);
  }

  /** Nothing survives the filter when every text is empty. */
  lemma {:induction false} NonEmptyOfBlank(items: seq<Item>)
    requires forall k :: 0 <= k < |items| ==> items[k].str == []
    ensures NonEmpty(items) == []
  {
    if items != [] {
      NonEmptyOfBlank(items[..|items| - 1]);
    }
  }

  /** Records that do carry page and index are filed under the key the page scan looks up. */
  lemma {:induction false} ImageNameIsImageKey(img: ProcessedImage)
    requires img.page.Some? && img.index.Some?
    ensures ImageName(img) == ImageKey(img.page.value, img.index.value)
  {
  }
}
