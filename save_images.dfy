/**
 * Image extraction bookkeeping of the PDF image saver: widening RGB pixels
 * to RGBA, filling the PNG pixel buffer, collecting a page's images with a
 * set of names already seen, and numbering the saved images page by page.
 */
module SaveImages {
  import opened Wrappers
  import opened Strings
  import opened PdfPage

  // ---------------------------------------------------------------------------
  // RGB to RGBA
  // ---------------------------------------------------------------------------

  /** Pixel `k` of `rgb` reappears as pixel `k` of `rgba` with an opaque alpha byte. */
  predicate PixelWidened(rgb: seq<uint8>, rgba: seq<uint8>, k: nat)
    requires 3 * k + 2 < |rgb| && 4 * k + 3 < |rgba|
  {
    rgba[4 * k] == rgb[3 * k] && rgba[4 * k + 1] == rgb[3 * k + 1] && rgba[4 * k + 2] == rgb[3 * k + 2] &&
    rgba[4 * k + 3] == 255
  }

  /** Three bytes per pixel widened to four: byte `j` of the result is channel `j % 4` of pixel `j / 4`. */
  function Rgba(rgb: seq<uint8>): (r: seq<uint8>)
    requires |rgb| % 3 == 0
    ensures |r| == |rgb| / 3 * 4
  {
    seq(|rgb| / 3 * 4, j requires 0 <= j < |rgb| / 3 * 4 => if j % 4 == 3 then 255 else rgb[j / 4 * 3 + j % 4])
  }

  /** Pixel `k` keeps its three channels and gains alpha 255. */
  lemma {:induction false} RgbaPixel(rgb: seq<uint8>, k: nat)
    requires |rgb| % 3 == 0 && k < |rgb| / 3
    ensures PixelWidened(rgb, Rgba(rgb), k)
  {
    var r := Rgba(rgb);
    assert (4 * k) / 4 == k && (4 * k) % 4 == 0;
    assert (4 * k + 1) / 4 == k && (4 * k + 1) % 4 == 1;
    assert (4 * k + 2) / 4 == k && (4 * k + 2) % 4 == 2;
    assert (4 * k + 3) % 4 == 3;
  }

  /** Every pixel keeps its three channels and gains alpha 255. */
  lemma {:induction false} RgbaPixels(rgb: seq<uint8>)
    requires |rgb| % 3 == 0
    ensures forall k: nat :: k < |rgb| / 3 ==> PixelWidened(rgb, Rgba(rgb), k)
  {
    forall k: nat | k < |rgb| / 3
      ensures PixelWidened(rgb, Rgba(rgb), k)
    {
      RgbaPixel(rgb, k);
    }
  }

  /** Dropping the alpha byte of every pixel. */
  function Rgb(rgba: seq<uint8>): (r: seq<uint8>)
    requires |rgba| % 4 == 0
    ensures |r| == |rgba| / 4 * 3
  {
    seq(|rgba| / 4 * 3, j requires 0 <= j < |rgba| / 4 * 3 => rgba[j / 3 * 4 + j % 3])
  }

  /** Widening loses nothing: dropping the alpha again gives back the RGB bytes. */
  lemma {:induction false} RgbOfRgba(rgb: seq<uint8>)
    requires |rgb| % 3 == 0
    ensures Rgb(Rgba(rgb)) == rgb
  {
    var back := Rgb(Rgba(rgb));
    assert |back| == |rgb|;
    forall j | 0 <= j < |rgb|
      ensures back[j] == rgb[j]
    {
      var k := j / 3;
      var c := j % 3;
      assert j / 3 * 4 + j % 3 == 4 * k + c;
      assert (4 * k + c) / 4 == k && (4 * k + c) % 4 == c;
    }
  }

  /** And an RGBA buffer whose alpha bytes are all 255 is the widening of its own RGB bytes. */
  lemma {:induction false} RgbaOfRgb(rgba: seq<uint8>)
    requires |rgba| % 4 == 0
    requires forall k :: 0 <= k < |rgba| / 4 ==> rgba[4 * k + 3] == 255
    ensures Rgba(Rgb(rgba)) == rgba
  {
    var there := Rgba(Rgb(rgba));
    assert |there| == |rgba|;
    forall j | 0 <= j < |rgba|
      ensures there[j] == rgba[j]
    {
      var k := j / 4;
      var c := j % 4;
      assert j == 4 * k + c;
      if c == 3 {
        assert rgba[4 * k + 3] == 255;
      } else {
        assert (3 * k + c) / 3 == k && (3 * k + c) % 3 == c;
      }
    }
  }

  /** `rgbToRgba`: the source's loop over `i = 0, 3, 6, ...`, writing at `i * 4 / 3`. */
  method RgbToRgba(imgData: seq<uint8>) returns (rgbaData: array<uint8>)
    requires |imgData| % 3 == 0
    ensures rgbaData[..] == Rgba(imgData)
  {
    rgbaData := new uint8[|imgData| / 3 * 4];
    ghost var want := Rgba(imgData);
    var i := 0;
    ghost var k := 0;
    while i < |imgData|
      invariant 0 <= i <= |imgData| && i == 3 * k && rgbaData.Length == |want|
      invariant forall j :: 0 <= j < 4 * k ==> rgbaData[j] == want[j]
    {
      assert i * 4 / 3 == 4 * k;
      RgbaPixel(imgData, k);
      rgbaData[(i * 4) / 3] := imgData[i];
      rgbaData[(i * 4) / 3 + 1] := imgData[i + 1];
      rgbaData[(i * 4) / 3 + 2] := imgData[i + 2];
      rgbaData[(i * 4) / 3 + 3] := 255;
      i := i + 3;
      k := k + 1;
    }
    assert rgbaData[..] == want;
  }

  // ---------------------------------------------------------------------------
  // The PNG pixel buffer
  // ---------------------------------------------------------------------------

  /** The bytes copied in: widened when there are exactly three per pixel, as given otherwise. */
  function PixelData(imageData: seq<uint8>, width: nat, height: nat): seq<uint8> {
    if |imageData| == width * height * 3 then Rgba(imageData) else imageData
  }

  /**
   * The PNG's pixel buffer: `width * height * 4` bytes, zero where nothing was
   * copied; bytes of the data past the end of the buffer are dropped.
   */
  function PngBuffer(imageData: seq<uint8>, width: nat, height: nat): (r: seq<uint8>)
    ensures |r| == width * height * 4
  {
    var data := PixelData(imageData, width, height);
    seq(width * height * 4, j requires 0 <= j < width * height * 4 => if j < |data| then data[j] else 0)
  }

  /** With three bytes per pixel the buffer is exactly the widened data. */
  lemma {:induction false} PngOfRgb(imageData: seq<uint8>, width: nat, height: nat)
    requires |imageData| == width * height * 3
    ensures PngBuffer(imageData, width, height) == Rgba(imageData)
    ensures Rgb(PngBuffer(imageData, width, height)) == imageData
  {
    var png := PngBuffer(imageData, width, height);
    assert |Rgba(imageData)| == |png|;
    assert forall j :: 0 <= j < |png| ==> png[j] == Rgba(imageData)[j];
    RgbOfRgba(imageData);
  }

  /** With four bytes per pixel the data is copied unchanged, index for index. */
  lemma {:induction false} PngOfRgba(imageData: seq<uint8>, width: nat, height: nat)
    requires |imageData| == width * height * 4 && width * height > 0
    ensures PngBuffer(imageData, width, height) == imageData
  {
    var png := PngBuffer(imageData, width, height);
    assert |imageData| != width * height * 3;
    assert forall j :: 0 <= j < |png| ==> png[j] == imageData[j];
  }

  /** The decision of `createPNG`: widen when the data has exactly three bytes per pixel. */
  method ChannelData(imageData: seq<uint8>, width: nat, height: nat) returns (data: seq<uint8>)
    ensures data == PixelData(imageData, width, height)
  {
    data := imageData;
    if |imageData| == width * height * 3 {
      var rgba := RgbToRgba(imageData);
      data := rgba[..];
    }
  }

  /**
   * Data of any other length is copied unchanged, index for index, into the buffer: bytes past
   * its end are dropped, and where the data runs out the buffer keeps its zeros.
   */
  lemma {:induction false} PngOfOther(imageData: seq<uint8>, width: nat, height: nat)
    requires |imageData| != width * height * 3
    ensures forall j :: 0 <= j < width * height * 4 ==>
      PngBuffer(imageData, width, height)[j] == if j < |imageData| then imageData[j] else 0
  {
    assert PixelData(imageData, width, height) == imageData;
  }

  /**
   * `createPNG` up to the encoder: a zero-filled buffer of `width * height * 4`
   * bytes (what `new PNG({width, height})` allocates) receives the data byte by byte.
   */
  method CreatePng(imageData: seq<uint8>, width: nat, height: nat) returns (png: array<uint8>)
    ensures png[..] == PngBuffer(imageData, width, height)
  {
    png := new uint8[width * height * 4](_ => 0);
    var data := ChannelData(imageData, width, height);
    for i := 0 to |data|
      invariant forall j :: 0 <= j < png.Length ==> png[j] == if j < i then data[j] else 0
    {
      if i < png.Length {
        png[i] := data[i];
      }
    }
    assert forall j :: 0 <= j < png.Length ==> png[j] == PngBuffer(imageData, width, height)[j];
  }

  // ---------------------------------------------------------------------------
  // One page's images
  // ---------------------------------------------------------------------------

  /** One collected image: its name, PNG pixel buffer and size. */
  datatype PngImage = PngImage(name: string, data: seq<uint8>, width: nat, height: nat)

  /** The collector's state: `images` so far, and `processedImages`, the object names already met. */
  datatype Collected = Collected(images: seq<PngImage>, processed: set<string>)

  /** An image object turned into a collected image under `name`. */
  function ToPng(name: string, obj: ImageObj): PngImage
    requires Usable(obj)
  {
    PngImage(name, PngBuffer(obj.data.value, obj.width, obj.height), obj.width, obj.height)
  }

  /** The name of an inline image: the number of images collected before it. */
  function InlineName(count: nat): string {
    "inline_" + NatToString(count)
  }

  /**
   * One operator. A named object is looked up once per page (a name missing
   * from `objs` is a lookup that threw); an inline image is taken when usable.
   */
  function Collect(st: Collected, op: Op, objs: map<string, ImageObj>): Collected {
    match op
    case PaintImageXObject(name, _) =>
      if name in st.processed then st
      else if name in objs && Usable(objs[name]) then
        Collected(st.images + [ToPng(name, objs[name])], st.processed + {name})
      else Collected(st.images, st.processed + {name})
    case PaintInlineImageXObject(inline) =>
      if inline.Some? && Usable(inline.value) then
        Collected(st.images + [ToPng(InlineName(|st.images|), inline.value)], st.processed)
      else st
    case OtherOp => st
  }

  /** The state after the operators `ops`, in order. */
  function CollectAll(ops: seq<Op>, objs: map<string, ImageObj>): Collected {
    if ops == [] then Collected([], {})
    else Collect(CollectAll(ops[..|ops| - 1], objs), ops[|ops| - 1], objs)
  }

  /** `extractPageImages`: no images when the operator list cannot be read. */
  function PageImages(ops: Option<seq<Op>>, objs: map<string, ImageObj>): seq<PngImage> {
    if ops.None? then [] else CollectAll(ops.value, objs).images
  }

  method ExtractPageImages(ops: Option<seq<Op>>, objs: map<string, ImageObj>) returns (images: seq<PngImage>)
    ensures images == PageImages(ops, objs)
  {
    images := [];
    if ops.None? {
      return;
    }
    var fnArray := ops.value;
    var processedImages: set<string> := {};
    for j := 0 to |fnArray|
      invariant Collected(images, processedImages) == CollectAll(fnArray[..j], objs)
    {
      assert fnArray[..j + 1][..j] == fnArray[..j];
      match fnArray[j]
      case PaintImageXObject(imgName, _) =>
        if imgName in processedImages {
          continue;
        }
        processedImages := processedImages + {imgName};
        if imgName in objs && Usable(objs[imgName]) {
          var imgObj := objs[imgName];
          var pngData := CreatePng(imgObj.data.value, imgObj.width, imgObj.height);
          images := images + [PngImage(imgName, pngData[..], imgObj.width, imgObj.height)];
        }
      case PaintInlineImageXObject(imgData) =>
        if imgData.Some? && Usable(imgData.value) {
          var obj := imgData.value;
          var pngData := CreatePng(obj.data.value, obj.width, obj.height);
          images := images + [PngImage(InlineName(|images|), pngData[..], obj.width, obj.height)];
        }
      case OtherOp =>
    }
    assert fnArray[..|fnArray|] == fnArray;
  }

  /** Operator `i` paints the named object `name`. */
  predicate PaintsNamed(ops: seq<Op>, i: nat, name: string)
    requires i < |ops|
  {
    ops[i].PaintImageXObject? && ops[i].name == name
  }

  /** The names met are exactly the names of the `paintImageXObject` operators. */
  lemma {:induction false} ProcessedNames(ops: seq<Op>, objs: map<string, ImageObj>)
    ensures forall name :: name in CollectAll(ops, objs).processed <==>
      exists i :: 0 <= i < |ops| && PaintsNamed(ops, i, name)
  {
    if ops != [] {
      var p := ops[..|ops| - 1];
      var last := ops[|ops| - 1];
      ProcessedNames(p, objs);
      var before := CollectAll(p, objs).processed;
      assert CollectAll(ops, objs).processed == before + (if last.PaintImageXObject? then {last.name} else {});
      forall name
        ensures name in CollectAll(ops, objs).processed <==>
          exists i :: 0 <= i < |ops| && PaintsNamed(ops, i, name)
      {
        if name in before {
          var i :| 0 <= i < |p| && PaintsNamed(p, i, name);
          assert ops[i] == p[i];
          assert PaintsNamed(ops, i, name);
        } else if last.PaintImageXObject? && last.name == name {
          assert PaintsNamed(ops, |ops| - 1, name);
        }
        if exists i :: 0 <= i < |ops| && PaintsNamed(ops, i, name) {
          var i :| 0 <= i < |ops| && PaintsNamed(ops, i, name);
          if i < |ops| - 1 {
            assert p[i] == ops[i];
            assert PaintsNamed(p, i, name);
          }
        }
      }
    }
  }

  /** A name already referenced on the page is skipped: a repeated reference adds nothing. */
  lemma {:induction false} RepeatedNameSkipped(ops: seq<Op>, name: string, matrix: Option<Transform>,
                                               objs: map<string, ImageObj>, i: nat)
    requires i < |ops| && ops[i].PaintImageXObject? && ops[i].name == name
    ensures CollectAll(ops + [PaintImageXObject(name, matrix)], objs) == CollectAll(ops, objs)
  {
    ProcessedNames(ops, objs);
    assert PaintsNamed(ops, i, name);
    assert name in CollectAll(ops, objs).processed;
    assert (ops + [PaintImageXObject(name, matrix)])[..|ops|] == ops;
  }

  /** Images come out in operator order: a prefix of the operators yields a prefix of the images. */
  lemma {:induction false} CollectedInOrder(ops: seq<Op>, objs: map<string, ImageObj>, n: nat)
    requires n <= |ops|
    ensures CollectAll(ops[..n], objs).images <= CollectAll(ops, objs).images
  {
    if n < |ops| {
      var p := ops[..|ops| - 1];
      assert p[..n] == ops[..n];
      CollectedInOrder(p, objs, n);
    } else {
      assert ops[..n] == ops;
    }
  }

  /** Each image is named after a referenced object, or is `inline_k` at its own position `k`. */
  lemma {:induction false} CollectedNames(ops: seq<Op>, objs: map<string, ImageObj>)
    ensures var st := CollectAll(ops, objs);
      forall k :: 0 <= k < |st.images| ==> st.images[k].name in st.processed || st.images[k].name == InlineName(k)
    ensures |CollectAll(ops, objs).images| <= |ops|
  {
    if ops != [] {
      CollectedNames(ops[..|ops| - 1], objs);
    }
  }

  /** The collector's states on two runs that differ only by one failed lookup of `name`. */
  predicate SameButName(a: Collected, b: Collected, name: string) {
    a.images == b.images && a.processed == b.processed + {name}
  }

  /** A failed lookup never turns into an image later, so the runs stay in step. */
  lemma {:induction false} CollectSameButName(a: Collected, b: Collected, name: string, op: Op,
                                              objs: map<string, ImageObj>)
    requires name !in objs && SameButName(a, b, name)
    ensures SameButName(Collect(a, op, objs), Collect(b, op, objs), name)
  {
  }

  /** After the operators `q`, both runs are still in step. */
  lemma {:induction false} CollectRestSameButName(p: seq<Op>, q: seq<Op>, name: string, matrix: Option<Transform>,
                                                  objs: map<string, ImageObj>)
    requires name !in objs
    ensures SameButName(CollectAll(p + [PaintImageXObject(name, matrix)] + q, objs), CollectAll(p + q, objs), name)
  {
    var op := PaintImageXObject(name, matrix);
    if q == [] {
      assert p + [op] + q == p + [op];
      assert (p + [op])[..|p|] == p;
      assert p + q == p;
    } else {
      var q' := q[..|q| - 1];
      CollectRestSameButName(p, q', name, matrix, objs);
      assert (p + [op] + q)[..|p + [op] + q| - 1] == p + [op] + q';
      assert (p + q)[..|p + q| - 1] == p + q';
      CollectSameButName(CollectAll(p + [op] + q', objs), CollectAll(p + q', objs), name, q[|q| - 1], objs);
    }
  }

  /** An object whose lookup throws is skipped and the remaining operators are processed as if it were absent. */
  lemma {:induction false} FailedLookupSkipped(p: seq<Op>, q: seq<Op>, name: string, matrix: Option<Transform>,
                                               objs: map<string, ImageObj>)
    requires name !in objs
    ensures CollectAll(p + [PaintImageXObject(name, matrix)] + q, objs).images == CollectAll(p + q, objs).images
  {
    CollectRestSameButName(p, q, name, matrix, objs);
  }

  // ---------------------------------------------------------------------------
  // Saving, page by page
  // ---------------------------------------------------------------------------

  /** What the saver needs of one page: its operator list (`None` when it cannot be read) and its objects. */
  datatype PageSource = PageSource(ops: Option<seq<Op>>, objs: map<string, ImageObj>)

  /** One saved image's record; `path` is the file name under the output directory. */
  datatype SavedImage = SavedImage(path: string, pageNum: nat, imageNum: nat, width: nat, height: nat)

  /** The default `nameFormat`. */
  function ImageFileName(pageNum: nat, imageNum: nat): string {
    "page_" + NatToString(pageNum) + "_image_" + NatToString(imageNum) + ".png"
  }

  /** How many of the page's images are written before the first write that throws. */
  function SavedCount(pageNum: nat, count: nat, writeFails: (nat, nat) -> bool, from: nat): (k: nat)
    requires from <= count
    ensures from <= k <= count
    ensures forall i :: from < i <= k ==> !writeFails(pageNum, i)
    ensures k < count ==> writeFails(pageNum, k + 1)
    decreases count - from
  {
    if from == count || writeFails(pageNum, from + 1) then from else SavedCount(pageNum, count, writeFails, from + 1)
  }

  /** The records of one page: images `1..k` in extraction order, `k` the count written. */
  function PageRecords(pageNum: nat, images: seq<PngImage>, writeFails: (nat, nat) -> bool): (r: seq<SavedImage>)
    ensures |r| == SavedCount(pageNum, |images|, writeFails, 0)
    ensures forall i :: 0 <= i < |r| ==>
      r[i] == SavedImage(ImageFileName(pageNum, i + 1), pageNum, i + 1, images[i].width, images[i].height)
  {
    var k := SavedCount(pageNum, |images|, writeFails, 0);
    seq(k, i requires 0 <= i < k => SavedImage(ImageFileName(pageNum, i + 1), pageNum, i + 1, images[i].width, images[i].height))
  }

  /** The records of the first `n` pages, pages numbered from 1. */
  function SavedFrom(pages: seq<PageSource>, writeFails: (nat, nat) -> bool, n: nat): seq<SavedImage>
    requires n <= |pages|
  {
    if n == 0 then []
    else SavedFrom(pages, writeFails, n - 1) + PageSaved(pages[n - 1], n, writeFails)
  }

  /** What one page contributes: its collected images, saved until a write throws. */
  function PageSaved(page: PageSource, pageNum: nat, writeFails: (nat, nat) -> bool): seq<SavedImage> {
    PageRecords(pageNum, PageImages(page.ops, page.objs), writeFails)
  }

  /** The inner loop: save each image; a write that throws abandons the rest of the page. */
  method SavePageImages(pageNum: nat, images: seq<PngImage>, writeFails: (nat, nat) -> bool)
    returns (records: seq<SavedImage>)
    ensures records == PageRecords(pageNum, images, writeFails)
  {
    records := [];
    var i := 0;
    while i < |images|
      invariant i <= SavedCount(pageNum, |images|, writeFails, 0)
      invariant records == PageRecords(pageNum, images, writeFails)[..i]
    {
      if writeFails(pageNum, i + 1) {
        break;
      }
      var img := images[i];
      records := records + [SavedImage(ImageFileName(pageNum, i + 1), pageNum, i + 1, img.width, img.height)];
      i := i + 1;
    }
  }

  /** `saveImagesFromPDF`: every page in order, each page's images numbered from 1. */
  method SaveImagesFromPdf(pages: seq<PageSource>, writeFails: (nat, nat) -> bool)
    returns (savedImages: seq<SavedImage>)
    ensures savedImages == SavedFrom(pages, writeFails, |pages|)
  {
    savedImages := [];
    ghost var perPage: seq<seq<SavedImage>> := [];
    for pageNum := 1 to |pages| + 1
      invariant |perPage| == pageNum - 1
      invariant forall i :: 0 <= i < |perPage| ==> IsSaved(pages, perPage, i, writeFails)
      invariant savedImages == Concat(perPage)
    {
      var records := SavePage(pages[pageNum - 1], pageNum, writeFails);
      SavedExtend(pages, perPage, records, writeFails);
      perPage := perPage + [records];
      savedImages := savedImages + records;
    }
    ConcatIsSavedFrom(pages, perPage, writeFails, |pages|);
    assert perPage[..|pages|] == perPage;
  }

  /** The pages' records one after another. */
  function Concat(parts: seq<seq<SavedImage>>): seq<SavedImage> {
    if parts == [] then [] else Concat(parts[..|parts| - 1]) + parts[|parts| - 1]
  }

  /** Entry `i` of `perPage` holds what page `i + 1` contributes. */
  predicate IsSaved(pages: seq<PageSource>, perPage: seq<seq<SavedImage>>, i: nat, writeFails: (nat, nat) -> bool)
    requires i < |perPage| && i < |pages|
  {
    perPage[i] == PageSaved(pages[i], i + 1, writeFails)
  }

  /** Appending the next page's records keeps every earlier entry in place. */
  lemma {:induction false} SavedExtend(pages: seq<PageSource>, perPage: seq<seq<SavedImage>>, records: seq<SavedImage>,
                                       writeFails: (nat, nat) -> bool)
    requires |perPage| < |pages|
    requires forall i :: 0 <= i < |perPage| ==> IsSaved(pages, perPage, i, writeFails)
    requires records == PageSaved(pages[|perPage|], |perPage| + 1, writeFails)
    ensures forall i :: 0 <= i < |perPage| + 1 ==> IsSaved(pages, perPage + [records], i, writeFails)
    ensures Concat(perPage + [records]) == Concat(perPage) + records
  {
    var next := perPage + [records];
    assert next[..|next| - 1] == perPage;
    forall i | 0 <= i < |next|
      ensures IsSaved(pages, next, i, writeFails)
    {
      if i < |perPage| {
        assert IsSaved(pages, perPage, i, writeFails);
        assert next[i] == perPage[i];
      }
    }
  }

  /** The entries of the first `n` pages, concatenated, are the records `SavedFrom` describes. */
  lemma {:induction false} ConcatIsSavedFrom(pages: seq<PageSource>, perPage: seq<seq<SavedImage>>,
                                             writeFails: (nat, nat) -> bool, n: nat)
    requires n <= |perPage| == |pages|
    requires forall i :: 0 <= i < |perPage| ==> IsSaved(pages, perPage, i, writeFails)
    ensures Concat(perPage[..n]) == SavedFrom(pages, writeFails, n)
  {
    if n > 0 {
      ConcatIsSavedFrom(pages, perPage, writeFails, n - 1);
      assert perPage[..n][..n - 1] == perPage[..n - 1];
      assert IsSaved(pages, perPage, n - 1, writeFails);
    }
  }

  /** One pass of the page loop: extract the page's images, then save them. */
  method SavePage(page: PageSource, pageNum: nat, writeFails: (nat, nat) -> bool) returns (records: seq<SavedImage>)
    ensures records == PageSaved(page, pageNum, writeFails)
  {
    var images := ExtractPageImages(page.ops, page.objs);
    records := SavePageImages(pageNum, images, writeFails);
  }

  /** Record `a` comes before record `b`: an earlier page, or the same page and a lower number. */
  predicate Before(a: SavedImage, b: SavedImage) {
    a.pageNum < b.pageNum || (a.pageNum == b.pageNum && a.imageNum < b.imageNum)
  }

  /** Records on pages `1..n`, ordered, numbered from 1. */
  predicate OrderedRecords(s: seq<SavedImage>, n: nat) {
    (forall i :: 0 <= i < |s| ==> 1 <= s[i].pageNum <= n && 1 <= s[i].imageNum) &&
    (forall i, j :: 0 <= i < j < |s| ==> Before(s[i], s[j]))
  }

  /** Appending one page's records, numbered `1..k` on page `n`, keeps the order. */
  lemma {:induction false} OrderedAppend(prev: seq<SavedImage>, recs: seq<SavedImage>, n: nat)
    requires n >= 1 && OrderedRecords(prev, n - 1)
    requires forall i :: 0 <= i < |recs| ==> recs[i].pageNum == n && recs[i].imageNum == i + 1
    ensures OrderedRecords(prev + recs, n)
  {
    var s := prev + recs;
    forall i, j | 0 <= i < j < |s|
      ensures Before(s[i], s[j])
    {
      if j >= |prev| && i < |prev| {
        assert s[i] == prev[i] && s[j] == recs[j - |prev|];
      } else if i >= |prev| {
        assert s[i] == recs[i - |prev|] && s[j] == recs[j - |prev|];
      } else {
        assert s[i] == prev[i] && s[j] == prev[j];
      }
    }
    forall i | 0 <= i < |s|
      ensures 1 <= s[i].pageNum <= n && 1 <= s[i].imageNum
    {
      if i < |prev| {
        assert s[i] == prev[i];
      } else {
        assert s[i] == recs[i - |prev|];
      }
    }
  }

  /** Records are ordered by page and then by image number, pages lie in `1..n`, and numbers start at 1. */
  lemma {:induction false} SavedOrdered(pages: seq<PageSource>, writeFails: (nat, nat) -> bool, n: nat)
    requires n <= |pages|
    ensures OrderedRecords(SavedFrom(pages, writeFails, n), n)
  {
    if n > 0 {
      SavedOrdered(pages, writeFails, n - 1);
      var images := PageImages(pages[n - 1].ops, pages[n - 1].objs);
      OrderedAppend(SavedFrom(pages, writeFails, n - 1), PageRecords(n, images, writeFails), n);
    }
  }

  /** When no write throws, every collected image of every page is recorded. */
  lemma {:induction false} AllWritesSucceed(pageNum: nat, images: seq<PngImage>, writeFails: (nat, nat) -> bool)
    requires forall i :: 1 <= i <= |images| ==> !writeFails(pageNum, i)
    ensures |PageRecords(pageNum, images, writeFails)| == |images|
  {
  }
}
