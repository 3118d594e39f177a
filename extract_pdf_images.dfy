/**
 * `src/lib/extract-pdf-images.js`: magic-number sniffing of image bytes, and the size and type
 * filter of the `extractPdfImages` generator over every page's `paintImageXObject` operators.
 * `imageToBase64` is `Base64.DataUrl`.
 */
module ExtractPdfImages {
  import opened Wrappers
  import opened PdfPage

  /** The start-of-image marker `FF D8` of a JPEG stream (ITU-T T.81, Table B.1). */
  const JpegSoi: seq<uint8> := [0xFF, 0xD8]

  /** The eight-byte PNG signature (section 5.2 of the PNG specification, ISO/IEC 15948). */
  const PngSignature: seq<uint8> := [0x89, 0x50, 0x4E, 0x47, 0x0D, 0x0A, 0x1A, 0x0A]

  /** `data` begins with the bytes of `prefix`. */
  predicate HasPrefix(data: seq<uint8>, prefix: seq<uint8>) {
    |prefix| <= |data| && data[..|prefix|] == prefix
  }

  /**
   * `determineImageType(data)`: 'jpeg' on the JPEG marker, 'png' on the first four bytes of the
   * PNG signature, 'unknown' otherwise; a byte past the end reads as `undefined` and matches nothing.
   */
  function DetermineImageType(data: seq<uint8>): string {
    if |data| >= 2 && data[0] == 0xFF && data[1] == 0xD8 then "jpeg"
    else if |data| >= 4 && data[0] == 0x89 && data[1] == 0x50 && data[2] == 0x4E && data[3] == 0x47 then "png"
    else "unknown"
  }

  /** The sniffer says 'jpeg' exactly for data that opens with the JPEG start-of-image marker. */
  lemma {:induction false} SniffJpeg(data: seq<uint8>)
    ensures DetermineImageType(data) == "jpeg" <==> HasPrefix(data, JpegSoi)
  {
    if HasPrefix(data, JpegSoi) {
      assert data[0] == data[..2][0] && data[1] == data[..2][1];
    }
  }

  /**
   * Away from a JPEG marker, the sniffer says 'png' exactly for data that opens with the first
   * four bytes of the PNG signature; so a complete PNG signature is always recognised.
   */
  lemma {:induction false} SniffPng(data: seq<uint8>)
    requires !HasPrefix(data, JpegSoi)
    ensures DetermineImageType(data) == "png" <==> HasPrefix(data, PngSignature[..4])
    ensures HasPrefix(data, PngSignature) ==> DetermineImageType(data) == "png"
  {
    SniffJpeg(data);
    if HasPrefix(data, PngSignature[..4]) {
      assert data[..4][0] == data[0] && data[..4][1] == data[1] && data[..4][2] == data[2] && data[..4][3] == data[3];
    }
    if DetermineImageType(data) == "png" {
      assert data[..4] == PngSignature[..4];
    }
    if HasPrefix(data, PngSignature) {
      assert data[..8][..4] == data[..4];
    }
  }

  /** Data shorter than a tested prefix can only be 'unknown'. */
  lemma {:induction false} SniffShort(data: seq<uint8>)
    ensures |data| < 2 ==> DetermineImageType(data) == "unknown"
    ensures |data| < 4 ==> DetermineImageType(data) != "png"
    ensures DetermineImageType(data) in {"jpeg", "png", "unknown"}
  {
  }

  /** One yielded image: the object's bytes, the sniffed type, its size and the 1-based page number. */
  datatype ExtractedImage = ExtractedImage(data: seq<uint8>, imageType: string, width: nat, height: nat, pageNumber: nat)

  /** A loaded page: its operator list and the objects `commonObjs.get` resolves before the timeout. */
  datatype SourcePage = SourcePage(ops: seq<Op>, commonObjs: map<string, ImageObj>)

  /** The generator's options: `imageTypes` (default `['jpeg', 'png']`) and `minSize` (default 100). */
  datatype Options = Options(imageTypes: seq<string>, minSize: nat)

  const DefaultOptions := Options(["jpeg", "png"], 100)

  /** The image painted by `op` passes the `img.data.length > minSize` and `imageTypes.includes` tests. */
  predicate Accepted(op: Op, objs: map<string, ImageObj>, opts: Options) {
    op.PaintImageXObject? && op.name in objs && objs[op.name].data.Some? &&
    |objs[op.name].data.value| > opts.minSize &&
    DetermineImageType(objs[op.name].data.value) in opts.imageTypes
  }

  /** What one operator yields: a record for an accepted image, nothing otherwise. */
  function OpYield(op: Op, objs: map<string, ImageObj>, pageNum: nat, opts: Options): seq<ExtractedImage> {
    if Accepted(op, objs, opts) then
      var img := objs[op.name];
      [ExtractedImage(img.data.value, DetermineImageType(img.data.value), img.width, img.height, pageNum)]
    else []
  }

  /** What the first `n` operators of a page yield, in operator order. */
  function PageYield(page: SourcePage, pageNum: nat, opts: Options, n: nat): seq<ExtractedImage>
    requires n <= |page.ops|
  {
    if n == 0 then []
    else PageYield(page, pageNum, opts, n - 1) + OpYield(page.ops[n - 1], page.commonObjs, pageNum, opts)
  }

  /** What the first `p` pages yield, pages numbered from 1. */
  function Yielded(pages: seq<SourcePage>, opts: Options, p: nat): seq<ExtractedImage>
    requires p <= |pages|
  {
    if p == 0 then []
    else Yielded(pages, opts, p - 1) + PageYield(pages[p - 1], p, opts, |pages[p - 1].ops|)
  }

  /** `extractPdfImages(pdfBuffer, options)`, with the generator's output collected in order. */
  method ExtractPdfImages(pages: seq<SourcePage>, opts: Options) returns (images: seq<ExtractedImage>)
    ensures images == Yielded(pages, opts, |pages|)
  {
    images := [];
    for pageNum := 1 to |pages| + 1
      invariant images == Yielded(pages, opts, pageNum - 1)
    {
      var found := ExtractFromPage(pages[pageNum - 1], pageNum, opts);
      images := images + found;
    }
  }

  /** The generator's inner loop over one page's operators. */
  method ExtractFromPage(page: SourcePage, pageNum: nat, opts: Options) returns (found: seq<ExtractedImage>)
    ensures found == PageYield(page, pageNum, opts, |page.ops|)
  {
    found := [];
    for i := 0 to |page.ops|
      invariant found == PageYield(page, pageNum, opts, i)
    {
      var op := page.ops[i];
      if op.PaintImageXObject? && op.name in page.commonObjs {
        var img := page.commonObjs[op.name];
        if img.data.Some? && |img.data.value| > opts.minSize {
          var imageType := DetermineImageType(img.data.value);
          if imageType in opts.imageTypes {
            found := found + [ExtractedImage(img.data.value, imageType, img.width, img.height, pageNum)];
          }
        }
      }
    }
  }

  /** A yielded record passes the filter, has the sniffed type and names a page in `1..p`. */
  predicate Sound(r: ExtractedImage, opts: Options, p: nat) {
    |r.data| > opts.minSize && r.imageType == DetermineImageType(r.data) && r.imageType in opts.imageTypes &&
    1 <= r.pageNumber <= p
  }

  /** Every record of a page passes the filter and carries that page's number. */
  lemma {:induction false} PageYieldSound(page: SourcePage, pageNum: nat, opts: Options, n: nat)
    requires n <= |page.ops| && pageNum >= 1
    ensures forall r :: r in PageYield(page, pageNum, opts, n) ==> Sound(r, opts, pageNum) && r.pageNumber == pageNum
  {
    if n > 0 {
      PageYieldSound(page, pageNum, opts, n - 1);
    }
  }

  /** Every yielded record passes the filter, and records come in page order. */
  lemma {:induction false} YieldedSound(pages: seq<SourcePage>, opts: Options, p: nat)
    requires p <= |pages|
    ensures forall i :: 0 <= i < |Yielded(pages, opts, p)| ==> Sound(Yielded(pages, opts, p)[i], opts, p)
    ensures forall i, j :: 0 <= i < j < |Yielded(pages, opts, p)| ==>
      Yielded(pages, opts, p)[i].pageNumber <= Yielded(pages, opts, p)[j].pageNumber
  {
    if p > 0 {
      YieldedSound(pages, opts, p - 1);
      var prev := Yielded(pages, opts, p - 1);
      var page := PageYield(pages[p - 1], p, opts, |pages[p - 1].ops|);
      PageYieldSound(pages[p - 1], p, opts, |pages[p - 1].ops|);
      var all := prev + page;
      forall i | 0 <= i < |all| ensures Sound(all[i], opts, p) {
        if i < |prev| {
          assert all[i] == prev[i];
        } else {
          assert all[i] == page[i - |prev|] && all[i] in page;
        }
      }
      forall i, j | 0 <= i < j < |all| ensures all[i].pageNumber <= all[j].pageNumber {
        if j >= |prev| {
          assert all[j] == page[j - |prev|] && all[j] in page;
          if i < |prev| {
            assert all[i] == prev[i];
          } else {
            assert all[i] == page[i - |prev|] && all[i] in page;
          }
        } else {
          assert all[i] == prev[i] && all[j] == prev[j];
        }
      }
    }
  }

  /** With the default options, an image the sniffer cannot identify is never yielded. */
  lemma {:induction false} DefaultsSkipUnknown(pages: seq<SourcePage>)
    ensures forall r :: r in Yielded(pages, DefaultOptions, |pages|) ==> r.imageType != "unknown" && |r.data| > 100
  {
    YieldedSound(pages, DefaultOptions, |pages|);
    forall r | r in Yielded(pages, DefaultOptions, |pages|) ensures r.imageType != "unknown" && |r.data| > 100 {
      var i :| 0 <= i < |Yielded(pages, DefaultOptions, |pages|)| && Yielded(pages, DefaultOptions, |pages|)[i] == r;
      assert Sound(r, DefaultOptions, |pages|);
    }
  }

}
