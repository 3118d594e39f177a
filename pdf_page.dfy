/** What pdf.js hands the converters for one page, as plain data. */
module PdfPage {
  import opened Wrappers

  /** An unsigned byte (an element of a `Uint8Array`). */
  newtype uint8 = x: int | 0 <= x < 256

  /** A pdf.js transform matrix `[a, b, c, d, e, f]`: `a` is the horizontal scale, `e`, `f` the origin. */
  datatype Transform = Transform(a: real, b: real, c: real, d: real, e: real, f: real)

  /** One entry of `page.getTextContent().items`: `str`, `transform` and the optional `fontName`. */
  datatype TextRun = TextRun(str: string, transform: Transform, fontName: Option<string>)

  /** A decoded image object as pdf.js resolves it: pixel `data` (may be missing), `width`, `height`. */
  datatype ImageObj = ImageObj(data: Option<seq<uint8>>, width: nat, height: nat)

  /** One operator of `page.getOperatorList()`, the function code `fnArray[i]` with its `argsArray[i]`. */
  datatype Op =
      /** `paintImageXObject`: the object's name, and its third argument when that is an array. */
    | PaintImageXObject(name: string, matrix: Option<Transform>)
      /** `paintInlineImageXObject`: the image object carried in the first argument, if any. */
    | PaintInlineImageXObject(inline: Option<ImageObj>)
      /** Any other drawing operator. */
    | OtherOp

  /** A page: its text runs, its operator list and the height of its viewport at scale 1. */
  datatype Page = Page(runs: seq<TextRun>, ops: seq<Op>, height: real)

  /** JavaScript's truthiness test on an image object: `obj && obj.data && obj.width && obj.height`. */
  predicate Usable(obj: ImageObj) {
    obj.data.Some? && obj.width > 0 && obj.height > 0
  }
}
