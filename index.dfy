/**
 * `src/index.js`: `downCraft` checks its arguments in a fixed order, detects the file type from
 * the buffer's first bytes unless one is given, and routes the buffer to a converter.
 */
module DownCraft {
  import opened Wrappers
  import opened Strings
  import opened PdfPage

  // ---------------------------------------------------------------------------
  // detectFileType
  // ---------------------------------------------------------------------------

  /** `%PDF` */
  const PdfMagic: seq<uint8> := [0x25, 0x50, 0x44, 0x46]
  /** `word/` */
  const WordDir: seq<uint8> := [0x77, 0x6F, 0x72, 0x64, 0x2F]
  /** `ppt/` */
  const PptDir: seq<uint8> := [0x70, 0x70, 0x74, 0x2F]
  /** `xl/` */
  const XlDir: seq<uint8> := [0x78, 0x6C, 0x2F]

  /** `sub` occurs in `s` at `i`. */
  predicate BytesAt(s: seq<uint8>, sub: seq<uint8>, i: nat) {
    i + |sub| <= |s| && s[i..i + |sub|] == sub
  }

  /**
   * `s` holds `sub`. For ASCII `sub` this is `buffer.toString('utf8', ...).includes(sub)`: UTF-8
   * decoding turns ASCII bytes into the same characters and never produces an ASCII character
   * from any other byte.
   */
  predicate HasBytes(s: seq<uint8>, sub: seq<uint8>) {
    exists i: nat :: i <= |s| && BytesAt(s, sub, i)
  }

  /** The first 200 bytes, or the whole buffer when it is shorter. */
  function Head(buffer: seq<uint8>): (h: seq<uint8>)
    ensures |h| == (if |buffer| <= 200 then |buffer| else 200) && h == buffer[..|h|]
  {
    if |buffer| <= 200 then buffer else buffer[..200]
  }

  /** The buffer starts with `%PDF`. */
  predicate IsPdf(buffer: seq<uint8>) {
    |buffer| >= 4 && buffer[..4] == PdfMagic
  }

  /** The buffer starts with the ZIP signature `PK`. */
  predicate IsZip(buffer: seq<uint8>) {
    |buffer| >= 2 && buffer[0] == 0x50 && buffer[1] == 0x4B
  }

  /**
   * `detectFileType(buffer)`: a `%PDF` prefix gives `pdf` whatever follows. After a `PK` prefix the
   * first 200 bytes decide: `word/` gives `docx`, else `ppt/` gives `pptx`, else `xl/` gives `xlsx`.
   * Anything else is `null`.
   */
  function DetectFileType(buffer: seq<uint8>): (r: Option<string>)
    ensures r == Some("pdf") <==> IsPdf(buffer)
    ensures r == Some("docx") <==> !IsPdf(buffer) && IsZip(buffer) && HasBytes(Head(buffer), WordDir)
    ensures r == Some("pptx") <==>
      !IsPdf(buffer) && IsZip(buffer) && !HasBytes(Head(buffer), WordDir) && HasBytes(Head(buffer), PptDir)
    ensures r == Some("xlsx") <==>
      !IsPdf(buffer) && IsZip(buffer) && !HasBytes(Head(buffer), WordDir) && !HasBytes(Head(buffer), PptDir) &&
      HasBytes(Head(buffer), XlDir)
    ensures r.None? || r.value in SupportedTypes
  {
    if IsPdf(buffer) then Some("pdf")
    else if IsZip(buffer) then
      var content := Head(buffer);
      if HasBytes(content, WordDir) then Some("docx")
      else if HasBytes(content, PptDir) then Some("pptx")
      else if HasBytes(content, XlDir) then Some("xlsx")
      else None
    else None
  }

  /** A buffer too short to hold either signature has no detected type. */
  lemma {:induction false} DetectShort(buffer: seq<uint8>)
    requires |buffer| < 2
    ensures DetectFileType(buffer).None?
  {
  }

  /** A ZIP archive names its members within its first 200 bytes or not at all, as far as detection goes. */
  lemma {:induction false} DetectLooksAtHead(buffer: seq<uint8>, tail: seq<uint8>)
    requires |buffer| >= 200
    ensures DetectFileType(buffer + tail) == DetectFileType(buffer)
  {
    var b := buffer + tail;
    assert b[..4] == buffer[..4] && b[..200] == buffer[..200];
  }

  // ---------------------------------------------------------------------------
  // downCraft
  // ---------------------------------------------------------------------------

  /** `SUPPORTED_TYPES` */
  const SupportedTypes: seq<string> := ["pdf", "docx", "pptx", "xlsx"]
  /** `CONVERTER_TYPES` */
  const ConverterTypes: seq<string> := ["standard", "llm", "ocr"]

  /** `llmParams`; an absent or empty field is `""`. */
  datatype LlmParams = LlmParams(baseURL: string, apiKey: string, model: string)

  /** The options of `downCraft`; a missing field is `None`. */
  datatype Options = Options(pdfConverterType: Option<string>, llmParams: Option<LlmParams>)

  /** The converter `downCraft` hands the buffer to. */
  datatype Route = LlmPdf(params: LlmParams) | OcrPdf | StandardPdf | Docx | Pptx | Xlsx

  const NotBuffer := "First argument must be a Buffer"
  const BadConverter := "Invalid converter type. Supported types: " + Join(ConverterTypes, ", ")
  const BadFileType := "Unsupported or undetected file type. Supported types: " + Join(SupportedTypes, ", ")
  const BadLlmParams := "LLM converter requires llmParams object with `baseURL`, `apiKey`, and `model`"

  /** `pdfConverterType = 'standard'` */
  function ConverterType(options: Options): string {
    if options.pdfConverterType.Some? then options.pdfConverterType.value else "standard"
  }

  /** `fileType || detectFileType(fileBuffer)`: an empty or missing type is detected. */
  function FileType(buffer: seq<uint8>, fileType: Option<string>): Option<string> {
    if fileType.Some? && fileType.value != "" then fileType else DetectFileType(buffer)
  }

  /** The LLM parameters are present and each of `baseURL`, `apiKey` and `model` is non-empty. */
  predicate LlmParamsGiven(options: Options) {
    options.llmParams.Some? && options.llmParams.value.baseURL != "" &&
    options.llmParams.value.apiKey != "" && options.llmParams.value.model != ""
  }

  /** The route for a supported type: PDFs by converter type, every other type by its own converter. */
  function RouteOf(detectedType: string, converterType: string, options: Options): Route
    requires detectedType in SupportedTypes
  {
    if detectedType == "pdf" then
      if converterType == "llm" && options.llmParams.Some? then LlmPdf(options.llmParams.value)
      else if converterType == "ocr" then OcrPdf
      else StandardPdf
    else if detectedType == "docx" then Docx
    else if detectedType == "pptx" then Pptx
    else Xlsx
  }

  /**
   * `downCraft(fileBuffer, fileType, options)` up to the converter call: the checks in the
   * source's order, then the route. `isBuffer` is the `Buffer.isBuffer` test.
   */
  function DownCraft(isBuffer: bool, buffer: seq<uint8>, fileType: Option<string>, options: Options)
    : (r: Result<Route, string>)
    ensures !isBuffer ==> r == Err(NotBuffer)
    ensures isBuffer && ConverterType(options) !in ConverterTypes ==> r == Err(BadConverter)
    ensures isBuffer && ConverterType(options) in ConverterTypes &&
            (FileType(buffer, fileType).None? || FileType(buffer, fileType).value !in SupportedTypes) ==>
            r == Err(BadFileType)
    ensures r.Ok? ==>
      (isBuffer && ConverterType(options) in ConverterTypes &&
       FileType(buffer, fileType).Some? && FileType(buffer, fileType).value in SupportedTypes &&
       (ConverterType(options) == "llm" ==> LlmParamsGiven(options)))
  {
    if !isBuffer then Err(NotBuffer)
    else
      var converterType := ConverterType(options);
      if converterType !in ConverterTypes then Err(BadConverter)
      else
        var detectedType := FileType(buffer, fileType);
        if detectedType.None? || detectedType.value !in SupportedTypes then Err(BadFileType)
        else if converterType == "llm" && !LlmParamsGiven(options) then Err(BadLlmParams)
        else Ok(RouteOf(detectedType.value, converterType, options))
  }

  /**
   * Missing LLM parameters are rejected whenever the LLM converter is chosen, for any supported
   * file type and not only for PDFs.
   */
  lemma {:induction false} LlmParamsCheckedForAllTypes(buffer: seq<uint8>, fileType: Option<string>, options: Options)
    requires ConverterType(options) == "llm" && !LlmParamsGiven(options)
    requires FileType(buffer, fileType).Some? && FileType(buffer, fileType).value in SupportedTypes
    ensures DownCraft(true, buffer, fileType, options) == Err(BadLlmParams)
  {
  }

  /** An explicit file type bypasses detection: the buffer's bytes no longer matter. */
  lemma {:induction false} ExplicitTypeBypassesDetection(b1: seq<uint8>, b2: seq<uint8>, fileType: string, options: Options)
    requires fileType != ""
    ensures DownCraft(true, b1, Some(fileType), options) == DownCraft(true, b2, Some(fileType), options)
  {
  }

  /**
   * A valid request is routed: a PDF to the converter its type names (the standard one by
   * default), a Word, PowerPoint or Excel file to its own converter whatever the converter type.
   */
  lemma {:induction false} Routing(buffer: seq<uint8>, fileType: Option<string>, options: Options)
    requires ConverterType(options) in ConverterTypes
    requires FileType(buffer, fileType).Some? && FileType(buffer, fileType).value in SupportedTypes
    requires ConverterType(options) == "llm" ==> LlmParamsGiven(options)
    ensures var t := FileType(buffer, fileType).value;
            var r := DownCraft(true, buffer, fileType, options);
            r.Ok? &&
            (t == "pdf" && ConverterType(options) == "llm" ==> r.value == LlmPdf(options.llmParams.value)) &&
            (t == "pdf" && ConverterType(options) == "ocr" ==> r.value == OcrPdf) &&
            (t == "pdf" && ConverterType(options) == "standard" ==> r.value == StandardPdf) &&
            (t == "docx" ==> r.value == Docx) && (t == "pptx" ==> r.value == Pptx) && (t == "xlsx" ==> r.value == Xlsx)
  {
  }
}
