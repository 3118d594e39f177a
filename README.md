# down-craft, modelled in Dafny

down-craft converts PDF, DOCX, PPTX and XLSX files into Markdown. Most of its converters hand the
file to a library. This project models the parts that do their own work:

- the layout-aware PDF page reconstruction of the scribe converter (`scribe_pdf.dfy`,
  `page_items.dfy`, `page_text.dfy`). It covers the font-size histogram, the inference of heading
  levels, the classification of text runs, the OCR text items of images, the item comparator, the
  line-flushing scan and the page join;
- the image extraction bookkeeping of the PDF image saver (`save_images.dfy`). It covers RGB to
  RGBA widening, the PNG channel decision, the per-page deduplication and naming, and per-page
  numbering;
- the OCR pipeline (`process_images_with_ocr.dfy`). It covers the text cleaner, the
  content-addressed result cache as a class, and the in-order batch loop;
- the hybrid PDF converter (`hybrid_pdf.dfy`, `hybrid_ocr.dfy`). It covers the placeholder
  splicing, the OCR map and the blockquote replacement;
- the small pure helpers:
  - magic-number sniffing and the image filter (`extract_pdf_images.dfy`);
  - Base64 and `data:` URLs (`base64.dfy`);
  - file-type detection and routing (`index.dfy`);
  - OCR line formatting (`image_ocr.dfy`);
  - HTML escaping and the XLSX table builder (`xlsx_to_markdown.dfy`);
  - Markdown heading and fence formatting (`markdown.dfy`);
  - the LLM converter's URL and fence handling (`llm_to_markdown.dfy`).

Shared definitions sit in three files:

- `wrappers.dfy` holds `Option` and `Result`.
- `strings.dfy` holds JavaScript's string operations: `trim` over the `\s` class, `split`, `join`,
  `includes` and `replace`.
- `pdf_page.dfy` holds what pdf.js hands over for a page: text runs with their transform matrix,
  the operator list, image objects and the page height.

The two modelling choices that shape the model:

- **Foreign engines are parameters.** pdf.js, tesseract, OpenAI, SheetJS, turndown, pdf2md, the MD5
  digest, file writes and UTF-8 encoding are all parameters or data. A failure is an `Err`,
  `None` or a predicate such as `writeFails`.
- **Code that changes state becomes methods.** Each such method is proved against a function of
  its inputs. The methods cover:
  - loops that push to arrays or append to strings;
  - the `flushCurrentLine` closure, which is a class with the closed-over variables as fields;
  - the OCR cache, which is a class holding a map.

The functions are then related by lemmas to the properties the code promises.

Coordinates and font sizes are reals. Bytes are the `uint8` newtype. Strings are `seq<char>`.

The model follows the code; in particular:

- Page texts are trimmed before they are joined, so two pages read `"Page 1\n---\nPage 2"`.
- When the last page fails, the separator written after the page before it stays in the output.
- OCR fragments that share a line are joined by one space.
- Only the first physical line of an OCR block gets the `> ` marker.
- An image text item is made per `paintImageXObject` operator, not per OCR map entry.
- In the hybrid converter, image identity is lost between extraction and OCR, and the OCR text is cleaned with the regular expression that can merge lines. The converter's entry point is modelled as written, with both defects; see Findings for the corrected definitions and what they give.

## Model

| member | source | states |
|---|---|---|
| PageItems.Sizes | src/converters/scribe-with-image-placeholder.js:94-95 | one font size per text run, in run order, `|transform[0]|`; whitespace-only runs are counted too |
| PageItems.Mode | src/converters/scribe-with-image-placeholder.js:98-101 | a default font size exists exactly when at least one run was counted |
| PageItems.CountsAreMultiplicities | src/converters/scribe-with-image-placeholder.js:94-97 | the histogram's keys are exactly the sizes seen, each mapped to its number of occurrences |
| PageItems.HistogramStep | src/converters/scribe-with-image-placeholder.js:96-97 | counting a size raises its stored count by one (from 0 when absent) |
| PageItems.ModeIsMaximal | src/converters/scribe-with-image-placeholder.js:98-101 | no size occurs more often than `maxCount`, and the default size occurs exactly `maxCount` times |
| PageItems.ModeFirstToReach | src/converters/scribe-with-image-placeholder.js:98-101 | tie-break: the default size is the size whose running count reached the maximum first |
| PageItems.FirstSeen | src/converters/scribe-with-image-placeholder.js:111 | the histogram's keys in insertion order: no repeats, and exactly the keys of the histogram |
| PageItems.FontHistogram | src/converters/scribe-with-image-placeholder.js:94-101 | the first pass yields the histogram, its key order and the mode with its first-to-reach tie-break |
| PageItems.InsertDesc | src/converters/scribe-with-image-placeholder.js:112 | inserting into a strictly decreasing sequence keeps it strictly decreasing and adds exactly that size |
| PageItems.SortDesc | src/converters/scribe-with-image-placeholder.js:111-112 | the sizes sorted largest first, strictly decreasing, with the same elements |
| PageItems.AboveBody | src/converters/scribe-with-image-placeholder.js:113-116 | keeps exactly the sizes strictly above 1.1 times the default size, in order |
| PageItems.HeadingSizes | src/converters/scribe-with-image-placeholder.js:111-118 | at most four sizes, strictly decreasing, each a histogram key above the threshold |
| PageItems.HeadingSizesTopFour | src/converters/scribe-with-image-placeholder.js:113-117 | a size above the threshold is left out only when four larger sizes were taken |
| PageItems.LevelMap | src/converters/scribe-with-image-placeholder.js:121-124 | the map's keys are exactly the heading sizes and every level lies in 1..3 |
| PageItems.BuildHeaderLevelMap | src/converters/scribe-with-image-placeholder.js:121-124 | the `forEach` builds exactly the level map |
| PageItems.LevelMapRank | src/converters/scribe-with-image-placeholder.js:122-123 | the `i`-th largest heading size gets level `min(i + 1, 3)` |
| PageItems.LevelMapMonotone | src/converters/scribe-with-image-placeholder.js:122-123 | a larger size never gets a deeper level |
| PageItems.KeptRuns | src/converters/scribe-with-image-placeholder.js:131-132 | every run that is kept has non-empty trimmed text |
| PageItems.KeptRunsExactly | src/converters/scribe-with-image-placeholder.js:131-132 | every run whose trimmed text is non-empty is kept, as often as it occurs, and no other run is |
| PageItems.ClassifyAll | src/converters/scribe-with-image-placeholder.js:129-169 | one item per kept run, each classified against the y of the kept run before it |
| PageItems.ClassifyRuns | src/converters/scribe-with-image-placeholder.js:129-169 | the second pass drops runs that trim to empty (they do not move `currentY`) and classifies the rest |
| PageItems.ClassifyAllExtend | src/converters/scribe-with-image-placeholder.js:156-168 | one more kept run appends its own item and leaves the earlier items unchanged |
| PageItems.ClassifyAtRule | src/converters/scribe-with-image-placeholder.js:130-168 | a run is a header iff it is not a bullet, its size is a heading size, and it is the first kept run or more than 1.5 times its size away vertically; level 0 otherwise; y is the raw `transform[5]` |
| PageItems.ClassifiedText | src/converters/scribe-with-image-placeholder.js:131-138 | every text item's string is trimmed and non-empty, and it is a bullet iff it starts with a bullet glyph |
| PageItems.Candidates | src/converters/scribe-with-image-placeholder.js:44-62 | one candidate per paint operator: the `k`-th is keyed `page_N_image_k.png`, repeats included, with y `height - transform[5]` or `height / 2` |
| PageItems.NonEmpty | src/converters/scribe-with-image-placeholder.js:65-67 | an item is in the result exactly when it is in the input with non-empty text |
| PageItems.NonEmptyExactly | src/converters/scribe-with-image-placeholder.js:65-67 | each item with non-empty text is kept as often as it occurs in the input, and no other item is |
| PageItems.ImageItemsTrimmed | src/converters/scribe-with-image-placeholder.js:49-78 | every image item is an OCR item whose text is trimmed and non-empty |
| PageItems.ImageItems | src/converters/scribe-with-image-placeholder.js:44-80 | the image loop advances the index on every paint and skips empty texts |
| PageItems.Compare | src/converters/scribe-with-image-placeholder.js:172-183 | within the 10-unit band two text items order by ascending x; outside it by descending y; within the band an OCR item (no x) gives NaN |
| PageItems.CompareAntisymmetric | src/converters/scribe-with-image-placeholder.js:172-183 | swapping the arguments negates the comparison and keeps NaN as NaN |
| PageItems.CompareNotTransitive | src/converters/scribe-with-image-placeholder.js:172-183 | three text items 9 units apart form a cycle, so the comparator is not an order |
| PageText.StripBullet | src/converters/scribe-with-image-placeholder.js:220 | removes exactly one leading bullet glyph and the whitespace after it; other lines are unchanged |
| PageText.Flush | src/converters/scribe-with-image-placeholder.js:193-230 | flushing an empty line changes nothing; otherwise the line is written out, cleared, and `lastLineWasEmpty` records whether it was OCR |
| PageText.LineWriter.constructor | src/converters/scribe-with-image-placeholder.js:186-191 | the scan variables start empty with `lastLineWasEmpty` set |
| PageText.LineWriter.FlushCurrentLine | src/converters/scribe-with-image-placeholder.js:193-230 | the closed-over variables change as `Flush` says |
| PageText.LineWriter.Add | src/converters/scribe-with-image-placeholder.js:233-258 | one scan iteration: kind break, jump break, then append |
| PageText.LineWriter.BreakOnKindChange | src/converters/scribe-with-image-placeholder.js:236-241 | a switch between OCR and text flushes, and text after OCR starts after a blank line |
| PageText.LineWriter.BreakOnJump | src/converters/scribe-with-image-placeholder.js:244-246 | a vertical jump of more than 10 flushes |
| PageText.LineWriter.AppendItem | src/converters/scribe-with-image-placeholder.js:248-257 | the first item names the line; later items follow one space |
| PageText.ReconstructLines | src/converters/scribe-with-image-placeholder.js:186-262 | the scan and final flush produce `Render(items)` |
| PageText.Group | src/converters/scribe-with-image-placeholder.js:236-257 | the lines are non-empty, there are none only for no items, and the last line ends with the last item |
| PageText.GroupIsMaximalRuns | src/converters/scribe-with-image-placeholder.js:236-257 | grouping loses and reorders nothing, keeps each line of one kind with steps of at most 10, and starts a line exactly at a kind switch or jump |
| PageText.CohesiveKind | src/converters/scribe-with-image-placeholder.js:200 | no line mixes kinds, so a line is an OCR line iff its first item is OCR |
| PageText.FeedAllPending | src/converters/scribe-with-image-placeholder.js:232-259 | after the scan, the finished lines are written line by line and the last one is pending |
| PageText.FeedJoins | src/converters/scribe-with-image-placeholder.js:250-256 | an item of the same kind within 10 units joins the line after exactly one space, OCR fragments included |
| PageText.RenderIsRenderLines | src/converters/scribe-with-image-placeholder.js:186-262 | for items with non-empty text, the scan's output equals rendering the grouped lines one by one (blockquote, italic, header or bullet) |
| ScribePdf.PageLevels | src/converters/scribe-with-image-placeholder.js:94-124 | every heading level of a page lies in 1..3 |
| ScribePdf.ExtractPageContent | src/converters/scribe-with-image-placeholder.js:32-265 | the stages in order (image items, histogram, level map, classification, sort, scan, trim) give the page's Markdown |
| ScribePdf.PageItemsNonEmpty | src/converters/scribe-with-image-placeholder.js:172-183 | when the sort is a permutation, every item reaching the scan has non-empty text |
| ScribePdf.PageMarkdownByLines | src/converters/scribe-with-image-placeholder.js:172-264 | a page's Markdown is the trimmed line-by-line rendering of its sorted items grouped into lines |
| ScribePdf.EmptyPageNoItems | src/converters/scribe-with-image-placeholder.js:44-172 | a page with no runs and no painted images has no items |
| ScribePdf.EmptyPageIsBlank | src/converters/scribe-with-image-placeholder.js:32-264 | such a page renders as the empty string |
| ScribePdf.PageContents | src/converters/scribe-with-image-placeholder.js:290-306 | one outcome per page |
| ScribePdf.PageContentsAt | src/converters/scribe-with-image-placeholder.js:290-294 | entry `i` is the outcome of page `i + 1` |
| ScribePdf.ConvertPdfWithPlaceholders | src/converters/scribe-with-image-placeholder.js:270-308 | the result is the trimmed join of the page outcomes |
| ScribePdf.ConvertPages | src/converters/scribe-with-image-placeholder.js:290-306 | the page loop builds `markdownContent` from every page's outcome in order |
| ScribePdf.ConvertPage | src/converters/scribe-with-image-placeholder.js:291-302 | a page that throws adds nothing; any other adds its text, then the separator unless it is the last page |
| ScribePdf.JoinedAllPages | src/converters/scribe-with-image-placeholder.js:294-300 | when every page succeeds, each prefix before the last page ends with the separator |
| ScribePdf.JoinPagesAllSucceed | src/converters/scribe-with-image-placeholder.js:290-308 | when every page succeeds, the result is the page texts joined by `\n---\n`, trimmed |
| ScribePdf.FailedPageVanishes | src/converters/scribe-with-image-placeholder.js:301-302 | a failed page that is not the last contributes neither text nor separator |
| ScribePdf.FailedLastPageLeavesSeparator | src/converters/scribe-with-image-placeholder.js:298-302 | when the last page fails, the page before keeps its separator: `"a\n---"` |
| ScribePdf.MapValue | src/converters/scribe-with-image-placeholder.js:356 | the map value is the OCR text when there is no error, and empty otherwise |
| ScribePdf.BuildOcrMap | src/converters/scribe-with-image-placeholder.js:352-357 | the loop files every record under its name, later records overwriting earlier ones |
| ScribePdf.OcrMapKeys | src/converters/scribe-with-image-placeholder.js:352-357 | the map has an entry exactly for each record's name, empty or not |
| ScribePdf.OcrMapLastWins | src/converters/scribe-with-image-placeholder.js:353-356 | the entry under a name comes from the last record with that name |
| ScribePdf.OcrMapWithoutText | src/converters/scribe-with-image-placeholder.js:347-356 | with OCR off, every entry is empty |
| ScribePdf.BlankMapNoImageItems | src/converters/scribe-with-image-placeholder.js:49-67 | a map whose entries are all empty yields no image items |
| ScribePdf.ImageNameIsImageKey | src/converters/scribe-with-image-placeholder.js:354 | a record with page and index is filed under the key the page scan looks up |
| SaveImages.Rgba | src/lib/save-images-from-pdf.js:28-37 | `n` RGB bytes widen to `4n/3` bytes |
| SaveImages.RgbaPixel | src/lib/save-images-from-pdf.js:31-34 | pixel `k` keeps its three channels at `4k..4k+2` and gains alpha 255 at `4k+3` |
| SaveImages.RgbaPixels | src/lib/save-images-from-pdf.js:30-35 | the same for every pixel |
| SaveImages.Rgb | src/lib/save-images-from-pdf.js:28-37 | the inverse: dropping the alpha byte gives `3n/4` bytes |
| SaveImages.RgbOfRgba | src/lib/save-images-from-pdf.js:28-37 | widening loses nothing: dropping the alpha again gives the input back |
| SaveImages.RgbaOfRgb | src/lib/save-images-from-pdf.js:28-37 | an RGBA buffer with opaque alpha is the widening of its own RGB bytes |
| SaveImages.RgbToRgba | src/lib/save-images-from-pdf.js:28-37 | the typed-array loop writing at `i * 4 / 3` fills exactly the widened bytes |
| SaveImages.PngBuffer | src/lib/save-images-from-pdf.js:42-53 | the PNG pixel buffer always holds `width * height * 4` bytes |
| SaveImages.PngOfRgb | src/lib/save-images-from-pdf.js:46-48 | with exactly three bytes per pixel the buffer is the widened data, and it narrows back to the input |
| SaveImages.PngOfRgba | src/lib/save-images-from-pdf.js:48-53 | otherwise, with four bytes per pixel, the data is copied unchanged, index for index |
| SaveImages.PngOfOther | src/lib/save-images-from-pdf.js:48-53 | with any length other than three bytes per pixel, buffer byte `j` is data byte `j` where the data reaches it and 0 beyond; data past the buffer's end is dropped |
| SaveImages.ChannelData | src/lib/save-images-from-pdf.js:46-48 | widens exactly when the length is `width * height * 3` |
| SaveImages.CreatePng | src/lib/save-images-from-pdf.js:42-55 | the copy loop fills the PNG buffer |
| SaveImages.ExtractPageImages | src/lib/save-images-from-pdf.js:61-152 | the operator loop collects the page's images; an unreadable operator list gives none |
| SaveImages.ProcessedNames | src/lib/save-images-from-pdf.js:69-78 | the names marked processed are exactly the names of the page's paint operators |
| SaveImages.RepeatedNameSkipped | src/lib/save-images-from-pdf.js:77-78 | a second reference to a name adds nothing |
| SaveImages.CollectedInOrder | src/lib/save-images-from-pdf.js:72-146 | a prefix of the operators yields a prefix of the images |
| SaveImages.CollectedNames | src/lib/save-images-from-pdf.js:107-140 | each image is named after a referenced object or is `inline_k` at its own position `k`, with at most one image per operator |
| SaveImages.FailedLookupSkipped | src/lib/save-images-from-pdf.js:82-117 | an object whose lookup throws is skipped, and the rest of the page comes out as if it were not there |
| SaveImages.SavedCount | src/lib/save-images-from-pdf.js:200-218 | the number of images written: every write before it succeeds, and when images remain, the next write throws |
| SaveImages.PageRecords | src/lib/save-images-from-pdf.js:200-216 | record `i` is `page_P_image_(i+1).png` with page `P`, number `i + 1` and the image's size |
| SaveImages.SavePageImages | src/lib/save-images-from-pdf.js:194-218 | the inner loop produces the page's records |
| SaveImages.SavePage | src/lib/save-images-from-pdf.js:192-221 | one page: extract, then save |
| SaveImages.SaveImagesFromPdf | src/lib/save-images-from-pdf.js:171-228 | the page loop records every page in order, each page's images numbered from 1; a page whose operator list cannot be read adds nothing and the loop goes on |
| SaveImages.SavedOrdered | src/lib/save-images-from-pdf.js:191-216 | records are ordered by page, then by number; pages lie in `1..n` and numbers run from 1 |
| SaveImages.AllWritesSucceed | src/lib/save-images-from-pdf.js:200-216 | when no write throws, every collected image is recorded |
| OcrPipeline.CollapseSpace | src/lib/process-images-with-ocr.js:56 | whitespace becomes single plain spaces; an empty or space-led input stays empty or space-led |
| OcrPipeline.IsolatedMatch | src/lib/process-images-with-ocr.js:58 | a match is 3 or 4 characters: whitespace, one or two junk characters, whitespace |
| OcrPipeline.DropIsolated | src/lib/process-images-with-ocr.js:58 | dropping junk tokens keeps emptiness and a leading space |
| OcrPipeline.DropIsolatedSpacing | src/lib/process-images-with-ocr.js:58 | dropping junk tokens keeps whitespace plain and single |
| OcrPipeline.DropIsolatedAlnum | src/lib/process-images-with-ocr.js:58 | dropping junk tokens neither adds nor removes ASCII letters and digits |
| OcrPipeline.CollapseKeepsAlnum | src/lib/process-images-with-ocr.js:56 | collapsing whitespace neither adds nor removes ASCII letters and digits |
| OcrPipeline.KeepLines | src/lib/process-images-with-ocr.js:60-62 | every kept line holds an ASCII letter or digit |
| OcrPipeline.CleanOcrTextTidy | src/lib/process-images-with-ocr.js:51-64 | the result has no line break, no two neighbouring whitespace characters and no whitespace at either end; it is empty or holds an ASCII letter or digit |
| OcrPipeline.CleanFalsy | src/lib/process-images-with-ocr.js:52 | a falsy input cleans to `''` |
| OcrPipeline.CleanWithoutAlnum | src/lib/process-images-with-ocr.js:54-63 | input without ASCII letters or digits cleans to `''` |
| OcrPipeline.Cleaned | src/lib/process-images-with-ocr.js:88-95 | there is cleaned text exactly when the worker starts and recognition succeeds, and it is tidy |
| OcrPipeline.Recognised | src/lib/process-images-with-ocr.js:88-114 | a successful outcome returns tidy cleaned text; a failed one (worker creation, recognition or `terminate`) returns `''` |
| OcrPipeline.OcrCache.ProcessImage | src/lib/process-images-with-ocr.js:69-115 | the result and the new cache are `Outcome` and `CacheAfter`: look up, create a worker, recognise, write through, then terminate |
| OcrPipeline.CacheHit | src/lib/process-images-with-ocr.js:74-82 | a hit returns the stored record, whatever the recogniser would say, and writes nothing |
| OcrPipeline.WritesOnlyNonEmpty | src/lib/process-images-with-ocr.js:97-113 | the cache changes only on a miss with the cache on and non-empty cleaned text, which is written under the key; the call returns what it wrote, unless `terminate` throws afterwards, when the entry stays and the call returns `{text: '', error}` |
| OcrPipeline.SameBytesHit | src/lib/process-images-with-ocr.js:98-104 | after such a write, a later image with the same bytes gets the same record |
| OcrPipeline.CacheOffIgnoresStore | src/lib/process-images-with-ocr.js:74-98 | with the cache off, the store is neither read nor written |
| OcrPipeline.FailureShape | src/lib/process-images-with-ocr.js:72-114 | a failed key read, worker creation, recognition or `terminate` gives `{text: '', error: message}`, with `terminate`'s message winning over the recogniser's; a failed cache write never changes the result; success gives tidy cleaned text |
| OcrPipeline.RunAll | src/lib/process-images-with-ocr.js:125-137 | one record per processed image, in input order: record `i` carries input `i` |
| OcrPipeline.ProcessImagesWithOcr | src/lib/process-images-with-ocr.js:120-141 | images are processed one at a time, in order, whatever `batchSize` is |
| OcrPipeline.RunAllUncached | src/lib/process-images-with-ocr.js:129 | with the cache off, the store is untouched and the records do not depend on it |
| ExtractPdfImages.SniffJpeg | src/lib/extract-pdf-images.js:120-122 | 'jpeg' iff the data opens with `FF D8` |
| ExtractPdfImages.SniffPng | src/lib/extract-pdf-images.js:123-126 | otherwise 'png' iff the data opens with `89 50 4E 47`; a full PNG signature is always recognised |
| ExtractPdfImages.SniffShort | src/lib/extract-pdf-images.js:118-127 | data shorter than a tested prefix cannot match it, and the answer is one of the three types |
| ExtractPdfImages.ExtractPdfImages | src/lib/extract-pdf-images.js:25-111 | the generator's output is every page's accepted images, in page and operator order |
| ExtractPdfImages.ExtractFromPage | src/lib/extract-pdf-images.js:57-105 | the operator loop of one page |
| ExtractPdfImages.PageYieldSound | src/lib/extract-pdf-images.js:88-98 | every record of a page is longer than `minSize`, has an allowed sniffed type and carries that page's number |
| ExtractPdfImages.YieldedSound | src/lib/extract-pdf-images.js:48-107 | every record passes the filter, and page numbers never decrease |
| ExtractPdfImages.DefaultsSkipUnknown | src/lib/extract-pdf-images.js:26-30 | with the defaults, 'unknown' data and data of 100 bytes or fewer are never yielded |
| Base64.Encode | src/lib/extract-pdf-images.js:136 | Base64 text is four characters per started group of three bytes |
| Base64.DecodeEncode | src/lib/extract-pdf-images.js:136 | decoding the Base64 text gives back the bytes |
| Base64.ParseDataUrlInverse | src/lib/extract-pdf-images.js:135-138 | the data URL reads back as its type and its bytes |
| HybridPdf.CollectImagePaths | src/converters/hybrid-pdf.js:60-70 | the loop builds, in order, one entry per saver record with a path; as written, the entry has no page and no index |
| HybridPdf.RefsOfRecords | src/converters/hybrid-pdf.js:61-69 | records with paths give exactly one entry each, in order, carrying the record's path as path and name, and `undefined` page and index |
| HybridPdf.SavedNamed | src/lib/save-images-from-pdf.js:174-216 | every saver record is named `page_P_image_I.png` after its own numbers |
| HybridPdf.AnchorIncludes | src/converters/hybrid-pdf.js:92 | the anchor test is `includes('image:') || includes('Image:')` |
| HybridPdf.FindAnchor | src/converters/hybrid-pdf.js:92 | the first anchor line, or none when no line is one |
| HybridPdf.PlaceOne | src/converters/hybrid-pdf.js:90-99 | one turn: splice after the anchor line, or append |
| HybridPdf.PlacePlaceholders | src/converters/hybrid-pdf.js:88-100 | the placeholder loop over all entries |
| HybridPdf.InsertLines | src/converters/hybrid-pdf.js:91-95 | the placeholder's blank, placeholder and blank lines go right after the cut, and every other line stays |
| HybridPdf.PlacedBelowAnchor | src/converters/hybrid-pdf.js:89-95 | with an anchor, the lines through it are untouched and later placeholders land above earlier ones |
| HybridPdf.PlacedAtEnd | src/converters/hybrid-pdf.js:96-99 | without an anchor, placeholders are appended in order as `\n\n![...](name)\n` |
| HybridPdf.PlaceholderPlain | src/converters/hybrid-pdf.js:94 | a name without colon or newline gives a placeholder that is no anchor |
| HybridPdf.RefsPlain | src/converters/hybrid-pdf.js:60-94 | placeholders built from the saver's records never become anchors |
| HybridPdf.OrOne | src/converters/hybrid-pdf.js:110 | `x || 1` is at least 1 |
| HybridPdf.BuildImageOcrMap | src/converters/hybrid-pdf.js:107-114 | the loop that fills the OCR map |
| HybridPdf.TextMapKeys | src/converters/hybrid-pdf.js:108-113 | the keys are exactly those of results with OCR text, and no value is empty |
| HybridPdf.TextMapLastWins | src/converters/hybrid-pdf.js:108-113 | the text under a key is that of the last result filed under it |
| HybridOcr.NonEmptyLines | src/converters/hybrid-pdf.js:130 | keeps only non-empty lines, each from the input |
| HybridOcr.NonEmptyLinesExactly | src/converters/hybrid-pdf.js:130 | every non-empty line is kept, as often as it occurs, and no empty line is |
| HybridOcr.CleanLinesMergesLines | src/converters/hybrid-pdf.js:127-131 | as written, `"a\n\nb"` and `"a\r\nb"` clean to `"ab"` |
| HybridOcr.CleanLinesKeepsLines | src/converters/hybrid-pdf.js:127-131 | the intended cleaning gives trimmed, non-empty, single lines, and splitting the result on `\n` gives them back |
| HybridOcr.CleanLinesAgreeOnOneLine | src/converters/hybrid-pdf.js:127-131 | on text without line breaks both cleanings give the trimmed text |
| HybridOcr.RecognisedTextIsOneLine | src/lib/process-images-with-ocr.js:54-63 | text from the OCR cleaner has no line terminator |
| HybridOcr.BlockquoteLines | src/converters/hybrid-pdf.js:132 | the quote is an empty line, one `> ` line per text line, then an empty line |
| HybridOcr.QuoteOfText | src/converters/hybrid-pdf.js:127-132 | with the intended cleaning, the quote of an image's text has one `> ` line per non-blank trimmed line |
| HybridOcr.InsertOcrText | src/converters/hybrid-pdf.js:119-135 | the quoting loop over all entries: each entry with text in the map has its first placeholder replaced by the quote of that text, cleaned by the regular expression as written |
| HybridOcr.QuoteReplacesFirst | src/converters/hybrid-pdf.js:123-133 | with OCR text, the first placeholder occurrence is replaced by the quote of the text as the code cleans it, and the rest is kept; without text, the Markdown is unchanged |
| HybridOcr.QuoteWithoutPlaceholder | src/converters/hybrid-pdf.js:126 | no placeholder means no change |
| HybridOcr.KeyIsName | src/converters/hybrid-pdf.js:110-120 | with page and index read from the record, the map key is the entry's own file name |
| HybridOcr.OwnText | src/converters/hybrid-pdf.js:107-123 | results filed under distinct own names each find exactly their own text, and none when empty |
| HybridOcr.AsWrittenKeyIsFixed | src/converters/hybrid-pdf.js:110 | as written, every result is keyed `page_1_image_1.png` |
| HybridOcr.AsWrittenPlaceholder | src/converters/hybrid-pdf.js:94 | as written, every placeholder reads `Image_undefined_undefined` |
| HybridOcr.AsWrittenLosesText | src/converters/hybrid-pdf.js:64-69 | as written, two images' texts collide under one key and the second image gets none |
| HybridOcr.PlacedTwoAtEnd | src/converters/hybrid-pdf.js:86-100 | two plain placeholders on empty Markdown are each appended after a blank line |
| HybridOcr.QuoteFirstOfTwo | src/converters/hybrid-pdf.js:115-135 | with text only for the first entry's name, the first placeholder becomes its quote and the second stays |
| HybridOcr.AsWrittenTwoImages | src/converters/hybrid-pdf.js:45-135 | the entry point on two saved images with texts "A" and "B": the first placeholder is replaced by the quote of "B" and the second placeholder stays |
| HybridOcr.HybridPdfToMarkdown | src/converters/hybrid-pdf.js:45-147 | a non-Buffer is rejected first; failures come back as `PDF conversion failed: ` + message; otherwise the entries are built as written, then placeholders, OCR and quotes are applied, and the cache changes only when there are images |
| HybridOcr.NoImagesNoChange | src/converters/hybrid-pdf.js:86-143 | with no saved images the pdf2md Markdown comes back unchanged |
| ImageOcr.ListLineMatches | src/lib/image-ocr.js:73 | the scan for a list marker agrees with the regular expression `^\s*[\d-]+\.\s` |
| ImageOcr.FormatLineCases | src/lib/image-ocr.js:71-81 | list lines are trimmed; a `[A-Z\s]{5,}` line is never a list line and becomes `## ` + the trimmed line; all other lines are trimmed |
| ImageOcr.FormatLineNoBreak | src/lib/image-ocr.js:71-81 | a formatted line holds no line break |
| ImageOcr.OcrMarkdownLines | src/lib/image-ocr.js:70-82 | exactly one piece per input line, in order, with an empty line between neighbours |
| ImageOcr.PerformOcr | src/lib/image-ocr.js:6-24 | a failing `createWorker` is returned unprefixed; a failing `terminate` replaces any outcome; otherwise the result is the recogniser's text for the image's data URL, and its failure carries the prefix `OCR failed: ` |
| ImageOcr.PerformOcrWithMarkdown | src/lib/image-ocr.js:57-90 | a failing `createWorker` is returned unprefixed; a failing `terminate` replaces any outcome; otherwise the result is the line-formatted text, and the recogniser's failure carries the prefix `OCR with markdown failed: ` |
| ImageOcr.RecogniserSeesImage | src/lib/image-ocr.js:60 | the URL handed to the recogniser reads back as the image's type and bytes |
| XlsxToMarkdown.EscapeHtmlPerChar | src/lib/xlsx-to-markdown.js:128-135 | replacing `&` first makes the five replacements escape each character on its own |
| XlsxToMarkdown.EscapeHtmlSafe | src/lib/xlsx-to-markdown.js:128-135 | no raw `< > " '` in the output; it unescapes back to the input; text without the five characters is unchanged |
| XlsxToMarkdown.CellValueSafe | src/lib/xlsx-to-markdown.js:68-89 | a missing cell gives `''`; `w` and strings are escaped and read back; booleans and errors give markup-free constants |
| XlsxToMarkdown.FontStyles | src/lib/xlsx-to-markdown.js:100-105 | the font block pushes bold, italic, underline and colour, in that order |
| XlsxToMarkdown.AlignmentStyles | src/lib/xlsx-to-markdown.js:113-120 | the alignment block pushes horizontal, then vertical, after the rest |
| XlsxToMarkdown.GetCellStyle | src/lib/xlsx-to-markdown.js:94-123 | the attribute carries the declarations of the fixed order |
| XlsxToMarkdown.DeclarationsOfOrder | src/lib/xlsx-to-markdown.js:97-120 | the declarations are bold, italic, underline, color, background, text-align, vertical-align, each when present |
| XlsxToMarkdown.DeclarationsAt | src/lib/xlsx-to-markdown.js:97-122 | each present property sits at its rank among the present ones |
| XlsxToMarkdown.StyleAttributeEmpty | src/lib/xlsx-to-markdown.js:95-122 | the attribute is empty iff there is no style or no applicable property |
| XlsxToMarkdown.SettingsOf | src/lib/xlsx-to-markdown.js:14-18 | defaults: header row on, class `xlsx-table`, styles off; given options win |
| XlsxToMarkdown.GridShape | src/lib/xlsx-to-markdown.js:36-57 | one row per range row and one cell per range column; `<th>` iff `firstRowAsHeader` and absolute row 0; styles only with `includeStyles` |
| XlsxToMarkdown.CellHtml | src/lib/xlsx-to-markdown.js:41-53 | one inner-loop pass renders the cell at that position |
| XlsxToMarkdown.RowCells | src/lib/xlsx-to-markdown.js:40-54 | the column loop renders the row's cells left to right |
| XlsxToMarkdown.SheetTable | src/lib/xlsx-to-markdown.js:30-59 | the row loop renders the sheet's table between its opening and closing tags |
| XlsxToMarkdown.ConvertExcelToMarkdown | src/lib/xlsx-to-markdown.js:13-63 | every sheet in order, then the HTML-to-Markdown conversion |
| Markdown.HtmlInputLines | src/lib/markdown.js:38-40 | content containing `<` after trimming passes through; otherwise each line becomes `<p>line</p>` |
| Markdown.ConvertToMarkdown | src/lib/markdown.js:33-49 | the converter's output, or its failure with the prefix `Markdown conversion failed: ` |
| Markdown.Level | src/lib/markdown.js:66 | the level is clamped to 1..6, and a missing level or 0 becomes 1 |
| Markdown.FormatMarkdownOrder | src/lib/markdown.js:61-80 | with neither flag the text is unchanged; the heading is applied before the fence, so with both flags it sits inside the fence |
| Markdown.ParseHeadingOfHeading | src/lib/markdown.js:67-68 | the prefix is exactly `level` `#`s and one space: it reads back as the level and the text |
| Markdown.ParseFenceOfFence | src/lib/markdown.js:71-74 | the fence reads back as the info string and the text |
| DownCraft.Head | src/index.js:25 | the first 200 bytes, or the whole buffer when it is shorter |
| DownCraft.DetectFileType | src/index.js:18-32 | 'pdf' iff `%PDF`; otherwise, after `PK`, 'docx', then 'pptx', then 'xlsx' by the first marker found in the first 200 bytes; null otherwise |
| DownCraft.DetectShort | src/index.js:18-32 | a buffer of fewer than 2 bytes has no type |
| DownCraft.DetectLooksAtHead | src/index.js:25-28 | bytes past 200 never change the answer |
| DownCraft.DownCraft | src/index.js:37-86 | checks in order: Buffer, converter type, file type, LLM parameters; success only when all pass |
| DownCraft.LlmParamsCheckedForAllTypes | src/index.js:58-62 | missing LLM parameters are rejected for every file type, not only PDFs |
| DownCraft.ExplicitTypeBypassesDetection | src/index.js:52 | with an explicit type the buffer's bytes do not matter |
| DownCraft.Routing | src/index.js:65-85 | PDFs route by converter type; docx, pptx and xlsx ignore it |
| LlmToMarkdown.ImageUrl | src/lib/llm-to-markdown.js:16-18 | a remote string is used as is; anything else becomes a base64 data URL |
| LlmToMarkdown.LocalImageIntact | src/lib/llm-to-markdown.js:16-18 | a local image's URL reads back as its type and bytes |
| LlmToMarkdown.RemoveFencesLeavesNone | src/lib/llm-to-markdown.js:59 | removing every "```" leaves none |
| LlmToMarkdown.StripFencesLeavesNone | src/lib/llm-to-markdown.js:58-60 | after both replacements the reply holds no "```" |
| LlmToMarkdown.LlmToMarkdownWith | src/lib/llm-to-markdown.js:47-64 | every failure path returns a string starting with `Error`, a missing content field exactly `Error: Unexpected API response format`; an answer is returned with its code fences stripped |
| LlmToMarkdown.AnsweredHasNoFence | src/lib/llm-to-markdown.js:53-60 | an answered request gives content without code fences |

## Left out

- pdf.js is not modelled: document loading, workers, `getOperatorList`, object polling with `setTimeout`, `setInterval` and `Promise.race`, and `page.cleanup`. A page is plain data: text runs, operators, objects that resolved and the page height. An object that never resolves is absent from the map. `src/lib/pdfjs.js` and `src/lib/save-pdf-as-image.js` are not part of this model.
- The sort of `extractPageContent` is `Array.prototype.sort` with a comparator that is not a strict weak order. It is the parameter `arrange`, assumed to permute its input. The comparator's own properties are stated separately.
- Font sizes and coordinates are reals. IEEE-754 rounding of `1.1 ×` and `1.5 ×` is not modelled.
- The unused `headerPatterns`/`headerTexts` set and `firstItemY` in `extractPageContent` are not modelled.
- The filesystem is not modelled. This covers temp directories and their cleanup, and `saveImageData`/`saveImage` writes; a failing write is the predicate `writeFails`. It also covers the `.ocr-cache` files: the cache is an in-memory map, and a failed cache write is `writeFails`. Paths are file names under the output directory, so `path.basename` and `path.join` are identities.
- Foreign engines are not modelled: tesseract, OpenAI, SheetJS, turndown with its GFM plugin, pdf2md, mammoth and pptx conversion. Their results are parameters, and their failures are `Err` values. The turndown configuration is not part of this model.
- XlsxToMarkdown.ConvertExcelToMarkdown: the workbook SheetJS decodes (`XLSX.read`, xlsx-to-markdown.js:21) and each sheet's range (`XLSX.utils.decode_range`, :29) are the parameter `sheets`. A throw from either escapes `convertExcelToMarkdown` unprefixed; that failure is not modelled.
- SaveImages.CreatePng: the pngjs container encoding `PNG.sync.write` is not modelled; the result is the pixel buffer `png.data`.
- Digests are not modelled. MD5 is the environment's `digest`; Buffer base64 is modelled by `Base64.Encode`, and UTF-8 encoding of a string is the parameter `utf8`.
- `batchOCR` is left out: it is `Promise.all` concurrency on one worker.
- `encodeImage` (a file read) is left out.
- The converter orchestrators are left out: `src/converters/llm.js`, `ocr.js`, `onnx.js`, `scribe-image.js` and `scribe.js`. So are the library pass-through converters, the web UI, the example script and the polyfills.
- The `toLocaleDateString` date case and raw numeric cell values are not modelled; a number or date cell carries the text it is shown as.
- XlsxToMarkdown.CellValueSafe: a falsy raw value of an unknown cell type is `Other("")`; JavaScript's other falsy values (`0`, `false`, `null`) are not distinguished.
- The placeholder pattern of the hybrid converter is matched as a literal string. The unescaped regular-expression metacharacters in it are not modelled.
- The hybrid converter's `image.name` branch is not modelled: the saver's records always carry a path.
- ScribePdf.ConvertPdfWithPlaceholders: a failing `doc.getPage` (scribe-with-image-placeholder.js:291) is outside the per-page `try` and aborts the whole conversion. The model's pages are the ones `getPage` returned, so that abort is not modelled, and neither are failures of `page.cleanup()` or `worker.destroy()`.
- SaveImages.SaveImagesFromPdf: a failing `doc.getPage` (save-images-from-pdf.js:192) is outside the per-page `try`, and a throwing `page.cleanup()` in its `finally` (:219) escapes it too. Either aborts the whole save, and the hybrid converter then answers `PDF conversion failed: …`. The model's pages are the ones `getPage` returned and cleanup never fails, so neither abort is modelled.
- OcrPipeline.DropIsolated: strings are sequences of Unicode scalar values, not UTF-16 code units. The regular expression `\s[^a-zA-Z0-9\s]{1,2}\s` has no `u` flag, so JavaScript counts a character above U+FFFF (an emoji, say) as two junk units. `OcrPipeline.IsolatedMatch` counts it as one. On `"a !😀 b"` the source finds three junk units, matches nothing and keeps the text; the model drops the token and gives `"a b"`. Text made of characters up to U+FFFF is cleaned alike.
- Console logging is not modelled.

## Findings

| source | as written | input that shows it | evidently intended | confidence | as-written member | corrected member |
|---|---|---|---|---|---|---|
| src/converters/hybrid-pdf.js:127-131 | `.replace(/^\s+\|\s+$/gm, '')` runs on the whole text, and `\s` also matches line breaks, so a match can swallow the break between two lines | `"a\n\nb"` cleans to `"ab"`, and so does `"a\r\nb"` | trim each line and drop the empty ones, giving `"a\nb"` | not executed; latent, because the texts that reach this step come from the OCR cleaner and hold no line break | HybridOcr.CleanLinesMergesLines | HybridOcr.CleanLinesKeepsLines |
| src/converters/hybrid-pdf.js:67-68 | the entries read `image.page` and `image.index`, but the saver's records carry `pageNum` and `imageNum`; both read `undefined`, so every OCR result is keyed `page_1_image_1.png` | two images, `page_1_image_1.png` with text "A" and `page_2_image_1.png` with text "B": the map holds "B" under the first name and nothing under the second | read `pageNum` and `imageNum`, so each image is keyed by its own file name and gets its own text | not executed | HybridOcr.AsWrittenLosesText | HybridOcr.OwnText |
