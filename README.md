# Medical receipts OCR — a Dafny model of the page pipeline

The system turns scanned medical PDFs (receipts, invoices, hospital
statements from the Janzour and Massara clinics, ID cards) into text and
then into JSON:

- every page is run through a layout detector;
- a classifier per document family decides what part of the page to OCR
  (a strip below a title or header, with barcodes whitened and the footer
  cut off; an ID-card window anchored on a QR code; or nothing, the page is
  skipped);
- the chosen images go to a vision-language model in one batch, each with
  the prompt its keyword selects;
- the page texts are joined, with separator lines in the Janzour and
  Massara pipelines;
- the text goes through a GPT extraction step and a validator, chained as
  Celery tasks that publish progress events and count the documents of a
  batch down in Redis;
- HTML tables in the model output are converted to JSON entries by the
  table parser, and text fields are cleaned by small string utilities.

The model covers the parts of that pipeline that are decisions and
computations, not I/O:

| file | models |
|---|---|
| `arith.dfy`, `geometry.dfy`, `raster.dfy`, `strings.dfy`, `sequences.dfy`, `wrappers.dfy` | Python's `int()` on floats, slicing, boxes, `array2` images, `str` methods, order-keeping deduplication |
| `layout.dfy` | the first detection with a label, the `image` boxes |
| `image_utils.dfy` | the PIL crop helpers of `app/utils/image_utils.py` and their copies in `pdf_processor.py` |
| `barcode_removal.dfy` | `remove_barcode` of `pdf_processor.py` and of `app/core/layout/preprocessing.py`, in place on pixel arrays |
| `orientation.dfy` | both `determine_orientation` functions (largest gap, three points) |
| `qr_region.dfy`, `pdf_qr.dfy`, `barcode_qr.dfy` | both `process_and_crop_qr_region` functions: window, rotation, whitening, crop |
| `prompts.dfy` | the prompt pickers of `app/core/ocr/prompts.py` and `pdf_processor.py` |
| `pages.dfy`, `generic_page.dfy`, `janzour_page.dfy`, `massara_page.dfy` | `prepare_page_input` of the three pipelines, on the detector outputs of one page |
| `assembly.dfy` | the page loop, batch inference and the joining of page texts |
| `pdf_text.dfy`, `text_utils.dfy` | the text cleaners |
| `table_text.dfy`, `table_parser.dfy` | `app/core/parsers/table_parser.py` |
| `tasks.dfy` | the Celery chain, its events and the Redis batch counter, and the batch route |

Images are `array2<int>`, one value per pixel, 255 for white. The
detectors, the finder-pattern search, the OCR model, GPT, the validator and
`json.loads` are inputs: the model takes what they returned and proves what
the code then does with it. Python's `int()` on a float is truncation toward
zero (`Arith.Trunc`); expansion factors such as 0.1, 0.4, 5.8 and 4 are
exact rationals.

The footer cut is modelled as the code does it. `crop_from_upper` is
called on an image that was already cropped below a title or header. Its
row `int(footer.y1) - 50` is therefore counted from the top of the strip,
not from the top of the page (`Pages.FooterCutCountsFromStripTop`).

Each job decrements the batch counter only on a GPT failure and on a
successful validation. An OCR failure, or a validator that raises, leaves
the counter alone (`Tasks.Counts`, `Tasks.CountedDocs`).

## Model

| member | source | states |
|---|---|---|
| Layout.FirstWith | app/core/document/pdf_processor.py:937-942 | the result is the box of the first detection with the label, and None exactly when no detection has it |
| Layout.ImageBoxes | app/core/document/pdf_processor.py:995-1001 | a box is listed exactly when an `image` detection has it |
| Geometry.Remap180 | app/core/document/barcode.py:128-135 | the turned box has ordered edges and, for a well-formed box, the same area |
| Geometry.RemapInvolution | app/core/document/barcode.py:128-135 | turning an ordered box twice gives it back |
| Geometry.RemapWithin | app/core/document/barcode.py:128-135 | a box inside the page stays inside it when turned |
| ImageUtils.PilCrop | app/utils/image_utils.py:9-28 | `Image.crop`: an error exactly when the edges are out of order; otherwise a fresh image of the box's size, black outside the source |
| ImageUtils.CropRegionBox | app/utils/image_utils.py:9-28 | each edge is the rounded coordinate of the box |
| ImageUtils.CropRegion | app/utils/image_utils.py:9-28 | `Image.crop` refuses the raw box exactly when its right or lower edge lies before its left or upper edge, before rounding; otherwise the crop box is the rounded box and its edges are in order |
| ImageUtils.RefusedBeforeRounding | app/utils/image_utils.py:25-26 | the box (10.4, 0.0, 10.2, 5.0) is refused although both its x edges round to 10 |
| ImageUtils.Round | app/utils/image_utils.py:9-28 | to the nearest integer, a half going to the even neighbour |
| ImageUtils.CropRegionOrdered | app/utils/image_utils.py:9-28 | a box with ordered edges never makes the crop fail |
| ImageUtils.CropBelowBox | app/core/document/pdf_processor.py:717-729 | the full width from row `int(y1)` to the bottom |
| ImageUtils.CropBelowKeepsRows | app/utils/image_utils.py:31-55 | for a box inside the page the crop keeps rows `int(y1)` onwards, one for one |
| ImageUtils.CropFromLowerBox | app/utils/image_utils.py:58-85 | the full width from row `int(y2) + offset` to the bottom, not clamped |
| ImageUtils.CropFromLowerFails | app/core/document/pdf_processor.py:731-744 | the crop fails exactly when the start row lies below the page |
| ImageUtils.CropFromUpperBox | app/utils/image_utils.py:88-117 | the full width from the top to row `int(y1) - offset`, never above row 0 |
| ImageUtils.CropFromUpperNeverFails | app/core/document/pdf_processor.py:746-760 | cutting above a box never fails, whatever the box |
| ImageUtils.VerticalDistance | app/utils/image_utils.py:120-138 | a box list shorter than four, or a second list shorter than two, gives 0.0 |
| ImageUtils.VerticalDistanceOfBoxes | app/utils/image_utils.py:133-136 | between two boxes the result is `b2[1] - b1[3]`, the second box's top minus the first box's bottom, positive exactly when the second starts below the first |
| ImageUtils.VerticalDistanceOpposite | app/utils/image_utils.py:120-138 | the two distances between well-formed boxes add up to minus their heights, so they cannot both be positive |
| ImageUtils.VerticalDistanceMalformed | app/utils/image_utils.py:120-138 | a short box list gives 0.0 rather than an error |
| PdfBarcode.Grown | app/core/document/pdf_processor.py:783-788 | the grown corners are clamped to the first and the last pixel row and column |
| PdfBarcode.Drawn | app/core/document/pdf_processor.py:790 | the drawn rectangle holds exactly the pixels between the two corners, both included |
| PdfBarcode.RightEdgeDetectionRaises | app/core/document/pdf_processor.py:783-790 | a zero-width detection on the right edge grows into a box whose corners `draw.rectangle` refuses |
| PdfBarcode.WhitenedPixels | app/core/document/pdf_processor.py:780-790 | a pixel is whitened exactly when some grown box covers it, corners included |
| PdfBarcode.GrownContains | app/core/document/pdf_processor.py:780-790 | the grown box contains the detected box when that lies in the page |
| PdfBarcode.RemoveBarcode | app/core/document/pdf_processor.py:764-793 | raises exactly when some grown box has its corners out of order; no detection returns the input itself; otherwise a fresh image, each pixel white exactly when some grown box covers it and the input's pixel otherwise |
| Preprocessing.Expanded | app/core/layout/preprocessing.py:48-61 | the grown box is clamped to the page |
| Preprocessing.ExpandedContains | app/core/layout/preprocessing.py:52-61 | the grown box contains the detected box when that lies in the page |
| Preprocessing.ExpansionAmounts | app/core/layout/preprocessing.py:52-61 | the box grows by a tenth of its width and four tenths of its height, rounded down: the left and top edges move out by these amounts, and so do the right and bottom edges, clamped to the page width and height |
| Preprocessing.RectsOf | app/core/layout/preprocessing.py:46-64 | one slice rectangle per box, in order, each inside the page |
| Preprocessing.EmptyResultsChangeNothing | app/core/layout/preprocessing.py:43-44 | a result without boxes adds no rectangle |
| Preprocessing.RectsOfAppend | app/core/layout/preprocessing.py:40-64 | the rectangles of two runs of boxes are those of each, one after the other |
| Preprocessing.PaintRect | app/core/layout/preprocessing.py:64 | whitening one slice keeps the image equal to the input whitened by the rectangles so far plus this one |
| Preprocessing.WhitenResult | app/core/layout/preprocessing.py:46-64 | the inner loop whitens the rectangles of every box of one result |
| Preprocessing.WhitenBoxes | app/core/layout/preprocessing.py:40-64 | after the outer loop a pixel is white exactly when a grown box of some result covers it, and the input's pixel otherwise |
| Preprocessing.RemoveBarcode | app/core/layout/preprocessing.py:11-67 | the same on a fresh copy; the caller's image never changes |
| Orientation.SortAsc | app/core/document/pdf_processor.py:817-840 | `sorted`: ascending, a permutation of the input |
| Orientation.SortedUnique | app/core/document/pdf_processor.py:817-840 | a multiset has one sorted arrangement, so `sorted` is determined |
| Orientation.ScanInvariant | app/core/document/pdf_processor.py:817-840 | after gaps `0..i-1` the loop holds the first largest of them and its index |
| Orientation.FirstLargestGap | app/core/document/pdf_processor.py:817-840 | the loop ends on the first index of the largest gap between sorted neighbours (ties keep the earlier, by the strict `>`) |
| Orientation.ScanGaps | app/core/document/pdf_processor.py:817-840 | the loop as a method returns that index |
| Orientation.DetermineOrientation | app/core/document/pdf_processor.py:817-840 | the method returns the largest-gap rule: 0 below three centres, otherwise 0 exactly when the group above the split is the larger |
| Orientation.LargestGapRuleMeaning | app/core/document/pdf_processor.py:817-840 | with three or more centres the angle is 0 exactly when more than half of the points lie above the first largest gap |
| Orientation.LargestGapExampleUpright | app/core/document/pdf_processor.py:817-840 | two close finder patterns at the top give 0 |
| Orientation.LargestGapExampleTurned | app/core/document/pdf_processor.py:817-840 | two close finder patterns at the bottom give 180 |
| Orientation.RulesAgreeOnThree | app/core/document/barcode.py:42-57 | on exactly three centres the two `determine_orientation` functions agree |
| Orientation.ThreePointTie | app/core/document/barcode.py:54-57 | equal gaps count as upside down in `barcode.py` |
| Orientation.ThreePointIgnoresLower | app/core/document/barcode.py:49-57 | a further centre below all others does not change the three-point rule |
| Orientation.RulesDifferOnFour | app/core/document/barcode.py:42-57 | on four centres (y = 0, 1, 2, 100) the two functions disagree |
| QrRegion.Oriented | app/core/document/barcode.py:151-160 | the QR box unchanged at 0 degrees, ordered when turned |
| QrRegion.Window | app/core/document/pdf_processor.py:879-885 | the window starts at the QR box's left edge and ends at its bottom edge, both clamped, and lies in the page |
| QrRegion.WindowEdges | app/core/document/pdf_processor.py:879-883 | the other two edges are `max(0, int(y2 - h_box * up))` and `min(W, int(x1 + w_box * right))`, so the window is `[max(0,x1), max(0,int(y2 - h_box*up))]` to `[min(W,int(x1 + w_box*right)), min(H,y2)]` |
| QrRegion.WindowContainsQr | app/core/document/barcode.py:162-172 | with factors of at least one the window contains the QR box |
| QrRegion.TurnedQrInside | app/core/document/barcode.py:149-160 | the turned QR box is inside the page when the original was |
| QrRegion.ItemBox | app/core/document/barcode.py:125-143 | a layout box, turned with the page and clamped to it |
| QrRegion.CropIsWindow | app/core/document/barcode.py:174 | the crop is exactly the window when the window is a proper box |
| QrRegion.CropPlan | app/core/document/pdf_processor.py:910 | the crop holds the whitened, turned page's pixels of the window |
| PdfQr.Angle | app/core/document/pdf_processor.py:852-859 | 0 or 180, and 0 below three finder centres |
| PdfQr.PaintRects | app/core/document/pdf_processor.py:889-908 | at most one rectangle per layout box, each inside the page |
| PdfQr.PaintRectsMeaning | app/core/document/pdf_processor.py:889-908 | a pixel is whitened exactly when some layout box smaller than 0.3 times the window covers it |
| PdfQr.PaintPrefix | app/core/document/pdf_processor.py:889-908 | the same for every prefix of the layout boxes |
| PdfQr.Plan | app/core/document/pdf_processor.py:846-914 | None exactly when there is no detection; the crop lies in the page |
| PdfQr.TurnedCopy | app/core/document/pdf_processor.py:862-868 | a fresh copy, turned when the angle is 180 |
| PdfQr.WhitenItems | app/core/document/pdf_processor.py:889-908 | after the loop every pixel is the turned page's, whitened by the rectangles of the small layout boxes |
| PdfQr.ProcessAndCropQrRegion | app/core/document/pdf_processor.py:846-914 | None without detections or for an empty crop; otherwise the crop of the plan, from the whitened turned page |
| BarcodeQr.FinderRegion | app/core/document/barcode.py:104-107 | the QR box clamped to the page |
| BarcodeQr.Angle | app/core/document/barcode.py:99-112 | 0 or 180, and 0 below three finder centres |
| BarcodeQr.PaintRects | app/core/document/barcode.py:124-146 | one rectangle per layout box, in order, whatever its size |
| BarcodeQr.Plan | app/core/document/barcode.py:75-179 | None exactly when there is no detection; the crop lies in the page |
| BarcodeQr.WhitenItems | app/core/document/barcode.py:124-146 | after the loop every pixel is the turned page's, whitened by every layout box |
| BarcodeQr.ProcessAndCropQrRegion | app/core/document/barcode.py:75-179 | None without detections or for an empty crop; otherwise the crop of the plan |
| BarcodeQr.AllItemsWhitened | app/core/document/barcode.py:124-146 | every layout box covering a pixel whitens it |
| BarcodeQr.WhitensMore | app/core/document/barcode.py:124-146 | whatever the `pdf_processor.py` version whitens, this one whitens too |
| BarcodeQr.LargeItemOnlyHere | app/core/document/barcode.py:124-146 | a layout box as large as the window is whitened here and left alone by the `pdf_processor.py` version |
| OcrPrompts.PromptFor | app/core/ocr/prompts.py:6-88 | an error exactly for a missing keyword; on the lowercased keyword the first test that holds picks the prompt, in the order medicine phrase, "janzour" occurs, exactly "massara", exactly "idcard", receipt phrase; the default prompt exactly when none holds |
| OcrPrompts.PromptOfLowercase | app/core/ocr/prompts.py:17-88 | on a lowercase keyword the first test that holds decides: medicine phrase, "janzour", exactly "massara", exactly "idcard", receipt phrase, else the default |
| OcrPrompts.MedicineConstant | app/core/ocr/prompts.py:94 | the medicine constant is the medicine prompt |
| OcrPrompts.JanzourConstant | app/core/ocr/prompts.py:95 | the Janzour constant is the Janzour prompt |
| OcrPrompts.MassaraConstant | app/core/ocr/prompts.py:96 | the Massara constant is the Massara prompt |
| OcrPrompts.IdCardConstant | app/core/ocr/prompts.py:97 | the ID-card constant is the ID-card prompt |
| OcrPrompts.ReceiptConstant | app/core/ocr/prompts.py:98 | the receipt constant is the receipt prompt |
| OcrPrompts.DefaultForPlainKeyword | app/core/ocr/prompts.py:29-88 | a lowercase Latin keyword without 'j' that is not exactly "massara" or "idcard" gets the default prompt |
| OcrPrompts.MassaraMedicineGetsDefault | app/core/ocr/prompts.py:50 | "massara medicine" fails the exact Massara test and gets the default prompt |
| PagePrompts.PromptAsWritten | app/core/document/pdf_processor.py:630-703 | as written: an error exactly when the keyword is missing |
| PagePrompts.PromptFor | app/core/document/pdf_processor.py:630-703 | corrected: a missing keyword gets the default prompt; on the lowered keyword the first of "janzour", "massara", "idcard", the receipt phrase or "receipt" that occurs picks its prompt, in that order, and the default prompt is picked exactly when none occurs |
| PagePrompts.MissingKeywordFails | app/core/document/pdf_processor.py:698 | the missing keyword fails as written and gets the default when corrected |
| PagePrompts.AgreesWhenPresent | app/core/document/pdf_processor.py:632-703 | for every present keyword the two agree |
| PagePrompts.PhraseUnaffectedByLower | app/core/document/pdf_processor.py:698 | lowering never changes whether the Arabic receipt phrase occurs |
| PagePrompts.JanzourKeyword | app/core/document/pdf_processor.py:632-633 | "janzour" gets the Janzour prompt |
| PagePrompts.MassaraKeyword | app/core/document/pdf_processor.py:650 | "massara" gets the Massara prompt |
| PagePrompts.MassaraMedicineGetsMassara | app/core/document/pdf_processor.py:650 | "massara medicine" gets the Massara prompt, by substring |
| PagePrompts.MassaraPrefixed | app/core/document/pdf_processor.py:650 | every lowercase keyword without a 'j' that starts with "massara" gets the Massara prompt |
| PagePrompts.IdCardKeyword | app/core/document/pdf_processor.py:674 | "idcard" gets the ID-card prompt |
| Pages.FittingPrompt | app/core/document/pdf_processor.py:1068 | a job built with its mode's keyword is sent with that mode's prompt |
| Pages.FooterCut | app/core/document/pdf_processor.py:984-985 | a cut exactly when there is a footer, which never fails and starts at the top |
| Pages.Whitened | app/core/document/pdf_processor.py:1025 | raises exactly when `remove_barcode` raises on the image; otherwise the job itself |
| Pages.StripFrom | app/core/document/pdf_processor.py:1017-1031 | raises exactly when the first crop is refused or the whitening of the strip raises; otherwise the strip, whitened, cut above the footer exactly when there is one, with the given keyword and mode |
| Pages.QrOutcome | app/core/document/pdf_processor.py:991-1015 | never raises; prepared exactly when there is a QR detection and the crop is not empty, as the ID-card crop with keyword "idcard" |
| GenericPage.DefaultBranchUnreachable | app/core/document/pdf_processor.py:1063-1066 | the final `else` is never taken |
| GenericPage.Classify | app/core/document/pdf_processor.py:919-1075 | a prepared page is a Janzour, ID-card or Massara job; a Janzour job needs a doc title and a table; an ID card needs no header-and-table, a QR detection and a non-empty crop |
| GenericPage.ProbeFailureDoesNotSkip | app/core/document/pdf_processor.py:961-979 | a probe that returned no text never skips a page |
| GenericPage.StayPhraseSkips | app/core/document/pdf_processor.py:1037-1055 | a title that reads the stay phrase skips the page on both probing branches |
| GenericPage.PromptFollowsMode | app/core/document/pdf_processor.py:1068 | every prepared page is sent with the prompt of its own kind |
| GenericPage.ClassifyKeyword | app/core/document/pdf_processor.py:953-1065 | each prepared job carries its mode's keyword |
| JanzourPage.ProbeStep | app/core/document/janzour_processor.py:59-86 | an early return never prepares the page; an image chosen by the probe needs no doc title, a paragraph title and a probe that reads both words |
| JanzourPage.Classify | app/core/document/janzour_processor.py:27-163 | a prepared page is a Janzour or an ID-card job |
| JanzourPage.NoHeaderOrNoTableIsQrCheck | app/core/document/janzour_processor.py:88-137 | a page lacking a table or a header is an ID card or nothing |
| JanzourPage.JanzourNeedsHeaderAndTable | app/core/document/janzour_processor.py:139-149 | only a page with both a header and a table can be a Janzour page |
| JanzourPage.ExpansionFactors | app/core/document/janzour_processor.py:88-137 | the QR window reaches 5.8 box widths right on one path and 5.9 on the other |
| JanzourPage.ParagraphProbeGate | app/core/document/janzour_processor.py:59-86 | without a doc title, a paragraph-title page is skipped unless the probe reads both words |
| JanzourPage.ProbeFailureSkips | app/core/document/janzour_processor.py:73-86 | a failed probe skips such a page |
| JanzourPage.DocHeaderTableStrip | app/core/document/janzour_processor.py:139-149 | with doc title, header and table the page is the strip below the doc title, whitened, cut above any footer |
| JanzourPage.NoTitleSkipped | app/core/document/janzour_processor.py:154-156 | header and table with neither title leaves no image, so the page is skipped |
| JanzourPage.PromptFollowsMode | app/core/document/janzour_processor.py:151 | every prepared page is sent with the prompt of its own kind |
| MassaraPage.LastBranchesUnreachable | app/core/document/massara_processor.py:140-147 | the last two branches are never taken |
| MassaraPage.MedicineCondition | app/core/document/massara_processor.py:76 | the medicine branch is taken exactly for a doc title, or a paragraph title with a table |
| MassaraPage.Classify | app/core/document/massara_processor.py:27-160 | a prepared page is a Massara or an ID-card job |
| MassaraPage.DocTitleNeverIdCard | app/core/document/massara_processor.py:76-139 | a page with a doc title is never an ID card |
| MassaraPage.IdCardNeeds | app/core/document/massara_processor.py:115-139 | an ID card needs no table, no doc title and a QR detection |
| MassaraPage.ProbeFailureDoesNotSkip | app/core/document/massara_processor.py:80-101 | a probe that returned no text does not skip a medicine page |
| MassaraPage.StripShape | app/core/document/massara_processor.py:63-73 | the strip starts 50 rows below the header image, else the header, else is the whole page; whitened and cut above any footer |
| MassaraPage.PromptFollowsMode | app/core/document/massara_processor.py:149 | every prepared page is sent with the prompt of its own kind |
| Assembly.Jobs | app/core/document/pdf_processor.py:1395-1404 | at most one job per page, each naming a page of the document |
| Assembly.Skips | app/core/document/pdf_processor.py:1395-1404 | at most one record per page, each naming a page of the document |
| Assembly.PreparePages | app/core/document/pdf_processor.py:1395-1404 | the loop returns exactly those jobs and skip records |
| Assembly.JobsAt | app/core/document/janzour_processor.py:204-213 | a page is among the jobs, with its job, exactly when its classifier prepared it |
| Assembly.SkipsAt | app/core/document/massara_processor.py:274-287 | a page is among the skips exactly when it was not prepared, with its error when it raised |
| Assembly.PartitionCounts | app/core/document/pdf_processor.py:1203-1212 | every page is a job or a skip, once |
| Assembly.JobsIncreasing | app/core/document/pdf_processor.py:1395-1404 | job page indices strictly increase |
| Assembly.Rendered | app/core/document/pdf_processor.py:1160-1163 | a text stays as it is; a failure starts with "API Error: " |
| Assembly.RunBatchInference | app/core/document/pdf_processor.py:1125-1166 | no jobs give no results; otherwise one result per reply, in order, failures rendered in place |
| Assembly.CleanBatchUnchanged | app/core/document/pdf_processor.py:1125-1166 | a batch without failures gives the texts back unchanged |
| Assembly.InferenceBatch | app/core/ocr/inference.py:79-118 | the replies come back unchanged, with a success count equal to their number less the exceptions |
| Assembly.Failures | app/core/ocr/inference.py:79-118 | only exceptions, each one of the replies |
| Assembly.SuccessesAreTexts | app/core/ocr/inference.py:79-118 | the success count is the number of text replies |
| Assembly.PreprocessStream | app/core/document/massara_processor.py:166-230 | one item per page, in page order, tagged with the page number; skip and error markers say skipped |
| Assembly.Separator | app/core/document/janzour_processor.py:236-252 | the ID-card separator for an ID card, the page separator otherwise |
| Assembly.SeparatedBlocks | app/core/document/massara_processor.py:313-329 | one block per pair of `zip`, the separator line of the job's mode then the page's text |
| Assembly.JoinedTextRecoversPages | app/core/document/janzour_processor.py:236-252 | when no page text holds a newline, splitting the joined text gives back each separator followed by its page's text |
| PdfText.RemoveConsecutiveDuplicates | app/core/document/pdf_processor.py:603-615 | the loop returns the order-keeping deduplication of the lines |
| PdfText.OutputLines | app/core/document/pdf_processor.py:603-615 | the output's lines are that deduplication |
| PdfText.NoAdjacentEqualLines | app/core/document/pdf_processor.py:603-615 | no two neighbouring output lines are equal |
| PdfText.OutputIsSubsequence | app/core/document/pdf_processor.py:603-615 | the output lines are a subsequence of the input lines |
| PdfText.Idempotent | app/core/document/pdf_processor.py:603-615 | cleaning twice is cleaning once |
| Sequences.DedupElements | app/core/document/pdf_processor.py:603-615 | every line kept by the deduplication is a line of the input |
| TextUtils.CleanField | app/core/parsers/text_utils.py:8-14 | a missing field stays missing; a present one has no surrounding whitespace |
| TextUtils.CleanFieldNoStars | app/core/parsers/text_utils.py:12-14 | a field without stars is only stripped |
| TextUtils.Normalize | app/core/parsers/text_utils.py:41-43 | characters are only removed: every kept one is from the text and is not one of the invisible marks |
| TextUtils.NormalizeAppend | app/core/parsers/text_utils.py:41-43 | normalizing a concatenation normalizes each part |
| TextUtils.NormalizeKeeps | app/core/parsers/text_utils.py:41-43 | a text without invisible marks is unchanged |
| TextUtils.NormalizeIdempotent | app/core/parsers/text_utils.py:41-43 | normalizing twice is normalizing once |
| TextUtils.IsArabic | app/core/parsers/text_utils.py:68-70 | true exactly when some character lies in U+0600 to U+06FF |
| TextUtils.HeaderMissingCoreFields | app/core/parsers/text_utils.py:73-76 | true exactly when none of the three core fields occurs |
| TextUtils.CleanLines | app/core/parsers/text_utils.py:91-103 | one cleaned line per input line, in order |
| TextUtils.DedupWords | app/core/parsers/text_utils.py:98-101 | for a line with words, the loop's result is the order-keeping deduplication of the words |
| TextUtils.CleanOne | app/core/parsers/text_utils.py:92-103 | the method computes the cleaned line |
| TextUtils.RemoveConsecutiveDuplicates | app/core/parsers/text_utils.py:79-105 | the method computes the cleaned text |
| TextUtils.CleanLineSingle | app/core/parsers/text_utils.py:103 | a cleaned line holds no newline |
| TextUtils.OutputLines | app/core/parsers/text_utils.py:84-105 | splitting the output on newlines gives the cleaned lines |
| TextUtils.LinesPreserved | app/core/parsers/text_utils.py:93-95 | the number of lines is kept, and a blank line stays as it was |
| TextUtils.NoAdjacentEqualWords | app/core/parsers/text_utils.py:98-103 | no cleaned line has two equal neighbouring words |
| TableText.ParseInt | app/core/parsers/table_parser.py:236-240 | a number only for a text with something besides whitespace |
| TableText.ParseShowInt | app/core/parsers/table_parser.py:236-240 | a quantity written as an integer is read back as itself |
| TableText.ParseIntRejects | app/core/parsers/table_parser.py:236-240 | a cell with a character inside that is neither a digit nor `_` is not an integer |
| TableText.StripTags | app/core/parsers/table_parser.py:20 | characters are only removed: never longer, every kept one from the input |
| TableText.StripTagsComplete | app/core/parsers/table_parser.py:20 | the substitution leaves no tag behind |
| TableText.StripTagsPlain | app/core/parsers/table_parser.py:20 | a text without '<' is unchanged |
| TableText.NonBlank | app/core/parsers/table_parser.py:17 | the cells that are not blank, each one of the row's |
| TableText.IsSectionRow | app/core/parsers/table_parser.py:10-23 | a section row has exactly one cell with content |
| TableText.SectionRowMeans | app/core/parsers/table_parser.py:10-23 | a section row is exactly one with a single cell with content whose tag-free text has an Arabic letter and no digit |
| TableParser.LastTitle | app/core/parsers/table_parser.py:86-94 | the empty string exactly when no line is a title line; otherwise the text of the last one |
| TableParser.FirstContaining | app/core/parsers/table_parser.py:31-35 | none exactly when no line holds the target; otherwise the first line that does |
| TableParser.NearestName | app/core/parsers/table_parser.py:40-46 | none exactly when no line above names a table; otherwise the nearest one that does |
| TableParser.SectionAbove | app/core/parsers/table_parser.py:84-94 | the last title line before the first `<table` line, or the empty string |
| TableParser.FindLine | app/core/parsers/table_parser.py:31-35 | the first line holding the target, or none |
| TableParser.NameAbove | app/core/parsers/table_parser.py:40-48 | the nearest line above that names a table, or none |
| TableParser.FindSectionForTable | app/core/parsers/table_parser.py:26-48 | the nearest naming line above the first line holding the stripped table |
| TableParser.InvoiceEntries | app/core/parsers/table_parser.py:112-139 | the loop returns one entry per kept row, in row order |
| TableParser.InvoiceRowsFromRows | app/core/parsers/table_parser.py:113-139 | every invoice entry comes from a kept row, and every kept row gives an entry |
| TableParser.InvoiceEntryShape | app/core/parsers/table_parser.py:125-137 | the entry's keys are the mapped header names, a price reformatted and any other cell kept as text |
| TableParser.AssignLast | app/core/parsers/table_parser.py:137 | each key holds the value of its last occurrence |
| TableParser.FooterOf | app/core/parsers/table_parser.py:147-181 | nothing exactly when no row is a net row |
| TableParser.FooterFromFirstNetRow | app/core/parsers/table_parser.py:149-179 | a net row preceded by no other gives the footer |
| TableParser.FooterTotals | app/core/parsers/table_parser.py:147-181 | the loop returns that footer |
| TableParser.MappedHeaders | app/core/parsers/table_parser.py:185-210 | one key per header: for 8, 10 and 11 columns fixed keys including code, qty and company_price; the headers themselves otherwise |
| TableParser.QtyOf | app/core/parsers/table_parser.py:236-240 | 0 for an empty cell or one `int()` refuses |
| TableParser.Shape | app/core/parsers/table_parser.py:221-224 | exactly `n` cells: the row's own where it has them, empty ones after |
| TableParser.FillEntry | app/core/parsers/table_parser.py:226-243 | the entry assigns each key the value of its cell, a later key overwriting an earlier equal one |
| TableParser.ServiceEntryShape | app/core/parsers/table_parser.py:227-243 | prices as amounts, the quantity as an integer, any other key as text |
| TableParser.QtyReads | app/core/parsers/table_parser.py:236-240 | a written integer is read back; anything else non-empty that is not one is 0 |
| TableParser.ServiceEntries | app/core/parsers/table_parser.py:212-247 | the entries of the kept rows, filtered to those with a code |
| TableParser.WithCode | app/core/parsers/table_parser.py:247 | exactly the entries whose code is not blank |
| TableParser.HtmlTableToJson | app/core/parsers/table_parser.py:66-255 | no table or another mode gives no entries; invoice entries under the section; the Janzour footer of a four-column table and the service entries otherwise |
| TableParser.PlainFromHeaderTable | app/core/parsers/table_parser.py:51-63 | one line per row, cells joined by spaces; empty without a table |
| TableParser.HeaderLinesAreRows | app/core/parsers/table_parser.py:58-63 | the plain text splits back into its rows when no cell holds a newline |
| Tasks.TemplatePrompt | app/tasks.py:173-178 | the Janzour prompt exactly for "janzour" and "safwa", the Massara prompt exactly for the Massara names |
| Tasks.EntryPrompts | app/tasks.py:379-383 | every entry point sends its documents with its template's prompt, the default entry with the Janzour one |
| Tasks.RawText | app/tasks.py:205 | the OCR text itself up to 50000 characters; a longer text keeps its first 50000 characters followed by "..." |
| Tasks.ParsedValue | app/tasks.py:186-195 | nothing exactly for an empty reply; otherwise the parsed JSON, or `{"raw_response": reply}` when the reply is not JSON |
| Tasks.ExtractionDict | app/tasks.py:198-208 | the dictionary has no error key and carries the page image paths |
| Tasks.CountAppend | app/tasks.py:232-237 | `batch_completed` events count additively over a growing stream |
| Tasks.PdfUploads | app/api/routes/pdf.py:50-54 | exactly the uploads whose name ends in ".pdf" in any case, in order |
| Tasks.CountedDocs | app/tasks.py:221-314 | the documents that reach a decrement |
| Tasks.CountedStep | app/tasks.py:221-314 | one more chain decrements once or not at all, and completes the batch exactly at the last decrement |
| Tasks.BatchStep | app/api/routes/pdf.py:58-77 | one chain of a started batch keeps the counter at the count of the remaining decrements |
| Tasks.Orchestrator.StartBatch | app/api/routes/pdf.py:62-63 | the counter of the batch is set to the number of uploads, nothing else changes |
| Tasks.Orchestrator.Decrement | app/tasks.py:232 | one less than before, a missing key counting as 0 |
| Tasks.Orchestrator.OcrStage | app/tasks.py:73-124 | a failure is published and raised, never counted; success returns the OCR dictionary |
| Tasks.Orchestrator.GptFailure | app/tasks.py:221-239 | the failure is published and counted once when a batch is set, `batch_completed` exactly when nothing remains; the failed `extract_json` step is published only when the model call itself raised, not when building the client did |
| Tasks.Orchestrator.GptStage | app/tasks.py:126-241 | a non-dictionary gives an error dictionary; empty text skips the model; a returning stage leaves the counters alone; each outcome's exact events, with no failed `extract_json` step when building the OpenAI client raised |
| Tasks.Orchestrator.ValidationStage | app/tasks.py:244-328 | an error input passes through; success counts the document once; a validator failure is recorded and not counted |
| Tasks.Orchestrator.ExtractAndValidate | app/tasks.py:64-68 | the GPT stage and, when it returns, the validation stage |
| Tasks.Orchestrator.RunChain | app/tasks.py:44-68 | one document's chain decrements its batch's counter at most once and publishes `batch_completed` at most once, exactly when that leaves nothing |
| Tasks.Orchestrator.RunDocuments | app/tasks.py:44-68 | the chains of a started batch leave its counter at the number of documents less those that reached a decrement, and publish `batch_completed` once exactly when all did |
| Tasks.Orchestrator.RunBatch | app/api/routes/pdf.py:43-82 | the counter starts at the number of PDF uploads; `batch_completed` is published at most once, when every document reached its decrement; no other counter changes |

## Left out

- Reading PDFs, rendering pages, writing image and result files, `os.walk` and file sorting: I/O. The model starts from the detector outputs and pixel arrays of each page.
- The debug `cv2.imwrite` calls (`pdf_processor.py:911`, `massara_processor.py:130`): I/O. OpenCV refuses to write an empty image, so in the code an empty QR crop raises at the write. The model follows the `None` check after it.
- Older Pillow releases draw nothing for a rectangle whose corners are out of order. The model follows the releases in which `draw.rectangle` raises `ValueError` (`PdfBarcode.RemoveBarcode`, `Pages.Whitened`). The code pins no Pillow version.
- The layout detector, the QR and barcode detectors, `get_finder_patterns` and the OCR model: their outputs are parameters.
- The GPT call, the validator and `json.loads`: their outputs are parameters.
- Redis is a map from key to integer, and published events are appended to a sequence. Celery's asynchrony and retries are left out: the batch runs its chains one after another.
- OCR progress events and the `cleanup_old_results` task: only progress messages and file deletion.
- Floating point: coordinates and factors are exact reals. Prices are kept as the text `float()` reads (`TableParser.Value`), and their three-decimal, comma-grouped formatting is not computed.
- BeautifulSoup: a table is given as its header texts and the cells of each row, and a document as its lines with their tag-free text. `splitlines` is splitting on "\n".
- `str.lower()` on non-ASCII letters: only ASCII capitals are lowered.
- Digits that `int()` and `\d` accept beyond the ASCII, Arabic-Indic and Extended Arabic-Indic blocks.
- PIL images: pixels are one integer per position. RGB/BGR conversion is the identity.
- Tasks.Orchestrator.RunBatch: dispatches every chain after the route and in upload order, so interleavings of concurrent chains are not modelled.
- The authentication, health and single-document routes, `header_parser.py` and the `pdf_safwa`/`pdf_muasafat` route copies: outside this model.

## Findings

| source | as written | input that shows it | evidently intended | confidence | as-written member | corrected member |
|---|---|---|---|---|---|---|
| app/core/document/pdf_processor.py:698 | the receipt test looks for the Arabic phrase in `keyword` instead of the lowered `kw` | `get_prompt_by_keyword(None)` raises `TypeError` at the `in` test, although line 632 turns a missing keyword into "" | every test on `kw`, so a missing keyword gets the default prompt | medium, not executed | PagePrompts.PromptAsWritten, PagePrompts.MissingKeywordFails | PagePrompts.PromptFor, PagePrompts.AgreesWhenPresent |
