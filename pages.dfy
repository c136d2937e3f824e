/**
 * What the three page classifiers share: the observations they make of a
 * page, the image they hand on for OCR, and the QR-anchored ID-card path.
 */
module Pages {
  import opened Wrappers
  import opened Arith
  import opened Strings
  import opened Geometry
  import opened Raster
  import opened Layout
  import opened ImageUtils
  import opened QrRegion
  import PdfQr
  import PdfBarcode
  import PagePrompts

  /**
   * The outcome of the one-off OCR call on a title crop: its text, or
   * something that is not a string (an exception object, or no content).
   */
  datatype Probe = ProbeText(text: string) | ProbeNoText

  /**
   * One page as the detectors see it: its size, the layout boxes, the QR
   * detections, the finder-pattern centres found inside the first QR box,
   * the probe outcome, and the barcode boxes found on the image that is
   * whitened.
   */
  datatype Page = Page(width: nat, height: nat, layout: seq<Detection>, qr: seq<RealBox>,
                       centres: seq<Point>, probe: Probe, barcodes: seq<RealBox>)

  datatype Mode = JanzourMode | IdCardMode | MassaraMode | DefaultMode

  /**
   * The image handed on for OCR. A strip is the page, optionally cropped
   * first (`first`), optionally with its barcodes whitened, and optionally
   * cut above the footer (`footerCut`, applied to the image as it then is).
   * An ID card is the crop of a QR plan.
   */
  datatype FinalImage =
    | Strip(first: Option<CropBox>, whitened: bool, footerCut: Option<CropBox>)
    | IdCardCrop(plan: QrPlan)

  datatype Job = Job(image: FinalImage, keyword: string, mode: Mode)

  /** The error `Image.crop` raises for a box whose edges are out of order. */
  const CoordinateError: string := "ValueError"

  datatype Outcome = Prepared(job: Job) | Skipped | Raised(error: string)

  /** The prompt a job is sent with. */
  function PromptOf(job: Job): PagePrompts.PagePrompt {
    PagePrompts.PromptFor(Some(job.keyword))
  }

  /** The keyword a job of each mode is built with. */
  predicate KeywordFits(job: Job) {
    match job.mode
    case JanzourMode => job.keyword == "janzour"
    case IdCardMode => job.keyword == "idcard"
    case MassaraMode => job.keyword == "massara" || job.keyword == "massara medicine"
    case DefaultMode => false
  }

  /** A job built with its mode's keyword is sent with the prompt of that mode. */
  lemma FittingPrompt(job: Job)
    requires KeywordFits(job)
    ensures PromptOf(job) == match job.mode
      case JanzourMode => PagePrompts.Janzour
      case IdCardMode => PagePrompts.IdCard
      case MassaraMode => PagePrompts.Massara
      case DefaultMode => PagePrompts.Default
  {
    match job.mode
    case JanzourMode => PagePrompts.JanzourKeyword(job.keyword);
    case IdCardMode => PagePrompts.IdCardKeyword(job.keyword);
    case MassaraMode =>
      if job.keyword == "massara" {
        PagePrompts.MassaraKeyword(job.keyword);
      } else {
        PagePrompts.MassaraMedicineGetsMassara(job.keyword);
      }
  }

  predicate Refused(c: CropBox) {
    c.right < c.left || c.lower < c.upper
  }

  /** The probe crop of a title box fails before any OCR call. */
  predicate ProbeCropFails(b: RealBox) {
    CropRegion(b).Err?
  }

  predicate ProbeSays(p: Probe, phrase: string) {
    p.ProbeText? && Contains(p.text, phrase)
  }

  /** The cut 50 pixels above the footer, on an image of width `w` and height `h`. */
  function FooterCut(footer: Option<RealBox>, w: nat, h: nat): (c: Option<CropBox>)
    ensures c.None? <==> footer.None?
    ensures c.Some? ==> !Refused(c.value) && c.value.upper == 0
  {
    match footer
    case None => None
    case Some(f) => Some(CropFromUpperBox(w, h, f, DefaultOffset))
  }

  /** `remove_barcode` raises on a `w` x `h` image: some grown barcode box has its corners out of order. */
  predicate WhiteningRaises(barcodes: seq<RealBox>, w: int, h: int) {
    exists k :: 0 <= k < |barcodes| && PdfBarcode.DrawRefused(PdfBarcode.Grown(barcodes[k], w, h))
  }

  /** The job whose image has its barcodes whitened on a `w` x `h` image, unless the drawing raises. */
  function Whitened(job: Job, barcodes: seq<RealBox>, w: int, h: int): (r: Outcome)
    ensures r.Raised? <==> WhiteningRaises(barcodes, w, h)
    ensures !r.Raised? ==> r == Prepared(job)
  {
    if WhiteningRaises(barcodes, w, h) then Raised(CoordinateError) else Prepared(job)
  }

  /** A page-wide strip whose first crop is `first`: barcodes whitened, then the footer cut. */
  function StripFrom(first: CropBox, footer: Option<RealBox>, barcodes: seq<RealBox>, keyword: string, mode: Mode): (r: Outcome)
    ensures r.Raised? <==> Refused(first) || WhiteningRaises(barcodes, first.right - first.left, first.lower - first.upper)
    ensures r.Prepared? ==> r.job.keyword == keyword && r.job.mode == mode
    ensures r.Prepared? ==> r.job.image.Strip? && r.job.image.first == Some(first) && r.job.image.whitened
    ensures r.Prepared? ==> (r.job.image.footerCut.Some? <==> footer.Some?)
  {
    if Refused(first) then Raised(CoordinateError)
    else Whitened(Job(Strip(Some(first), true, FooterCut(footer, first.right - first.left, first.lower - first.upper)),
                      keyword, mode), barcodes, first.right - first.left, first.lower - first.upper)
  }

  /** The QR plan of a page, with the given rightward expansion factor. */
  function QrPlanOf(p: Page, right: real): Option<QrPlan> {
    PdfQr.Plan(p.width, p.height, p.qr, p.centres, ImageBoxes(p.layout), 4.0, right)
  }

  /**
   * The ID-card check: no QR detection, or an empty crop, skips the page;
   * otherwise the page becomes the QR-anchored crop with keyword "idcard".
   */
  function QrOutcome(p: Page, right: real): (r: Outcome)
    ensures r.Raised? == false
    ensures r.Prepared? <==> p.qr != [] && !QrPlanOf(p, right).value.crop.IsEmpty()
    ensures r.Prepared? ==> r.job == Job(IdCardCrop(QrPlanOf(p, right).value), "idcard", IdCardMode)
  {
    if p.qr == [] then Skipped
    else
      var plan := QrPlanOf(p, right).value;
      if plan.crop.IsEmpty() then Skipped
      else Prepared(Job(IdCardCrop(plan), "idcard", IdCardMode))
  }

  /**
   * The page rows a strip shows when both crops are made: the footer cut is
   * measured on the already cropped image, so its last row is the page row
   * `first.upper + int(footer.y1) - 50`, not `int(footer.y1) - 50`.
   */
  function LastPageRow(first: CropBox, cut: CropBox): int {
    first.upper + cut.lower - 1
  }

  lemma {:induction false} FooterCutCountsFromStripTop(first: CropBox, footer: RealBox)
    requires !Refused(first) && 0 <= first.upper
    requires Trunc(footer.y1) - DefaultOffset >= 0
    ensures var cut := FooterCut(Some(footer), first.right - first.left, first.lower - first.upper).value;
      LastPageRow(first, cut) == first.upper + Trunc(footer.y1) - DefaultOffset - 1
  {}
}
