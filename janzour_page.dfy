/**
 * `prepare_janzour_page`: the Janzour/Safwa decision tree. A first step
 * probes the paragraph title of a page without a doc title; the second picks
 * the QR check or the doc-title strip, and may replace what the first chose.
 */
module JanzourPage {
  import opened Wrappers
  import opened Strings
  import opened Geometry
  import opened Layout
  import opened ImageUtils
  import opened Pages
  import PagePrompts

  const ReceiptWord: string := "إيصال"
  const NumberWord: string := "رقم"

  /**
   * The first step: an early return, or the image
   * chosen so far, if any. A probe that returned no text makes the membership
   * test raise, which the step catches and turns into a skip.
   */
  datatype FirstStep = Return(outcome: Outcome) | Continue(chosen: Option<FinalImage>)

  function ProbeStep(p: Page): (s: FirstStep)
    ensures s.Return? ==> !s.outcome.Prepared?
    ensures s.Continue? && s.chosen.Some? ==>
      !HasLabel(p.layout, DocTitle) && HasLabel(p.layout, ParagraphTitle)
      && ProbeSays(p.probe, ReceiptWord) && ProbeSays(p.probe, NumberWord)
  {
    var doc := FirstWith(p.layout, DocTitle);
    var para := FirstWith(p.layout, ParagraphTitle);
    if doc.None? && para.Some? then
      if ProbeCropFails(para.value) then Return(Raised(CoordinateError))
      else if ProbeSays(p.probe, ReceiptWord) && ProbeSays(p.probe, NumberWord) then
        Continue(Some(Strip(None, false, None)))
      else Return(Skipped)
    else Continue(None)
  }

  /** The branches of the second step, in source order. */
  datatype Branch = HeaderNoTable | NotHeaderAndTable | DocStrip | KeepChosen

  function BranchOf(ds: seq<Detection>): Branch {
    if !HasTable(ds) && HasHeader(ds) then HeaderNoTable
    else if !(HasHeader(ds) && HasTable(ds)) then NotHeaderAndTable
    else if HasLabel(ds, DocTitle) then DocStrip
    else KeepChosen
  }

  function Classify(p: Page): (r: Outcome)
    ensures r.Prepared? ==> r.job.mode in {JanzourMode, IdCardMode}
  {
    match ProbeStep(p)
    case Return(o) => o
    case Continue(chosen) =>
      var ds := p.layout;
      match BranchOf(ds)
      case HeaderNoTable => QrOutcome(p, 5.8)
      case NotHeaderAndTable => QrOutcome(p, 5.9)
      case DocStrip =>
        StripFrom(CropBelowBox(p.width, p.height, FirstWith(ds, DocTitle).value), FirstWith(ds, Footer),
                  p.barcodes, "janzour", JanzourMode)
      case KeepChosen =>
        if chosen.None? then Skipped else Prepared(Job(chosen.value, "janzour", JanzourMode))
  }

  /** A page lacking a table or a header goes through the QR check: an ID card or nothing. */
  lemma NoHeaderOrNoTableIsQrCheck(p: Page)
    requires !HasTable(p.layout) || !HasHeader(p.layout)
    ensures Classify(p).Prepared? ==> Classify(p).job.mode == IdCardMode
  {}

  /** Only a page with both a header and a table can be a Janzour page. */
  lemma JanzourNeedsHeaderAndTable(p: Page)
    requires Classify(p).Prepared? && Classify(p).job.mode == JanzourMode
    ensures HasHeader(p.layout) && HasTable(p.layout)
  {
    if !(HasHeader(p.layout) && HasTable(p.layout)) {
      NoHeaderOrNoTableIsQrCheck(p);
    }
  }

  /** The QR window reaches 5.8 box widths right with a header but no table, 5.9 on the other QR path. */
  lemma ExpansionFactors(p: Page)
    requires ProbeStep(p).Continue?
    ensures !HasTable(p.layout) && HasHeader(p.layout) ==> Classify(p) == QrOutcome(p, 5.8)
    ensures !HasHeader(p.layout) ==> Classify(p) == QrOutcome(p, 5.9)
  {}

  /** Without a doc title, a paragraph-title page is skipped unless the probe reads both words. */
  lemma ParagraphProbeGate(p: Page)
    requires !HasLabel(p.layout, DocTitle) && HasLabel(p.layout, ParagraphTitle)
    requires !(ProbeSays(p.probe, ReceiptWord) && ProbeSays(p.probe, NumberWord))
    ensures !Classify(p).Prepared?
  {}

  /** A failed probe skips such a page (the raise is caught). */
  lemma ProbeFailureSkips(p: Page)
    requires !HasLabel(p.layout, DocTitle) && HasLabel(p.layout, ParagraphTitle)
    requires p.probe == ProbeNoText
    requires !ProbeCropFails(FirstWith(p.layout, ParagraphTitle).value)
    ensures Classify(p) == Skipped
  {}

  /** With doc title, header and table the page is the strip below the doc title, barcodes whitened, cut above any footer. */
  lemma DocHeaderTableStrip(p: Page)
    requires HasLabel(p.layout, DocTitle) && HasHeader(p.layout) && HasTable(p.layout)
    requires Classify(p).Prepared?
    ensures var job := Classify(p).job;
      job.mode == JanzourMode && job.image.Strip? && job.image.whitened
      && job.image.first == Some(CropBelowBox(p.width, p.height, FirstWith(p.layout, DocTitle).value))
      && (job.image.footerCut.Some? <==> HasLabel(p.layout, Footer))
  {}

  /** Header and table with neither title leaves no image, so the page is skipped. */
  lemma NoTitleSkipped(p: Page)
    requires HasHeader(p.layout) && HasTable(p.layout)
    requires !HasLabel(p.layout, DocTitle) && !HasLabel(p.layout, ParagraphTitle)
    ensures Classify(p) == Skipped
  {}

  /** Every prepared page is sent with the prompt of its own kind. */
  lemma PromptFollowsMode(p: Page)
    requires Classify(p).Prepared?
    ensures var job := Classify(p).job;
      PromptOf(job) == (if job.mode == IdCardMode then PagePrompts.IdCard else PagePrompts.Janzour)
  {
    var job := Classify(p).job;
    if job.mode == IdCardMode {
      PagePrompts.IdCardKeyword(job.keyword);
    } else {
      PagePrompts.JanzourKeyword(job.keyword);
    }
  }
}
