/**
 * `prepare_page_input`: the generic pipeline's decision tree over the layout
 * labels of one page.
 */
module GenericPage {
  import opened Wrappers
  import opened Strings
  import opened Geometry
  import opened Layout
  import opened ImageUtils
  import opened Pages
  import PagePrompts

  /** The phrase in a title that marks a medicine-and-supplies stay page, which is skipped. */
  const StayPhrase: string := "أدوية ومستلزمات من الايواء"

  /** The branches of the if/elif chain, in source order. */
  datatype Branch = JanzourBranch | IdCardBranch | MassaraBranch | MedicineBranch | DefaultBranch

  function BranchOf(ds: seq<Detection>): Branch {
    var doc := FirstWith(ds, DocTitle);
    var para := FirstWith(ds, ParagraphTitle);
    if doc.Some? && HasTable(ds) then JanzourBranch
    else if !(HasHeader(ds) && HasTable(ds)) then IdCardBranch
    else if doc.None? && para.None? then MassaraBranch
    else if doc.None? && para.Some? then MedicineBranch
    else DefaultBranch
  }

  /** The final `else` is dead: once the first two tests fail there is a table and so no doc title. */
  lemma DefaultBranchUnreachable(ds: seq<Detection>)
    ensures BranchOf(ds) != DefaultBranch
  {}

  /** The header a Massara strip starts below: `header_image`, else `header`. */
  function TargetHeader(ds: seq<Detection>): Option<RealBox> {
    var hi := FirstWith(ds, HeaderImage);
    if hi.Some? then hi else FirstWith(ds, Header)
  }

  function Classify(p: Page): (r: Outcome)
    ensures r.Prepared? ==> r.job.mode in {JanzourMode, IdCardMode, MassaraMode}
    ensures r.Prepared? && r.job.mode == JanzourMode ==> HasLabel(p.layout, DocTitle) && HasTable(p.layout)
    ensures r.Prepared? && r.job.mode == IdCardMode ==>
      !(HasHeader(p.layout) && HasTable(p.layout)) && p.qr != [] && !QrPlanOf(p, 5.8).value.crop.IsEmpty()
  {
    var ds := p.layout;
    var doc := FirstWith(ds, DocTitle);
    var para := FirstWith(ds, ParagraphTitle);
    var footer := FirstWith(ds, Footer);
    match BranchOf(ds)
    case JanzourBranch =>
      if ProbeCropFails(doc.value) then Raised(CoordinateError)
      else if ProbeSays(p.probe, StayPhrase) then Skipped
      else StripFrom(CropBelowBox(p.width, p.height, doc.value), footer, p.barcodes, "janzour", JanzourMode)
    case IdCardBranch =>
      QrOutcome(p, 5.8)
    case MassaraBranch =>
      var target := TargetHeader(ds);
      if target.Some? then
        StripFrom(CropFromLowerBox(p.width, p.height, target.value, DefaultOffset), footer, p.barcodes, "massara", MassaraMode)
      else
        Whitened(Job(Strip(None, true, FooterCut(footer, p.width, p.height)), "massara", MassaraMode), p.barcodes, p.width, p.height)
    case MedicineBranch =>
      if ProbeCropFails(para.value) then Raised(CoordinateError)
      else if ProbeSays(p.probe, StayPhrase) then Skipped
      else Whitened(Job(Strip(None, true, None), "massara medicine", MassaraMode), p.barcodes, p.width, p.height)
    case DefaultBranch =>
      Prepared(Job(Strip(None, false, None), "default", DefaultMode))
  }

  /** A probe that returned no text never skips a page: it counts as a title without the stay phrase. */
  lemma ProbeFailureDoesNotSkip(p: Page)
    ensures Classify(p.(probe := ProbeNoText)) == Classify(p.(probe := ProbeText("")))
  {}

  /** A title probe that reads the stay phrase skips the page on both probing branches. */
  lemma StayPhraseSkips(p: Page)
    requires BranchOf(p.layout) in {JanzourBranch, MedicineBranch}
    requires ProbeSays(p.probe, StayPhrase)
    requires forall b :: Detection(DocTitle, b) in p.layout || Detection(ParagraphTitle, b) in p.layout ==>
      b.x1 <= b.x2 && b.y1 <= b.y2
    ensures Classify(p) == Skipped
  {
    var ds := p.layout;
    if BranchOf(ds) == JanzourBranch {
      var doc := FirstWith(ds, DocTitle).value;
      var k :| IsFirst(ds, DocTitle, k) && ds[k].box == doc;
      assert ds[k] == Detection(DocTitle, doc);
      CropRegionOrdered(doc);
    } else {
      var para := FirstWith(ds, ParagraphTitle).value;
      var k :| IsFirst(ds, ParagraphTitle, k) && ds[k].box == para;
      assert ds[k] == Detection(ParagraphTitle, para);
      CropRegionOrdered(para);
    }
  }

  /** Every prepared page is sent with the prompt of its own kind. */
  lemma PromptFollowsMode(p: Page)
    requires Classify(p).Prepared?
    ensures var job := Classify(p).job;
      PromptOf(job) == match job.mode
        case JanzourMode => PagePrompts.Janzour
        case IdCardMode => PagePrompts.IdCard
        case MassaraMode => PagePrompts.Massara
        case DefaultMode => PagePrompts.Default
  {
    ClassifyKeyword(p);
    FittingPrompt(Classify(p).job);
  }

  /** Each prepared job carries its mode's keyword. */
  lemma ClassifyKeyword(p: Page)
    requires Classify(p).Prepared?
    ensures KeywordFits(Classify(p).job)
  {
    match BranchOf(p.layout)
    case JanzourBranch =>
    case IdCardBranch =>
    case MassaraBranch =>
    case MedicineBranch =>
    case DefaultBranch =>
  }
}
