/**
 * `prepare_massara_page`: the Massara/Muasafat decision tree.
 */
module MassaraPage {
  import opened Wrappers
  import opened Strings
  import opened Geometry
  import opened Layout
  import opened ImageUtils
  import opened Pages
  import GenericPage
  import PagePrompts

  /** The title phrases that skip a medicine page. */
  const SkipPhrases: seq<string> := [GenericPage.StayPhrase, "ورقة خروج", "Discharge Paper"]

  predicate ProbeSkips(p: Probe) {
    ProbeSays(p, SkipPhrases[0]) || ProbeSays(p, SkipPhrases[1]) || ProbeSays(p, SkipPhrases[2])
  }

  /**
   * The branches of the if/elif chain, in source order. The medicine test
   * reads `doc_title is not None or (paragraph_title is not None and has_table)`,
   * since `and` binds tighter than `or`.
   */
  datatype Branch = StripBranch | MedicineBranch | IdCardBranch | NoTableBranch | FallbackBranch

  function BranchOf(ds: seq<Detection>): Branch {
    var doc := HasLabel(ds, DocTitle);
    var para := HasLabel(ds, ParagraphTitle);
    if !doc && !para && HasTable(ds) then StripBranch
    else if doc || (para && HasTable(ds)) then MedicineBranch
    else if !HasTable(ds) then IdCardBranch
    else if !HasTable(ds) then NoTableBranch
    else FallbackBranch
  }

  /** The last two branches are dead: the first three tests already cover every page. */
  lemma LastBranchesUnreachable(ds: seq<Detection>)
    ensures BranchOf(ds) in {StripBranch, MedicineBranch, IdCardBranch}
  {}

  /** The medicine branch is taken exactly for a doc title, or a paragraph title with a table. */
  lemma MedicineCondition(ds: seq<Detection>)
    ensures BranchOf(ds) == MedicineBranch <==>
      HasLabel(ds, DocTitle) || (HasLabel(ds, ParagraphTitle) && HasTable(ds))
  {}

  /** The title the probe reads: the paragraph title when there is one, else the doc title. */
  function ProbeTitle(ds: seq<Detection>): Option<RealBox> {
    var para := FirstWith(ds, ParagraphTitle);
    if para.Some? then para else FirstWith(ds, DocTitle)
  }

  function Classify(p: Page): (r: Outcome)
    ensures r.Prepared? ==> r.job.mode in {MassaraMode, IdCardMode}
  {
    var ds := p.layout;
    var footer := FirstWith(ds, Footer);
    match BranchOf(ds)
    case StripBranch =>
      var target := GenericPage.TargetHeader(ds);
      if target.Some? then
        StripFrom(CropFromLowerBox(p.width, p.height, target.value, DefaultOffset), footer, p.barcodes, "massara", MassaraMode)
      else
        Whitened(Job(Strip(None, true, FooterCut(footer, p.width, p.height)), "massara", MassaraMode), p.barcodes, p.width, p.height)
    case MedicineBranch =>
      if ProbeCropFails(ProbeTitle(ds).value) then Raised(CoordinateError)
      else if ProbeSkips(p.probe) then Skipped
      else Whitened(Job(Strip(None, true, None), "massara medicine", MassaraMode), p.barcodes, p.width, p.height)
    case IdCardBranch =>
      QrOutcome(p, 5.8)
    case NoTableBranch =>
      Skipped
    case FallbackBranch =>
      Prepared(Job(Strip(None, false, None), "massara", MassaraMode))
  }

  /** A page with a doc title is never an ID card. */
  lemma DocTitleNeverIdCard(p: Page)
    requires HasLabel(p.layout, DocTitle)
    ensures Classify(p).Prepared? ==> Classify(p).job.mode == MassaraMode
  {}

  /** An ID card needs no table, no doc title and a QR detection. */
  lemma IdCardNeeds(p: Page)
    requires Classify(p).Prepared? && Classify(p).job.mode == IdCardMode
    ensures !HasTable(p.layout) && !HasLabel(p.layout, DocTitle) && p.qr != []
  {}

  /** A probe that returned no text does not skip a medicine page. */
  lemma ProbeFailureDoesNotSkip(p: Page)
    requires BranchOf(p.layout) == MedicineBranch && !ProbeCropFails(ProbeTitle(p.layout).value)
    requires p.probe == ProbeNoText
    ensures Classify(p) == Whitened(Job(Strip(None, true, None), "massara medicine", MassaraMode), p.barcodes, p.width, p.height)
    ensures !Classify(p).Skipped?
  {}

  /**
   * A Massara strip starts 50 rows below the header image (preferred) or
   * the header, or is the whole page; barcodes are whitened and the strip is
   * cut above any footer.
   */
  lemma StripShape(p: Page)
    requires BranchOf(p.layout) == StripBranch && Classify(p).Prepared?
    ensures var img := Classify(p).job.image;
      img.Strip? && img.whitened && (img.footerCut.Some? <==> HasLabel(p.layout, Footer))
      && img.first == (if HasLabel(p.layout, HeaderImage)
                       then Some(CropFromLowerBox(p.width, p.height, FirstWith(p.layout, HeaderImage).value, 50))
                       else if HasLabel(p.layout, Header)
                       then Some(CropFromLowerBox(p.width, p.height, FirstWith(p.layout, Header).value, 50))
                       else None)
  {}

  /** Every prepared page is sent with the prompt of its own kind; "massara medicine" gets the Massara prompt. */
  lemma PromptFollowsMode(p: Page)
    requires Classify(p).Prepared?
    ensures var job := Classify(p).job;
      PromptOf(job) == (if job.mode == IdCardMode then PagePrompts.IdCard else PagePrompts.Massara)
  {
    var job := Classify(p).job;
    if job.mode == IdCardMode {
      PagePrompts.IdCardKeyword(job.keyword);
    } else if job.keyword == "massara" {
      PagePrompts.MassaraKeyword(job.keyword);
    } else {
      PagePrompts.MassaraMedicineGetsMassara(job.keyword);
    }
  }
}
