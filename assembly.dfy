/**
 * Per-document assembly: the page loop that sorts pages into OCR jobs and
 * skipped pages, the batch OCR call, and the joining of the page texts.
 */
module Assembly {
  import opened Wrappers
  import opened Strings
  import opened Pages

  /** A page handed on for OCR, tagged with its index. */
  datatype IndexedJob = IndexedJob(page: nat, job: Job)

  /** A page left out: skipped by its classifier, or one whose classifier raised. */
  datatype SkipRecord = SkippedPage(page: nat) | ErrorPage(page: nat, error: string)

  function PageOf(r: SkipRecord): nat {
    r.page
  }

  /** The jobs the page loop collects from the classifier outcomes, in page order. */
  function Jobs(outcomes: seq<Outcome>): (js: seq<IndexedJob>)
    ensures |js| <= |outcomes|
    ensures forall k :: 0 <= k < |js| ==> js[k].page < |outcomes|
    decreases |outcomes|
  {
    if outcomes == [] then []
    else
      var n := |outcomes| - 1;
      Jobs(outcomes[..n]) + (if outcomes[n].Prepared? then [IndexedJob(n, outcomes[n].job)] else [])
  }

  /** The skip records the page loop collects, in page order. */
  function Skips(outcomes: seq<Outcome>): (ss: seq<SkipRecord>)
    ensures |ss| <= |outcomes|
    ensures forall k :: 0 <= k < |ss| ==> ss[k].page < |outcomes|
    decreases |outcomes|
  {
    if outcomes == [] then []
    else
      var n := |outcomes| - 1;
      var o := outcomes[n];
      Skips(outcomes[..n]) + (if o.Skipped? then [SkippedPage(n)] else if o.Raised? then [ErrorPage(n, o.error)] else [])
  }

  /** The loop over the extracted pages (identical in the generic, Janzour and Massara pipelines). */
  method PreparePages(outcomes: seq<Outcome>) returns (jobs: seq<IndexedJob>, skipped: seq<SkipRecord>)
    ensures jobs == Jobs(outcomes) && skipped == Skips(outcomes)
  {
    jobs, skipped := [], [];
    var i := 0;
    while i < |outcomes|
      invariant 0 <= i <= |outcomes|
      invariant jobs == Jobs(outcomes[..i]) && skipped == Skips(outcomes[..i])
    {
      assert outcomes[..i + 1][..i] == outcomes[..i];
      match outcomes[i] {
        case Prepared(job) => jobs := jobs + [IndexedJob(i, job)];
        case Skipped => skipped := skipped + [SkippedPage(i)];
        case Raised(e) => skipped := skipped + [ErrorPage(i, e)];
      }
      i := i + 1;
    }
    assert outcomes[..i] == outcomes;
  }

  predicate ListsJob(js: seq<IndexedJob>, i: nat) {
    exists k :: 0 <= k < |js| && js[k].page == i
  }

  predicate ListsSkip(ss: seq<SkipRecord>, i: nat) {
    exists k :: 0 <= k < |ss| && PageOf(ss[k]) == i
  }

  /** Every page its classifier prepared is among the jobs, with that job; no other page is. */
  lemma {:induction false} JobsAt(outcomes: seq<Outcome>, i: nat)
    requires i < |outcomes|
    ensures outcomes[i].Prepared? <==> ListsJob(Jobs(outcomes), i)
    ensures forall k :: 0 <= k < |Jobs(outcomes)| && Jobs(outcomes)[k].page == i ==> Jobs(outcomes)[k].job == outcomes[i].job
    decreases |outcomes|
  {
    var n := |outcomes| - 1;
    var front := outcomes[..n];
    var f := Jobs(front);
    var tail := if outcomes[n].Prepared? then [IndexedJob(n, outcomes[n].job)] else [];
    assert Jobs(outcomes) == f + tail;
    if i < n {
      JobsAt(front, i);
      assert front[i] == outcomes[i];
      assert ListsJob(f + tail, i) <==> ListsJob(f, i) by {
        if ListsJob(f + tail, i) {
          var k :| 0 <= k < |f + tail| && (f + tail)[k].page == i;
          assert k < |f|;
          assert f[k] == (f + tail)[k];
        }
        if ListsJob(f, i) {
          var k :| 0 <= k < |f| && f[k].page == i;
          assert (f + tail)[k] == f[k];
        }
      }
    } else {
      assert ListsJob(f + tail, n) <==> tail != [] by {
        if tail != [] {
          assert (f + tail)[|f|].page == n;
        }
      }
    }
  }

  lemma ListsSkipAppend(f: seq<SkipRecord>, tail: seq<SkipRecord>, i: nat)
    ensures ListsSkip(f + tail, i) <==> ListsSkip(f, i) || ListsSkip(tail, i)
  {
    if ListsSkip(f + tail, i) {
      var k :| 0 <= k < |f + tail| && PageOf((f + tail)[k]) == i;
      if k < |f| {
        assert f[k] == (f + tail)[k];
      } else {
        assert tail[k - |f|] == (f + tail)[k];
      }
    }
    if ListsSkip(f, i) {
      var k :| 0 <= k < |f| && PageOf(f[k]) == i;
      assert (f + tail)[k] == f[k];
    }
    if ListsSkip(tail, i) {
      var k :| 0 <= k < |tail| && PageOf(tail[k]) == i;
      assert (f + tail)[|f| + k] == tail[k];
    }
  }

  /** The record a skipped page gets. */
  function RecordOf(outcomes: seq<Outcome>, i: nat): SkipRecord
    requires i < |outcomes|
  {
    if outcomes[i].Raised? then ErrorPage(i, outcomes[i].error) else SkippedPage(i)
  }

  lemma {:induction false} SkipsListed(outcomes: seq<Outcome>, i: nat)
    requires i < |outcomes|
    ensures !outcomes[i].Prepared? <==> ListsSkip(Skips(outcomes), i)
    decreases |outcomes|
  {
    var n := |outcomes| - 1;
    var front := outcomes[..n];
    var o := outcomes[n];
    var tail := if o.Skipped? then [SkippedPage(n)] else if o.Raised? then [ErrorPage(n, o.error)] else [];
    assert Skips(outcomes) == Skips(front) + tail;
    ListsSkipAppend(Skips(front), tail, i);
    if i < n {
      SkipsListed(front, i);
      assert front[i] == outcomes[i];
      assert !ListsSkip(tail, i);
    } else {
      if tail != [] {
        assert PageOf(tail[0]) == n;
      }
      assert !ListsSkip(Skips(front), n);
    }
  }

  lemma {:induction false} SkipsRecorded(outcomes: seq<Outcome>, i: nat)
    requires i < |outcomes|
    ensures forall k :: 0 <= k < |Skips(outcomes)| && PageOf(Skips(outcomes)[k]) == i ==> Skips(outcomes)[k] == RecordOf(outcomes, i)
    decreases |outcomes|
  {
    var n := |outcomes| - 1;
    var front := outcomes[..n];
    var f := Skips(front);
    var o := outcomes[n];
    var tail := if o.Skipped? then [SkippedPage(n)] else if o.Raised? then [ErrorPage(n, o.error)] else [];
    var all := Skips(outcomes);
    assert all == f + tail;
    if i < n {
      SkipsRecorded(front, i);
      assert front[i] == outcomes[i];
      assert RecordOf(front, i) == RecordOf(outcomes, i);
    }
    forall k | 0 <= k < |all| && PageOf(all[k]) == i ensures all[k] == RecordOf(outcomes, i) {
      if k < |f| {
        assert all[k] == f[k];
      } else {
        assert all[k] == tail[k - |f|];
      }
    }
  }

  /** Every page its classifier did not prepare is among the skips, with the error when it raised; no other page is. */
  lemma SkipsAt(outcomes: seq<Outcome>, i: nat)
    requires i < |outcomes|
    ensures !outcomes[i].Prepared? <==> ListsSkip(Skips(outcomes), i)
    ensures forall k :: 0 <= k < |Skips(outcomes)| && PageOf(Skips(outcomes)[k]) == i ==> Skips(outcomes)[k] == RecordOf(outcomes, i)
  {
    SkipsListed(outcomes, i);
    SkipsRecorded(outcomes, i);
  }

  /** The loop puts every page somewhere, once. */
  lemma {:induction false} PartitionCounts(outcomes: seq<Outcome>)
    ensures |Jobs(outcomes)| + |Skips(outcomes)| == |outcomes|
    decreases |outcomes|
  {
    if outcomes != [] {
      PartitionCounts(outcomes[..|outcomes| - 1]);
    }
  }

  /** Job page indices strictly increase. */
  lemma {:induction false} JobsIncreasing(outcomes: seq<Outcome>)
    ensures forall j, k :: 0 <= j < k < |Jobs(outcomes)| ==> Jobs(outcomes)[j].page < Jobs(outcomes)[k].page
    decreases |outcomes|
  {
    if outcomes != [] {
      JobsIncreasing(outcomes[..|outcomes| - 1]);
    }
  }

  /** One OCR reply: the generated text, or the exception the call returned. */
  datatype Reply = Text(text: string) | Failure(className: string, message: string)

  /** How the generic pipeline writes a reply: a failure becomes "API Error: <class>: <message>". */
  function Rendered(r: Reply): (s: string)
    ensures r.Text? ==> s == r.text
    ensures r.Failure? ==> "API Error: " <= s
  {
    match r
    case Text(t) => t
    case Failure(c, m) => "API Error: " + c + ": " + m
  }

  /**
   * `run_batch_inference` of the generic pipeline, given the reply to each
   * job in order: no jobs give no results; otherwise one result per job, in
   * order, with failures rendered in place.
   */
  method RunBatchInference(replies: seq<Reply>) returns (results: seq<string>)
    ensures |results| == |replies|
    ensures forall k :: 0 <= k < |replies| ==> results[k] == Rendered(replies[k])
  {
    if |replies| == 0 {
      return [];
    }
    results := [];
    for i := 0 to |replies|
      invariant |results| == i
      invariant forall k :: 0 <= k < i ==> results[k] == Rendered(replies[k])
    {
      results := results + [Rendered(replies[i])];
    }
  }

  /** A batch without failures gives back the generated texts unchanged. */
  lemma CleanBatchUnchanged(replies: seq<Reply>, results: seq<string>)
    requires |results| == |replies|
    requires forall k :: 0 <= k < |replies| ==> results[k] == Rendered(replies[k])
    requires forall k :: 0 <= k < |replies| ==> replies[k].Text?
    ensures forall k :: 0 <= k < |replies| ==> results[k] == replies[k].text
  {}

  /** The replies that are exceptions, in order (the `errors` list of the OCR module's batch call). */
  function Failures(rs: seq<Reply>): (es: seq<Reply>)
    ensures |es| <= |rs|
    ensures forall k :: 0 <= k < |es| ==> es[k].Failure? && es[k] in rs
    decreases |rs|
  {
    if rs == [] then []
    else (if rs[0].Failure? then [rs[0]] else []) + Failures(rs[1..])
  }

  /** The replies that are texts, in order. */
  function Texts(rs: seq<Reply>): (ts: seq<Reply>)
    ensures forall k :: 0 <= k < |ts| ==> ts[k].Text? && ts[k] in rs
    decreases |rs|
  {
    if rs == [] then []
    else (if rs[0].Text? then [rs[0]] else []) + Texts(rs[1..])
  }

  /**
   * The OCR module's `run_batch_inference`: the replies come back as they
   * are, one per item and in order, with the number of successes, which is
   * the length less the number of exceptions.
   */
  function InferenceBatch(replies: seq<Reply>): (r: (seq<Reply>, nat))
    ensures r.0 == replies
    ensures r.1 + |Failures(replies)| == |replies|
  {
    (replies, |replies| - |Failures(replies)|)
  }

  /** The success count is the number of text replies: every reply is one or the other. */
  lemma {:induction false} SuccessesAreTexts(rs: seq<Reply>)
    ensures |Texts(rs)| + |Failures(rs)| == |rs|
    ensures InferenceBatch(rs).1 == |Texts(rs)|
    decreases |rs|
  {
    if rs != [] {
      SuccessesAreTexts(rs[1..]);
    }
  }

  /** One item of the Massara preprocessing stream. */
  datatype StreamItem =
    | JobItem(pageNum: nat, mode: Mode, job: Job)
    | SkipMarker(pageNum: nat)
    | ErrorMarker(pageNum: nat, error: string)

  /** Skip and error markers carry `"skipped": True`. */
  predicate MarkedSkipped(it: StreamItem) {
    !it.JobItem?
  }

  /** `preprocess_pdf_async`: one item per page, in page order, tagged with the page number. */
  method PreprocessStream(outcomes: seq<Outcome>) returns (items: seq<StreamItem>)
    ensures |items| == |outcomes|
    ensures forall k :: 0 <= k < |items| ==> items[k].pageNum == k
    ensures forall k :: 0 <= k < |items| ==> (MarkedSkipped(items[k]) <==> !outcomes[k].Prepared?)
    ensures forall k :: 0 <= k < |items| && outcomes[k].Prepared? ==>
      items[k] == JobItem(k, outcomes[k].job.mode, outcomes[k].job)
    ensures forall k :: 0 <= k < |items| && outcomes[k].Raised? ==> items[k] == ErrorMarker(k, outcomes[k].error)
  {
    items := [];
    for i := 0 to |outcomes|
      invariant |items| == i
      invariant forall k :: 0 <= k < i ==> items[k].pageNum == k
      invariant forall k :: 0 <= k < i ==> (MarkedSkipped(items[k]) <==> !outcomes[k].Prepared?)
      invariant forall k :: 0 <= k < i && outcomes[k].Prepared? ==>
        items[k] == JobItem(k, outcomes[k].job.mode, outcomes[k].job)
      invariant forall k :: 0 <= k < i && outcomes[k].Raised? ==> items[k] == ErrorMarker(k, outcomes[k].error)
    {
      var item := match outcomes[i]
        case Prepared(job) => JobItem(i, job.mode, job)
        case Skipped => SkipMarker(i)
        case Raised(e) => ErrorMarker(i, e);
      items := items + [item];
    }
  }

  /** The generic pipeline's text: the results joined with newlines, without separators. */
  function PlainText(results: seq<string>): string {
    JoinWith("\n", results)
  }

  const IdCardSeparator: string := "============ ID Card ==========="
  const PageSeparator: string := "===========page==========="

  /** The separator line before a page: ID Card for an ID card, the page separator for every other mode. */
  function Separator(m: Mode): (s: string)
    ensures s == IdCardSeparator <==> m == IdCardMode
  {
    if m == IdCardMode then IdCardSeparator else PageSeparator
  }

  function Block(job: IndexedJob, result: string): string {
    Separator(job.job.mode) + "\n" + result
  }

  /** The separator loop of the Janzour and Massara pipelines, over `zip(batch_jobs, raw_results)`. */
  method SeparatedBlocks(jobs: seq<IndexedJob>, results: seq<string>) returns (blocks: seq<string>)
    ensures |blocks| == if |jobs| < |results| then |jobs| else |results|
    ensures forall k :: 0 <= k < |blocks| ==> blocks[k] == Block(jobs[k], results[k])
  {
    var n := if |jobs| < |results| then |jobs| else |results|;
    blocks := [];
    for i := 0 to n
      invariant |blocks| == i
      invariant forall k :: 0 <= k < i ==> blocks[k] == Block(jobs[k], results[k])
    {
      blocks := blocks + [Block(jobs[i], results[i])];
    }
  }

  /** Each heading line followed by its text, in order. */
  function Pairs(heads: seq<string>, texts: seq<string>): (ls: seq<string>)
    requires |heads| == |texts|
    ensures |ls| == 2 * |heads|
    decreases |heads|
  {
    if heads == [] then []
    else [heads[0], texts[0]] + Pairs(heads[1..], texts[1..])
  }

  /** Line 2k is the k-th heading and line 2k+1 the k-th text. */
  lemma {:induction false} PairsAt(heads: seq<string>, texts: seq<string>, k: nat)
    requires |heads| == |texts| && k < |heads|
    ensures Pairs(heads, texts)[2 * k] == heads[k] && Pairs(heads, texts)[2 * k + 1] == texts[k]
    decreases k
  {
    if k > 0 {
      PairsAt(heads[1..], texts[1..], k - 1);
      var rest := Pairs(heads[1..], texts[1..]);
      assert Pairs(heads, texts)[2 * k] == rest[2 * (k - 1)];
      assert Pairs(heads, texts)[2 * k + 1] == rest[2 * (k - 1) + 1];
    }
  }

  lemma JoinCons(sep: string, x: string, rest: seq<string>)
    requires rest != []
    ensures JoinWith(sep, [x] + rest) == x + sep + JoinWith(sep, rest)
  {
    assert ([x] + rest)[1..] == rest;
  }

  /** Joining "heading\ntext" blocks with newlines is joining the heading and text lines. */
  lemma {:induction false} JoinPairs(heads: seq<string>, texts: seq<string>, blocks: seq<string>)
    requires |heads| == |texts| == |blocks|
    requires forall k :: 0 <= k < |blocks| ==> blocks[k] == heads[k] + "\n" + texts[k]
    ensures JoinWith("\n", blocks) == JoinWith("\n", Pairs(heads, texts))
    decreases |heads|
  {
    if |heads| > 0 {
      var rest := Pairs(heads[1..], texts[1..]);
      assert Pairs(heads, texts) == [heads[0]] + ([texts[0]] + rest);
      JoinCons("\n", heads[0], [texts[0]] + rest);
      if |heads| == 1 {
        assert JoinWith("\n", [texts[0]] + rest) == texts[0];
      } else {
        var tail := JoinWith("\n", rest);
        JoinPairs(heads[1..], texts[1..], blocks[1..]);
        JoinCons("\n", texts[0], rest);
        assert blocks == [blocks[0]] + blocks[1..];
        JoinCons("\n", blocks[0], blocks[1..]);
        calc {
          JoinWith("\n", blocks);
          blocks[0] + "\n" + JoinWith("\n", blocks[1..]);
          (heads[0] + "\n" + texts[0]) + "\n" + tail;
          heads[0] + "\n" + (texts[0] + "\n" + tail);
          heads[0] + "\n" + JoinWith("\n", [texts[0]] + rest);
        }
      }
    }
  }

  function Separators(jobs: seq<IndexedJob>): (r: seq<string>)
    ensures |r| == |jobs| && forall k :: 0 <= k < |jobs| ==> r[k] == Separator(jobs[k].job.mode)
  {
    seq(|jobs|, k requires 0 <= k < |jobs| => Separator(jobs[k].job.mode))
  }

  /** Separator line and page text, page after page. */
  function Interleaved(jobs: seq<IndexedJob>, results: seq<string>): (ls: seq<string>)
    requires |jobs| == |results|
    ensures |ls| == 2 * |jobs|
  {
    Pairs(Separators(jobs), results)
  }

  lemma JoinBlocks(jobs: seq<IndexedJob>, results: seq<string>, blocks: seq<string>)
    requires |jobs| == |results| == |blocks|
    requires forall k :: 0 <= k < |blocks| ==> blocks[k] == Block(jobs[k], results[k])
    ensures JoinWith("\n", blocks) == JoinWith("\n", Interleaved(jobs, results))
  {
    JoinPairs(Separators(jobs), results, blocks);
  }

  /** The lines of separator-free headings and texts contain no newline. */
  lemma PairsLinesFree(heads: seq<string>, texts: seq<string>)
    requires |heads| == |texts|
    requires forall k :: 0 <= k < |heads| ==> '\n' !in heads[k] && '\n' !in texts[k]
    ensures forall k :: 0 <= k < |Pairs(heads, texts)| ==> '\n' !in Pairs(heads, texts)[k]
  {
    var ls := Pairs(heads, texts);
    forall k | 0 <= k < |ls|
      ensures '\n' !in ls[k]
    {
      var j := k / 2;
      assert k == 2 * j || k == 2 * j + 1;
      PairsAt(heads, texts, j);
    }
  }

  lemma SeparatorLinesFree(jobs: seq<IndexedJob>)
    ensures forall k :: 0 <= k < |jobs| ==> '\n' !in Separators(jobs)[k]
  {
    assert '\n' !in IdCardSeparator && '\n' !in PageSeparator;
  }

  /** Splitting the joined blocks on newlines gives the heading and text lines back. */
  lemma SplitPairs(heads: seq<string>, texts: seq<string>, blocks: seq<string>)
    requires |heads| == |texts| == |blocks| >= 1
    requires forall k :: 0 <= k < |blocks| ==> blocks[k] == heads[k] + "\n" + texts[k]
    requires forall k :: 0 <= k < |heads| ==> '\n' !in heads[k] && '\n' !in texts[k]
    ensures SplitOn(JoinWith("\n", blocks), '\n') == Pairs(heads, texts)
  {
    var lines := Pairs(heads, texts);
    JoinPairs(heads, texts, blocks);
    PairsLinesFree(heads, texts);
    assert ['\n'] == "\n";
    SplitJoin(lines, '\n');
  }

  /**
   * When no page text holds a newline, splitting the joined text on
   * newlines gives back each separator followed by its page's text: the
   * page texts can be recovered, in job order.
   */
  lemma JoinedTextRecoversPages(jobs: seq<IndexedJob>, results: seq<string>, blocks: seq<string>)
    requires |jobs| == |results| == |blocks| >= 1
    requires forall k :: 0 <= k < |blocks| ==> blocks[k] == Block(jobs[k], results[k])
    requires forall k :: 0 <= k < |results| ==> '\n' !in results[k]
    ensures SplitOn(JoinWith("\n", blocks), '\n') == Interleaved(jobs, results)
  {
    SeparatorLinesFree(jobs);
    SplitPairs(Separators(jobs), results, blocks);
  }
}
