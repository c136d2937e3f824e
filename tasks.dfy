/**
 * The Celery task layer: each uploaded PDF runs a chain OCR -> GPT extraction ->
 * validation, publishing events as it goes, and a per-batch counter in Redis
 * counts finished documents down to the `batch_completed` event.
 */
module Tasks {
  import opened Wrappers
  import opened Assembly
  import opened Strings

  /** What the GPT extraction made of the model's reply. */
  datatype Parsed = Loaded(json: string) | RawResponse(text: string)

  /** A value in a result dictionary. */
  datatype Value =
    | VStr(s: string) | VNull | VNum(r: real) | VEmptyObject
    | VPaths(paths: seq<string>) | VSkips(pages: seq<SkipRecord>) | VResult(parsed: Parsed) | VReview(review: string)

  type Dict = map<string, Value>

  datatype EventKind =
    | Started(template: Option<string>)
    | Progress(step: string)
    | StepDone(step: string)
    | StepFailed(step: string, error: string)
    | StepCompleted(step: string)
    | Completed(data: Dict)
    | Failed(message: string)
    | BatchCompleted(batch: string)

  datatype Event = Event(task: string, kind: EventKind)

  /** A stage either returns a dictionary or raises, which stops the chain. */
  datatype StageResult = Returned(dict: Dict) | Raised(message: string)

  /** The OCR pipeline's outcome: its text, skipped pages and page images, or an exception. */
  datatype OcrOutcome = OcrDone(text: string, skipped: seq<SkipRecord>, imagePaths: seq<string>) | OcrFailed(message: string)

  /**
   * The GPT step's outcome: the reply content (a missing content is the
   * empty string, which is falsy like it), an exception from the model call
   * inside `run_gpt_pipeline`'s `try`, or an exception from building the
   * OpenAI client before that `try`.
   */
  datatype GptOutcome = GptReply(content: string) | GptFailed(message: string) | ClientFailed(message: string) {
    /** The step raises instead of returning a reply. */
    predicate Raises() { !GptReply? }
  }

  datatype Entry = DefaultEntry | JanzourEntry | MassaraEntry

  /** The system prompts of the GPT extraction step. */
  datatype GptPrompt = JanzourGpt | MassaraGpt

  const RawTextLimit: nat := 50000

  function CounterKey(batch: string): string {
    "batch_count:" + batch
  }

  /** `if batch_id:`: present and not empty. */
  predicate BatchSet(batch: Option<string>) {
    batch.Some? && batch.value != ""
  }

  /** Redis `DECR` on a missing key starts from 0. */
  function Current(counters: map<string, int>, key: string): int {
    if key in counters then counters[key] else 0
  }

  /** The template each entry point passes to the GPT step. */
  function TemplateOf(e: Entry): Option<string> {
    match e
    case DefaultEntry => None
    case JanzourEntry => Some("janzour")
    case MassaraEntry => Some("massara")
  }

  /** The prompt the GPT step picks from the template; None leaves the choice to the pipeline. */
  function TemplatePrompt(template: Option<string>): (p: Option<GptPrompt>)
    ensures p == Some(JanzourGpt) <==> template in {Some("janzour"), Some("safwa")}
    ensures p == Some(MassaraGpt) <==> template in {Some("massara"), Some("muasafat"), Some("musafat")}
  {
    match template
    case None => None
    case Some(t) =>
      if t in ["janzour", "safwa"] then Some(JanzourGpt)
      else if t in ["massara", "muasafat", "musafat"] then Some(MassaraGpt)
      else None
  }

  /** `run_gpt_pipeline` replaces a missing system prompt with the Janzour one. */
  function PipelinePrompt(p: Option<GptPrompt>): GptPrompt {
    p.GetOr(JanzourGpt)
  }

  /** Every entry point sends its documents with the prompt of its template; the default entry gets the Janzour prompt. */
  lemma EntryPrompts()
    ensures PipelinePrompt(TemplatePrompt(TemplateOf(DefaultEntry))) == JanzourGpt
    ensures PipelinePrompt(TemplatePrompt(TemplateOf(JanzourEntry))) == JanzourGpt
    ensures PipelinePrompt(TemplatePrompt(TemplateOf(MassaraEntry))) == MassaraGpt
  {}

  /** The stored OCR text: cut to 50000 characters plus "..." when longer. */
  function RawText(text: string): (r: string)
    ensures |text| <= RawTextLimit ==> r == text
    ensures |text| > RawTextLimit ==> |r| == RawTextLimit + 3 && r[..RawTextLimit] == text[..RawTextLimit]
    ensures |text| > RawTextLimit ==> r[RawTextLimit..] == "..."
  {
    if |text| > RawTextLimit then text[..RawTextLimit] + "..." else text
  }

  /** `json.loads`, or the raw reply under "raw_response" when it is not JSON; nothing for an empty reply. */
  function ParsedValue(content: string, isJson: bool): (v: Value)
    ensures v == VNull <==> content == ""
    ensures content != "" && isJson ==> v == VResult(Loaded(content))
    ensures content != "" && !isJson ==> v == VResult(RawResponse(content))
  {
    if content == "" then VNull
    else if isJson then VResult(Loaded(content))
    else VResult(RawResponse(content))
  }

  function TextOf(d: Dict): string {
    if "text" in d && d["text"].VStr? then d["text"].s else ""
  }

  function SkippedOf(d: Dict): seq<SkipRecord> {
    if "skipped" in d && d["skipped"].VSkips? then d["skipped"].pages else []
  }

  function PathsOf(d: Dict): seq<string> {
    if "image_paths" in d && d["image_paths"].VPaths? then d["image_paths"].paths else []
  }

  function BatchValue(batch: Option<string>): Value {
    if batch.Some? then VStr(batch.value) else VNull
  }

  /** The dictionary the OCR stage returns. */
  function OcrDict(pdfPath: string, text: string, skipped: seq<SkipRecord>, imagePaths: seq<string>): Dict {
    map["text" := VStr(text), "skipped" := VSkips(skipped), "pdf_path" := VStr(pdfPath), "image_paths" := VPaths(imagePaths)]
  }

  /** The dictionary the GPT stage returns. */
  function ExtractionDict(task: string, filename: string, batch: Option<string>, now: real, result: Value,
                          text: string, skipped: seq<SkipRecord>, imagePaths: seq<string>): (d: Dict)
    ensures "error" !in d && "image_paths" in d && d["image_paths"] == VPaths(imagePaths)
  {
    map["task_id" := VStr(task), "filename" := VStr(filename), "batch_id" := BatchValue(batch),
        "processed_at" := VNum(now), "result" := result, "raw_text" := VStr(RawText(text)),
        "skipped" := VSkips(skipped), "image_paths" := VPaths(imagePaths)]
  }

  const InvalidOcrResult: Dict := map["error" := VStr("Invalid OCR result type")]
  const NoTextResult: Dict := map["result" := VEmptyObject, "message" := VStr("No text detected in OCR")]

  function OcrFailurePrefix(e: Entry): string {
    match e
    case DefaultEntry => "OCR failed: "
    case JanzourEntry => "Janzour OCR failed: "
    case MassaraEntry => "Massara OCR failed: "
  }

  function CountBatchCompleted(es: seq<Event>): nat
    decreases |es|
  {
    if es == [] then 0
    else CountBatchCompleted(es[..|es| - 1]) + (if es[|es| - 1].kind.BatchCompleted? then 1 else 0)
  }

  lemma {:induction false} CountAppend(a: seq<Event>, b: seq<Event>)
    ensures CountBatchCompleted(a + b) == CountBatchCompleted(a) + CountBatchCompleted(b)
    decreases |b|
  {
    if b == [] {
      assert a + b == a;
    } else {
      var n := |b| - 1;
      assert (a + b)[..|a + b| - 1] == a + b[..n];
      CountAppend(a, b[..n]);
    }
  }

  /** Counting over three consecutive stretches of a growing stream. */
  lemma CountSplit(a: seq<Event>, b: seq<Event>, c: seq<Event>)
    requires a <= b <= c
    ensures CountBatchCompleted(c[|a|..]) == CountBatchCompleted(b[|a|..]) + CountBatchCompleted(c[|b|..])
  {
    assert c[|a|..] == b[|a|..] + c[|b|..];
    CountAppend(b[|a|..], c[|b|..]);
  }

  predicate Quiet(es: seq<Event>) {
    forall i :: 0 <= i < |es| ==> !es[i].kind.BatchCompleted?
  }

  lemma {:induction false} CountQuiet(es: seq<Event>)
    requires Quiet(es)
    ensures CountBatchCompleted(es) == 0
    decreases |es|
  {
    if es != [] {
      CountQuiet(es[..|es| - 1]);
    }
  }

  /** The events appended by a stage: some quiet ones, then possibly one `batch_completed`. */
  lemma Appended(before: seq<Event>, quiet: seq<Event>, loud: bool, e: Event, after: seq<Event>)
    requires Quiet(quiet) && e.kind.BatchCompleted?
    requires after == before + quiet + (if loud then [e] else [])
    ensures before <= after && CountBatchCompleted(after[|before|..]) == (if loud then 1 else 0)
  {
    assert after[|before|..] == quiet + (if loud then [e] else []);
    CountQuiet(quiet);
    CountAppend(quiet, if loud then [e] else []);
    assert [e][..0] == [];
  }

  /** The counter key of a batch; only meaningful when `BatchSet`. */
  function KeyOf(batch: Option<string>): string {
    CounterKey(batch.GetOr(""))
  }

  /** What the counter of the batch holds after one more `DECR`. */
  function Remaining(counters: map<string, int>, batch: Option<string>): int {
    Current(counters, KeyOf(batch)) - 1
  }

  /** Nothing changed in the counters and no `batch_completed` was published. */
  predicate Untouched(before: map<string, int>, after: map<string, int>, completed: nat) {
    after == before && completed == 0
  }

  /**
   * One `DECR` of the batch's counter and nothing else in the counters (the
   * key may be deleted once nothing remains); `batch_completed` was
   * published once if nothing remains and otherwise not at all.
   */
  predicate Decremented(before: map<string, int>, after: map<string, int>, batch: Option<string>, completed: nat) {
    BatchSet(batch)
    && (after == before[KeyOf(batch) := Remaining(before, batch)]
        || (Remaining(before, batch) <= 0 && after == before - {KeyOf(batch)}))
    && completed == (if Remaining(before, batch) <= 0 then 1 else 0)
  }

  /** Whether a document's chain reaches one of the two decrements: a GPT failure or a successful validation. */
  predicate Counts(ocr: OcrOutcome, gpt: GptOutcome, validator: Result<string, string>) {
    ocr.OcrDone? && ((ocr.text != "" && gpt.Raises()) || (!(ocr.text != "" && gpt.Raises()) && validator.Ok?))
  }

  /** One upload of a batch, with everything its chain will meet. */
  datatype Upload = Upload(task: string, filename: string, pdfPath: string, ocr: OcrOutcome, gpt: GptOutcome,
                           isJson: bool, now: real, validator: Result<string, string>)

  /** `filename.lower().endswith(".pdf")`. */
  predicate IsPdfName(name: string) {
    |name| >= 4 && ToLower(name)[|name| - 4..] == ".pdf"
  }

  /** The uploads the batch routes accept, in upload order. */
  function PdfUploads(us: seq<Upload>): (r: seq<Upload>)
    ensures |r| <= |us|
    ensures forall u :: u in r <==> u in us && IsPdfName(u.filename)
    decreases |us|
  {
    if us == [] then []
    else
      var last := us[|us| - 1];
      assert us == us[..|us| - 1] + [last];
      PdfUploads(us[..|us| - 1]) + (if IsPdfName(last.filename) then [last] else [])
  }

  /** How many of the uploads reach a decrement of the batch counter. */
  function CountedDocs(us: seq<Upload>): (n: nat)
    ensures n <= |us|
    decreases |us|
  {
    if us == [] then 0
    else
      var last := us[|us| - 1];
      CountedDocs(us[..|us| - 1]) + (if Counts(last.ocr, last.gpt, last.validator) then 1 else 0)
  }

  /** The batch counter after `d` of the `n` documents reached their decrement. */
  predicate CounterAfter(c0: map<string, int>, key: string, n: nat, d: nat, counters: map<string, int>) {
    (d < n ==> counters == c0[key := n - d])
    && (d == n ==> counters == c0[key := 0] || counters == c0 - {key})
  }

  /** One more chain of the batch: it decrements once or not at all, and completes the batch exactly at the last decrement. */
  lemma CountedStep(docs: seq<Upload>, i: nat)
    requires i < |docs|
    ensures CountedDocs(docs[..i + 1])
            == CountedDocs(docs[..i]) + (if Counts(docs[i].ocr, docs[i].gpt, docs[i].validator) then 1 else 0)
  {
    assert docs[..i + 1][..i] == docs[..i];
  }

  /** A counter set to `n` and then counted down leaves every other counter as it was. */
  lemma CounterRestored(c: map<string, int>, c0: map<string, int>, c2: map<string, int>, key: string, n: nat, d: nat)
    requires c0 == c[key := n] && d <= n && CounterAfter(c0, key, n, d, c2)
    ensures c2 - {key} == c - {key}
  {
    assert c0 - {key} == c - {key};
  }

  lemma BatchStep(c0: map<string, int>, batch: string, n: nat, d: nat, c: map<string, int>, c2: map<string, int>,
                  counts: bool, completed: nat)
    requires batch != "" && d < n && CounterAfter(c0, CounterKey(batch), n, d, c)
    requires if counts then Decremented(c, c2, Some(batch), completed) else Untouched(c, c2, completed)
    ensures var d2 := d + (if counts then 1 else 0);
      d2 <= n && CounterAfter(c0, CounterKey(batch), n, d2, c2) && completed == (if d2 == n then 1 else 0)
  {
    var key := CounterKey(batch);
    assert KeyOf(Some(batch)) == key;
    if counts {
      assert Remaining(c, Some(batch)) == n - d - 1;
      assert c[key := n - d - 1] == c0[key := n - d - 1];
      if d + 1 == n {
        assert c - {key} == c0 - {key};
      }
    }
  }

  /** The event stream and the batch counters (Redis keys `batch_count:<id>`). */
  class Orchestrator {
    var counters: map<string, int>
    var events: seq<Event>

    constructor()
      ensures counters == map[] && events == []
    {
      counters := map[];
      events := [];
    }

    /** The batch route sets the counter to the number of PDF uploads. */
    method StartBatch(batch: string, uploads: nat)
      modifies this
      ensures counters == old(counters)[CounterKey(batch) := uploads] && events == old(events)
    {
      counters := counters[CounterKey(batch) := uploads];
    }

    /** `r.decr(...)`: one less than before, 0 standing for a missing key. */
    method Decrement(batch: string) returns (remaining: int)
      modifies this
      ensures remaining == Current(old(counters), CounterKey(batch)) - 1
      ensures counters == old(counters)[CounterKey(batch) := remaining] && events == old(events)
    {
      var key := CounterKey(batch);
      remaining := Current(counters, key) - 1;
      counters := counters[key := remaining];
    }

    /** `process_ocr_task` and its Janzour and Massara twins: a failure is published and re-raised, never counted. */
    method OcrStage(entry: Entry, task: string, filename: string, pdfPath: string, ocr: OcrOutcome)
      returns (r: StageResult)
      modifies this
      ensures counters == old(counters)
      ensures ocr.OcrDone? ==> r == Returned(OcrDict(pdfPath, ocr.text, ocr.skipped, ocr.imagePaths)) && events == old(events)
      ensures ocr.OcrFailed? ==>
        (r == Raised(ocr.message) && events == old(events) + [Event(task, Failed(OcrFailurePrefix(entry) + ocr.message))])
    {
      match ocr {
        case OcrDone(text, skipped, paths) =>
          r := Returned(OcrDict(pdfPath, text, skipped, paths));
        case OcrFailed(m) =>
          events := events + [Event(task, Failed(OcrFailurePrefix(entry) + m))];
          r := Raised(m);
      }
    }

    /**
     * The failure path of `process_gpt_extraction`: published, counted once
     * when a batch is set, then re-raised. Only a failure of the model call
     * itself publishes the failed `extract_json` step first.
     */
    method GptFailure(task: string, batch: Option<string>, gpt: GptOutcome)
      requires gpt.Raises()
      modifies this
      ensures old(events) <= events
      ensures if BatchSet(batch)
              then Decremented(old(counters), counters, batch, CountBatchCompleted(events[|old(events)|..]))
              else Untouched(old(counters), counters, CountBatchCompleted(events[|old(events)|..]))
      ensures counters == (if BatchSet(batch) then old(counters)[KeyOf(batch) := Remaining(old(counters), batch)] else old(counters))
      ensures events == old(events) + [Event(task, Progress("gpt_start")), Event(task, Progress("extract_json"))]
                                     + (if gpt.GptFailed? then [Event(task, StepFailed("extract_json", gpt.message))] else [])
                                     + [Event(task, Failed("GPT failed: " + gpt.message))]
                                     + (if BatchSet(batch) && Remaining(old(counters), batch) <= 0
                                        then [Event(task, BatchCompleted(batch.value))] else [])
    {
      ghost var before := events;
      ghost var done := Event(task, BatchCompleted(batch.GetOr("")));
      var m := gpt.message;
      var quiet := [Event(task, Progress("gpt_start")), Event(task, Progress("extract_json"))]
                   + (if gpt.GptFailed? then [Event(task, StepFailed("extract_json", m))] else [])
                   + [Event(task, Failed("GPT failed: " + m))];
      events := events + quiet;
      var loud := false;
      if BatchSet(batch) {
        var remaining := Decrement(batch.value);
        if remaining <= 0 {
          events := events + [Event(task, BatchCompleted(batch.value))];
          loud := true;
        }
      }
      Appended(before, quiet, loud, done, events);
    }

    /**
     * `process_gpt_extraction`. A non-dictionary input gives an error
     * dictionary. Empty text skips the model and publishes `completed` with
     * an empty result. A failure is published, counts the document as done
     * for its batch (publishing `batch_completed` when none remain) and is
     * re-raised; a stage that returns leaves the counters alone.
     */
    method GptStage(input: Option<Dict>, task: string, filename: string, batch: Option<string>, template: Option<string>,
                    gpt: GptOutcome, isJson: bool, now: real) returns (r: StageResult)
      modifies this
      ensures old(events) <= events
      ensures r.Raised? <==> input.Some? && TextOf(input.value) != "" && gpt.Raises()
      ensures if r.Raised? && BatchSet(batch)
              then Decremented(old(counters), counters, batch, CountBatchCompleted(events[|old(events)|..]))
              else Untouched(old(counters), counters, CountBatchCompleted(events[|old(events)|..]))
      ensures input.None? ==> r == Returned(InvalidOcrResult) && events == old(events)
      ensures input.Some? && TextOf(input.value) == "" ==>
        (r == Returned(ExtractionDict(task, filename, batch, now, VNull, "", SkippedOf(input.value), PathsOf(input.value)))
         && events == old(events) + [Event(task, Completed(NoTextResult)), Event(task, StepCompleted("extraction"))])
      ensures input.Some? && TextOf(input.value) != "" && gpt.GptReply? ==>
        (r == Returned(ExtractionDict(task, filename, batch, now, ParsedValue(gpt.content, isJson),
                                      TextOf(input.value), SkippedOf(input.value), PathsOf(input.value)))
         && events == old(events) + [Event(task, Progress("gpt_start")), Event(task, Progress("extract_json")),
                                     Event(task, StepDone("extract_json")), Event(task, StepCompleted("extraction"))])
      ensures input.Some? && TextOf(input.value) != "" && gpt.Raises() ==>
        (r == Raised(gpt.message)
         && counters == (if BatchSet(batch) then old(counters)[KeyOf(batch) := Remaining(old(counters), batch)] else old(counters))
         && events == old(events) + [Event(task, Progress("gpt_start")), Event(task, Progress("extract_json"))]
                                   + (if gpt.GptFailed? then [Event(task, StepFailed("extract_json", gpt.message))] else [])
                                   + [Event(task, Failed("GPT failed: " + gpt.message))]
                                   + (if BatchSet(batch) && Remaining(old(counters), batch) <= 0
                                      then [Event(task, BatchCompleted(batch.value))] else []))
    {
      ghost var before := events;
      ghost var done := Event(task, BatchCompleted(batch.GetOr("")));
      if input.None? {
        Appended(before, [], false, done, events);
        return Returned(InvalidOcrResult);
      }
      var d := input.value;
      var text := TextOf(d);
      var content := "";
      var quiet: seq<Event>;
      if text == "" {
        quiet := [Event(task, Completed(NoTextResult)), Event(task, StepCompleted("extraction"))];
      } else {
        match gpt {
          case GptFailed(m) =>
            GptFailure(task, batch, gpt);
            return Raised(m);
          case ClientFailed(m) =>
            GptFailure(task, batch, gpt);
            return Raised(m);
          case GptReply(s) =>
            quiet := [Event(task, Progress("gpt_start")), Event(task, Progress("extract_json")),
                      Event(task, StepDone("extract_json")), Event(task, StepCompleted("extraction"))];
            content := s;
        }
      }
      var result := ExtractionDict(task, filename, batch, now, ParsedValue(content, isJson), text, SkippedOf(d), PathsOf(d));
      events := events + quiet;
      Appended(before, quiet, false, done, events);
      r := Returned(result);
    }

    /**
     * `process_validation_task`. An input with an "error" key passes
     * through. On success the result gains the review and loses its image
     * paths, `completed` is published and the document is counted as done
     * (at zero or below: `batch_completed`, and the counter is deleted). A
     * validator failure is recorded under "validation_error" and published
     * as `completed`, without counting the document.
     */
    method ValidationStage(input: Dict, task: string, filename: string, batch: Option<string>, validator: Result<string, string>)
      returns (out: Dict)
      modifies this
      ensures old(events) <= events
      ensures if "error" !in input && validator.Ok? && BatchSet(batch)
              then Decremented(old(counters), counters, batch, CountBatchCompleted(events[|old(events)|..]))
              else Untouched(old(counters), counters, CountBatchCompleted(events[|old(events)|..]))
      ensures "error" in input ==> out == input && events == old(events) && counters == old(counters)
      ensures "error" !in input && validator.Err? ==>
        (out == input["validation_error" := VStr(validator.error)]
         && events == old(events) + [Event(task, Progress("validation")), Event(task, Completed(out))]
         && counters == old(counters))
      ensures "error" !in input && validator.Ok? ==>
        (out == input["validation_review" := VReview(validator.value)] - {"image_paths"}
         && counters == (if !BatchSet(batch) then old(counters)
                         else if Remaining(old(counters), batch) > 0
                         then old(counters)[KeyOf(batch) := Remaining(old(counters), batch)]
                         else old(counters) - {KeyOf(batch)})
         && events == old(events) + [Event(task, Progress("validation")), Event(task, Completed(out))]
                                   + (if BatchSet(batch) && Remaining(old(counters), batch) <= 0
                                      then [Event(task, BatchCompleted(batch.value))] else []))
    {
      ghost var before := events;
      ghost var done := Event(task, BatchCompleted(batch.GetOr("")));
      if "error" in input {
        Appended(before, [], false, done, events);
        return input;
      }
      match validator {
        case Ok(review) =>
          out := input["validation_review" := VReview(review)] - {"image_paths"};
          var quiet := [Event(task, Progress("validation")), Event(task, Completed(out))];
          events := events + quiet;
          var loud := false;
          if BatchSet(batch) {
            var remaining := Decrement(batch.value);
            if remaining <= 0 {
              events := events + [Event(task, BatchCompleted(batch.value))];
              counters := counters - {CounterKey(batch.value)};
              loud := true;
            }
          }
          Appended(before, quiet, loud, done, events);
        case Err(m) =>
          out := input["validation_error" := VStr(m)];
          var quiet := [Event(task, Progress("validation")), Event(task, Completed(out))];
          events := events + quiet;
          Appended(before, quiet, false, done, events);
      }
    }

    /**
     * One document's chain: started event, OCR, GPT with the entry's
     * template, validation; a stage that raises stops the chain. The counter
     * of the batch is decremented at most once, nothing else in the counters
     * changes, and `batch_completed` is published at most once, exactly when
     * that decrement leaves nothing.
     */
    method RunChain(entry: Entry, task: string, filename: string, pdfPath: string, batch: Option<string>,
                    ocr: OcrOutcome, gpt: GptOutcome, isJson: bool, now: real, validator: Result<string, string>)
      modifies this
      ensures old(events) <= events && |events| > |old(events)|
      ensures events[|old(events)|] == Event(task, Started(TemplateOf(entry)))
      ensures if BatchSet(batch) && Counts(ocr, gpt, validator)
              then Decremented(old(counters), counters, batch, CountBatchCompleted(events[|old(events)|..]))
              else Untouched(old(counters), counters, CountBatchCompleted(events[|old(events)|..]))
    {
      ghost var before := events;
      var start := Event(task, Started(TemplateOf(entry)));
      events := events + [start];
      assert Quiet([start]);
      CountQuiet([start]);
      var o := OcrStage(entry, task, filename, pdfPath, ocr);
      if o.Raised? {
        Appended(before, [start, Event(task, Failed(OcrFailurePrefix(entry) + ocr.message))], false, start.(kind := BatchCompleted("")), events);
        return;
      }
      ghost var mid := events;
      assert TextOf(o.dict) == ocr.text;
      ExtractAndValidate(o.dict, task, filename, batch, TemplateOf(entry), gpt, isJson, now, validator);
      CountSplit(before, mid, events);
    }

    /** The GPT stage followed, when it returns, by the validation stage. */
    method ExtractAndValidate(input: Dict, task: string, filename: string, batch: Option<string>, template: Option<string>,
                              gpt: GptOutcome, isJson: bool, now: real, validator: Result<string, string>)
      modifies this
      ensures old(events) <= events
      ensures if BatchSet(batch) && ((TextOf(input) != "" && gpt.Raises()) || (!(TextOf(input) != "" && gpt.Raises()) && validator.Ok?))
              then Decremented(old(counters), counters, batch, CountBatchCompleted(events[|old(events)|..]))
              else Untouched(old(counters), counters, CountBatchCompleted(events[|old(events)|..]))
    {
      ghost var before := events;
      var g := GptStage(Some(input), task, filename, batch, template, gpt, isJson, now);
      if g.Raised? {
        return;
      }
      assert "error" !in g.dict;
      ghost var mid := events;
      var v := ValidationStage(g.dict, task, filename, batch, validator);
      CountSplit(before, mid, events);
    }

    /** One document of a batch, whose counter started at `n` and has been decremented `d` times. */
    method RunDocument(entry: Entry, batch: string, u: Upload, ghost c0: map<string, int>, ghost n: nat, ghost d: nat)
      requires batch != "" && d < n && CounterAfter(c0, CounterKey(batch), n, d, counters)
      modifies this
      ensures old(events) <= events
      ensures var d2 := d + (if Counts(u.ocr, u.gpt, u.validator) then 1 else 0);
        d2 <= n && CounterAfter(c0, CounterKey(batch), n, d2, counters)
        && CountBatchCompleted(events[|old(events)|..]) == (if d2 == n then 1 else 0)
    {
      ghost var c := counters;
      RunChain(entry, u.task, u.filename, u.pdfPath, Some(batch), u.ocr, u.gpt, u.isJson, u.now, u.validator);
      BatchStep(c0, batch, n, d, c, counters, Counts(u.ocr, u.gpt, u.validator), CountBatchCompleted(events[|old(events)|..]));
    }

    /**
     * A batch route followed by every chain it dispatches, one after
     * another: the counter starts at the number of PDF uploads, and
     * `batch_completed` is published at most once, namely when every
     * document reached its decrement. No other counter changes.
     */
    method RunBatch(entry: Entry, batch: string, uploads: seq<Upload>)
      requires batch != ""
      modifies this
      ensures old(events) <= events
      ensures counters - {CounterKey(batch)} == old(counters) - {CounterKey(batch)}
      ensures var docs := PdfUploads(uploads);
        CountBatchCompleted(events[|old(events)|..]) == (if docs != [] && CountedDocs(docs) == |docs| then 1 else 0)
    {
      var docs := PdfUploads(uploads);
      if docs == [] {
        assert events[|old(events)|..] == [];
        return;
      }
      ghost var e0 := events;
      StartBatch(batch, |docs|);
      ghost var c0 := counters;
      RunDocuments(entry, batch, docs);
      assert events[|old(events)|..] == events[|e0|..];
      CounterRestored(old(counters), c0, counters, CounterKey(batch), |docs|, CountedDocs(docs));
    }

    /** The documents of a started batch, one after the other. */
    method RunDocuments(entry: Entry, batch: string, docs: seq<Upload>)
      requires batch != "" && docs != [] && CounterKey(batch) in counters && counters[CounterKey(batch)] == |docs|
      modifies this
      ensures old(events) <= events
      ensures CounterAfter(old(counters), CounterKey(batch), |docs|, CountedDocs(docs), counters)
      ensures CountBatchCompleted(events[|old(events)|..]) == if CountedDocs(docs) == |docs| then 1 else 0
    {
      var n := |docs|;
      ghost var c0 := counters;
      ghost var e0 := events;
      assert c0 == c0[CounterKey(batch) := n];
      assert events[|e0|..] == [] && docs[..0] == [];
      var i := 0;
      while i < n
        invariant 0 <= i <= n && e0 <= events
        invariant CountedDocs(docs[..i]) <= i
        invariant CounterAfter(c0, CounterKey(batch), n, CountedDocs(docs[..i]), counters)
        invariant CountBatchCompleted(events[|e0|..]) == if CountedDocs(docs[..i]) == n then 1 else 0
      {
        ghost var before := events;
        CountedStep(docs, i);
        RunDocument(entry, batch, docs[i], c0, n, CountedDocs(docs[..i]));
        CountSplit(e0, before, events);
        i := i + 1;
      }
      assert docs[..n] == docs;
    }
  }
}
