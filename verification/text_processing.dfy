/** The enrichment pipeline: an ordered list of named text steps whose errors
    are discarded, and the two classifier steps registered from
    configuration. */
module TextProcessing {
  import opened Results
  import opened Text
  import opened Categories

  /** What a step returns: Go's `(string, error)` pair. */
  datatype StepReply = StepReply(value: string, error: Option<string>)

  /** A named enrichment step. */
  datatype Processor = Processor(description: string, evaluate: string -> StepReply)

  /** The registered steps, in registration order. */
  type ProcessorFactory = seq<Processor>

  function NewProcessorFactory(): (pf: ProcessorFactory)
    ensures |pf| == 0
  {
    []
  }

  /** Registers a step after all earlier ones. */
  function AddProcessor(pf: ProcessorFactory, description: string, evaluate: string -> StepReply): (pf': ProcessorFactory)
    ensures |pf'| == |pf| + 1
    ensures pf'[..|pf|] == pf
    ensures pf'[|pf|].description == description && pf'[|pf|].evaluate == evaluate
  {
    pf + [Processor(description, evaluate)]
  }

  function StepDescriptions(pf: ProcessorFactory): set<string>
  {
    set i | 0 <= i < |pf| :: pf[i].description
  }

  /** No later step carries the description of step `j`. */
  ghost predicate LastWithItsName(pf: ProcessorFactory, j: int)
    requires 0 <= j < |pf|
  {
    forall k :: j < k < |pf| ==> pf[k].description != pf[j].description
  }

  /** Runs every step on `text` in order, keeps each step's value and drops its
      error; the aggregate error is always absent. */
  function ProcessAll(pf: ProcessorFactory, text: string): (r: (map<string, string>, Option<string>))
    ensures r.1 == None
    decreases |pf|
  {
    if pf == [] then (map[], None)
    else
      var prev := ProcessAll(pf[..|pf| - 1], text);
      var last := pf[|pf| - 1];
      (prev.0[last.description := last.evaluate(text).value], None)
  }

  /** The result map has exactly the registered descriptions as keys. */
  lemma {:induction false} ProcessKeysAreDescriptions(pf: ProcessorFactory, text: string)
    ensures ProcessAll(pf, text).0.Keys == StepDescriptions(pf)
    decreases |pf|
  {
    if pf != [] {
      var init := pf[..|pf| - 1];
      ProcessKeysAreDescriptions(init, text);
      assert forall i :: 0 <= i < |init| ==> init[i] == pf[i];
      assert StepDescriptions(pf) == StepDescriptions(init) + {pf[|pf| - 1].description};
    }
  }

  /** Each description maps to the value returned by the last step registered
      under it, whether or not that step also reported an error. */
  lemma {:induction false} ProcessIsStepValue(pf: ProcessorFactory, text: string, j: int)
    requires 0 <= j < |pf| && LastWithItsName(pf, j)
    ensures pf[j].description in ProcessAll(pf, text).0
    ensures ProcessAll(pf, text).0[pf[j].description] == pf[j].evaluate(text).value
    decreases |pf|
  {
    var init := pf[..|pf| - 1];
    if j < |pf| - 1 {
      assert pf[j] == init[j];
      assert LastWithItsName(init, j);
      ProcessIsStepValue(init, text, j);
    }
  }

  /** Steps are isolated: replacing step `j` by one with the same description
      (say, one that now fails) changes no entry but its own. */
  lemma {:induction false} ProcessIsolatesSteps(pf: ProcessorFactory, qf: ProcessorFactory, text: string, j: int)
    requires |pf| == |qf| && 0 <= j < |pf|
    requires pf[j].description == qf[j].description
    requires forall i :: 0 <= i < |pf| && i != j ==> pf[i] == qf[i]
    ensures forall d :: d != pf[j].description ==>
              (d in ProcessAll(pf, text).0 <==> d in ProcessAll(qf, text).0)
    ensures forall d :: d != pf[j].description && d in ProcessAll(pf, text).0 ==>
              ProcessAll(pf, text).0[d] == ProcessAll(qf, text).0[d]
    decreases |pf|
  {
    var n := |pf|;
    var pInit, qInit := pf[..n - 1], qf[..n - 1];
    if j == n - 1 {
      assert pInit == qInit;
    } else {
      ProcessIsolatesSteps(pInit, qInit, text, j);
      assert pf[n - 1] == qf[n - 1];
    }
  }

  // ---------------------------------------------------------------------------
  // The classifier steps
  // ---------------------------------------------------------------------------

  /** What the classifier endpoint answered for one text: a transport, status
      or decoding failure, or the decoded list of labels, which may be empty
      (a `[]` or `null` body). */
  type ApiReply = Result<seq<string>>

  const CategoryStepName := "TextCategoryClassifier"
  const SentimentStepName := "TextFinSentimentClassifier"
  const NilResponseError := "response is nil in API call"

  /** The category step as written: `None` stands for the run-time panic of
      reading the first label of an empty reply. */
  function CategoryStepAsWritten(reply: ApiReply): (r: Option<StepReply>)
    ensures r.None? <==> reply == Ok([])
    ensures r.Some? && r.value.error.Some? ==> r.value.value == ""
    ensures r.Some? && r.value.error.None? ==> reply.Ok? && r.value.value == reply.value[0] && r.value.value != ""
  {
    match reply
    case Err(e) => Some(StepReply("", Some(e)))
    case Ok(labels) =>
      if |labels| == 0 then None
      else if labels[0] == "" then Some(StepReply("", Some(NilResponseError)))
      else Some(StepReply(labels[0], None))
  }

  /** The sentiment step as written; `None` is again the empty-reply panic. */
  function SentimentStepAsWritten(reply: ApiReply): (r: Option<StepReply>)
    ensures r.None? <==> reply == Ok([])
    ensures r.Some? && r.value.error.Some? ==> r.value.value == "" && reply.Err?
    ensures r.Some? && r.value.error.None? ==> reply.Ok? && r.value.value == reply.value[0]
  {
    match reply
    case Err(e) => Some(StepReply("", Some(e)))
    case Ok(labels) => if |labels| == 0 then None else Some(StepReply(labels[0], None))
  }

  /** The category step with the empty reply treated like the nil one. */
  function CategoryStep(reply: ApiReply): (r: StepReply)
    ensures r.error.Some? ==> r.value == ""
    ensures r.error.None? <==> reply.Ok? && |reply.value| > 0 && reply.value[0] != ""
    ensures r.error.None? ==> r.value == reply.value[0]
  {
    match reply
    case Err(e) => StepReply("", Some(e))
    case Ok(labels) =>
      if |labels| == 0 || labels[0] == "" then StepReply("", Some(NilResponseError))
      else StepReply(labels[0], None)
  }

  /** The sentiment step with the empty reply reported as an error. */
  function SentimentStep(reply: ApiReply): (r: StepReply)
    ensures r.error.Some? ==> r.value == ""
    ensures r.error.None? <==> reply.Ok? && |reply.value| > 0
    ensures r.error.None? ==> r.value == reply.value[0]
  {
    match reply
    case Err(e) => StepReply("", Some(e))
    case Ok(labels) =>
      if |labels| == 0 then StepReply("", Some(NilResponseError))
      else StepReply(labels[0], None)
  }

  /** A classifier reply that decodes to an empty list makes both steps, as
      written, index past the end of the list. */
  lemma EmptyReplyPanics()
    ensures CategoryStepAsWritten(Ok([])) == None
    ensures SentimentStepAsWritten(Ok([])) == None
    ensures CategoryStep(Ok([])) == StepReply("", Some(NilResponseError))
    ensures SentimentStep(Ok([])) == StepReply("", Some(NilResponseError))
  {
  }

  /** The corrected steps agree with the written ones on every reply those
      handle, and the empty reply is the only one they do not handle. */
  lemma CorrectedStepsAgree(reply: ApiReply)
    ensures CategoryStepAsWritten(reply).Some? ==> CategoryStepAsWritten(reply).value == CategoryStep(reply)
    ensures SentimentStepAsWritten(reply).Some? ==> SentimentStepAsWritten(reply).value == SentimentStep(reply)
  {
  }

  /** The category step over a classifier; the HTTP call is `classify`. */
  function CategoryProcessor(classify: string -> ApiReply): string -> StepReply
  {
    t => CategoryStep(classify(t))
  }

  function SentimentProcessor(classify: string -> ApiReply): string -> StepReply
  {
    t => SentimentStep(classify(t))
  }

  /** The classifier switches of the application configuration. */
  datatype ProcessorConfig = ProcessorConfig(textCategoryClassifier: bool, textFinSentimentClassifier: bool)

  /** Registers the category step, then the sentiment step, each only when
      switched on. */
  function InitProcessors(cfg: ProcessorConfig, categoryApi: string -> ApiReply, sentimentApi: string -> ApiReply): (pf: ProcessorFactory)
    ensures |pf| == (if cfg.textCategoryClassifier then 1 else 0) + (if cfg.textFinSentimentClassifier then 1 else 0)
    ensures cfg.textCategoryClassifier ==> pf[0] == Processor(CategoryStepName, CategoryProcessor(categoryApi))
    ensures cfg.textFinSentimentClassifier ==> pf[|pf| - 1] == Processor(SentimentStepName, SentimentProcessor(sentimentApi))
    ensures StepDescriptions(pf) ==
              (if cfg.textCategoryClassifier then {CategoryStepName} else {}) +
              (if cfg.textFinSentimentClassifier then {SentimentStepName} else {})
  {
    var pf := NewProcessorFactory();
    var pf := if cfg.textCategoryClassifier then AddProcessor(pf, CategoryStepName, CategoryProcessor(categoryApi)) else pf;
    var pf := if cfg.textFinSentimentClassifier then AddProcessor(pf, SentimentStepName, SentimentProcessor(sentimentApi)) else pf;
    assert |pf| == 2 ==> pf[0].description == CategoryStepName && pf[1].description == SentimentStepName;
    pf
  }

  // ---------------------------------------------------------------------------
  // What the transports take from the results
  // ---------------------------------------------------------------------------

  /** The categories of an enriched post: the category step's output,
      tokenised; a missing entry reads as "". */
  function CategoriesOf(processed: map<string, string>): seq<string>
  {
    Tokenize(Lookup(processed, CategoryStepName))
  }

  /** The sentiment of an enriched post: the sentiment step's output verbatim,
      "" when the entry is missing. */
  function SentimentOf(processed: map<string, string>): string
  {
    Lookup(processed, SentimentStepName)
  }

  /** With the configured steps, the sentiment is the sentiment step's value
      (the first label, or "" when the call failed) and is "" when the step is
      switched off; the categories are the alphanumeric runs of the category
      step's value, and none when that step is off or failed. */
  lemma {:induction false} EnrichmentOfConfiguredSteps(cfg: ProcessorConfig, categoryApi: string -> ApiReply,
                                                        sentimentApi: string -> ApiReply, text: string)
    ensures var processed := ProcessAll(InitProcessors(cfg, categoryApi, sentimentApi), text).0;
            SentimentOf(processed) == (if cfg.textFinSentimentClassifier then SentimentStep(sentimentApi(text)).value else "")
    ensures var processed := ProcessAll(InitProcessors(cfg, categoryApi, sentimentApi), text).0;
            CategoriesOf(processed) == Runs(if cfg.textCategoryClassifier then CategoryStep(categoryApi(text)).value else "", IsAsciiAlnum)
  {
    var pf := InitProcessors(cfg, categoryApi, sentimentApi);
    var processed := ProcessAll(pf, text).0;
    ProcessKeysAreDescriptions(pf, text);
    if cfg.textFinSentimentClassifier {
      ProcessIsStepValue(pf, text, |pf| - 1);
    } else {
      assert SentimentStepName !in StepDescriptions(pf);
    }
    if cfg.textCategoryClassifier {
      assert LastWithItsName(pf, 0);
      ProcessIsStepValue(pf, text, 0);
    } else {
      assert CategoryStepName !in StepDescriptions(pf);
    }
  }
}
