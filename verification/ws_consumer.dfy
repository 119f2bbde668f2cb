/** The WebSocket consumer: for each message, decode, run the rules, and
    only for posts that pass every rule run the enrichment steps, tokenise the
    category label, take the sentiment, and hand the post to the metrics
    collector, whose reports run alongside. Also the read loop as written,
    which skips every other message. */
module WsConsumer {
  import opened Results
  import opened Text
  import opened Messages
  import opened Categories
  import opened Rules
  import opened TextProcessing
  import opened Metrics

  /** One WebSocket message of the connection: the decoded post (`None`
      when the payload is not a post in JSON), and what the message store
      would answer should the post be stored. */
  datatype Frame = Frame(decoded: Option<Message>, insertError: Option<string>)

  /** The post handed to the collector for a frame, or `None` when the frame
      is skipped: it did not decode, or some rule rejected its text. */
  function Enriched(rf: RuleFactory, pf: ProcessorFactory, fr: Frame): (r: Option<Message>)
    ensures fr.decoded.None? ==> r.None?
    ensures fr.decoded.Some? ==>
              (r.Some? <==> forall i :: 0 <= i < |rf| ==> rf[i].evaluate(PostText(fr.decoded.value)))
    ensures r.Some? ==>
              var processed := ProcessAll(pf, PostText(fr.decoded.value)).0;
              && r.value.categories == Runs(Lookup(processed, CategoryStepName), IsAsciiAlnum)
              && r.value.finSentiment == Lookup(processed, SentimentStepName)
              && r.value.commit == fr.decoded.value.commit
              && r.value.did == fr.decoded.value.did
  {
    match fr.decoded
    case None => None
    case Some(m) =>
      var text := PostText(m);
      AllPassIffEveryRulePasses(rf, text);
      if EvaluateAll(rf, text).0 then
        var processed := ProcessAll(pf, text).0;
        Some(m.(categories := CategoriesOf(processed), finSentiment := SentimentOf(processed)))
      else None
  }

  /** The frame's post reaches the collector and is counted there. */
  predicate Accepted(rf: RuleFactory, pf: ProcessorFactory, fr: Frame)
  {
    var e := Enriched(rf, pf, fr);
    e.Some? && !(ShouldStore(e.value) && fr.insertError.Some?)
  }

  /** The collector after one frame; a skipped frame leaves it untouched. */
  function HandleFrame(c: Collector, rf: RuleFactory, pf: ProcessorFactory, fr: Frame): (r: Collector)
    ensures Enriched(rf, pf, fr).None? ==> r == c
    ensures r.totalPosts == c.totalPosts + (if Accepted(rf, pf, fr) then 1 else 0)
    ensures r.periodicCallCounter == c.periodicCallCounter
    ensures r.postsSinceLog - c.postsSinceLog == r.totalPosts - c.totalPosts
  {
    match Enriched(rf, pf, fr)
    case None => c
    case Some(m) => Add(c, m, fr.insertError).0
  }

  lemma HandleFramePreservesValid(c: Collector, rf: RuleFactory, pf: ProcessorFactory, fr: Frame)
    requires Valid(c)
    ensures Valid(HandleFrame(c, rf, pf, fr))
  {
    if Enriched(rf, pf, fr).Some? {
      AddPreservesValid(c, Enriched(rf, pf, fr).value, fr.insertError);
    }
  }

  /** What happens on one connection, in order: a message is read and
      handled, or the metrics goroutine that the consumer starts reports (its
      first report comes right after the start, later ones on every tick). */
  datatype WsEvent = Received(frame: Frame) | Reported

  /** Number of received messages whose post is counted. */
  ghost function AcceptedCount(rf: RuleFactory, pf: ProcessorFactory, events: seq<WsEvent>): nat
    decreases |events|
  {
    if events == [] then 0
    else
      var e := events[|events| - 1];
      AcceptedCount(rf, pf, events[..|events| - 1]) + (if e.Received? && Accepted(rf, pf, e.frame) then 1 else 0)
  }

  /** Number of counted posts after the last report. */
  ghost function AcceptedSinceReport(rf: RuleFactory, pf: ProcessorFactory, events: seq<WsEvent>): nat
    decreases |events|
  {
    if events == [] then 0
    else
      match events[|events| - 1]
      case Reported => 0
      case Received(fr) => AcceptedSinceReport(rf, pf, events[..|events| - 1]) + (if Accepted(rf, pf, fr) then 1 else 0)
  }

  /** Number of reports. */
  function ReportCount(events: seq<WsEvent>): nat
    decreases |events|
  {
    if events == [] then 0
    else ReportCount(events[..|events| - 1]) + (if events[|events| - 1].Reported? then 1 else 0)
  }

  /** No received message gets past decoding and the rules. */
  ghost predicate NothingEnriched(rf: RuleFactory, pf: ProcessorFactory, events: seq<WsEvent>)
  {
    forall j :: 0 <= j < |events| && events[j].Received? ==> Enriched(rf, pf, events[j].frame).None?
  }

  /** Consumes one connection with a fresh collector, handling every message
      once and running the reports where they fall. The collector ends up
      valid, has counted exactly the accepted messages, and holds since the
      last report exactly the ones accepted after it. Messages that do not
      decode, or that some rule rejects, leave no trace: when no message gets
      through, the collector differs from a fresh one only in its report
      count. */
  method ConsumeMessages(rf: RuleFactory, pf: ProcessorFactory, events: seq<WsEvent>) returns (c: Collector)
    ensures Valid(c)
    ensures c.totalPosts == AcceptedCount(rf, pf, events)
    ensures c.postsSinceLog == AcceptedSinceReport(rf, pf, events)
    ensures c.periodicCallCounter == ReportCount(events)
    ensures NothingEnriched(rf, pf, events) ==> c == NewCollector().(periodicCallCounter := ReportCount(events))
  {
    c := NewCollector();
    var i := 0;
    assert events[..|events|] == events;
    while i < |events|
      invariant 0 <= i <= |events|
      invariant Valid(c)
      invariant c.totalPosts == AcceptedCount(rf, pf, events[..i])
      invariant c.postsSinceLog == AcceptedSinceReport(rf, pf, events[..i])
      invariant c.periodicCallCounter == ReportCount(events[..i])
      invariant NothingEnriched(rf, pf, events[..i]) ==> c == NewCollector().(periodicCallCounter := ReportCount(events[..i]))
    {
      assert events[..i + 1][..i] == events[..i];
      assert NothingEnriched(rf, pf, events[..i + 1]) ==> NothingEnriched(rf, pf, events[..i]);
      match events[i] {
        case Received(fr) =>
          HandleFramePreservesValid(c, rf, pf, fr);
          c := HandleFrame(c, rf, pf, fr);
        case Reported =>
          LogMetricsPreservesValid(c);
          c := LogMetrics(c).0;
      }
      i := i + 1;
    }
  }

  // ---------------------------------------------------------------------------
  // The read loop as written
  // ---------------------------------------------------------------------------

  /** The messages the read loop as written decodes, out of those the server
      sends on one connection. Each pass calls `NextReader` and drops the
      reader it returns, which leaves that message unread; `ReadMessage` then
      moves on to the next message. So only the second message of each pair
      is decoded, and a last unpaired message never is. */
  function ReadAsWritten(messages: seq<Frame>): seq<Frame>
    decreases |messages|
  {
    if |messages| < 2 then [] else [messages[1]] + ReadAsWritten(messages[2..])
  }

  /** As written, the loop decodes half of the messages, rounded down: the
      ones at odd positions. */
  lemma {:induction false} ReadAsWrittenDropsHalf(messages: seq<Frame>)
    ensures |ReadAsWritten(messages)| == |messages| / 2
    ensures forall k :: 0 <= k < |messages| / 2 ==> ReadAsWritten(messages)[k] == messages[2 * k + 1]
    decreases |messages|
  {
    if |messages| >= 2 {
      ReadAsWrittenDropsHalf(messages[2..]);
    }
  }

  /** A post that every rule accepts, sent alone on a connection, is never
      decoded as written, although handling each message once counts it. */
  lemma LonePostIsLost(rf: RuleFactory, pf: ProcessorFactory, fr: Frame)
    requires Accepted(rf, pf, fr)
    ensures ReadAsWritten([fr]) == []
    ensures AcceptedCount(rf, pf, [Received(fr)]) == 1
  {
    assert [Received(fr)][..0] == [];
  }
}
