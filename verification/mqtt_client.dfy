/** The MQTT client's bookkeeping: the desired subscriptions that every
    (re)connect replays, the connection flag, the one-shot ready signal, the
    publish guard, and the handling of one incoming message. The broker
    connection itself is outside the model; what it reports is passed in. */
module MqttClient {
  import opened Results
  import opened Text
  import opened Messages
  import opened Categories
  import opened TextProcessing
  import Metrics

  /** An MQTT quality-of-service level, a Go `byte`. */
  type Qos = b: int | 0 <= b < 256

  /** One subscribe request sent to the broker. */
  datatype SubscribeCall = SubscribeCall(topic: string, qos: Qos)

  /** What a publish puts on the wire: a JSON text or a protobuf message. */
  datatype Payload = JsonText(text: string) | Proto(message: ProtoMessage)

  datatype Publication = Publication(topic: string, payload: Payload)

  datatype ClientState = ClientState(
    desired: map<string, Qos>,
    connected: bool,
    ready: bool,
    subscribeCalls: seq<SubscribeCall>,
    published: seq<Publication>)

  function NewClient(): (s: ClientState)
    ensures s.desired == map[] && !s.connected && !s.ready
  {
    ClientState(map[], false, false, [], [])
  }

  /** Connected as far as the client knows and as far as the transport
      (`transportUp`) reports. */
  predicate IsConnected(s: ClientState, transportUp: bool)
  {
    s.connected && transportUp
  }

  /** The broker's refusal, as the subscribe call reports it. */
  function SubscribeFailure(topic: string, brokerError: string): string
  {
    "failed to subscribe to topic " + topic + ": " + brokerError
  }

  /** Records the topic as desired, then subscribes at once when connected;
      `brokerError` is the broker's answer to that request. When not
      connected the subscription is left to the next connect. */
  function Subscribe(s: ClientState, topic: string, qos: Qos, transportUp: bool, brokerError: Option<string>): (r: (ClientState, Option<string>))
    ensures r.0.desired == s.desired[topic := qos]
    ensures r.0.connected == s.connected && r.0.ready == s.ready && r.0.published == s.published
    ensures !IsConnected(s, transportUp) ==> r.0.subscribeCalls == s.subscribeCalls && r.1 == None
    ensures IsConnected(s, transportUp) ==>
              && r.0.subscribeCalls == s.subscribeCalls + [SubscribeCall(topic, qos)]
              && (r.1.Some? <==> brokerError.Some?)
  {
    var s' := s.(desired := s.desired[topic := qos]);
    if IsConnected(s', transportUp) then
      var err := if brokerError.Some? then Some(SubscribeFailure(topic, brokerError.value)) else None;
      (s'.(subscribeCalls := s.subscribeCalls + [SubscribeCall(topic, qos)]), err)
    else (s', None)
  }

  /** `order` lists each key of `desired` exactly once: the order in which a
      range over the map visits them. */
  ghost predicate EnumeratesKeys(order: seq<string>, desired: map<string, Qos>)
  {
    && (forall i, j :: 0 <= i < j < |order| ==> order[i] != order[j])
    && (forall t :: t in order <==> t in desired)
  }

  /** The subscribe requests for the topics in `order`, each with its desired
      QoS. */
  function Resubscriptions(order: seq<string>, desired: map<string, Qos>): (calls: seq<SubscribeCall>)
    requires forall t :: t in order ==> t in desired
    ensures |calls| == |order|
    ensures forall i :: 0 <= i < |order| ==> calls[i] == SubscribeCall(order[i], desired[order[i]])
  {
    seq(|order|, i requires 0 <= i < |order| => SubscribeCall(order[i], desired[order[i]]))
  }

  /** The connect callback: marks the client connected, subscribes to every
      desired topic in `order` (broker refusals are only logged), and fires
      the ready signal if it has not fired yet. The second component says
      whether it fired now. */
  function OnConnect(s: ClientState, order: seq<string>): (r: (ClientState, bool))
    requires EnumeratesKeys(order, s.desired)
    ensures r.0.connected && r.0.ready
    ensures r.0.desired == s.desired && r.0.published == s.published
    ensures r.1 <==> !s.ready
    ensures |r.0.subscribeCalls| == |s.subscribeCalls| + |s.desired|
    ensures r.0.subscribeCalls[..|s.subscribeCalls|] == s.subscribeCalls
  {
    DistinctKeysCount(order, s.desired);
    var s' := s.(connected := true, ready := true, subscribeCalls := s.subscribeCalls + Resubscriptions(order, s.desired));
    (s', !s.ready)
  }

  /** The requests for an enumeration of the desired topics: one per topic,
      each with its QoS, and no topic twice. */
  lemma ResubscriptionsMeaning(order: seq<string>, desired: map<string, Qos>)
    requires EnumeratesKeys(order, desired)
    ensures forall t :: t in desired ==> SubscribeCall(t, desired[t]) in Resubscriptions(order, desired)
    ensures forall c :: c in Resubscriptions(order, desired) ==> c.topic in desired && c.qos == desired[c.topic]
    ensures forall i, j :: 0 <= i < j < |Resubscriptions(order, desired)| ==>
              Resubscriptions(order, desired)[i].topic != Resubscriptions(order, desired)[j].topic
  {
    var calls := Resubscriptions(order, desired);
    forall t | t in desired ensures SubscribeCall(t, desired[t]) in calls {
      var k :| 0 <= k < |order| && order[k] == t;
      assert calls[k] == SubscribeCall(t, desired[t]);
    }
  }

  /** The requests a connect sends, after the earlier ones, are one per
      desired topic, each with the topic's desired QoS, and nothing else. */
  lemma OnConnectReplaysEveryTopic(s: ClientState, order: seq<string>)
    requires EnumeratesKeys(order, s.desired)
    ensures var sent := OnConnect(s, order).0.subscribeCalls[|s.subscribeCalls|..];
            && (forall t :: t in s.desired ==> SubscribeCall(t, s.desired[t]) in sent)
            && (forall c :: c in sent ==> c.topic in s.desired && c.qos == s.desired[c.topic])
            && (forall i, j :: 0 <= i < j < |sent| ==> sent[i].topic != sent[j].topic)
  {
    var replayed := Resubscriptions(order, s.desired);
    assert OnConnect(s, order).0.subscribeCalls[|s.subscribeCalls|..] == replayed;
    ResubscriptionsMeaning(order, s.desired);
  }

  /** A duplicate-free listing of a map's keys is as long as the map. */
  lemma {:induction false} DistinctKeysCount(order: seq<string>, desired: map<string, Qos>)
    requires EnumeratesKeys(order, desired)
    ensures |order| == |desired|
  {
    var keys := set i | 0 <= i < |order| :: order[i];
    assert keys == desired.Keys;
    DistinctSeqSetSize(order);
  }

  lemma {:induction false} DistinctSeqSetSize(order: seq<string>)
    requires forall i, j :: 0 <= i < j < |order| ==> order[i] != order[j]
    ensures |set i | 0 <= i < |order| :: order[i]| == |order|
    decreases |order|
  {
    if order != [] {
      var init := order[..|order| - 1];
      DistinctSeqSetSize(init);
      var last := order[|order| - 1];
      var s := set i | 0 <= i < |order| :: order[i];
      var s0 := set i | 0 <= i < |init| :: init[i];
      assert s == s0 + {last};
      assert last !in s0;
    }
  }

  /** The connection-lost callback clears only the connected flag. */
  function OnConnectionLost(s: ClientState): (r: ClientState)
    ensures !r.connected
    ensures r.desired == s.desired && r.ready == s.ready
    ensures r.subscribeCalls == s.subscribeCalls && r.published == s.published
  {
    s.(connected := false)
  }

  /** Disconnects when the transport is up; otherwise nothing happens. */
  function Disconnect(s: ClientState, transportUp: bool): (r: ClientState)
    ensures transportUp ==> !r.connected
    ensures !transportUp ==> r == s
    ensures r.desired == s.desired && r.subscribeCalls == s.subscribeCalls && r.published == s.published
  {
    if transportUp then s.(connected := false) else s
  }

  /** The client counts as connected only while its own flag and the
      transport both say so. Right after a connect that is exactly when the
      transport is up. After a lost connection, or a disconnect on a live
      transport, it is not connected, whatever the transport reports. */
  lemma ConnectionStatus(s: ClientState, order: seq<string>, up: bool, later: bool)
    requires EnumeratesKeys(order, s.desired)
    ensures IsConnected(OnConnect(s, order).0, up) <==> up
    ensures !IsConnected(OnConnectionLost(s), later)
    ensures up ==> !IsConnected(Disconnect(s, up), later)
    ensures !up ==> !IsConnected(s, up)
  {
  }

  function NotConnectedError(topic: string): string
  {
    "MQTT client not connected, cannot publish to topic " + topic
  }

  /** Both publish functions: refuse with an error and send nothing unless
      connected; otherwise send once, with the broker's refusal, if any,
      returned as the error. */
  function Publish(s: ClientState, topic: string, payload: Payload, transportUp: bool, brokerError: Option<string>): (r: (ClientState, Option<string>))
    ensures !IsConnected(s, transportUp) ==> r.0 == s && r.1 == Some(NotConnectedError(topic))
    ensures IsConnected(s, transportUp) ==>
              && r.0 == s.(published := s.published + [Publication(topic, payload)])
              && (r.1.Some? <==> brokerError.Some?)
  {
    if !IsConnected(s, transportUp) then (s, Some(NotConnectedError(topic)))
    else
      var err := if brokerError.Some? then Some("error publishing to MQTT topic " + topic + ": " + brokerError.value) else None;
      (s.(published := s.published + [Publication(topic, payload)]), err)
  }

  // ---------------------------------------------------------------------------
  // Reconnect behaviour
  // ---------------------------------------------------------------------------

  /** A lost connection followed by a reconnect replays every desired topic
      with its QoS, and does not fire the ready signal again. */
  lemma ReconnectReplaysAll(s: ClientState, order: seq<string>)
    requires s.ready
    requires EnumeratesKeys(order, s.desired)
    ensures var r := OnConnect(OnConnectionLost(s), order);
            && !r.1
            && r.0.desired == s.desired
            && forall t :: t in s.desired ==>
                 SubscribeCall(t, s.desired[t]) in r.0.subscribeCalls[|s.subscribeCalls|..]
  {
    OnConnectReplaysEveryTopic(OnConnectionLost(s), order);
  }

  /** A topic subscribed while disconnected is sent once, with its QoS, at the
      next connect, and the first connect fires the ready signal. */
  lemma {:induction false} SubscribeBeforeConnect(topic: string, qos: Qos, transportUp: bool, brokerError: Option<string>)
    ensures var s1 := Subscribe(NewClient(), topic, qos, transportUp, brokerError);
            && s1.1 == None && s1.0.subscribeCalls == []
            && var r := OnConnect(s1.0, [topic]);
            && r.1
            && r.0.subscribeCalls == [SubscribeCall(topic, qos)]
  {
    var s1 := Subscribe(NewClient(), topic, qos, transportUp, brokerError).0;
    assert s1.desired == map[topic := qos];
    assert EnumeratesKeys([topic], s1.desired);
    OnConnectReplaysEveryTopic(s1, [topic]);
  }

  /** The client's calls, for reasoning about whole runs: `Connect` carries
      the order in which the connect callback visits the desired topics. */
  datatype Call =
    | SubscribeTo(topic: string, qos: Qos, transportUp: bool, brokerError: Option<string>)
    | Connect(order: seq<string>)
    | ConnectionLost
    | DisconnectCall(transportUp: bool)
    | PublishTo(topic: string, payload: Payload, transportUp: bool, brokerError: Option<string>)

  /** A connect's order must enumerate the desired topics at that moment. */
  ghost predicate Allowed(s: ClientState, c: Call)
  {
    c.Connect? ==> EnumeratesKeys(c.order, s.desired)
  }

  function Apply(s: ClientState, c: Call): ClientState
    requires Allowed(s, c)
  {
    match c
    case SubscribeTo(topic, qos, up, err) => Subscribe(s, topic, qos, up, err).0
    case Connect(order) => OnConnect(s, order).0
    case ConnectionLost => OnConnectionLost(s)
    case DisconnectCall(up) => Disconnect(s, up)
    case PublishTo(topic, payload, up, err) => Publish(s, topic, payload, up, err).0
  }

  /** No call ever removes a desired topic, and a topic keeps the QoS of its
      latest subscription. */
  lemma ApplyKeepsDesired(s: ClientState, c: Call)
    requires Allowed(s, c)
    ensures forall t :: t in s.desired ==> t in Apply(s, c).desired
    ensures c.SubscribeTo? ==> Apply(s, c).desired[c.topic] == c.qos
    ensures !c.SubscribeTo? ==> Apply(s, c).desired == s.desired
  {
  }

  /** Once fired, the ready signal stays fired. */
  lemma ApplyKeepsReady(s: ClientState, c: Call)
    requires Allowed(s, c)
    requires s.ready
    ensures Apply(s, c).ready
  {
  }

  /** Every connect in the run enumerates the desired topics of its moment. */
  ghost predicate AllowedRun(s: ClientState, calls: seq<Call>)
    decreases |calls|
  {
    calls == [] || (Allowed(s, calls[0]) && AllowedRun(Apply(s, calls[0]), calls[1..]))
  }

  /** The client after a sequence of calls, in order. */
  ghost function RunCalls(s: ClientState, calls: seq<Call>): ClientState
    requires AllowedRun(s, calls)
    decreases |calls|
  {
    if calls == [] then s else RunCalls(Apply(s, calls[0]), calls[1..])
  }

  /** Over any run, no desired topic is ever dropped (connection losses
      included), and a fired ready signal stays fired. */
  lemma {:induction false} RunKeepsDesiredAndReady(s: ClientState, calls: seq<Call>)
    requires AllowedRun(s, calls)
    ensures forall t :: t in s.desired ==> t in RunCalls(s, calls).desired
    ensures s.ready ==> RunCalls(s, calls).ready
    decreases |calls|
  {
    if calls != [] {
      var s1 := Apply(s, calls[0]);
      ApplyKeepsDesired(s, calls[0]);
      if s.ready {
        ApplyKeepsReady(s, calls[0]);
      }
      RunKeepsDesiredAndReady(s1, calls[1..]);
    }
  }

  // ---------------------------------------------------------------------------
  // Handling one incoming message
  // ---------------------------------------------------------------------------

  /** Enriches a post that has a record: categories from the category
      step's output, sentiment from the sentiment step's output, always
      present; everything else is kept. */
  function Enrich(pf: ProcessorFactory, p: ProtoMessage): (q: ProtoMessage)
    requires HasRecord(p)
    ensures HasRecord(q) && ProtoText(q) == ProtoText(p)
  {
    var processed := ProcessAll(pf, ProtoText(p)).0;
    p.(categories := CategoriesOf(processed), finSentiment := Some(SentimentOf(processed)))
  }

  /** The message processing as written, which reads the post text through
      the commit and record pointers without checking them: `None` stands
      for the nil-pointer panic on a decoded payload that carries no commit
      or no record. The inner `None` is a payload that did not decode. */
  function ProcessMessageAsWritten(pf: ProcessorFactory, decoded: Option<ProtoMessage>): (r: Option<(Option<ProtoMessage>, bool)>)
    ensures r.None? <==> decoded.Some? && !HasRecord(decoded.value)
    ensures decoded.None? ==> r == Some((None, false))
  {
    match decoded
    case None => Some((None, false))
    case Some(p) =>
      if HasRecord(p) then
        var p' := Enrich(pf, p);
        Some((Some(p'), ShouldStoreMessage(p')))
      else
        None
  }

  /** A payload that decodes but carries no commit, such as an identity
      event, crashes the as-written processing; the corrected processing
      skips it like a payload that does not decode. */
  lemma EventWithoutCommitPanics(pf: ProcessorFactory)
    ensures var p := ProtoMessage("x", "identity", None, [], None);
            && ProcessMessageAsWritten(pf, Some(p)).None?
            && ProcessMessage(pf, Some(p)) == (None, false)
  {
  }

  /** The message processing (corrected): a decoded post with a record is
      enriched; one that does not decode, or that has no record to read the
      text from, is skipped. The second component says whether the message
      is handed to the store. */
  function ProcessMessage(pf: ProcessorFactory, decoded: Option<ProtoMessage>): (r: (Option<ProtoMessage>, bool))
    ensures decoded.None? || !HasRecord(decoded.value) ==> r.0.None? && !r.1
    ensures decoded.Some? && HasRecord(decoded.value) ==>
              var processed := ProcessAll(pf, ProtoText(decoded.value)).0;
              && r.0.Some?
              && r.0.value.categories == Runs(Lookup(processed, CategoryStepName), IsAsciiAlnum)
              && r.0.value.finSentiment == Some(Lookup(processed, SentimentStepName))
              && r.0.value.commit == decoded.value.commit
              && r.0.value.did == decoded.value.did && r.0.value.kind == decoded.value.kind
              && (r.1 <==> r.0.value.finSentiment.value in {"positive", "negative"})
  {
    match decoded
    case None => (None, false)
    case Some(p) =>
      if HasRecord(p) then
        var p' := Enrich(pf, p);
        (Some(p'), ShouldStoreMessage(p'))
      else
        (None, false)
  }

  /** Wherever the as-written processing does not crash, the corrected one
      gives the same result. */
  lemma CorrectedProcessingAgrees(pf: ProcessorFactory, decoded: Option<ProtoMessage>)
    ensures ProcessMessageAsWritten(pf, decoded).Some? ==>
              ProcessMessageAsWritten(pf, decoded).value == ProcessMessage(pf, decoded)
  {
  }

  /** The topic's message handler: a message that decodes is enriched and
      handed to the metrics collector, as its plain form; one that does not
      decode leaves the collector alone. */
  function HandleMessage(c: Metrics.Collector, pf: ProcessorFactory, decoded: Option<ProtoMessage>,
                         insertError: Option<string>): (r: Metrics.Collector)
    ensures decoded.None? || !HasRecord(decoded.value) ==> r == c
    ensures r.totalPosts <= c.totalPosts + 1
  {
    match ProcessMessage(pf, decoded).0
    case None => c
    case Some(p) => Metrics.Add(c, ToMessage(p), insertError).0
  }

  /** A decoded post with a record is counted by the collector unless its
      sentiment is stored and the store refuses it. */
  lemma HandledMessageIsCounted(c: Metrics.Collector, pf: ProcessorFactory, p: ProtoMessage, insertError: Option<string>)
    ensures ProcessMessage(pf, Some(p)).1 && insertError.Some? ==>
              HandleMessage(c, pf, Some(p), insertError) == c
    ensures HasRecord(p) && !(ProcessMessage(pf, Some(p)).1 && insertError.Some?) ==>
              HandleMessage(c, pf, Some(p), insertError).totalPosts == c.totalPosts + 1
  {
    if HasRecord(p) {
      var q := ProcessMessage(pf, Some(p)).0.value;
    }
  }
}
