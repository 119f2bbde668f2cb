# Bluesky firehose classifier: the filtering and enrichment core in Dafny

This project models the logic that sits between the transports of the
Bluesky firehose classifier. Posts arrive from the Jetstream WebSocket feed or
from an MQTT topic. A post first passes an ordered list of named text
**rules**, which are evaluated without short-circuit. It then goes through
named **enrichment steps**: two calls to a text classifier whose errors are
discarded. The category label is **tokenised** into categories. Finally the
post is handed to a **metrics collector**, which counts posts and tokens and
tallies the financial sentiment of four tracked categories between two
periodic reports. On the MQTT side a small **subscription manager** keeps the
desired topics and replays them on every (re)connect.

Modules, one file each:

- `Results` (`results.dfy`): `Option`, `Result`, and Go's missing-key map read (`Lookup`).
- `Text` (`text.dfy`): the Go library behaviour the core relies on.
  - `len` counts UTF-8 bytes (`Utf8Length`).
  - `strings.ToLower`, restricted to ASCII (`Lower`).
  - `strings.Contains`, `strings.Split` on one character, and `strings.Join`.
  - `strings.Fields`, as maximal runs of non-`unicode.IsSpace` characters.
  - `fmt.Sprintf("%d")`.
- `Categories` (`categories.dfy`): the `[\W_]+` → space → `strings.Fields` category tokeniser.
- `Messages` (`messages.dfy`): the post datatypes and the validity and store predicates.
- `Rules` (`rules.dfy`): the rule list, `EvaluateAll`, the built-in predicates, and `InitRules`.
- `TextProcessing` (`text_processing.dfy`): the step list, `ProcessAll`, the two classifier steps, and `InitProcessors`.
- `Metrics` (`metrics.dfy`): `Add`, `LogMetrics`, and runs of calls.
- `MqttClient` (`mqtt_client.dfy`): subscription bookkeeping, the publish guard, and the handling of one incoming message.
- `WsConsumer` (`ws_consumer.dfy`): the per-message decision of the WebSocket consumer, a loop over one connection's messages and metric reports, and the read loop as written.

Modelling choices:

- Rules and steps hold closures, as in Go. The built-in closures are made by named functions (`MinLengthRule`, `KeywordsRule`, `CategoryProcessor`, …), so two registrations from the same configuration are equal.
- The classifier HTTP call is a parameter `string -> ApiReply`. It returns an error or the decoded list of labels.
- Language detection is a parameter `isLikelyEnglish: string -> bool`.
- The message store's answer is a parameter `insertError: Option<string>`.
- Whether the broker transport is up is a parameter `transportUp: bool`.
- Go iterates over a map in an unspecified order. `OnConnect` therefore takes the visiting order as a parameter, which must list every desired topic exactly once.
- Go's `EvaluateAll` calls each rule twice: once for the flag and once for the map. The model calls each rule once, which is the same because a rule is a function of the text.
- The URL rule is unanchored, and every part of its pattern after the first dot can match the empty string. So it matches exactly when some `[A-Za-z0-9_.]` character is immediately followed by `.`. `HasHostDot` computes that, and `UrlRuleMatchesPattern` proves it equal to "some substring is in the pattern's language", where the language is written out piece by piece.

## Model

| member | source | states |
|---|---|---|
| Text.Utf8Length | internal/domain/message.go:90-92 | Go's `len` of a string is between its character count and four times that, and equals the character count for ASCII text |
| Text.Lower | internal/domain/rules.go:83 | `strings.ToLower` on ASCII: the length is kept, no upper-case ASCII letter remains, each upper-case letter becomes a lower-case one and every other character is kept |
| Text.Contains | internal/domain/rules.go:85 | `strings.Contains` holds exactly when the needle occurs at some position; the empty needle occurs everywhere |
| Text.SplitOn | internal/domain/rules.go:81 | `strings.Split` on one character yields at least one piece and no piece contains the separator |
| Text.SplitJoinRoundTrip | internal/domain/rules.go:81 | joining the pieces of a split with the separator gives back the input |
| Text.Runs | internal/transport/mqtt/client.go:208 | the runs are non-empty and consist only of kept characters; laid end to end they are exactly the kept characters of the input, in order; there is one run per position where a run of kept characters begins |
| Text.Fields | internal/domain/metrics.go:77 | `strings.Fields`: the fields hold no white space, laid end to end they are the non-space characters, and there is one field per word start, so `len` of the result counts the words |
| Text.RunsAreMaximal | internal/transport/mqtt/client.go:208 | the input is its runs interleaved with gaps of dropped characters, where every gap between two runs is non-empty, so each run is maximal |
| Text.RunsUnique | internal/transport/mqtt/client.go:208 | any split of the input into non-empty kept pieces separated by non-empty gaps of dropped characters is exactly the runs |
| Text.FieldsSplitAtWhiteSpace | internal/domain/metrics.go:77 | the input is its fields separated by non-empty stretches of white space, with white space allowed at either end |
| Text.IntToDecimalInjective | internal/domain/rules.go:65 | `%d` renders different integers differently |
| Text.NatToDecimalRoundTrip | internal/domain/rules.go:65 | reading back the decimal rendering of a natural number gives the number |
| Text.IntToDecimalSign | internal/domain/rules.go:65 | the rendering starts with '-' exactly for negative numbers, followed by the digits of the magnitude |
| Categories.ReplaceNonWordRuns | internal/transport/mqtt/client.go:206-207 | after replacing `[\W_]+` runs by a space, only ASCII letters, digits and spaces remain; the letters and digits are those of the input in order, and there is exactly one space per run of non-word characters |
| Categories.ReplaceMarksGaps | internal/transport/mqtt/client.go:206-207 | where the spaces go: for any split of the label into alphanumeric pieces and gaps of other characters, the replacement is the same pieces with each non-empty gap turned into one space ("a-b" gives "a b") |
| Categories.ReplaceMarksRunGaps | internal/transport/mqtt/client.go:206-207 | the replacement of every label is its alphanumeric runs with one space for each non-empty gap, which fixes the output completely |
| Categories.Tokenize | internal/transport/ws/client.go:81-82 | the categories are exactly the maximal runs of ASCII letters and digits of the label, in order: each is a non-empty alphanumeric word, and laid end to end they are the label's letters and digits |
| Categories.TokenizeIsAlnumRuns | internal/transport/mqtt/client.go:206-208 | replacing `[\W_]+` runs by a space and splitting with `strings.Fields` yields the maximal runs of ASCII letters and digits of the label, in order |
| Categories.NoAlnumNoCategories | internal/transport/ws/client.go:81-82 | a label with no letter or digit, the empty label of a failed step included, gives no categories |
| Messages.ToMessage | internal/transport/mqtt/client.go:224-226 | the plain form of a protobuf post keeps its text and categories; a post without commit or record has empty text and is never valid; it is stored exactly when the protobuf form is, a nil sentiment reading as "" and being refused by both; its validity is read off the protobuf fields |
| Messages.IsEnglish | internal/domain/message.go:80-82 | a post is English iff its language list starts with "en" |
| Messages.IsRoot | internal/domain/message.go:85-87 | a post is a root iff its reply linkage has no root, whatever its parent |
| Messages.IsTooShort | internal/domain/message.go:90-92 | a too-short text has fewer than 20 characters, and one of fewer than 5 characters is always too short; for ASCII text "too short" means exactly fewer than 20 characters |
| Messages.IsValid | internal/domain/message.go:95-97 | a valid post has "en" first, no root link, and at least 5 characters |
| Messages.FirstLanguageDecides | internal/domain/message.go:80-82 | a post is English iff its first language tag is "en": `[]` and `["fr","en"]` are not English, `["en", …]` is |
| Messages.ValidMeans | internal/domain/message.go:80-97 | valid iff first language "en", no root link and at least 20 bytes of text; for ASCII text, at least 20 characters |
| Messages.ShouldStoreCases | internal/domain/consumer.go:5-8 | an absent sentiment is not stored, "positive" and "negative" are, any other present value ("" and "other" included) is not |
| Messages.ShouldStoreMessage | internal/domain/consumer.go:6-9 | a nil, empty or "other" sentiment is never stored |
| Messages.ShouldStore | internal/domain/metrics.go:46-48 | the empty label and "other" are never stored |
| Rules.NewRuleFactory | internal/domain/rules.go:23-25 | a new factory has no rules |
| Rules.AddRule | internal/domain/rules.go:28-30 | adding appends exactly one rule with the given description and predicate and leaves earlier rules and their order unchanged |
| Rules.EvaluateAll | internal/domain/rules.go:34-45 | when the aggregate flag is true every rule accepts the text; a false entry in the breakdown makes the aggregate false |
| Rules.AllPassIffEveryRulePasses | internal/domain/rules.go:34-45 | the aggregate flag is true iff every rule passes; an empty factory passes everything |
| Rules.ResultKeysAreDescriptions | internal/domain/rules.go:35-39 | the result map's keys are exactly the registered descriptions |
| Rules.ResultIsLastVerdict | internal/domain/rules.go:37-39 | each description maps to the verdict of the last rule registered under it |
| Rules.DistinctDescriptionsCount | internal/domain/rules.go:35-39 | with distinct descriptions the map has one entry per rule |
| Rules.HasHostDot | internal/domain/rules.go:73-75 | holds iff some `[A-Za-z0-9_.]` character is immediately followed by '.' |
| Rules.UrlRuleMatchesPattern | internal/domain/rules.go:72-77 | the URL rule agrees with unanchored matching of `(https?://)?([\w\.]+)\.([a-z]{2,6}\.?)?/?.*` |
| Rules.ShortTextHasNoUrl | internal/domain/rules_test.go:41-48 | "short" fails the URL rule |
| Rules.SchemeUrlMatches | internal/domain/rules_test.go:61-68 | "http://test.com" passes the URL rule |
| Rules.TutorialIsNotLongEnough | internal/domain/rules_test.go:51-58 | "tutorial" (8 bytes) fails a minimum length of 10; the comparison is strict: it fails a minimum of 8 and passes one of 7 |
| Rules.AnyContained | internal/domain/rules.go:84-89 | the search loop succeeds iff some needle is contained in the text |
| Rules.SomeNeedleOccurs | internal/domain/rules.go:84-89 | the search loop succeeds iff some needle occurs at some position of the text |
| Rules.KeywordRuleMeaning | internal/domain/rules.go:80-91 | the keyword rule passes iff some comma-split keyword occurs in the lower-cased text; the text's case never changes the verdict |
| Rules.HashtagRuleMeaning | internal/domain/rules.go:94-105 | the hashtag rule passes iff `"#" + tag` occurs in the lower-cased text for some comma-split tag |
| Rules.EmptyEntryMatchesAll | internal/domain/rules.go:81-85 | an empty keyword setting gives one empty keyword, which every text contains; an empty hashtag entry matches any text with a '#' |
| Rules.FilterEnabled | internal/domain/rules.go:56-105 | the kinds kept are exactly the listed kinds whose switch is on |
| Rules.FilterKeepsOrder | internal/domain/rules.go:56-105 | filtering keeps the registration order |
| Rules.EnabledKindsInOrder | internal/domain/rules.go:52-107 | every enabled built-in kind is registered, no other, in the order English, length, URL, keywords, hashtags |
| Rules.RegisterEnabledAppends | internal/domain/rules.go:52-107 | the guarded registrations append exactly the rules of the enabled kinds, in order |
| Rules.InitRules | internal/domain/rules.go:52-107 | the configured factory is exactly the built-in rules of the enabled kinds, in registration order |
| Rules.BuiltinDescriptionsDiffer | internal/domain/rules.go:57-96 | different built-in kinds have different descriptions, whatever the length limit |
| Rules.MinLengthDescriptionInjective | internal/domain/rules.go:64-66 | the length rule's description determines its limit |
| Rules.InitRulesDistinct | internal/domain/rules.go:52-107 | the configured rules carry pairwise distinct descriptions |
| Rules.EnabledRuleHasEntry | internal/domain/rules.go:52-107 | each enabled rule's verdict is stored under its description |
| Rules.InitRulesOneEntryPerEnabledRule | internal/domain/rules_test.go:103-105 | evaluating the configured rules gives exactly one entry per enabled rule, holding that rule's verdict |
| TextProcessing.NewProcessorFactory | internal/domain/text_processing.go:21-23 | a new factory has no steps |
| TextProcessing.AddProcessor | internal/domain/text_processing.go:26-28 | adding appends exactly one step and leaves earlier steps unchanged |
| TextProcessing.ProcessAll | internal/domain/text_processing.go:31-38 | the aggregate error is always nil |
| TextProcessing.ProcessKeysAreDescriptions | internal/domain/text_processing.go:33-36 | the result keys are exactly the registered descriptions |
| TextProcessing.ProcessIsStepValue | internal/domain/text_processing.go:34-35 | each description maps to the value its (last) step returned, with or without an error |
| TextProcessing.ProcessIsolatesSteps | internal/domain/text_processing.go:33-36 | replacing one step, say by one that fails, changes no other entry |
| TextProcessing.CategoryStep | internal/domain/text_processing.go:44-63 | no error iff the call succeeded with a non-empty first label, which is then the value; on every error the value is "" |
| TextProcessing.SentimentStep | internal/domain/text_processing.go:67-86 | no error iff the call succeeded with at least one label, and the value is then the first label verbatim, "" included; on error the value is "" |
| TextProcessing.CategoryStepAsWritten | internal/domain/text_processing.go:44-63 | as written, the step fails (panics) exactly on the empty label list; otherwise an error comes with "" and success with the non-empty first label |
| TextProcessing.SentimentStepAsWritten | internal/domain/text_processing.go:67-86 | as written, the step panics exactly on the empty label list; an error comes only from the call, with ""; success returns the first label |
| TextProcessing.EmptyReplyPanics | internal/domain/text_processing.go:58 | both steps as written index past the end of an empty label list |
| TextProcessing.CorrectedStepsAgree | internal/domain/text_processing.go:54-62 | the corrected steps agree with the written ones on every reply but the empty list |
| TextProcessing.InitProcessors | internal/domain/text_processing.go:40-90 | the category step is registered before the sentiment step, each exactly when its switch is on |
| TextProcessing.EnrichmentOfConfiguredSteps | internal/transport/ws/client.go:78-83 | the sentiment is the sentiment step's value or "" when that step is off; the categories are the alphanumeric runs of the category step's value, none when it is off |
| Metrics.NewCollector | internal/domain/metrics.go:38-43 | a new collector has all counters zero (totals, since-last-log and report calls) and an empty window, and is valid |
| Metrics.ContainsCategory | internal/domain/metrics.go:170-177 | the linear search succeeds iff the category is in the list |
| Metrics.CountCategoriesMeaning | internal/domain/metrics.go:82-98 | untracked categories leave no trace; a tracked one gains an entry, whose positive or negative count grows by the number of times the post names it |
| Metrics.Add | internal/domain/metrics.go:51-101 | a refused store of a storable post returns the error and changes nothing; otherwise posts grow by one and tokens by the post's field count, in both totals and window |
| Metrics.AddWindow | internal/domain/metrics.go:82-98 | a counted post changes only tracked entries; "positive" and "negative" raise their count, any other sentiment only creates a zero entry |
| Metrics.UntrackedLeavesWindow | internal/domain/metrics.go:84-86 | a post naming only untracked categories leaves the window unchanged |
| Metrics.AddPreservesValid | internal/domain/metrics.go:51-101 | `Add` keeps the window to tracked categories, each entry naming its own, and window counters below totals |
| Metrics.LogMetrics | internal/domain/metrics.go:104-146 | the report shows `sinceLog / 60` rates, the totals and call count, and one snapshot per tracked category in list order, zero-filled when absent; then the window counters and map are reset, the call counter grows by one, and totals stay |
| Metrics.SnapshotsNameTheirCategory | internal/domain/metrics.go:116-121 | each snapshot names the tracked category at its position |
| Metrics.LogMetricsPreservesValid | internal/domain/metrics.go:142-145 | a report keeps the collector valid |
| Metrics.ReportAfterTickIsEmpty | internal/domain/metrics.go:142-145 | a report right after another shows zero rates and zero-filled snapshots |
| Metrics.CountedPostsSnoc | internal/domain/metrics.go:72-73 | one more call adds one counted post exactly when it is a post that `Add` counts |
| Metrics.RunCountsPosts | internal/domain/metrics.go:72-78 | over any sequence of calls, the post total grows by exactly the number of counted posts, and no total ever decreases |
| Metrics.RunPreservesValid | internal/domain/metrics.go:51-146 | every reachable collector is valid |
| MqttClient.NewClient | internal/transport/mqtt/client.go:54-62 | a new client has no desired topics and is neither connected nor ready |
| MqttClient.Subscribe | internal/transport/mqtt/client.go:245-264 | the topic's desired QoS is always set, overwriting any earlier one; when not connected no request is sent and the result is success; when connected exactly one request is sent |
| MqttClient.OnConnect | internal/transport/mqtt/client.go:107-128 | connect sets the connected flag, keeps the desired map, sends as many requests as there are desired topics, and fires the ready signal exactly when it has not fired before |
| MqttClient.ResubscriptionsMeaning | internal/transport/mqtt/client.go:112-116 | the requests of an enumeration name every desired topic with its QoS, nothing else, and no topic twice |
| MqttClient.OnConnectReplaysEveryTopic | internal/transport/mqtt/client.go:107-121 | a connect sends exactly one request per desired topic with its stored QoS |
| MqttClient.DistinctKeysCount | internal/transport/mqtt/client.go:112 | a range over a map visits as many topics as the map holds |
| MqttClient.OnConnectionLost | internal/transport/mqtt/client.go:131-138 | losing the connection clears only the connected flag; the desired topics are kept |
| MqttClient.Disconnect | internal/transport/mqtt/client.go:148-157 | disconnecting while the transport is up clears the flag; otherwise nothing changes |
| MqttClient.ConnectionStatus | internal/transport/mqtt/client.go:141-145 | `IsConnected` needs both the client flag and the transport: after a connect it follows the transport; after a lost connection, or a disconnect on a live transport, it is false |
| MqttClient.Publish | internal/transport/mqtt/client.go:160-188 | when not connected both publish functions return an error and publish nothing; otherwise exactly one publication is sent |
| MqttClient.ReconnectReplaysAll | internal/transport/mqtt/client.go:107-138 | after a lost connection, the reconnect replays every desired topic with its QoS and does not fire the ready signal again |
| MqttClient.SubscribeBeforeConnect | internal/transport/mqtt/client.go:245-264 | a topic subscribed before the first connect is sent once, with its QoS, at that connect, which fires the ready signal |
| MqttClient.ApplyKeepsDesired | internal/transport/mqtt/client.go:131-138 | no call removes a desired topic; only a subscribe changes a QoS |
| MqttClient.ApplyKeepsReady | internal/transport/mqtt/client.go:125-127 | once fired, the ready signal stays fired |
| MqttClient.RunKeepsDesiredAndReady | internal/transport/mqtt/client.go:107-138 | over any run of calls no desired topic is dropped and a fired ready signal stays fired |
| MqttClient.Enrich | internal/transport/mqtt/client.go:200-211 | enriching a post keeps its record and text |
| MqttClient.ProcessMessageAsWritten | internal/transport/mqtt/client.go:191-200 | the processing as written crashes exactly on a decoded payload without commit or record; an undecodable payload gives nil and no store |
| MqttClient.EventWithoutCommitPanics | internal/transport/mqtt/client.go:200 | an identity event with no commit crashes the as-written processing and is skipped by the corrected one |
| MqttClient.ProcessMessage | internal/transport/mqtt/client.go:191-219 | an undecodable payload, or one without commit or record, gives nil and no store; otherwise categories are the label's alphanumeric runs, the sentiment is always present and equals the sentiment step's entry, the commit and identity are kept, and the post is stored iff the sentiment is "positive" or "negative" |
| MqttClient.CorrectedProcessingAgrees | internal/transport/mqtt/client.go:191-219 | wherever the as-written processing does not crash, the corrected one gives the same result |
| MqttClient.HandleMessage | internal/transport/mqtt/client.go:222-231 | an undecodable payload, or one without a record, leaves the collector unchanged; a message adds at most one post |
| MqttClient.HandledMessageIsCounted | internal/transport/mqtt/client.go:224-229 | a decoded post with a record is counted unless it is storable and the store refuses it |
| WsConsumer.Enriched | internal/transport/ws/client.go:67-83 | a frame that does not decode is skipped; a decoded one is enriched iff every rule passes, with categories from the category entry and the sentiment entry verbatim |
| WsConsumer.HandleFrame | internal/transport/ws/client.go:76-86 | a skipped frame leaves the collector untouched; an accepted one adds exactly one post |
| WsConsumer.HandleFramePreservesValid | internal/transport/ws/client.go:84 | handling a frame keeps the collector valid |
| WsConsumer.ConsumeMessages | internal/transport/ws/client.go:46-92 | handling every message once, with reports interleaved where they fall: the collector stays valid, the post total counts exactly the accepted messages, the since-last-report count the ones after the last report, the call counter the reports; when no message gets through, the collector is a fresh one apart from its report count |
| WsConsumer.ReadAsWrittenDropsHalf | internal/transport/ws/client.go:58-65 | as written, the read loop decodes only the messages at odd positions, half of them rounded down |
| WsConsumer.LonePostIsLost | internal/transport/ws/client.go:58-65 | an accepted post sent alone is never decoded as written, although handling each message counts it |

## Left out

- WebSocket and MQTT I/O are outside the model: dialing, the read loop, retry sleeps, paho tokens, goroutines and the 30-second ready wait. Their outcomes are parameters: decoded frames, `transportUp`, broker errors.
- Mutexes, `sync.Once`, the metrics ticker and `StartMetrics` are outside the model. Calls are sequential, the once-flag is the boolean `ready`, and ticks are `Tick` events in `Metrics.Run`.
- WsConsumer.ConsumeMessages: the metrics reports run on their own goroutines (internal/domain/metrics.go:155-164), concurrently with the read loop. The model puts each report between two messages, as a `Reported` event; a report racing an `Add` is not modelled.
- The WebSocket consumer builds its collector without a window map and relies on the immediate first report to create one. The model starts it with an empty map.
- Remote calls: the classifier HTTP client and the Python service are the `string -> ApiReply` parameters. Their request and response encoding is not modelled.
- Language detection is the `isLikelyEnglish` parameter.
- Serialisation and storage are outside the model: JSON and protobuf decoding (a payload is already decoded or `None`), `ToJSON`, and the Mongo repository, whose answer is `insertError`.
- The MQTT publish and its JSON-error return inside `Add` (internal/domain/metrics.go:58-64) are not modelled. The package function they call is not part of this model.
- Persisting and publishing the metric snapshots in `LogMetrics`, logging, and `time.Now` timestamps are outside the model. The report is returned as a value instead.
- The float `TimeUS` and `Score` fields are left out.
- MqttClient.Publish: `proto.Marshal` failure is not modelled; the two publish functions differ only in the payload.
- MqttClient.HandleMessage: the handler passes the protobuf post to the collector, whose `Add` takes the plain form. That call does not type-check as written. The model converts with `ToMessage`, so a storable post is handed to the store twice, once in `ProcessMessage` and once in `Add`.
- The MQTT client's metrics start-up call and the EvaluateAll call in the rule test use signatures that differ from the definitions. The function bodies are modelled, not those call sites.
- Text.Lower: `strings.ToLower` is modelled on ASCII letters only, and other characters are unchanged. RE2's `\w` is ASCII anyway.
- Metrics.Add: the counters are unbounded naturals, so `int`/`int64` overflow is not modelled.
- Configuration loading is outside the model. The rule and step switches are passed in as `RuleConfig` and `ProcessorConfig`.

## Findings

| source | as written | input that shows it | evidently intended | confidence | as-written member | corrected member |
|---|---|---|---|---|---|---|
| internal/domain/text_processing.go:58 | the category step guards only `resp == nil`, then reads `(*resp)[0]` | a classifier answering `200` with body `[]` or `null` decodes to an empty list, and indexing it panics | an empty reply treated like the nil one: error, value "" | medium; not executed | TextProcessing.EmptyReplyPanics | TextProcessing.CategoryStep |
| internal/domain/text_processing.go:85 | the sentiment step reads `(*resp)[0]` after the nil check | the same `[]` or `null` reply panics here | an empty reply reported as an error with value "" | medium; not executed | TextProcessing.EmptyReplyPanics | TextProcessing.SentimentStep |
| internal/transport/ws/client.go:59-65 | each pass calls `conn.NextReader()` and drops the reader, then `conn.ReadMessage()` opens the next message | two messages sent on one connection: the first is never decoded, and a post sent alone is lost | every message read once, by `ReadMessage` alone | high; not executed | WsConsumer.ReadAsWrittenDropsHalf | WsConsumer.ConsumeMessages |
| internal/transport/mqtt/client.go:200 | the post text is read as `protoMessage.Commit.Record.Text` with neither pointer checked | a payload that decodes but has no commit, such as `{"did":"x","kind":"identity"}`, or a commit without a record, such as a delete, dereferences nil | such a payload skipped like one that does not decode | medium; not executed | MqttClient.EventWithoutCommitPanics | MqttClient.ProcessMessage |

`CategoryStepAsWritten` and `SentimentStepAsWritten` model the steps as written, with `None` standing for the panic. `CorrectedStepsAgree` proves that the corrected steps differ from them only on the empty reply. The processors registered by `InitProcessors` use the corrected steps.

`ProcessMessageAsWritten` models the MQTT message processing as written, with `None` standing for the nil-pointer panic. `CorrectedProcessingAgrees` proves that the corrected `ProcessMessage` differs from it only where it crashes. The generated protobuf types are not part of this model; that `Commit` and `Record` are pointers is read off their use in internal/domain/rules_test.go:95-101. The message handler uses the corrected processing.

`ReadAsWritten` models the WebSocket read loop as written. `ReadAsWrittenDropsHalf` and `LonePostIsLost` exhibit the lost messages. `ConsumeMessages` handles every received message once, as evidently intended, and its contract counts all of them.
