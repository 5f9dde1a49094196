# The core of freepbx-exporter, modelled and proved

freepbx-exporter exposes an Asterisk PBX to Prometheus. It talks the Asterisk Manager Interface
(AMI) in two ways: a request/response client for scrapes, and a persistent event stream that
feeds RTCP and hangup events to an aggregator. This project models both from the bytes on the
connection to the counters, and proves what holds over every input, every run and every history.

`dafny verify dfyconfig.toml` checks the whole project.

## The files

- `Text.dfy`, `Messages.dfy`, `Codec.dfy`: string operations, the case-insensitive ordered
  message (a class whose `Set` writes in place), the wire format and the buffered reader.
- `Client.dfy`, `Synchrony.dfy`, `Protocol.dfy`: the request/response client, one call and whole
  runs of calls, exactly when a run stays in step with a server that sends stray messages, and
  which fields make a reply a success, an item or a completion.
- `EventStream.dfy`, `StreamOrder.dfy`, `Watchdog.dfy`: the reconnecting stream as a loop over a
  script of dials, what comes right behind what in its log, and the race between the loop and the
  watchdogs as an interleaving of steps.
- `Parser.dfy`: one RTCP measurement out of one event.
- `Aggregator.dfy`: the aggregator as a class updating its table in place, with its history of
  events as a ghost field. `Sessions.dfy` says what the state means in terms of the history;
  `Pruning.dfy`, `PruneVisibility.dfy` and `PruneRaces.dfy` when pruning can be noticed;
  `Channels.dfy` that channels do not interfere; `Accounting.dfy` that no event is lost. `Sums.dfy`
  is sums over finite sets.
- `Grouping.dfy`, `Collector.dfy`, `ScrapeOutput.dfy`, `ScrapeRun.dfy`: counting list rows, one
  scrape with its phases, what they emit metric by metric, and a scrape over the bytes of its
  connection, from the requests it writes to the replies it works on.
- `Exporter.dfy`: the event stream and the aggregator composed, from bytes to verdict counters.

Functions such as `Codec.Read`, `Clients.RunCalls`, `EventStreams.RunLog` and `Aggregators.Step`
are specifications. The methods of the classes are proved to meet them, and the lemmas are about
them. Lemmas named `...Exactly` say what a specification means without it, down to the names of
fields and events.

## What the proofs found

- Two conditions together keep pruning invisible to the one-way verdicts: no silence longer than
  the TTL between an RTCP event and the channel's next event, and no prune with a clock reading later
  than that of an event that takes effect after it. Without either, verdicts can be lost or invented
  (`Pruning.LongSilenceLosesVerdict`, `Pruning.LongSilenceInventsVerdict`,
  `Pruning.PruneOvertakingLosesVerdict`); the second one matters because the code reads the clock
  before it takes the lock (`internal/rtcp/aggregator.go:269-270`). Neither is necessary for every
  history: `PruneVisibility.PruneVisibleExactly` gives the exact condition for prunes in clock order,
  `PruneRaces.CountersExactlyWithin` and `PruneRaces.CountersExactlyUpTo` for prunes that overtake.
- The wait between connects is min(base * 2^n, max) exactly when base <= max and twice max fits
  in 64 bits. The first wait is never capped, and the wait is never reset after a healthy
  connection (`internal/ami/eventstream.go:70-100`).
- A raw loss byte of 1 is read as the ratio 1, every other byte b as b/256 (`internal/rtcp/parser.go:83`).
- The first message without an ActionID is taken for any reply, after which the next call fails
  (`internal/ami/client.go:151`): `Clients.UnsolicitedMessageDesyncs`. A run of single calls stays in
  step exactly when no message arrives ahead of a reply (`Synchrony.SinglesInSyncExactly`). List calls
  are more forgiving, since they do not check whose success comes first
  (`internal/ami/client.go:172-180`): `Synchrony.InStepExactly` has the exact condition, and
  `Synchrony.SuccessAheadOfRejection` what it costs.
- With gauges shared between channels, swapping events on different channels can show, exactly when
  both set one gauge to different ratios and nothing sets it later: `Channels.NeighboursCommuteExactly`.
- The watchdog of a connection outlives the connection: until the run is cancelled, one waits for
  every connection ever dialled (`internal/ami/eventstream.go:115-118`): `Watchdogs.WatchdogsAccumulate`.
- Closing clears the client's reference to its connection (`internal/ami/client.go:84-85`), which the
  loop tests and then uses (`internal/ami/client.go:122-125`). A watchdog's close between the two
  makes the use fail: `Watchdogs.CrashesExactly`, `Watchdogs.CrashFromAnyUse`.
- Reading and encoding again is not quite the identity: `Output` values keep leading spaces on
  the first reading and lose them on the second (`internal/ami/message.go:108-111`):
  `Codec.OutputLosesSpaces`, `Codec.ReencodeIdentityExactly`.

Two comments in the source disagree with the code, and the model follows the code: with an empty
list of event classes the stream is said to request no events but asks for `call,reporting`
(`internal/ami/eventstream.go:45-57`), and reading after a close is said to return `ErrClosed` but
returns an error of its own (`internal/ami/eventstream.go:149-151`, `internal/ami/client.go:122-124`).

## Model

| member | source | states |
|---|---|---|
| `Text.EqualFoldExactly` | internal/ami/message.go:23-47 | Strings match up to case exactly when they are as long and each character is the other's, or the other case of its letter from 'A' to 'Z' |
| `Text.LowerExactly` | internal/rtcp/parser.go:39 | Lowering moves the letters 'A' to 'Z' by 32, leaves none of them and touches nothing else |
| `Text.TrimSpaceSpec` | internal/rtcp/parser.go:59 | White space is cut off at both ends up to the first and last other character |
| `Text.FirstNonEmptySpec` | internal/rtcp/parser.go:133-140 | The first string that is not empty, or the empty string if all are |
| `Text.FormatExactly` | internal/ami/client.go:91 | Numbers are printed in decimal digits, the most significant first |
| `Text.ParseUintExactly` | internal/rtcp/parser.go:118 | Numbers are read digit by digit, digits only, at least one, below 2^64 |
| `Text.FormatInjective` | internal/ami/client.go:90-92 | No two counter values print alike in decimal |
| `Text.ParseFormat` | internal/rtcp/parser.go:118 | Every unsigned 64-bit number survives being printed and parsed |
| `Messages.Message.Get` | internal/ami/message.go:22-30 | Returns the value of the first field whose key folds to the key, or the empty string |
| `Messages.Message.Has` | internal/ami/message.go:33-41 | True exactly when some field's key folds to the key |
| `Messages.Message.Set` | internal/ami/message.go:44-53 | Overwrites the first folding field in place, keeping its spelling, or appends one |
| `Messages.Message.With` | internal/ami/client.go:239-244 | Sets every pair in order; a key left without value is dropped |
| `Messages.Message.EncodeBytes` | internal/ami/message.go:65-75 | Produces the encoding the round-trip lemmas are about |
| `Messages.LookupExactly` | internal/ami/message.go:22-30 | What is read under a key is the value of the first field with that key in any case, or the empty string without one |
| `Messages.EncodeExactly` | internal/ami/message.go:64-75 | The bytes of a message: key, colon, space, value and line end per field, and an empty line |
| `Messages.LookupUpdated` | internal/ami/message.go:22-53 | After a Set, reading that key in any case gives the value, and no other key's value or presence changes |
| `Messages.WritesRefineMap` | internal/ami/message.go:22-53 | Any sequence of Sets from empty refines a case-insensitive map: no two keys fold together, keys stand in order and spelling of first write, each with its last value |
| `Messages.DistinctWrites` | internal/ami/client.go:239-249 | Writing pairs with keys that do not fold together yields exactly those fields |
| `Codec.Reader.ReadString` | internal/ami/message.go:84 | Takes exactly the first line off the unread bytes; without a newline, everything that is left, and says so |
| `Codec.Reader.ReadMessage` | internal/ami/message.go:81-114 | The loop returns what one read of the unread bytes is specified to return and leaves exactly the specified rest, on every input, both EOF outcomes included |
| `Codec.RoundTrip` | internal/ami/message.go:64-114 | Reading the encoding of a message yields that message if and only if it has a field, no key has a colon or newline, and no value has a newline, a leading space or a final carriage return; exactly the encoding is consumed |
| `Codec.ReadEncoded` | internal/ami/message.go:95-112 | For fields on one line, what comes back is the field with its value trimmed on both sides |
| `Codec.ReadShape` | internal/ami/message.go:95-112 | Whatever the bytes, a message that is read has only single-line fields, no final carriage returns, and leading spaces only in Output values |
| `Codec.ParseNormalises` | internal/ami/message.go:65-112 | For any message read from any bytes, encoding and reading again changes only leading spaces of Output values, and a second time nothing |
| `Codec.ReencodeIdentityExactly` | internal/ami/message.go:65-112 | For any message read from any bytes, encoding and reading again yields it if and only if no Output value starts with a space |
| `Codec.OutputLosesSpaces` | internal/ami/message.go:103-111 | Every line without a colon is kept whole on the first reading and loses its leading spaces on the second |
| `Codec.SkipBlank` | internal/ami/message.go:96-100 | Blank lines before a message change nothing |
| `Codec.DecodeFrames` | internal/ami/message.go:81-114 | Well-formed messages with blank lines between them come off the front of any stream exactly as sent |
| `Codec.Framing` | internal/ami/message.go:77-101 | A whole stream of such messages decodes to exactly them, and then to a clean EOF |
| `Codec.CutInsideMessage` | internal/ami/message.go:86-92 | Cut anywhere inside a message, the stream yields the messages before it and then an unexpected EOF |
| `Codec.NeverPartial` | internal/ami/message.go:81-114 | For any bytes, the messages of a prefix of a stream are the first messages of the stream |
| `Codec.NoMessageExactly` | internal/ami/message.go:84-94 | A read without a message reports a broken stream as that, and at an orderly end a clean EOF if and only if only blank lines were left, otherwise an unexpected one |
| `Clients.IdsDistinct` | internal/ami/client.go:89-92 | Fewer than 2^64 calls apart, identifiers differ; each is a non-empty decimal number |
| `Clients.Client.Close` | internal/ami/client.go:80-87 | Closing any number of times closes the connection once |
| `Clients.Client.NextActionID` | internal/ami/client.go:90-92 | Moves the wrapping 64-bit counter by one and returns its decimal form |
| `Clients.Client.Write` | internal/ami/client.go:206-218 | Writes the whole encoding or, on a write that fails, any part of it, with the error for a closed or failing connection |
| `Clients.Client.ReadOne` | internal/ami/client.go:220-229 | One message off the unread bytes, or the error for a closed connection with nothing consumed |
| `Clients.Client.Action` | internal/ami/client.go:140-155 | Sends the request with its identifier set and takes the next message as reply unless its ActionID is another's; nothing is read when the write fails, at whatever byte |
| `Clients.Client.ListAction` | internal/ami/client.go:164-204 | The whole call meets the specification that ListExact and ListEndToEnd are about; a first message whose Response is not Success in any case rejects it, with the message's reason; nothing is read when the write fails, at whatever byte |
| `Clients.Client.CollectItems` | internal/ami/client.go:182-203 | The loop behind the first response, filtering by identifier before it looks for the completion event |
| `Clients.Client.Login` | internal/ami/client.go:97-115 | Sends the login fields; the result is decided by the next message's ActionID and by whether its Response is Success in any case |
| `Clients.LoginExact` | internal/ami/client.go:102-114 | A login succeeds if and only if the next message is ours or unidentified and reports success |
| `Protocols.SuccessByFields` | internal/ami/client.go:111 | A message is a success exactly when its first field keyed response, in any case, says success, in any case |
| `Protocols.LoginByBytes` | internal/ami/client.go:97-115 | A login answered by the encoding of a reply with its identifier or none succeeds if and only if the reply says success, and is rejected with the reply's message otherwise |
| `Protocols.LoginAnswered` | internal/ami/client.go:97-115 | The same of the client object, on any bytes whose next message is the reply |
| `Protocols.RefusalByBytes` | internal/ami/client.go:172-180 | A list call whose first reply does not say success is rejected with the reply's message, whatever its identifier |
| `Protocols.ListRefused` | internal/ami/client.go:164-180 | The same of the client object |
| `Protocols.ListRolesExactly` | internal/ami/client.go:191-201 | Which ActionID and Event make a message the completion, an item or noise |
| `Protocols.ListByBytes` | internal/ami/client.go:164-204 | A success, items and noise told by those fields, and the completion event in any case, make the list of the items |
| `Protocols.ListAnswered` | internal/ami/client.go:164-204 | The same of the client object, which then stands right behind the completion |
| `Protocols.FirstIdentifier` | internal/ami/client.go:90-92 | The first call has identifier 1 |
| `Clients.ListExact` | internal/ami/client.go:172-203 | On any bytes, items are returned if and only if the first message is a success and a later one with matching or absent identifier is the completion; otherwise the error of the rejection or of the failed read |
| `Clients.ListItemsExact` | internal/ami/client.go:182-203 | The items are all the eligible messages before the first such completion, never a part of them, and everything behind it is unread |
| `Clients.ItemsInExact` | internal/ami/client.go:191-202 | A message is among the items as often as it is among the messages, if it is eligible, and not otherwise |
| `Clients.ListEndToEnd` | internal/ami/client.go:164-204 | From bytes: items and noise in any order, blank lines anywhere, foreign completion events included, give exactly the items sent, in order, with the cursor right behind our completion |
| `Clients.StaysInSync` | internal/ami/client.go:140-204 | Over any run of single calls, accepted lists and rejected lists against a server that answers with each call's identifier, every call gets its own answer and nothing is left unread |
| `Clients.OtherCallsAreNoise` | internal/ami/client.go:189-193 | A message of any other call of the run is skipped inside a list |
| `Clients.UnsolicitedMessageDesyncs` | internal/ami/client.go:151-154 | An unidentified message ahead of a reply is taken for it, and the next call fails on the reply left over |
| `Synchrony.SinglesInSyncExactly` | internal/ami/client.go:140-155 | For every run of single calls served behind stray messages, each call gets its own answer if and only if there are no strays |
| `Synchrony.CallInStepExactly` | internal/ami/client.go:140-204 | A call served behind strays gets its own outcome and stops right behind its answer if and only if the strays are none, or, for an accepted list, a success followed by noise |
| `Synchrony.InStepExactly` | internal/ami/client.go:140-204 | For every run of single and list calls, the client is in step after every call if and only if the strays of every call are harmless to it |
| `Synchrony.SuccessAheadOfList` | internal/ami/client.go:172-203 | Any success ahead of an accepted list is taken for its first response, harmlessly if and only if the list's own response passes for noise |
| `Synchrony.RejectionHidden` | internal/ami/client.go:172-203 | A success ahead of the call's own rejection hides it: the rejection is skipped and the call collects from what follows |
| `Synchrony.SuccessAheadOfRejection` | internal/ami/client.go:172-203 | What the call returns then: the items ahead of the first later completion, or the failure of the last read |
| `Clients.Perform` | internal/ami/client.go:253-260 | A caller's run of calls on the client object, to a peer that takes the requests, writes exactly the requests and is the run StaysInSync is about |
| `EventStreams.EventStream.constructor` | internal/ami/eventstream.go:47-66 | An empty list of event classes becomes `call,reporting`; the backoff runs from one second to thirty until set otherwise |
| `EventStreams.EventStream.Run` | internal/ami/eventstream.go:70-100 | The loop makes exactly the observations of the specified run, for every script of dials and cancellation |
| `EventStreams.EventStream.RunOnce` | internal/ami/eventstream.go:102-147 | One connection from dial to close, with the notifications around its events, whichever way it ends |
| `EventStreams.EventStream.LogIn` | internal/ami/eventstream.go:120-125 | The login on a fresh connection uses identifier 1 and leaves what follows unread |
| `EventStreams.EventStream.Consume` | internal/ami/eventstream.go:133-146 | Hands over exactly the messages with an event, in order, until a read fails |
| `EventStreams.BackoffClosedForm` | internal/ami/eventstream.go:71-98 | For a positive base, the n-th wait is min(base * 2^n, max) for all n if and only if base <= max and 2 * max fits in 64 bits |
| `EventStreams.BackoffMonotone` | internal/ami/eventstream.go:95-98 | The waits never shrink and never exceed the bound |
| `EventStreams.WaitsOfRun` | internal/ami/eventstream.go:70-100 | The waits of every run, whatever its connections did, are the capped doublings from the first on; a healthy connection resets nothing |
| `EventStreams.LifecycleKept` | internal/ami/eventstream.go:102-147 | Every run keeps to the order dial, up, events, down, close and ends with nothing open |
| `EventStreams.RunOrderly` | internal/ami/eventstream.go:70-147 | At every moment of every run, with or without hooks: notifications alternate starting with up, events are handled only while up, and at most the connection in use is unclosed; at the end all are closed once |
| `EventStreams.RunHandles` | internal/ami/eventstream.go:133-146 | The handled sequence is the messages with an event of all connections played, in order |
| `EventStreams.RunReconnects` | internal/ami/eventstream.go:78-84 | Reconnect notices are the connection attempts less one, once there was any |
| `StreamOrders.ReconnectsAnnounceAttempts` | internal/ami/eventstream.go:73-97 | At every index of every run's log: it starts with an attempt, each later attempt comes right behind its reconnect notice, and each notice right behind a wait and right before an attempt; without the hook, attempts come right behind waits |
| `StreamOrders.ConnectionsInOrder` | internal/ami/eventstream.go:90-147 | At every index: opening right behind the attempt, up right behind opening, down right behind the last event, closing right behind that, waiting right behind a failed attempt or a close |
| `StreamOrders.CancellationStops` | internal/ami/eventstream.go:74-93 | Exactly how many attempts and waits a run makes that is cancelled before an attempt, behind one, in a wait or not at all |
| `StreamOrders.EventsInExactly` | internal/ami/eventstream.go:141-145 | Of the messages carried, each is handed over as often as it came if it has a value for Event, and otherwise never |
| `Watchdogs.InvAlways` | internal/ami/eventstream.go:110-118 | The invariant of the close race holds after every interleaving |
| `Watchdogs.ClosedExactlyOnce` | internal/ami/eventstream.go:110-130 | In every interleaving no connection is closed twice, each is closed once when the loop has left it or all watchdogs have fired, and the gauge is up exactly while events are read |
| `Watchdogs.CrashesExactly` | internal/ami/client.go:80-129 | The loop uses a cleared reference if and only if the watchdog's close falls between its test and the use, so only when cancelled |
| `Watchdogs.CrashFromAnyUse` | internal/ami/client.go:207-228 | Wherever the loop has tested a reference and not used it yet, cancellation and the watchdog suffice for that |
| `Watchdogs.InterleavingsKeepLifecycle` | internal/ami/eventstream.go:102-147 | What can be observed of the loop in any interleaving with the watchdogs keeps to the lifecycle of a run |
| `Watchdogs.InterleavingsOrderly` | internal/ami/eventstream.go:102-147 | Every prefix of it is as orderly as in RunOrderly |
| `Watchdogs.WatchdogsAccumulate` | internal/ami/eventstream.go:115-118 | Until cancellation, one watchdog waits for every connection ever dialled |
| `Parser.Parse` | internal/rtcp/parser.go:37-131 | RTCPSent in any case gives a sample sent, RTCPReceived one received, anything else none; the sample is the one of the specification |
| `Parser.DirectionExactly` | internal/rtcp/parser.go:39-46 | The direction is that of the event's name, in any case |
| `Parser.SampleExactly` | internal/rtcp/parser.go:48-128 | From which fields, in which order of preference, each part of a sample is taken |
| `Parser.JitterExactly` | internal/rtcp/parser.go:63-67 | Up to 1 a jitter is multiplied by 1000, above it is kept |
| `Parser.LossExactly` | internal/rtcp/parser.go:83-91 | Below 0 a loss is 0, up to 1 kept, up to 256 divided by 256, above 1 |
| `Parser.SelectReading` | internal/rtcp/parser.go:52-115 | The key loop with its break returns the first reading in priority order |
| `Parser.FirstReadingIs` | internal/rtcp/parser.go:52-115 | The measurement is that of the first key that is present, parses and is accepted; none if there is no such key |
| `Parser.LossInRange` | internal/rtcp/parser.go:82-93 | The loss ratio lies in [0, 1] for every number; only NaN stays NaN |
| `Parser.LegacyByteExact` | internal/rtcp/parser.go:83-85 | A raw loss byte b, as in section 6.4.1 of RFC 3550, is read as b/256 if and only if b is not 1 |
| `Parser.ModernRatioKept` | internal/rtcp/parser.go:82-93 | A ratio in [0, 1] passes unchanged |
| `Parser.JitterUnitsAgree` | internal/rtcp/parser.go:63-67 | A jitter of j ms reads the same from seconds and from milliseconds if and only if j is 0 or 1 < j <= 1000 |
| `Parser.RttUnitsAgree` | internal/rtcp/parser.go:105-112 | A round trip of j ms reads the same from seconds and from milliseconds if and only if 10 <= j < 10000 |
| `Parser.RttPositive` | internal/rtcp/parser.go:105-112 | A round-trip time is reported if and only if it is positive, and is then positive |
| `Parser.SampleInRange` | internal/rtcp/parser.go:51-128 | Every reported loss, round trip and packet count of every sample is in range, whatever the number reader |
| `Parser.MalformedFieldIgnored` | internal/rtcp/parser.go:51-128 | Adding a malformed field under a new key never changes the sample, however high its priority |
| `Aggregators.Aggregator.constructor` | internal/rtcp/aggregator.go:61-75 | Starts empty, with five seconds and one hour where zero is given |
| `Aggregators.EventsExactly` | internal/rtcp/aggregator.go:177-241 | Which messages are reports and hangups, of which channel, direction and loss |
| `Aggregators.MessageMoves` | internal/rtcp/aggregator.go:177-264 | What every message does to the totals and to each channel's entry, by the name of its event |
| `Aggregators.Aggregator.Handle` | internal/rtcp/aggregator.go:177-184 | The same of the object: a report moves the total of its direction by one and its channel's entry in that direction, a hangup removes the entry, and nothing else moves; the history grows by the event |
| `Aggregators.Aggregator.HandleRTCP` | internal/rtcp/aggregator.go:186-234 | Counters, gauge and table entry after an RTCP event are those of the history extended by it |
| `Aggregators.Aggregator.HandleHangup` | internal/rtcp/aggregator.go:236-264 | Entry and verdict counters after a hangup are those of the history extended by it |
| `Aggregators.Aggregator.GcStaleChannels` | internal/rtcp/aggregator.go:268-277 | The pruning loop, in any iteration order, leaves exactly the entries not older than the cutoff |
| `Aggregators.Aggregator.Touch` | internal/rtcp/aggregator.go:220-233 | Updates one state object in place; no other channel's entry changes |
| `Aggregators.Aggregator.Remove` | internal/rtcp/aggregator.go:243-248 | Takes one entry out and returns it as it was |
| `Aggregators.Aggregator.Evict` | internal/rtcp/aggregator.go:270-276 | Removes exactly the entries last seen before the cutoff |
| `Aggregators.Aggregator.SetStreamUp` | internal/rtcp/aggregator.go:142-148 | Sets the gauge and nothing else |
| `Aggregators.Aggregator.IncReconnects` | internal/rtcp/aggregator.go:151 | Counts one reconnect and nothing else |
| `Sessions.TableIsOpenSessions` | internal/rtcp/aggregator.go:186-277 | After every history a channel's entry is the first time, last time and per-direction counts of its open session, and absent without one |
| `Sessions.LiveExactlyIfHeardSinceClosed` | internal/rtcp/aggregator.go:220-276 | A channel is in the table if and only if it had an RTCP event since its last hangup or eviction |
| `Sessions.CountersAreVerdicts` | internal/rtcp/aggregator.go:253-263 | Each one-way counter is the number of hangups that deserve the verdict by the session they close |
| `Sessions.VerdictExact` | internal/rtcp/aggregator.go:253-263 | A hangup deserves a verdict if and only if its session lasted the minimum and only one direction was heard in it |
| `Sessions.OpenedIs` | internal/rtcp/aggregator.go:244-274 | A session opens right behind the last event that closes the channel |
| `Pruning.PrunesInvisible` | internal/rtcp/aggregator.go:219-277 | Without long silences and with no prune overtaking a later event's clock, the verdict counters are those of the history without prunes |
| `Pruning.PrunePlacementIrrelevant` | internal/rtcp/aggregator.go:219-277 | The same after every prefix and between any two placements of prunes among the same events |
| `Pruning.PrunesKeepTotals` | internal/rtcp/aggregator.go:191-213 | Event counters and loss gauges never depend on prunes |
| `Pruning.LongSilenceLosesVerdict` | internal/rtcp/aggregator.go:268-277 | For any settings, a silence longer than the TTL can lose a verdict |
| `Pruning.LongSilenceInventsVerdict` | internal/rtcp/aggregator.go:268-277 | For any settings, a silence longer than the TTL can invent a verdict |
| `Pruning.PruneOvertakingLosesVerdict` | internal/rtcp/aggregator.go:269-270 | With the clock read before the lock, a prune that overtakes a hangup can lose its verdict without any long silence |
| `Pruning.TableBound` | internal/rtcp/aggregator.go:268-277 | Right after a prune at t every live channel was heard in [t - TTL, t] with nothing closing it since, so the table is no larger than the set of channels heard then |
| `PruneVisibility.PrunedSession` | internal/rtcp/aggregator.go:219-277 | Whatever prunes do in clock order, what is remembered of a session is its part behind some long silence, or all of it |
| `PruneVisibility.CutAtSilence` | internal/rtcp/aggregator.go:268-277 | Every long silence can be cut at by a prune in clock order |
| `PruneVisibility.PruneVisibleExactly` | internal/rtcp/aggregator.go:219-277 | No placement of prunes changes a hangup's verdict if and only if the part of the session behind each long silence deserves the verdict of the whole |
| `PruneRaces.MemoryOfPlaced` | internal/rtcp/aggregator.go:219-277 | However prunes overtake, what is remembered of a session is all of it or its part behind a place where a prune found it stale |
| `PruneRaces.HangupVerdictExactly` | internal/rtcp/aggregator.go:266-277 | For any bound on prune readings, no placement changes a hangup's verdict if and only if, behind every place where a prune could forget the channel, the rest of the session deserves the verdict of the whole |
| `PruneRaces.HangupVerdictExactlyUpTo` | internal/rtcp/aggregator.go:266-277 | The same for readings up to a latest one, in terms of the session's events alone: behind each event such a reading makes stale |
| `PruneRaces.CountersExactly` | internal/rtcp/aggregator.go:253-277 | For any bound on prune readings, the verdict counters after every prefix of every placement are those without prunes if and only if every hangup is safe in that sense |
| `PruneRaces.CountersExactlyUpTo` | internal/rtcp/aggregator.go:253-277 | The same for readings up to a latest one |
| `PruneRaces.CountersExactlyWithin` | internal/rtcp/aggregator.go:253-277 | In clock order up to a slack by which prunes overtake, the counters are safe if and only if every hangup is safe behind each silence longer than the TTL less the slack |
| `Channels.ProjectionKeepsEntry` | internal/rtcp/aggregator.go:220-276 | A channel's entry depends on its own events and the prunes only |
| `Channels.ProjectionsCombine` | internal/rtcp/aggregator.go:215-277 | Any history is the combination of its per-channel projections: entries one by one, verdict counters as sums |
| `Channels.StepsCommute` | internal/rtcp/aggregator.go:186-264 | Two events on different channels commute in every state, up to gauges they share |
| `Channels.NeighboursCommute` | internal/rtcp/aggregator.go:186-264 | Swapping neighbouring events on different channels anywhere in a history, whatever follows, changes nothing but gauges the channels share |
| `Channels.NeighboursCommuteExactly` | internal/rtcp/aggregator.go:186-264 | The swap changes nothing at all if and only if the two events do not set one gauge to different ratios, or a later event sets it |
| `Channels.DisagreeExactly` | internal/rtcp/aggregator.go:207-213 | Events on different channels set one gauge exactly when gauges do not carry the channel and both report in one direction |
| `Accounting.EventsConserved` | internal/rtcp/aggregator.go:186-277 | In every reachable state the events counted per direction are those in live entries, plus those hung up, plus those evicted, plus those without a channel name |
| `Accounting.TotalsCountEvents` | internal/rtcp/aggregator.go:191 | The event counters are the numbers of RTCP events in the history, named or not |
| `Accounting.LiveEntryHoldsSession` | internal/rtcp/aggregator.go:227-232 | A live entry's counts are those of its open session |
| `Accounting.GaugesShowLastLoss` | internal/rtcp/aggregator.go:207-213 | A loss gauge exists once a ratio was reported under its labels, shows the last one and is never removed |
| `Grouping.CountByIs` | internal/collector/core.go:72-86 | Each key is counted as often as it occurs, and only keys that occur |
| `Collectors.GroupChannels` | internal/collector/core.go:72-86 | The loop computes the state counts and the set of call identifiers |
| `Collectors.CollectChannels` | internal/collector/core.go:59-96 | Emits the number of rows, one count per state in some order and the number of calls; nothing on failure |
| `ScrapeOutputs.ChannelRowExactly` | internal/collector/core.go:80-82 | Which fields give a row's state and call |
| `ScrapeOutputs.CallIdsExactly` | internal/collector/core.go:82-85 | The calls are the ids that occur, without the empty one |
| `ScrapeOutputs.ChannelMetricsExactly` | internal/collector/core.go:68-94 | Which metrics with which values are emitted for a channel list, and that there are no others |
| `Collectors.StateCountsExact` | internal/collector/core.go:80-81 | Each state is counted as often as rows are in it, and only states that occur are counted |
| `Collectors.ChannelCountsAddUp` | internal/collector/core.go:68-94 | For every list the state counts add up to the channels, and there are at most as many calls as channels |
| `Collectors.ChannelCountsOrderless` | internal/collector/core.go:72-94 | The counts and calls do not depend on the order of the rows |
| `Collectors.GroupQueues` | internal/collector/queues.go:36-59 | The loop computes the summaries' metrics and the nested counts |
| `Collectors.EmitMembers` | internal/collector/queues.go:61-67 | The nested loops emit each queue and status once, in any iteration order |
| `Collectors.CollectQueues` | internal/collector/queues.go:23-69 | An unknown action is no failure and emits nothing; any other failure emits nothing either |
| `ScrapeOutputs.StatusLabelsExactly` | internal/collector/queues.go:73-98 | The label of each member status code; other texts are their own label |
| `ScrapeOutputs.MemberRowExactly` | internal/collector/queues.go:39-57 | Which rows are members, of which queue, with which status |
| `ScrapeOutputs.QueueSummaryExactly` | internal/collector/queues.go:40-47 | Which field of a queue summary feeds which metric, and when |
| `ScrapeOutputs.QueueMetricsExactly` | internal/collector/queues.go:36-67 | Which metrics with which values are emitted for a queue list, and that there are no others |
| `Collectors.CountMembersIs` | internal/collector/queues.go:48-57 | Each queue and status is counted as often as it occurs among the member rows with a queue name |
| `Collectors.MemberCountsAddUp` | internal/collector/queues.go:48-57 | The counts of all queues add up to the member rows with a queue name |
| `Collectors.MemberCountsOrderless` | internal/collector/queues.go:36-59 | The counts do not depend on the order of the rows |
| `Collectors.CollectCore` | internal/collector/core.go:22-43 | Fails if either request fails and then emits nothing |
| `ScrapeOutputs.CoreMetricsExactly` | internal/collector/core.go:32-43 | Which fields give the version, the system name and the number of calls |
| `ScrapeOutputs.PhaseOrderExactly` | internal/collector/collector.go:261-272 | The phases after a login, in their order |
| `ScrapeOutputs.PhaseOutputExactly` | internal/collector/collector.go:261-272 | Each phase emits from its own reply with its own reader |
| `ScrapeOutputs.FirstErrorExactly` | internal/collector/collector.go:235-273 | The error is that of the dial, else of the login, else of the first failing phase in their order |
| `Collectors.Collector.Book` | internal/collector/collector.go:251-259 | A failed phase is counted and becomes the scrape's error only if it is the first |
| `Collectors.Collector.RunPhases` | internal/collector/collector.go:261-273 | Every phase that is not switched off runs in order, whatever failed before, failing and emitting as its own replies say |
| `Collectors.Collector.Scrape` | internal/collector/collector.go:235-274 | Each failed phase is counted once and no other; the error is the first failure; a dialled connection is always closed, a login always logged off |
| `Collectors.Collector.Collect` | internal/collector/collector.go:213-233 | Up is 1 if and only if the scrape moved no error counter |
| `Collectors.ScrapeCounts` | internal/collector/collector.go:235-274 | A scrape moves a phase's counter by one if it gets to the phase and the phase fails, and not at all otherwise |
| `ScrapeRuns.ListCallsExactly` | internal/collector/core.go:60-63 | The lists that are asked for and the events that complete them, word by word |
| `ScrapeRuns.CoreCallsExactly` | internal/collector/core.go:23-27 | The requests before the lists, word by word |
| `ScrapeRuns.RequestsMadeExactly` | internal/collector/collector.go:243-272 | The requests of a scrape by what came of the ones before, word by word |
| `ScrapeRuns.LogShowsLogoff` | internal/collector/collector.go:241-248 | The log has the logoff exactly when the login was accepted, right before the close, which is last |
| `ScrapeRuns.ScrapeConnection` | internal/collector/collector.go:235-274 | A scrape over one connection writes exactly the login, then if that is accepted CoreSettings, CoreStatus if the settings came, the enabled lists and Logoff, numbered from 1 without gaps; its phases, errors and gauge are those of the replies in the bytes; it is logged as logged off exactly when Logoff was written |
| `ScrapeRuns.AnsweredFetch` | internal/collector/collector.go:243-273 | Against a server that answers every call, the phases work on exactly the server's answers, and just what follows them is left unread |
| `ScrapeRuns.AnsweredScrapeIsUp` | internal/collector/collector.go:221-231 | Such a scrape is up and counts no error if and only if the channel list is accepted and every other list is accepted or rejected as unknown |
| `Exporters.WiredWithoutPrunes` | cmd/freepbx-exporter/main.go:72-88 | With scrapes pruning in between, the aggregator's history is still, apart from prunes, that of the messages handed over |
| `Exporters.Wire` | cmd/freepbx-exporter/main.go:72-88 | With the stream wired to an aggregator that scrapes prune, its history is the events handled and the prunes, its reconnect counter the notices, its gauge the last notification, its verdict counters the one-way sessions of that history |
| `Exporters.GaugeIsConsuming` | internal/ami/eventstream.go:127-146 | After any number of observations of any run the gauge is up exactly while events can be delivered |
| `Exporters.BytesToVerdicts` | cmd/freepbx-exporter/main.go:72-95 | For every run and every history that is, apart from prunes placed anywhere, the events handed over in it: these are the events the peer sent on the connections played, refused logins included; the one-way counters are the one-way sessions of the history with its prunes; they are those of the events alone if the history is pruned safely |
| `Exporters.Export` | cmd/freepbx-exporter/main.go:72-95 | The same of the objects: the stream runs, the aggregator is scraped in between, and its own fields hold those counts |

## Left out

- TCP dialling, the banner, deadlines and contexts: a connection is its bytes and how they end; cancellation is part of the script of a run.
- Time: clock readings are inputs; the saturation of time differences is not modelled.
- Prometheus histograms, descriptors and registries: jitter and round-trip observations are parsed but not collected.
- Non-ASCII letters and white space: case folding and trimming are those of ASCII.
- Floating-point rounding: numbers are reals with infinities and NaN, and reading one from text is a parameter.
- The width of the counters: only the call counter and the backoff wrap at 64 bits; event and row counts are unbounded.
- Messages.Message.Set: does not model that a message passed by value shares its fields with the caller's copy, so that overwriting an existing key is seen there too.
- Mutexes: a locked region is one atomic step, and the lock-free counter updates of an event belong to the same step.
- EventStreams.EventStream.Run: runs over a finite script; a run that outlives it is a run still going on, so every result is about every finite part of a run.
- EventStreams.EventStream.RunOnce: the watchdog is not part of this loop; its race with the loop is the interleaving model of `Watchdogs`, whose logs are proved to keep the same lifecycle.
- Exporters.Wire: replays the observations of a run after the fact instead of calling the aggregator from inside the loop.
- PruneVisibility.PruneVisibleExactly: is about prunes in clock order; prunes that overtake are the subject of `PruneRaces`.
- Aggregators.Aggregator.HandleRTCP: split into methods for its lock-free and its locked part; jitter and round-trip times are not observed.
- Collectors.CollectCore: leaves out the uptime and last-reload gauges, which parse local times.
- SIP and PJSIP grouping (`internal/collector/peers.go`, `internal/collector/pjsip.go`): functions passed as parameters, as is the check for unknown actions.
- ScrapeRuns.ScrapeConnection: the peer takes every request in whole, and all replies are fetched before the phases work on them, which no phase can tell.
- EventStreams.EventStream.Dial: whether the peer takes the login request is given as yes or no, since it is the only request of a stream.
- Configuration, HTTP server, logging, packaging: input and output only.
