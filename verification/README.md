# Gateway and agent: a verified model

This project models the parts of the connector gateway and its device agent that keep state across
asynchronous steps, and the pure algorithms they rely on, and proves what they promise.

An `async` function is cut at each `await`; its pieces are atomic steps that interleave freely with
everything else. Clocks are integers given to each step, promises are tickets or stages, and what the
control plane, an upstream server or a socket answers is a parameter of the step that receives it. Each
state machine comes twice: as a function on values, about which properties of all runs are proved, and as
a class whose methods do what the source does and are proved to make that function's step.

| module | what it models |
|---|---|
| `Canonical`, `CanonicalWriter`, `NumberText`, `Quoting`, `KeyOrder`, `Utf8` | the signing preimage: JavaScript values in a heap, the JSON they stand for, the writer, its text and its bytes |
| `ApprovalKey` | the preimage of an approval |
| `ReplayGuards`, `Jobs` | both replay guards, the verifier's time checks and the job pipeline |
| `GatewayLease` | any number of processes, requests and delayed responses against one lease row |
| `Dispatch`, `Relay`, `RelayHandlers`, `Presence` | socket registry, dispatcher, relay and presence |
| `Session`, `SessionHandlers` | the agent's reconnecting session |
| `Breaker`, `RemoteMcp` | the circuit breaker and the calls through it |
| `RateLimit` | the fixed-window limiter over a history of calls |
| `Connections`, `ConnectionsHandlers` | coordinated credential renewal |
| `Strings`, `IpText`, `IpAddress`, `IpRanges`, `IpLabels` | address literals, prefixes, blocked ranges and their labels |
| `Sse` | event-stream framing |
| `Backoff` | reconnect delays and the pairing loop |
| `Policy` | the policy decision |

`dafny verify dfyconfig.toml` checks the whole project.

## Where the code does not do what one might expect

Each of these is a lemma. Where a property fails, the lemma gives an input that shows it, and a lemma beside
it says exactly when the property holds.

- `ApprovalKey.InfinityIsApprovedAsNull`: `JSON.parse` reads 1e400 as Infinity (apps/gateway/src/http/body.ts:73),
  the open `arguments` of composio.tools.execute admit it
  (adapters/remote-mcp/connectors/composio.connector.json:136-166), and `JSON.stringify` prints it as null
  (apps/gateway/src/pipeline/approval-key.ts:31), so that an approval of one is an approval of the other;
  `ApprovalKey.ApprovalCovers` is the exact condition. The signing preimage refuses such a number
  (packages/protocol/src/canonical.ts:70-74).
- `Session.StoppedYetOnline`: a welcome whose key check ends after `stop()` sets the reported state back
  to online (apps/agent/src/session-inbound.ts:92-95). `Session.ReportedStateIsTrue` says when the
  reported state is true.
- `Session.LateDetectionFailureClosesNewSocket`: a capability detection that fails late closes the socket
  that replaced its own (apps/agent/src/session.ts:144-148); `Session.StaleIsHarmless` shows it is the only
  stale event that reaches a socket.
- `Session.OnCloseValid`: `onClose` never finds the session stopped (apps/agent/src/session.ts:157-160);
  halting already moved the generation on.
- `Session.ThrowingDialStrands`: `open` has no catch around `connect` (apps/agent/src/session.ts:94-134), so a dial
  that throws leaves a session with neither socket nor timer that says it is connecting;
  `Session.RunAlwaysSocketOrTimer` is the exact condition.
- `Jobs.AcceptedTwiceAtExpiry`: `verifyJob` accepts an envelope at the instant it expires, when both guards
  have let go of its id, so at-most-once holds of claims made strictly before expiry.
- `ReplayGuards.BackwardsClockSeparates`: the two guards part when the clock steps back;
  `ReplayGuards.StepBackSeparates` says at which step back.
- `Relay.JobStranded`: a failing presence write during hello removes the registration without failing the
  jobs (apps/gateway/src/relay/relay.ts:102-107); `Relay.PendingStaysRegistered` is the exact condition.
- `Connections.ReplacedRowIsRefreshedTwice` and `Connections.GrantsOfOneRowMeet`: a refresh follows the row of
  its user and connector after a wait (apps/gateway/src/store/connections.ts:91), and renews whatever row the
  grant names (apps/gateway/src/store/connections.ts:95), both under the key of the row it was started for, so
  two refreshes can meet on one row; `Connections.StepExclusive` and `Connections.RunExclusive` are the exact
  condition.
- `Connections.JoinsASettledOne`: the map leads to a refresh until its `finally` has run
  (apps/gateway/src/store/connections.ts:215-220), so a caller can join one that is over; `Connections.JoinsTheRunningOne`
  is the exact condition.
- `Session.LateWelcomeResetsBackoff`: the same late welcome sets the attempt counter back to zero while the
  session is offline (apps/agent/src/session.ts:117-119); `Session.StepAttemptCounts` is the exact condition.
- `Session.HeartbeatExactly`: a frame of a replaced socket puts off the timeout of the current one
  (apps/agent/src/session.ts:125-128).
- `Jobs.SlotLostAtExpiry`: cancel slots are kept by id alone (apps/agent/src/jobs.ts:112-127), so the first of
  two deliveries of an id to end takes the slot of the other; `Jobs.CancellableUntilNextEvent` is the exact
  condition.
- `Sse.ReturnBeforeLineFeedIsLost`: the line split takes a carriage return before a line feed along
  (adapters/remote-mcp/src/mcp-parse.ts:44), also one that belongs to the payload; `Sse.PayloadsSurvive` is the
  exact condition.
- `GatewayLease.LostHolderIsQuiet` and `GatewayLease.LostHolderReached`: `acquire` does not look at the recorded loss
  (apps/gateway/src/store/gateway-lease.ts:96-98), so a process that lost its lease can hold the row again
  without ever being valid.
- `IpRanges.UnreachableLabels`: `::` and `::1` are reported as 0.0.0.0/8, since the embedded IPv4 address is
  looked up first (packages/core/src/ip-address.ts:43-46). They are blocked all the same.
- `Policy.AddingTightens`: the first exact rule for an action replaces stricter wildcard rules, down to the
  risk baseline, as packages/policy/src/rules.ts:33-36 intends.
- `Backoff.FortyPolls`: apps/gateway/src/app.ts:33 speaks of about 35 polls; the exact maximum is 40.
- `Presence.WhatIsTolerated`: packages/core/src/device.ts:34-36 says a device can miss two refreshes; with
  heartbeats every 15 s it can miss three.

## Model

| member | source | states |
|---|---|---|
| CanonicalWriter.Writer.constructor | packages/protocol/src/canonical.ts:15-17 | A new writer has visited no ancestor. |
| CanonicalWriter.Writer.Write | packages/protocol/src/canonical.ts:19-47 | For every value, heap and depth, the writer with its shared ancestors set returns the print of the JSON value that the input stands for, or refuses; the ancestors set is as it was, on refusals too. |
| CanonicalWriter.Writer.WriteArray | packages/protocol/src/canonical.ts:49-57 | The same for the elements of an array, undefined elements refused. |
| CanonicalWriter.Writer.WriteObject | packages/protocol/src/canonical.ts:59-68 | The same for the properties of an object in sorted order (KeyOrder.SortedByUnits, Canonical.ObjectText), undefined properties skipped. |
| CanonicalWriter.PropsByKey | packages/protocol/src/canonical.ts:59-68 | What the properties of an object stand for depends on each key's value only, not on the order of the keys. |
| CanonicalWriter.ItemsByIndex | packages/protocol/src/canonical.ts:49-57 | An array is accepted exactly if each element is, and stands for its elements in order. |
| CanonicalWriter.GuardSilent | packages/protocol/src/canonical.ts:37-46 | The cycle check never refuses a finite value, shared parts included. |
| CanonicalWriter.GuardRestricts | packages/protocol/src/canonical.ts:37-46 | The cycle check changes no accepted value. |
| CanonicalWriter.CanonicalIsMeaning | packages/protocol/src/canonical.ts:12-47 | A value is accepted exactly if it unfolds to a JSON value within 64 levels; the output prints that unfolding. |
| CanonicalWriter.AcceptsExactly | packages/protocol/src/canonical.ts:12-47 | A text is returned exactly for the values that stand for a JSON value, said structurally of the value and its heap, at most 64 containers deep; it is that JSON value, printed. |
| NumberText.NumberRoundTrip | packages/protocol/src/canonical.ts:70-74 | A reader of decimal and exponent notation gets every finite number back from what Number::toString prints, in all its layouts; only the sign of zero is lost. |
| NumberText.NumberUnits | packages/protocol/src/canonical.ts:70-74 | A printed number uses digits, sign, point and exponent only, and starts with a digit or a minus. |
| NumberText.NumberLayout | packages/protocol/src/canonical.ts:70-74 | An exponent is written exactly from 1e21 on and below 1e-6, a decimal point exactly where there is a fraction. |
| Quoting.QuoteRoundTrip | packages/protocol/src/canonical.ts:28-30 | Reading a quoted string back gives the string and the text after it, unpaired surrogates included. |
| Quoting.QuotePrefix | packages/protocol/src/canonical.ts:28-30 | Two texts that start with quoted strings and are equal start with the same string. |
| Quoting.UnitForms | packages/protocol/src/canonical.ts:28-30 | A unit is written as it is, with a letter, or with four digits: which, exactly. |
| Quoting.PlainQuoted | packages/protocol/src/canonical.ts:28-30 | Text without controls, quotes, backslashes and unpaired surrogates is printed as it is, in quotes. |
| KeyOrder.LessTotal | packages/protocol/src/canonical.ts:61-62 | The key order compares any two keys, one way only. |
| KeyOrder.LessTransitive | packages/protocol/src/canonical.ts:61-62 | The key order is transitive. |
| KeyOrder.SortSorts | packages/protocol/src/canonical.ts:61-62 | Sorting gives exactly the keys, in order. |
| KeyOrder.SortingIsUnique | packages/protocol/src/canonical.ts:61-62 | There is only one such arrangement, so the output cannot depend on insertion order. |
| KeyOrder.UnitsLessMeansBefore | packages/protocol/src/canonical.ts:61-62 | One string is before another exactly if they agree on a prefix after which the first ends or has the smaller code unit. |
| KeyOrder.SortedByUnits | packages/protocol/src/canonical.ts:61-62 | Of two keys in the sorted order the earlier one agrees with the later on a prefix and then ends or has the smaller code unit. |
| KeyOrder.SortedInOrder | packages/protocol/src/canonical.ts:61-62 | The sorted keys are the given keys, each before all later ones, in code-unit order or with array indices by number first. |
| KeyOrder.IndexMeansNumeral | apps/gateway/src/pipeline/approval-key.ts:17-27 | An array index is exactly what a number up to 2^32 - 2 is written as. |
| Canonical.ObjectText | packages/protocol/src/canonical.ts:59-68 | The text of an object lists every key once, in that order, quoted, with a colon and the text of its value, between braces. |
| Canonical.LiteralTexts | packages/protocol/src/canonical.ts:21-30 | The literals null, true and false, and what an array and an escaped string look like. |
| Canonical.PrintPrefix | packages/protocol/src/canonical.ts:2-9 | Unambiguous prefix: equal texts that each start with a printed JSON value start with the same value, and what follows is equal. |
| Canonical.PrintInjective | packages/protocol/src/canonical.ts:2-9 | Equal printed texts come from equal JSON values. |
| CanonicalWriter.CanonicalInjective | packages/protocol/src/canonical.ts:2-9 | Two accepted JavaScript values have the same preimage if and only if they stand for the same JSON value. |
| CanonicalWriter.CanonicalIgnoresKeyOrder | packages/protocol/src/canonical.ts:59-74 | Reordered keys, undefined properties and negative zeros give the same result, refusals included. |
| CanonicalWriter.PrintWellFormed | packages/protocol/src/canonical.ts:28-30 | The output holds no unpaired surrogate. |
| Utf8.EncodeRoundTrip | packages/protocol/src/sign.ts:33-34 | Decoding the UTF-8 bytes of well-formed text gives the text back. |
| Utf8.UnitBytes | packages/protocol/src/sign.ts:33-34 | ASCII is encoded as itself, and other units take two or three bytes, never more than needed. |
| Utf8.LoneSurrogateBytes | packages/protocol/src/sign.ts:33-34 | An unpaired surrogate is encoded as U+FFFD. |
| CanonicalWriter.SignedBytesInjective | packages/protocol/src/sign.ts:32-55 | The bytes signed for two payloads are equal if and only if the payloads stand for the same JSON value. |
| ApprovalKey.CanonicalisedValid | apps/gateway/src/pipeline/approval-key.ts:17-27 | Rebuilding every object from sorted entries keeps the JSON value that is printed. |
| ApprovalKey.StringifyCanonical | apps/gateway/src/pipeline/approval-key.ts:17-33 | JSON.stringify of the rebuilt value, with array-index keys first as the language demands and a number that is not finite as null, is a print of the JSON value in a fixed total key order. |
| ApprovalKey.PreimageText | apps/gateway/src/pipeline/approval-key.ts:29-33 | The hashed text in full: the members c, a and i with connector, action and the printed input. |
| ApprovalKey.ApprovalSeparates | apps/gateway/src/pipeline/approval-key.ts:29-33 | Two approvals share a preimage if and only if connector and action are the same and the arguments are printed as the same JSON value, a number that is not finite being printed as null. |
| ApprovalKey.ApprovalCovers | apps/gateway/src/pipeline/approval-key.ts:4-12 | Approving a call covers no other connector, action or arguments (key order and the sign of zero aside) if and only if the arguments hold neither a null nor a number that is not finite. |
| ApprovalKey.ApprovalIgnoresKeyOrder | apps/gateway/src/pipeline/approval-key.ts:11-12 | Arguments that differ in key order or in the sign of a zero only have the same preimage. |
| ApprovalKey.InfinityIsApprovedAsNull | apps/gateway/src/pipeline/approval-key.ts:29-33 | The exception shown: null, 1e400 and -1e400 under one key are three different arguments with one preimage. |
| ReplayGuards.HasControlCharacter | packages/protocol/src/replay.ts:71-77 | Found exactly if some character is a control character. |
| ReplayGuards.MemoryReplayGuard.Remember | packages/protocol/src/replay.ts:30-60 | Answer and insertion-ordered entries are those of the step function MemoryStep; the table stays distinct and within capacity. |
| ReplayGuards.MemoryReplayGuard.EvictOldest | packages/protocol/src/replay.ts:53-58 | The loop leaves the newest entries that fit. |
| ReplayGuards.MemoryReplayGuard.Sweep | packages/protocol/src/replay.ts:64-69 | The loop leaves exactly the unexpired entries, in order. |
| ReplayGuards.DurableReplayGuard.Remember | apps/agent/src/replay-store.ts:155-175 | Answer and rows are those of the step function DurableStep, errors included. |
| ReplayGuards.DurableReplayGuard.Claim | apps/agent/src/replay-store.ts:140-152 | The transaction: prune, insert unless present, evict the overflow. |
| ReplayGuards.DurableReplayGuard.Close | apps/agent/src/replay-store.ts:154-162 | A closed guard stays closed and keeps its rows. |
| ReplayGuards.MemoryKeepsWindow | packages/protocol/src/replay.ts:43-59 | The lazily swept guard, seen through its live entries, is the bounded window of live ids; its size never exceeds the capacity. |
| ReplayGuards.GuardsAgree | packages/protocol/src/replay.ts:43-59 | On a monotone clock, from equal live entries, both guards answer every sequence of calls alike, errors included. |
| ReplayGuards.GuardsAgreeExactly | apps/agent/src/replay-store.ts:155-163 | On one usable call they agree exactly if the clock reading and the expiry are safe integers. |
| ReplayGuards.ErrorsExactly | apps/agent/src/replay-store.ts:155-175 | Which ids, lifetimes, clocks and expiries each guard answers with which error; an error leaves the table alone. |
| ReplayGuards.StepBackSeparates | apps/agent/src/replay-store.ts:140-143 | After any calls on a monotone clock, a call at any other reading separates the guards if and only if the swept one holds its id with an expiry after that reading and not after the last one. |
| ReplayGuards.BackwardsClockSeparates | apps/agent/src/replay-store.ts:140-143 | A run that does so: the pruned guard accepts a replay the swept one refuses. |
| ReplayGuards.AtMostOnce | packages/protocol/src/replay.ts:44-58 | An id accepted twice before its stored expiry had at least `max` other ids accepted in between. |
| ReplayGuards.EvictionReopens | packages/protocol/src/replay.ts:53-58 | A table full of live ids forgets the oldest at the next acceptance. |
| Jobs.JobRunner.Deliver | apps/agent/src/jobs.ts:51-55 | A delivery starts by waiting for the verifier; nothing else changes. |
| Jobs.JobRunner.Verified | apps/agent/src/jobs.ts:55-56 | A delivery goes on to its claim exactly if it was authentic, of version 1, not expired and not from the future; otherwise it settles with the error of the first check that failed. What the verifier saw is recorded. |
| Jobs.JobRunner.Claimed | apps/agent/src/jobs.ts:97-112 | A replay or a failing guard settles the delivery; only a fresh claim that is authorised reaches an adapter, and it is recorded in the history. |
| Jobs.JobRunner.Finished | apps/agent/src/jobs.ts:113-128 | The delivery settles and its cancel slot is freed. |
| Jobs.JobRunner.Cancel | apps/agent/src/jobs.ts:65-70 | Finds the delivery whose start is the latest start or end of that id, if it is a start; what it finds executes and has that id. |
| Jobs.SlotIsLatestStart | apps/agent/src/jobs.ts:111-127 | The slot of an id, set and deleted by id alone, holds exactly the latest start not followed by an end of that id. |
| Jobs.CancellableUntilNextEvent | apps/agent/src/jobs.ts:111-127 | A started delivery can be cancelled exactly as long as no delivery of the same id starts or ends after it. |
| Jobs.SlotLostAtExpiry | apps/agent/src/jobs.ts:124-128 | For any usable envelope a run of the job runner in which two deliveries of it execute and the first to end leaves the second without a slot. |
| Jobs.HistoryExtends | apps/agent/src/jobs.ts:97-102 | Each claim extends a sound history: the recorded answers stay those of the guard, and only fresh claims execute. |
| Jobs.VerifyJobChecks | packages/protocol/src/sign.ts:38-67 | verifyJob passes exactly what passes its four checks, and names the first that fails. |
| Jobs.OnlyGenuineRuns | packages/protocol/src/sign.ts:38-67 | Whatever is claiming its id, executing or was ever started was authentic, of version 1, in time and not from the future when verified; what was started was accepted by the guard and allowed. |
| Jobs.FailureIsNamed | packages/protocol/src/sign.ts:38-67 | A delivery that failed verification never starts and stays settled with the error of the first failed check, the signature first. |
| Jobs.RefusalIsNamed | apps/agent/src/jobs.ts:51-63 | A claim starts its delivery exactly if it was fresh and allowed; otherwise the delivery is settled as a replay, as not allowed, or as a guard failure. |
| Jobs.StoredToExpiry | apps/agent/src/jobs.ts:97-102 | An id is kept at least until its envelope expires. |
| Jobs.ExecutedAtMostOnce | apps/agent/src/jobs.ts:51-63 | If two deliveries of an envelope both reach an adapter and the later one claims strictly before expiry, at least `maxEntries` other ids were accepted in between. |
| Jobs.AcceptedTwiceAtExpiry | packages/protocol/src/sign.ts:63-67 | Of two deliveries of any envelope in a row that both pass the verifier, the guard accepts the second too if and only if it comes at the very instant of expiry and the first came earlier. |
| GatewayLease.GatewayLease.constructor | apps/gateway/src/store/gateway-lease.ts:54-61 | A new lease owner holds nothing. |
| GatewayLease.GatewayLease.MarkLost | apps/gateway/src/store/gateway-lease.ts:74-81 | The first loss is recorded, deactivates and stops the timers; later ones change nothing. |
| GatewayLease.GatewayLease.ArmExpiryWatch | apps/gateway/src/store/gateway-lease.ts:83-94 | The watch is set to one millisecond after the expiry, if still serving. |
| GatewayLease.GatewayLease.AcquireBegins | apps/gateway/src/store/gateway-lease.ts:96-101 | Fails exactly when stopped; a valid process asks for nothing; an immediate return means valid, unless a loss was recorded; a request is made exactly when the system step sends one. |
| GatewayLease.LostHolderIsQuiet | apps/gateway/src/store/gateway-lease.ts:96-118 | A process that lost its lease and is granted it again asks for nothing and yet is never valid. |
| GatewayLease.LostHolderReached | apps/gateway/src/store/gateway-lease.ts:96-118 | A run from the initial system that ends so: the row is held by a process that lost it before, is not valid and asks for nothing. |
| GatewayLease.GatewayLease.AcquireEnds | apps/gateway/src/store/gateway-lease.ts:100-118 | Only a granted response that has not expired makes the process active. |
| GatewayLease.GatewayLease.RenewBegins | apps/gateway/src/store/gateway-lease.ts:129-133 | One request at a time, and only while serving. |
| GatewayLease.GatewayLease.RenewEnds | apps/gateway/src/store/gateway-lease.ts:134-168 | Every response, malformed, refused, late or failing, moves the owner as the system step does (GatewayLease.RenewalDelivered says how); a granted one is extended and watched to the new expiry. |
| GatewayLease.GatewayLease.ExpiryWatchFires | apps/gateway/src/store/gateway-lease.ts:87-92 | Marks the lease lost at or after expiry, and sets the watch again before it. |
| GatewayLease.GatewayLease.IsValid | apps/gateway/src/store/gateway-lease.ts:170-172 | Valid exactly if active, not stopped, not lost and before expiry. |
| GatewayLease.GatewayLease.StopBegins | apps/gateway/src/store/gateway-lease.ts:174-184 | Stopping is final; the lease is released only if it was had and not lost. |
| GatewayLease.RunKeepsInv | apps/gateway/src/store/gateway-lease.ts:96-194 | Every interleaving of requests, verdicts, delayed or lost responses, timers, shutdowns and time keeps the system invariant. |
| GatewayLease.AtMostOneServes | apps/gateway/src/store/gateway-lease.ts:96-194 | At any instant of any run at most one process is valid, and it is the holder of the row. |
| GatewayLease.NeverAgain | apps/gateway/src/store/gateway-lease.ts:74-81 | A process that was stopped or lost its lease is never valid again, and its reason of loss never changes. |
| GatewayLease.ServingIsWatched | apps/gateway/src/store/gateway-lease.ts:83-94 | A serving process always has its watch set for its expiry, and the watch takes it down. |
| GatewayLease.OneRenewalAtATime | apps/gateway/src/store/gateway-lease.ts:129-168 | At most one renewal of a process is under way. |
| GatewayLease.AcquireServes | apps/gateway/src/store/gateway-lease.ts:96-118 | A lone process that acquires and hears back serves until the last millisecond of its lease. |
| GatewayLease.RenewalDelivered | apps/gateway/src/store/gateway-lease.ts:128-170 | In every run the response to a renewal of a serving process extends it to the new expiry and watches that, or marks it lost as not renewed or as expired, or, without a usable verdict, leaves it serving to the expiry it has. |
| GatewayLease.AcquisitionDelivered | apps/gateway/src/store/gateway-lease.ts:96-118 | The response to an acquisition makes a process that may serve serve to the granted expiry, exactly if granted and unexpired; otherwise it changes nothing. |
| GatewayLease.RenewalServes | apps/gateway/src/store/gateway-lease.ts:128-170 | A process that acquires, renews in time and hears back serves up to the last millisecond of the renewed lease. |
| GatewayLease.StopFreesTheRow | apps/gateway/src/store/gateway-lease.ts:176-196 | A holder that stops leaves the row free as soon as its release is served. |
| GatewayLease.RequestsExactly | apps/gateway/src/store/gateway-lease.ts:96-182 | Which events ask the control plane for the lease, its renewal or its release. |
| GatewayLease.MonitorExactly | apps/gateway/src/store/gateway-lease.ts:120-127 | Renewals are driven from a start while valid to the end of serving. |
| GatewayLease.IdleHasNoTimers | apps/gateway/src/store/gateway-lease.ts:67-95 | In every run a process that does not serve, stopped and lost ones included, has no timer left. |
| Dispatch.SocketRegistry.Set | apps/gateway/src/relay/sockets.ts:25-29 | The socket is registered; exactly a different previous one is handed back. |
| Dispatch.SocketRegistry.Remove | apps/gateway/src/relay/sockets.ts:30-34 | Removes the entry exactly if it holds this very socket. |
| Dispatch.Dispatcher.Dispatch | apps/gateway/src/relay/dispatch.ts:50-81 | Refused when offline or already waiting; otherwise waits with a timer, unless the send fails; the budget is clamped. |
| Dispatch.Dispatcher.TimerFires | apps/gateway/src/relay/dispatch.ts:66-72 | The waiting job is rejected with TIMEOUT and nothing else changes. |
| Dispatch.Dispatcher.Settle | apps/gateway/src/relay/dispatch.ts:88-97 | A result settles a job exactly if it waits on the sending device. |
| Dispatch.Dispatcher.FailDevice | apps/gateway/src/relay/dispatch.ts:99-108 | The loop rejects every job waiting on the device, counts them, and touches no other. |
| Dispatch.DispatchedValid | apps/gateway/src/relay/dispatch.ts:50-81 | Dispatching keeps: timer armed iff waiting, every ticket waiting or settled but not both, one callback per settled ticket. |
| Dispatch.TimedOutValid | apps/gateway/src/relay/dispatch.ts:66-72 | A timeout keeps the same. |
| Dispatch.ResultValid | apps/gateway/src/relay/dispatch.ts:88-97 | A result keeps the same. |
| Dispatch.DeviceFailedValid | apps/gateway/src/relay/dispatch.ts:99-108 | Failing a device keeps the same, however many jobs waited. |
| Dispatch.FailStep | apps/gateway/src/relay/dispatch.ts:99-108 | Failing one job and then the rest is failing the device. |
| Dispatch.ResultAnswersOwn | apps/gateway/src/relay/dispatch.ts:83-96 | A ticket that a result settles asked for that job from that device. |
| RelayHandlers.RelayServer.constructor | apps/gateway/src/relay/relay.ts:50-53 | The relay starts empty. |
| RelayHandlers.RelayServer.OnOpen | apps/gateway/src/relay/relay.ts:182-189 | An opened socket awaits its hello under a deadline. |
| RelayHandlers.RelayServer.OnHelloDeadline | apps/gateway/src/relay/relay.ts:184-188 | The deadline closes a socket that has not authenticated. |
| RelayHandlers.RelayServer.OnHello | apps/gateway/src/relay/relay.ts:67-69 | A first hello awaits the credential check; one on an authenticated socket is disconnected. |
| RelayHandlers.RelayServer.OnHelloChecked | apps/gateway/src/relay/relay.ts:69-80 | A refused credential disconnects, an accepted one goes on to claim the route. |
| RelayHandlers.RelayServer.OnRouteClaimed | apps/gateway/src/relay/relay.ts:78-98 | A granted claim registers the socket and closes the one it displaces. |
| RelayHandlers.RelayServer.OnPresenceWritten | apps/gateway/src/relay/relay.ts:100-109 | A failed presence write takes the registration back. |
| RelayHandlers.RelayServer.OnResult | apps/gateway/src/relay/relay.ts:139-141 | A result frame settles at the dispatcher for the device of its socket. |
| RelayHandlers.RelayServer.OnHeartbeat | apps/gateway/src/relay/relay.ts:121-134 | A heartbeat of an authenticated socket is a sign of life; any other socket is cut off. |
| RelayHandlers.RelayServer.OnRouteLost | apps/gateway/src/relay/relay.ts:163-170 | A session whose route moved to another replica is disconnected. |
| RelayHandlers.RelayServer.OnClose | apps/gateway/src/relay/relay.ts:220-234 | Closing a registered socket unregisters it and fails its jobs; closing another changes neither. |
| RelayHandlers.RelayServer.Revalidate | apps/gateway/src/relay/relay.ts:247-253 | One revalidation at a time, over a snapshot of the registry. |
| RelayHandlers.RelayServer.OnRowRead | apps/gateway/src/relay/relay.ts:254-283 | Acts only if the row is gone and the very same socket still owns the slot. |
| RelayHandlers.RelayServer.SweepSilent | apps/gateway/src/relay/relay.ts:292-302 | The loop closes exactly the registered sockets that have been silent too long. |
| Relay.KeepsJobs | apps/gateway/src/relay/relay.ts:121-147 | Every relay event keeps the dispatcher's invariant. |
| Relay.KeepsVouched | apps/gateway/src/relay/relay.ts:67-119 | Only sockets whose credential was accepted for a device ever speak for it. |
| Relay.InitialHolds | apps/gateway/src/relay/relay.ts:50-53 | The empty relay satisfies the invariants the run theorems start from. |
| Relay.RunKeepsInv | apps/gateway/src/relay/relay.ts:50-318 | Every interleaving of hello, frame, close, revalidation, sweep and dispatch steps keeps the relay invariant. |
| Relay.RemovedOnlyByItsOwn | apps/gateway/src/relay/relay.ts:92-107 | A registration is removed only by a step acting for its own socket; another socket can only replace it, which closes it. |
| Relay.StaleRevalidationHarmless | apps/gateway/src/relay/relay.ts:265-272 | A revalidation of a socket that was replaced changes nothing. |
| Relay.PendingStaysRegistered | apps/gateway/src/relay/relay.ts:100-108 | Each step keeps every waiting job on a registered device, exactly unless a hello's presence write fails for a registered socket whose device has a job waiting. |
| Relay.RunPendingRegistered | apps/gateway/src/relay/relay.ts:220-224 | In runs without such a failure, a device with a waiting job is registered. |
| Relay.JobStranded | apps/gateway/src/relay/relay.ts:102-107 | The exception is real: such a failure leaves a waiting job on an unregistered device. |
| Relay.HelloReachesAnnouncing | apps/gateway/src/relay/relay.ts:67-101 | The first hello of any device reaches the state from which that happens. |
| Relay.OutcomeFinalRun | apps/gateway/src/relay/dispatch.ts:88-108 | An outcome never changes once given, over any run. |
| Relay.DispatchedExactlyOnce | apps/gateway/src/relay/dispatch.ts:38-111 | After any run each ticket is waiting with its timer armed or settled, never both; callbacks are one per settled ticket; a resolved one got its own job from its own device. |
| Relay.OnlyItsDeviceAnswers | apps/gateway/src/relay/dispatch.ts:83-97 | Only a result frame from a socket vouched for the ticket's device resolves it. |
| Relay.WaitingCallStep | apps/gateway/src/relay/dispatch.ts:61-112 | A waiting call is settled by exactly these events and as they mean it: the result of its job from its device, its timer, its device's socket closing, its device's row being gone; it waits on at any other. |
| Relay.WaitingCallRun | apps/gateway/src/relay/dispatch.ts:61-112 | Over any run a waiting call ends with the first such verdict on it, and waits on if there is none. |
| Relay.DispatchedCall | apps/gateway/src/relay/dispatch.ts:50-86 | A call waits exactly if its device has a socket, its job does not wait already and the write succeeds; otherwise it is refused at once, as a replay only for a job that waits. |
| Relay.RegisteredExactly | apps/gateway/src/relay/relay.ts:67-119 | A socket is registered for a device exactly from its granted claim until it leaves or another takes the device. |
| Relay.AuthenticatedExactly | apps/gateway/src/relay/relay.ts:94-107 | A socket is authenticated exactly from its granted claim until its presence write fails, its route is lost or its row is gone. |
| Relay.ClosedExactly | apps/gateway/src/relay/relay.ts:182-305 | For which reasons a socket is asked to close, and for no others. |
| Relay.LastSeenExactly | apps/gateway/src/relay/relay.ts:121-125 | The time the sweep goes by is that of the last frame since the granted hello, or of that. |
| Relay.DeadlineExactly | apps/gateway/src/relay/relay.ts:55-65 | The hello deadline runs from open until the granted claim, the close, or the relay cutting the socket off. |
| Relay.OpenedExactly | apps/gateway/src/relay/relay.ts:182-189 | A new socket has no device, is not authenticated and has its deadline armed. |
| Relay.HelloExactly | apps/gateway/src/relay/relay.ts:67-119 | A hello goes from its frame over credential check and route claim to the presence write, each once. |
| Relay.SpeakersAreProved | apps/gateway/src/relay/relay.ts:67-98 | In every run from the start, whichever socket is registered or answers for a device said a hello whose credential was accepted for that device and whose route was granted, in that order. |
| Relay.PassWalksItsSnapshot | apps/gateway/src/relay/relay.ts:247-290 | A revalidation pass reads its whole snapshot in order, whatever happens meanwhile; calls during it start nothing. |
| Relay.PassEndsAndStarts | apps/gateway/src/relay/relay.ts:247-290 | A pass ends with its last row, and only then another one starts, over the sockets registered then. |
| Presence.AlwaysOnline | apps/gateway/src/relay/relay.ts:156-171 | With heartbeats at most `gap` apart and at most `failures` failed refreshes in a row, within the tolerated budget, the stored claim reads as online at every instant of the session. |
| Presence.WhatIsTolerated | packages/core/src/device.ts:27-38 | With no failure that is a gap of at most 60 001 ms; at 15 s three failures in a row, not four. |
| Presence.SometimesOffline | packages/core/src/device.ts:44-53 | Outside the budget some steady session reads as offline while alive. |
| Presence.RefreshesApart | apps/gateway/src/relay/relay.ts:149-161 | Stored refreshes are at least 30 s apart, however often heartbeats arrive. |
| Presence.StatusExactly | packages/core/src/device.ts:44-53 | Online exactly while the last stored sign of life is at most 90 s old; revoked stays revoked. |
| Presence.StoredExactly | apps/gateway/src/relay/relay.ts:121-177 | Every frame is a sign of life; it is stored with capabilities, or by a heartbeat 30 s after the last one stored. |
| Presence.PresenceKeeper.OnCapabilities | apps/gateway/src/relay/relay.ts:135-138 | Capabilities that are stored stamp the presence as well. |
| Presence.PresenceKeeper.RefreshPresence | apps/gateway/src/relay/relay.ts:156-178 | The throttle and the rollback after a failed write, on the socket's own fields. |
| Presence.PresenceKeeper.OnHeartbeat | apps/gateway/src/relay/relay.ts:121-134 | A heartbeat stamps the socket and refreshes. |
| SessionHandlers.AgentSession.constructor | apps/agent/src/session.ts:68-73 | An idle session. |
| SessionHandlers.AgentSession.Halt | apps/agent/src/session.ts:84-92 | Stops for good: generation moved on, heartbeat stopped, socket asked to close and forgotten. |
| SessionHandlers.AgentSession.Open | apps/agent/src/session.ts:94-134 | Dials a socket of a new generation with its own heartbeat; when connect throws, the exception leaves with generation, state and heartbeat already changed. |
| SessionHandlers.AgentSession.Announce | apps/agent/src/session.ts:137-140 | Only a current socket starts capability detection. |
| SessionHandlers.AgentSession.OnDetected | apps/agent/src/session.ts:140-143 | A current detection sends the hello and starts the heartbeat. |
| SessionHandlers.AgentSession.OnDetectFailed | apps/agent/src/session.ts:144-148 | A failed detection asks the current socket to close, then runs the close handler for its own generation. |
| SessionHandlers.AgentSession.OnClose | apps/agent/src/session.ts:151-174 | A current close gives up the socket and halts or arms one retry; a stale one does nothing. |
| SessionHandlers.AgentSession.OnTimer | apps/agent/src/session.ts:171-173 | A retry dials unless halted; it throws exactly if that dial does. |
| SessionHandlers.AgentSession.OnTick | apps/agent/src/heartbeat.ts:42-49 | A heartbeat is sent, or after 45 s of silence the socket is given up. |
| SessionHandlers.AgentSession.OnFrame | apps/agent/src/session-inbound.ts:34-76 | A stale frame is dropped; a current one acts by its type, fatal ones halt. |
| SessionHandlers.AgentSession.OnKeyTrusted | apps/agent/src/session-inbound.ts:92-95 | After the key check the session reports online. |
| SessionHandlers.AgentSession.OnJobDone | apps/agent/src/session-inbound.ts:58-63 | A result is sent only while its socket is current. |
| SessionHandlers.AgentSession.OnStart | apps/agent/src/session.ts:177-180 | Starting dials once, from idle only; it throws exactly if that dial does. |
| SessionHandlers.AgentSession.OnStop | apps/agent/src/session.ts:181-183 | Stopping halts. |
| Session.StepValid | apps/agent/src/session.ts:84-180 | Every event keeps the session invariant. |
| Session.OnCloseValid | apps/agent/src/session.ts:151-160 | Closing keeps the invariant; a current close never finds the session stopped, so that branch is never taken. |
| Session.RunSocketOrTimer | apps/agent/src/session.ts:84-180 | After any events, a started and unstopped session has exactly one of a current socket or one armed timer if and only if no connect has thrown; only the current socket's interval runs. |
| Session.RunAlwaysSocketOrTimer | apps/agent/src/session.ts:94-134 | That holds at every point of a run if and only if no dial throws on the way. |
| Session.StalledIsFinal | apps/agent/src/session.ts:94-134 | After a dial that throws, whatever is in flight, the session never dials, writes or closes anything again until stop() is called. |
| Session.ThrowingDialStrands | apps/agent/src/session.ts:171-173 | That exception in a concrete run: the dial of the first retry throws, and no events bring the session back. |
| Session.StaleIsHarmless | apps/agent/src/session.ts:124-153 | An event of an older generation changes none of generation, stopped flag, socket, timers or running interval and starts no job; it does nothing visible exactly unless it is a failed detection while a newer socket exists. |
| Session.LateDetectionFailureClosesNewSocket | apps/agent/src/session.ts:144-148 | That exception in a concrete run: the newer socket is told to close. |
| Session.HaltIsFinal | apps/agent/src/session.ts:84-92 | Once halted, whatever is in flight, nothing is dialled, written or closed any more. |
| Session.RunOwnSocket | apps/agent/src/session.ts:75-82 | Every frame written goes to the socket whose open, interval or job frame caused it. |
| Session.StepLog | apps/agent/src/session.ts:75-174 | What each event makes the session do, as a function of the state before it. |
| Session.RunPaid | apps/agent/src/session.ts:166-174 | While unstopped, attempts to dial and armed timers are together one more than scheduled retries: no dial without a retry, no retry lost. |
| Session.ReportedStateIsTrue | apps/agent/src/session.ts:117-121 | The reported state stays the true one at each event, exactly unless a welcome's key check ends after its socket was replaced while the session is not online, or a dial throws. |
| Session.RunReportsTruth | apps/agent/src/session.ts:117-121 | At every point of a run the reported state is the true one if and only if no such event is on the way. |
| Session.StoppedYetOnline | apps/agent/src/session-inbound.ts:92-95 | That exception in a concrete run: a stopped session reports online. |
| Session.StepAttemptCounts | apps/agent/src/session.ts:117-121 | The attempt counter stays the number of retries since a current socket was last welcomed, exactly unless a welcome of a replaced socket is accepted while the counter is not zero. |
| Session.RunAttemptCounts | apps/agent/src/session.ts:117-121 | At every point of a run the counter is that number if and only if no such welcome is accepted on the way. |
| Session.LateWelcomeResetsBackoff | apps/agent/src/session-inbound.ts:92-95 | That exception in a concrete run: offline, with a retry armed, the counter goes back to zero. |
| Session.StopsExactly | apps/agent/src/session.ts:84-174 | A session stops at stop(), at a revoked frame or an unfit welcome of its current socket, or at its close with 4001, 4003 or 4004, and at nothing else. |
| Session.PromisesExactly | apps/agent/src/session-inbound.ts:34-76 | A capability detection, a key check and a job start exactly at an open, a fit welcome and a job of the current socket. |
| Session.HeartbeatExactly | apps/agent/src/heartbeat.ts:38-56 | The heartbeat counts from the dial and then from the hello or the last frame, of any socket; its interval runs exactly from the end of the current detection. |
| Session.SilenceIsNoticed | apps/agent/src/heartbeat.ts:42-49 | A tick more than 45 s after the last sign of life gives the socket up and arms a retry; any other sends a heartbeat. |
| Session.CurrentSocketIsAnswered | apps/agent/src/session.ts:137-148 | A current socket gets one hello when its capabilities are known and the result of each job done on it. |
| Breaker.CircuitBreaker.AssertAllows | adapters/remote-mcp/src/reliability.ts:32-47 | Admits exactly if closed, or 30 s after the last outcome with no admission since; the stored circuit stays the one the log implies. |
| Breaker.CircuitBreaker.RecordSuccess | adapters/remote-mcp/src/reliability.ts:49-54 | Logs a success, or an error that proves the transport works; the stored circuit follows the log. |
| Breaker.CircuitBreaker.RecordTransientFailure | adapters/remote-mcp/src/reliability.ts:56-66 | Logs a transient failure; the stored circuit follows the log. |
| Breaker.FailuresCountsTheTail | adapters/remote-mcp/src/reliability.ts:56-59 | The failure count is the length of the trailing run of transient failures. |
| Breaker.ClosedUnlessThreeFailures | adapters/remote-mcp/src/reliability.ts:56-65 | Not closed exactly if the three latest outcomes were transient failures. |
| RemoteMcp.RemoteMcpAdapter.StartCall | adapters/remote-mcp/src/adapter.ts:66-70 | A call is admitted exactly if the breaker admits it. |
| RemoteMcp.RemoteMcpAdapter.FirstAttemptEnds | adapters/remote-mcp/src/adapter.ts:68-84 | Retries only a transient error of a repeatable action that is not aborted; otherwise records one outcome, transient exactly if the attempt was (RemoteMcp.StepLogs). |
| RemoteMcp.RemoteMcpAdapter.SecondAttemptEnds | adapters/remote-mcp/src/adapter.ts:84-91 | Records one outcome, transient exactly if the attempt was, and ends. |
| RemoteMcp.RunValid | adapters/remote-mcp/src/adapter.ts:66-91 | Over any interleaving, every admitted call has one admission and at its end one outcome in its circuit's log, made at most two attempts, and was admitted rightly. |
| RemoteMcp.HalfOpenHasProbe | adapters/remote-mcp/src/reliability.ts:36-45 | A half-open breaker always has a running call, the one admitted last. |
| RemoteMcp.OneProbePerOutcome | adapters/remote-mcp/src/reliability.ts:42-45 | While not closed, two admissions never follow one another. |
| RemoteMcp.RetriesExactly | adapters/remote-mcp/src/adapter.ts:69-90 | A second attempt follows exactly a first one that ended in a transient error, of a repeatable call that was not aborted; any other end of an attempt finishes the call. |
| RemoteMcp.StepLogs | adapters/remote-mcp/src/adapter.ts:67-91 | Each event adds to the log of a circuit the end of the call it finishes, transient exactly if its last attempt was, or the start of one. |
| RemoteMcp.RunLogs | adapters/remote-mcp/src/adapter.ts:67-91 | Over any run the ends in the log are the calls that finished, in order, each as its last attempt ended. |
| RemoteMcp.OpensOnTransientErrors | adapters/remote-mcp/src/reliability.ts:32-72 | Over any run a circuit is closed exactly unless the last three calls that finished on it ended in transient errors. |
| RemoteMcp.RefusedExactly | adapters/remote-mcp/src/reliability.ts:32-47 | Over any run a call is turned away exactly if so and less than 30 s have passed since or another call was started meanwhile. |
| RateLimit.RateLimiter.Sweep | apps/gateway/src/http/rate-limit.ts:34-38 | The loop leaves exactly the live windows. |
| RateLimit.RateLimiter.Check | apps/gateway/src/http/rate-limit.ts:41-57 | Refuses exactly if the key's live window is used up, or it has none and live windows fill every slot; the new windows are given. |
| RateLimit.RateLimiter.Reset | apps/gateway/src/http/rate-limit.ts:58-58 | Forgets every window. |
| RateLimit.RunValid | apps/gateway/src/http/rate-limit.ts:40-57 | Every history of calls on a monotone clock keeps the window invariant of every key. |
| RateLimit.AtMostTwiceTheLimit | apps/gateway/src/http/rate-limit.ts:41-57 | No key gets more than twice max(1, limit) calls through in any closed interval of one window's length, and no more than maxKeys are tracked. |
| RateLimit.RefusedOnlyWhenUsedUp | apps/gateway/src/http/rate-limit.ts:45-54 | A refused key got its limit through since its window began, or live windows fill every slot. |
| RateLimit.RefusalSweeps | apps/gateway/src/http/rate-limit.ts:45-49 | A call that finds no slot leaves live windows only. |
| RateLimit.TwiceIsReached | apps/gateway/src/http/rate-limit.ts:45-56 | At every limit, window and number of keys the factor two is reached. |
| RateLimit.EmptyWindowLimitsNothing | apps/gateway/src/http/rate-limit.ts:45-51 | With a window of zero or less, only the number of keys is ever refused. |
| ConnectionsHandlers.ConnectionStore.ResolveCredential | apps/gateway/src/store/connections.ts:209-213 | A caller starts by reading the stored row. |
| ConnectionsHandlers.ConnectionStore.OnStoredRead | apps/gateway/src/store/connections.ts:213-223 | Fresh rows are returned, the refresh in flight for the row is joined, otherwise one is started and registered (Connections.CallersAreServed). |
| ConnectionsHandlers.ConnectionStore.OnBeginReply | apps/gateway/src/store/connections.ts:71-95 | Every answer to begin: error, malformed, missing, ready, wait, granted. |
| ConnectionsHandlers.ConnectionStore.OnReread | apps/gateway/src/store/connections.ts:84-97 | After a wait: gone, fresh, or another pass up to the twelfth. |
| ConnectionsHandlers.ConnectionStore.OnOpened | apps/gateway/src/store/connections.ts:106-126 | An unreadable renewal aborts, for good only if it is the document's fault. |
| ConnectionsHandlers.ConnectionStore.OnExchanged | apps/gateway/src/store/connections.ts:128-179 | A refused exchange aborts, permanently or not; an exchanged token is sealed next. |
| ConnectionsHandlers.ConnectionStore.OnSealed | apps/gateway/src/store/connections.ts:133-148 | Two seals, then one finish; a failing seal aborts. |
| ConnectionsHandlers.ConnectionStore.OnFinishReply | apps/gateway/src/store/connections.ts:135-160 | A commit returns the new credential; a lost race reads the winner; anything else aborts. |
| ConnectionsHandlers.ConnectionStore.OnWinnerRead | apps/gateway/src/store/connections.ts:162-179 | The winner is used only if fresh; a failing read aborts. |
| ConnectionsHandlers.ConnectionStore.Abort | apps/gateway/src/store/connections.ts:182-202 | One abort call, whose own outcome is ignored. |
| ConnectionsHandlers.ConnectionStore.OnCleanup | apps/gateway/src/store/connections.ts:219-221 | The settled task leaves the map if it is still its own entry. |
| Connections.RunValid | apps/gateway/src/store/connections.ts:49-225 | Every interleaving of callers and answers keeps single flight and the ledgers of every task. |
| Connections.OneTaskPerKey | apps/gateway/src/store/connections.ts:217-222 | Two refreshes running at once were started for different connections. |
| Connections.GrantedLeaseIsGivenUp | apps/gateway/src/store/connections.ts:100-202 | At most twelve begins, one finish and one abort; a granted lease ends in a finish that got a verdict or in an abort; what was reported committed is never aborted and is what the callers get; a commit is aborted exactly if its reply was lost or unreadable; a permanent abort gives no credential, another one an error. |
| Connections.CredentialIsGood | apps/gateway/src/store/connections.ts:80-167 | A credential is only ever handed out if its row was fresh, the control plane called it ready, or this very task committed it. |
| Connections.CallersAreServed | apps/gateway/src/store/connections.ts:209-225 | In every run a caller awaits a refresh exactly if the row it read was due, and it is the refresh started for that row; otherwise it is answered at once with what it read. |
| Connections.JoinsTheRunningOne | apps/gateway/src/store/connections.ts:215-224 | It joins the running refresh of its row or a new one; the joined one is over already exactly if its cleanup has yet to run. |
| Connections.JoinsASettledOne | apps/gateway/src/store/connections.ts:215-220 | A concrete run in which a caller joins such a settled refresh and is told its result. |
| Connections.MovesInTurn | apps/gateway/src/store/connections.ts:63-178 | A task moves at the answer it waits for and at no other event; it sleeps, rereads and asks again exactly after a wait. |
| Connections.EndsAsTold | apps/gateway/src/store/connections.ts:63-178 | A task ends in a credential, in none, or in each kind of failure exactly at the answers that mean it. |
| Connections.AbortIsTold | apps/gateway/src/store/connections.ts:115-200 | The lease is aborted exactly when a granted renewal fails or finds nothing to renew, permanently exactly in the latter case; the reply to the abort changes nothing. |
| Connections.StepExclusive | apps/gateway/src/store/connections.ts:71-95 | A connection stops being renewed by one task at a time at exactly the events that bring a task, by a wait, a grant or a start, to a connection another running task renews. |
| Connections.RunExclusive | apps/gateway/src/store/connections.ts:71-222 | At every point of a run one connection is renewed by one task at a time if and only if no event of the run does that. |
| Connections.StepAtHome | apps/gateway/src/store/connections.ts:71-95 | A task goes on renewing the connection it was started for, exactly unless a wait or a grant answers with another one. |
| Connections.RunAtHome | apps/gateway/src/store/connections.ts:71-98 | In runs without such answers, every running task renews the connection it was started for. |
| Connections.OneRefreshPerConnection | apps/gateway/src/store/connections.ts:217-222 | From the start, in runs without such answers one connection is renewed by one task at a time. |
| Connections.ReplacedRowIsRefreshedTwice | apps/gateway/src/store/connections.ts:84-92 | A row replaced during a wait is renewed by two tasks at once. |
| Connections.GrantsOfOneRowMeet | apps/gateway/src/store/connections.ts:71-95 | Two tasks whose grants name one third row exchange its renewal document at the same time. |
| IpAddress.ParseIpv4 | packages/core/src/ip-address.ts:66-77 | The loop computes the value of four decimal octets, or refuses. |
| IpAddress.ExpandGroups | packages/core/src/ip-address.ts:92-106 | The loop computes the groups of one side of "::", dotted quads included, or refuses. |
| IpAddress.ParseIpv6 | packages/core/src/ip-address.ts:79-90 | Brackets, "::" and fill as one function of the text. |
| IpAddress.QuadRead | packages/core/src/ip-address.ts:66-77 | Reading any dotted quad gives its octets. |
| IpAddress.AcceptsOnlyQuads | packages/core/src/ip-address.ts:66-77 | Whatever parseIpv4 accepts is a dotted quad, read as its octets. |
| IpAddress.ParserInvertsPrinter | packages/core/src/ip-address.ts:79-106 | Reading any textual form (hex groups of 1 to 4 digits, dotted quads, any "::" run, brackets) gives exactly the eight 16-bit groups it means. |
| IpAddress.AcceptsOnlyForms | packages/core/src/ip-address.ts:79-106 | Whatever parseIpv6 accepts is such a form, read as it means. |
| IpText.HighBits | packages/core/src/ip-address.ts:13-35 | A bitwise "and" with high ones drops the low bits. |
| IpText.OrOfShifted | packages/core/src/ip-address.ts:99-99 | Shift and bitwise "or" of two bytes is their 16-bit number. |
| IpRanges.V4RulesArePrefixes | packages/core/src/ip-address.ts:10-26 | Every IPv4 rule holds of exactly the addresses in the network its label names. |
| IpRanges.V6RulesArePrefixes | packages/core/src/ip-address.ts:28-36 | Every IPv6 rule holds of exactly the addresses in the network its label names. |
| IpLabels.V4LabelsName | packages/core/src/ip-address.ts:10-26 | Every IPv4 label, its address read by the project's own parser and its length in decimal, is the network the rule is proved to test. |
| IpLabels.V6LabelsName | packages/core/src/ip-address.ts:28-36 | The same for the IPv6 labels. |
| IpRanges.FindV4First | packages/core/src/ip-address.ts:44-50 | The IPv4 lookup reports the first listed network that holds the address, and one exactly if some network does. |
| IpRanges.FindV6First | packages/core/src/ip-address.ts:46-46 | The same for the IPv6 table. |
| IpRanges.BlockedExactly | packages/core/src/ip-address.ts:38-51 | A host is blocked exactly if it is a literal in a listed network, directly or through its embedded IPv4 address. |
| IpRanges.CanonicalForm | packages/core/src/ip-address.ts:39-41 | Capital letters do not change what a form is classified as. |
| IpRanges.MappedFaresAsPlain | packages/core/src/ip-address.ts:108-115 | In every spelling, a ::ffff: address gets the same blockedRange and isLoopback answers as its plain IPv4 address. |
| IpRanges.LoopbackIsBlocked | packages/core/src/ip-address.ts:53-64 | A loopback host is blocked exactly if it is not a localhost name. |
| IpRanges.LoopbackExactly | packages/core/src/ip-address.ts:54-66 | Loopback are exactly the localhost names, literals in 127.0.0.0/8, ::1, and literals whose embedded IPv4 address is in 127.0.0.0/8. |
| IpRanges.TrailingDotsIgnored | packages/core/src/ip-address.ts:40 | Dots at the end of a host change neither answer. |
| IpRanges.UnreachableLabels | packages/core/src/ip-address.ts:29-30 | The labels ::/128 and ::1/128 are never reported. |
| Sse.MatchingSseData | adapters/remote-mcp/src/mcp-parse.ts:37-57 | The loops compute the chosen payload of the stream's events: the last, or the first wanted, or "". |
| Sse.ReaderInvertsPrinter | adapters/remote-mcp/src/mcp-parse.ts:38-48 | Reading a printed stream (either line end, carriage returns inside lines, comments and other fields in between, a last event without its blank line or line end) gives the payloads its events carry, in order. |
| Sse.PayloadsSurvive | adapters/remote-mcp/src/mcp-parse.ts:37-57 | Printed payloads are read back as they were, and the same one is chosen, if and only if the line ends are CRLF or no line of a payload ends in a carriage return. |
| Sse.ReturnBeforeLineFeedIsLost | adapters/remote-mcp/src/mcp-parse.ts:38-48 | The exception shown: a carriage return at the end of a payload is lost before a bare line feed. |
| Sse.ChosenIsFirstMatch | adapters/remote-mcp/src/mcp-parse.ts:49-56 | With an id, the first match is chosen, or "" if there is none. |
| Backoff.DelayInBand | apps/agent/src/backoff.ts:23-36 | The delay is never below the base nor above the cap. |
| Backoff.DelayGrows | apps/agent/src/backoff.ts:23-32 | For fixed jitter the delay never shrinks from one attempt to a later one. |
| Backoff.WithinTwentyPercent | apps/agent/src/backoff.ts:4-31 | From the first attempt on the delay is within 20% and a rounding of the base (1 s) times 2 to the attempt less one (at most 40), capped (at 30 s). |
| Backoff.RoundsHalfUp | apps/agent/src/backoff.ts:31 | Rounding goes to the nearest whole number, and of two to the higher. |
| Backoff.PollDelayAtLeast | apps/agent/src/pairing.ts:101-105 | Each poll waits at least what the lowest jitter gives. |
| Backoff.RunPairing | apps/agent/src/pairing.ts:63-99 | The loop ends as its answers decide, begins every poll before the deadline and gives up only after it; within five minutes it polls at most 40 times, two thirds of the claim budget, and never more than 115 times. |
| Backoff.FortyPolls | apps/agent/src/pairing.ts:67-69 | The bound is reached: a run of the loop with lowest jitter and no approval makes exactly 40 polls. |
| Backoff.LongestPairing | apps/agent/src/pairing.ts:60-98 | A code that lives longer is polled for fifteen minutes, at lowest jitter exactly 115 times. |
| Backoff.FortyPollsFit | apps/gateway/src/app.ts:31-43 | Forty polls do fit in five minutes, a forty-first does not. |
| Policy.MostRestrictive | packages/policy/src/merge.ts:23-33 | The loop returns the decision of the highest rank, DENY for none. |
| Policy.PickMostRestrictive | packages/policy/src/rules.ts:25-31 | The loop returns a candidate of the highest rank, the first of them. |
| Policy.Picked | packages/policy/src/rules.ts:21-31 | None exactly for no candidates; otherwise a candidate that no other outranks. |
| Policy.MatchRule | packages/policy/src/rules.ts:37-49 | The pick of the most specific tier that holds any rule. |
| Policy.DecisionIsTheMaximum | packages/policy/src/evaluate.ts:13-43 | DENY unless action, scopes, capabilities and risk are in order; then the maximum of the risk baseline and the rules of the tier. |
| Policy.DecisionInFull | packages/policy/src/evaluate.ts:13-43 | Allowed exactly if scopes and capabilities are held, the risk is R0 or R1 and every rule that applies says ALLOW; approval is needed exactly if risk R2 or R3 or rules ask for it; else denied. |
| Policy.ReasonIsTheFirst | packages/policy/src/evaluate.ts:19-28 | A refusal names the first check that failed, in order. |
| Policy.UnknownIsDenied | packages/policy/src/evaluate.ts:19-20 | An action that the connector does not list is unknown and denied. |
| Policy.BaselineStands | packages/policy/src/evaluate.ts:34-38 | No rule loosens the baseline; R4 is always denied. |
| Policy.OrderDoesNotMatter | packages/policy/src/rules.ts:21-24 | Any order and repetition of the stored rules gives the same decision and reason. |
| Policy.AddingTightens | packages/policy/src/rules.ts:33-48 | Adding a rule never loosens the decision, exactly unless it is the first exact rule and milder than a wildcard rule and the baseline allows. |

## Left out

- Convex mutations are not part of this model: `GatewayLease` assumes the lease row's contract (acquire succeeds if the row is absent, expired or the caller's own; renew and release only for the holder, where renewing an own row that has expired is allowed; expiry is now plus 30 s), and `Connections` lets every answer be anything.
- All processes of `GatewayLease` and the lease row read one shared clock.
- Signatures, hashes and ciphers are ideal: a signature check is a boolean, and an approval is its preimage.
- Error messages and log lines: an error is its code.
- SQLite files, their integrity checks and file modes: the durable table is a sequence of rows, and a transaction that throws is not modelled.
- HTTP, WebSocket and timer plumbing: a socket write succeeds or fails by parameter, the process is taken to outlive a timer callback that throws, and a close callback that runs inside `close()` is the same as one that runs later.
- Routed dispatch between replicas (apps/gateway/src/relay/routed-dispatch.ts), key pinning (apps/agent/src/key-store.ts), redaction, manifests, catalogues, configuration and user interface: they would only add easy members or have no exact specification.
- JavaScript objects are their own enumerable properties: getters, proxies, symbols and sparse arrays are not modelled.
- Ids that are only compared (devices, sockets, jobs at the dispatcher, connections, circuit and limiter keys) are numbers.
- Relay.RunKeepsInv: presence refreshes on heartbeats appear only as a stamp there; their timing is in `Presence`, which leaves out overlapping refreshes.
- Presence.AlwaysOnline: a presence write takes effect at once or fails at once, because the property is about the throttle and not about the network.
- Jobs.ExecutedAtMostOnce: starts from the rows the durable guard was opened on and a monotone clock; a clock that steps back is shown to break it in `ReplayGuards.BackwardsClockSeparates`.
- Session.StaleIsHarmless: does not cover the reported state, the attempt counter and the time of the last frame, which stale events do change; `Session.ReportedStateIsTrue`, `Session.StepAttemptCounts` and `Session.HeartbeatExactly` cover them.
- Breaker.CircuitBreaker.AssertAllows: the circuit key is a number, because the digest of connector and origin is only compared.
- Connections.GrantedLeaseIsGivenUp: the lease id, credential version and ciphertexts are not modelled, because no branch reads them.
- IpRanges.CanonicalForm: `toLowerCase` is modelled on the letters A to Z, because no other character lower-cases to one that an address or "localhost" can hold.
- IpAddress.ParserInvertsPrinter: the accepted forms go beyond section 2.2 of RFC 4291, as the code does: "::" may stand for no group, and a dotted quad may stand anywhere.
- Sse.MatchingSseData: whether a payload parses and has the wanted id is a parameter, because JSON parsing is the library's.
- Backoff.DelayGrows: arithmetic is over real numbers, so rounding errors of floating point are left out; Math.round is modelled exactly.
- Backoff.RunPairing: the answers of the gateway are a parameter; saving the configuration is not part of this model.
- Policy.DecisionIsTheMaximum: rules, scopes and capabilities of a wrong shape are dropped before they reach the model, except stored rules, whose shape check is modelled.
