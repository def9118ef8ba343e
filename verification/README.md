# Verified model of the buzz-acp harness core

A Dafny 4.11 model of the state machines inside the agent harness `buzz-acp`, and of two
small codecs elsewhere in the repository, with proofs of what they keep over whole runs.
`dafny verify dfyconfig.toml` checks everything.

What is modelled, in the system's own terms:

- **Usage accounting** (`UsageModel`, `TurnLog`, `UsageHistory`, `UsageTracking`, `StandardUsage`).
  Agents report session-cumulative token counters; the tracker turns them into per-turn
  records. `UsageHistory` says what must be published as a function of the complete log of
  calls. It does not mention the tracker's pending record, accumulators, sticky flags or
  identity state. The class `UsageTracker` has those fields, updates them in place, and is
  proved to publish exactly that. The theorems are then about the log: gapless numbering,
  sticky absence, token conservation, frozen baselines, non-interference of sessions.
  `StandardUsage.dfy` does the same for agents that report per-turn counters and a
  cumulative cost.
- **The ACP client** (`AcpWire`, `PromptLoop`, `PromptTrace`, `PromptLoopProperties`,
  `PromptLoopOutcomes`, `AcpClient`). The
  read loops are step functions over scripts of wake-ups: what woke the select, how long it
  slept, whether a write succeeds, how long handling took. Every order of agent lines,
  steer requests, deadlines and failures is some script. The class `AcpClient` is the
  imperative client (mutable fields, `while` loops) and is proved to do exactly those
  steps. Safety is stated over every script, and over every sequence of requests, prompts,
  steers and cancels of one client: in particular, each thing a client does is justified by
  what it had seen (`PromptTrace`).
- **Codex configuration merge** (`CodexConfig`): the recursive merge, its complete meaning
  by paths, its laws, and the build of the spawned agent's configuration.
- **Lazy pool lifecycle** (`PoolLifecycle`), **subscriptions and rule matching**
  (`Subscriptions`), the **RESP codec** (`Resp`, `Utf8`) and the **audio framing buffer**
  (`AudioFraming`).

Conventions. Counters and times are unbounded naturals except where the width decides
something: 64-bit overflow of inclusive input, the 64-bit backoff product and the 32-bit
attempt token. Costs are exact reals. Time is in seconds. A select never wakes after the
next deadline; handling a wake-up may take any time. A write succeeds or fails as a whole. A script that ends
before its loop returned stands for a call that is still running or was dropped by its caller.
The outcomes `injected` and `startedNewTurn`, the option kinds `allow_once` and
`reject_once`, and the method names are constructors of datatypes.

Where the code and its comments disagree, the model follows the code:

- `crates/buzz-acp/src/acp.rs:1358-1359` says that a pending steer is answered on every
  return path. The two error exits at lines 1731 and 1745 do not answer it: they are taken
  for a permission request without an id, without options or without a usable option, for
  a reply to one that cannot be written, and for the refusal of an unknown request that
  cannot be written. `AckIsLostExactlyWhen` gives that condition both ways,
  `EverySteerIsAnswered` is what holds without such messages, and `LostAckExample` has
  instances at both exits.
- The resolver parses channel ids and the matcher compares them as text
  (`crates/buzz-acp/src/config.rs:1441`, `crates/buzz-acp/src/filter.rs:70`), so a channel
  listed in another spelling is subscribed but never matched.
  `ChannelTestsAgreeExactlyWhen` gives the condition on the listed ids under which the two
  agree on every channel.
- `crates/buzz-acp/src/pool_lifecycle.rs:97-98` says that a result from an older attempt is
  rejected. Tokens restart with each cycle and saturate, so an attempt at the same position
  of an earlier cycle passes for the current one. `TokenPassesExactlyWhen` gives the exact
  condition and `ReusedTokenExample` an instance.

## Model

| member | source | states |
|---|---|---|
| `UsageTracking.UsageTracker.constructor` | crates/buzz-acp/src/usage.rs:420-454 | a new tracker agrees with the empty history |
| `UsageTracking.UsageTracker.BeginTurn` | crates/buzz-acp/src/usage.rs:471-528 | after a turn begins, even over an untaken one, every field again equals its function of the log; no observed absence is lost |
| `UsageTracking.UsageTracker.Flush` | crates/buzz-acp/src/usage.rs:486-522 | the previous turn's absences are or-ed into that session's sticky flags and nothing else changes |
| `UsageTracking.UsageTracker.MeasureTokens` | crates/buzz-acp/src/usage.rs:593-664 | token and cost deltas are present together exactly when neither field was ever lacking, both counters are known on both sides and neither tokens nor cost dropped |
| `UsageTracking.UsageTracker.FoldIdentity` | crates/buzz-acp/src/usage.rs:715-730 | the accumulator keeps an identity only while each payload carries the same one, and never heals |
| `UsageTracking.UsageTracker.Record` | crates/buzz-acp/src/usage.rs:560-826 | a notification in any of the three cases keeps every field equal to its function of the log, including the sticky flag or-ed with the live accumulator, which is true iff some notification in the whole history lacked the field |
| `UsageTracking.UsageTracker.Latch` | crates/buzz-acp/src/usage.rs:781-824 | a notification for another session changes no other session, and of its own session at most the two flags |
| `UsageTracking.UsageTracker.SeedZeroBaseline` | crates/buzz-acp/src/usage.rs:844-865 | seeds a zero baseline, and is without effect on a session that has an entry |
| `UsageTracking.UsageTracker.Take` | crates/buzz-acp/src/usage.rs:874-922 | returns exactly the record that the history dictates, or none when the turn received no usage |
| `UsageHistory.SequenceNumbersAreGapless` | crates/buzz-acp/src/usage.rs:593-605 | over every log the records of each session are numbered 1, 2, 3, and so on |
| `UsageHistory.AbsenceIsSticky` | crates/buzz-acp/src/usage.rs:606-625 | after any notification lacked a count, every later record of that session is unreliable with null token and cost deltas |
| `UsageHistory.TurnShape` | crates/buzz-acp/src/usage.rs:409-415 | the payloads of a turn are exactly the session's notifications since its `begin_turn` |
| `UsageHistory.BaselineIsFrozen` | crates/buzz-acp/src/usage.rs:22-30 | within a turn only a seed of the session itself can move its baseline |
| `UsageHistory.HistoryRefinement` | crates/buzz-acp/src/usage.rs:543-548 | without a mid-turn seed the published record depends only on the baseline at `begin_turn`, the last payload, whether the session ever lacked a field, and whether all payloads of the turn carried one identity |
| `UsageHistory.PublishesExactlyWhen` | crates/buzz-acp/src/usage.rs:874-885 | a record comes out iff the turn in flight received a notification of its session |
| `UsageHistory.TurnRecordIsExact` | crates/buzz-acp/src/usage.rs:593-712 | the whole record in counters: reliable iff no notification of the session ever lacked input or output, the baseline has both, neither fell and a cost known on both sides did not fall; its deltas are then the differences; total and cache deltas are present iff known on both sides and not falling |
| `UsageHistory.TurnIsMeasuredFromItsStart` | crates/buzz-acp/src/usage.rs:22-30 | without a mid-turn seed the record is measured from the baseline at `begin_turn` |
| `UsageHistory.IdentityIsUnanimous` | crates/buzz-acp/src/usage.rs:715-730 | a record names a pricing identity iff every notification of its turn carried exactly it |
| `UsageHistory.BaselineIsItsLastMove` | crates/buzz-acp/src/usage.rs:753-781 | the baseline is what the last seed, out-of-turn notification or published turn set, in all six series |
| `UsageHistory.UnmovedBaselineIsUnknown` | crates/buzz-acp/src/usage.rs:593-599 | a session that none of these happened to has no baseline |
| `UsageHistory.KnownExactlyWhen` | crates/buzz-acp/src/usage.rs:844-865 | the sessions on which a seed has no effect are exactly those seeded, published, notified outside a turn, or noted for a missing count |
| `UsageHistory.ReliableMeansPresent` | crates/buzz-acp/src/usage.rs:191-198 | a published record is reliable exactly when it carries an input delta, and exactly when it carries an output delta |
| `UsageHistory.TokensAreConserved` | crates/buzz-acp/src/usage.rs:753-781 | for each of the five token series of a session seeded at zero whose records all carry its delta, published deltas plus out-of-turn baseline moves equal the committed baseline, whatever notifications lacked the series |
| `UsageHistory.BaselineIsKnown` | crates/buzz-acp/src/usage.rs:844-865 | a seeded session that never lacked the series always has a baseline in it |
| `UsageHistory.DeltasSumToLastCumulative` | crates/buzz-acp/src/usage.rs:907-920 | without out-of-turn notifications, and as long as every record carries a delta, the deltas sum to the last published cumulative count, whatever was repeated, dropped, incomplete or left untaken |
| `UsageHistory.ForeignNotificationsDoNotInterfere` | crates/buzz-acp/src/usage.rs:781-787 | deleting every complete notification that arrived while another session was in flight changes no published record |
| `StandardUsageTracking.StandardUsageTracker.SeedZeroBaseline` | crates/buzz-acp/src/usage.rs:282-290 | the cost series starts at zero unless the session already has an entry |
| `StandardUsageTracking.StandardUsageTracker.BeginTurn` | crates/buzz-acp/src/usage.rs:292-296 | both pending slots are emptied and belong to the new session from then on |
| `StandardUsageTracking.StandardUsageTracker.RecordCost` | crates/buzz-acp/src/usage.rs:299-304 | a cost is kept only when finite, not negative and for the session in flight |
| `StandardUsageTracking.StandardUsageTracker.RecordPromptUsage` | crates/buzz-acp/src/usage.rs:306-315 | prompt usage is kept only for the session in flight |
| `StandardUsageTracking.StandardUsageTracker.PromptCounters` | crates/buzz-acp/src/usage.rs:326-343 | the inclusive input and every other prompt counter, or none of them when the sum leaves 64 bits |
| `StandardUsageTracking.StandardUsageTracker.Take` | crates/buzz-acp/src/usage.rs:317-396 | returns exactly the record that the history dictates and follows the cost series |
| `StandardUsageHistory.PublishedAt` | crates/buzz-acp/src/usage.rs:366-395 | no record lacks both its input and its cumulative cost; a record without input has no prompt counter at all |
| `StandardUsageHistory.PromptRecordIsExact` | crates/buzz-acp/src/usage.rs:326-343 | a turn whose last prompt report fits 64 bits publishes its input plus both caches, its output, its caches, and its total iff the agent is Codex |
| `StandardUsageHistory.CostOnlyRecordIsExact` | crates/buzz-acp/src/usage.rs:366-381 | otherwise a record comes out iff the turn had an admissible cost, with no prompt counter, reliable iff it has a cost delta |
| `StandardUsageHistory.CostRecordIsExact` | crates/buzz-acp/src/usage.rs:345-353 | the cumulative cost is the last admissible one of the turn; its delta is the distance from the last settled cost, present iff there is one and the costs never fell |
| `StandardUsageHistory.SeriesIsPublished` | crates/buzz-acp/src/usage.rs:354-364 | the settled costs are the zero of a first seed followed by the cumulative cost of every record that has one |
| `StandardUsageHistory.CostsAreConserved` | crates/buzz-acp/src/usage.rs:345-364 | the published cost deltas sum to the rise of the cost series up to its first decrease |
| `StandardUsageHistory.SeededCostsSumToLastCumulative` | crates/buzz-acp/src/usage.rs:282-290 | for a seeded session whose cost never dropped they sum to the last cumulative cost |
| `StandardUsageHistory.NoCostDeltaAfterDecrease` | crates/buzz-acp/src/usage.rs:354-364 | after the first decrease no cost delta of the session is ever published again |
| `StandardUsageHistory.SequenceNumbersAreGapless` | crates/buzz-acp/src/usage.rs:373-376 | this tracker's records of each session are numbered 1, 2, 3, and so on |
| `AcpClients.AcpClient.FindOption` | crates/buzz-acp/src/acp.rs:1978-2000 | scanning finds the first option of a kind |
| `AcpClients.AcpClient.HandlePermissionRequest` | crates/buzz-acp/src/acp.rs:1956-2031 | the id is pending until a reply is written; each malformed request and failed write has its own error and state |
| `AcpClients.AcpClient.Serve` | crates/buzz-acp/src/acp.rs:1716-1750 | dispatch of notifications and agent requests, with the run id taken from session updates |
| `AcpClients.AcpClient.SendSteer` | crates/buzz-acp/src/acp.rs:1418-1508 | transport precedence, fresh id, and the immediate acks when nothing can be written |
| `AcpClients.AcpClient.AcknowledgeSteer` | crates/buzz-acp/src/acp.rs:1593-1697 | the ack for each response and transport, and when the hard deadline is renewed |
| `AcpClients.AcpClient.Expire` | crates/buzz-acp/src/acp.rs:1388-1404 | a timeout is classified by the deadline that was due first and releases a steer in flight |
| `AcpClients.AcpClient.ReadOne` | crates/buzz-acp/src/acp.rs:1584-1750 | a parsed line is routed to the steer in flight, to the awaited request, or to dispatch |
| `AcpClients.AcpClient.ReadUntilResponse` | crates/buzz-acp/src/acp.rs:1337-1754 | the imperative loop computes exactly the run of the step function over its script |
| `AcpClients.AcpClient.ReadReply` | crates/buzz-acp/src/acp.rs:1213-1304 | one iteration of the plain read loop |
| `AcpClients.AcpClient.SendRequest` | crates/buzz-acp/src/acp.rs:1118-1148 | a request takes the next id and waits for its own response |
| `AcpClients.AcpClient.SessionPrompt` | crates/buzz-acp/src/acp.rs:799-861 | a prompt's id and deadline survive it exactly on a timeout or when it is dropped |
| `AcpClients.AcpClient.TakeCleanupDeadline` | crates/buzz-acp/src/acp.rs:985-1001 | the drain deadline is the inherited one or thirty seconds from now, whichever is later, or the grace window |
| `AcpClients.AcpClient.CancelWithCleanup` | crates/buzz-acp/src/acp.rs:976-1084 | cancelling without a prompt in flight writes nothing; otherwise an open permission is answered once and the response drained |
| `PromptLoopProperties.SteerAckDiscipline` | crates/buzz-acp/src/acp.rs:1353-1364 | over every run no steer is acked twice and each dequeued steer but the one in flight is acked exactly once; none is in flight on return, unless serving a message failed |
| `PromptLoopProperties.StepLosesAckExactlyWhen` | crates/buzz-acp/src/acp.rs:1716-1750 | an iteration returns without the ack of the steer in flight iff no deadline had passed and it read a malformed permission request, or a request whose reply could not be written |
| `PromptLoopProperties.AckIsLostExactlyWhen` | crates/buzz-acp/src/acp.rs:1337-1754 | over every run that returned, some dequeued steer was never acked iff such a message was read while a steer was in flight |
| `PromptLoopProperties.EverySteerIsAnswered` | crates/buzz-acp/src/acp.rs:1358-1359 | on a script without such messages every dequeued steer is acked exactly once on return |
| `PromptLoopProperties.EveryBreakCanLoseAnAck` | crates/buzz-acp/src/acp.rs:1730-1746 | each such message does lose the ack when it arrives while a steer is in flight |
| `PromptLoopProperties.LostAckExample` | crates/buzz-acp/src/acp.rs:1730-1746 | lost acks at both exits: a permission request without options while every write succeeds, a reply that cannot be written, and an unknown request whose refusal cannot be written |
| `PromptTrace.RunKeepsTruth` | crates/buzz-acp/src/acp.rs:1612-1697 | over every run each observation is justified by those before it: an ack by the response to that steer's own request that calls for it, a steer by the freshest run id, a reply by its request |
| `PromptTrace.EveryLifeIsTruthful` | crates/buzz-acp/src/acp.rs:141-217 | the same over every sequence of client operations, and the client's run id is the one that session updates announced last |
| `PromptTrace.EachIsJustified` | crates/buzz-acp/src/acp.rs:1612-1697 | what that means of any one position of the trace |
| `PromptTrace.ReplyIsRight` | crates/buzz-acp/src/acp.rs:1978-2011 | a permission reply is given iff it is the first `allow_once` by id or, when none allows, the first `reject_once` by id or fallback name |
| `PromptLoopOutcomes.SteerResponseIsExact` | crates/buzz-acp/src/acp.rs:1593-1697 | a response to the steer in flight acks success iff it has no error and is goose's or names a delivery, the agent's code (or -1) iff it has an error, a rejection otherwise; the hard deadline becomes wake time plus duration iff injected and later |
| `PromptLoopOutcomes.SteerRequestIsExact` | crates/buzz-acp/src/acp.rs:1418-1508 | a steer goes to the announced run first, else to the steering extension, under the next id; it is answered at once when neither exists or the write fails; nothing is taken while one is in flight |
| `PromptLoopOutcomes.ActivityIsExactlyAParsedLine` | crates/buzz-acp/src/acp.rs:1557-1586 | every parsed line restarts the idle clock, and nothing else does |
| `PromptLoopOutcomes.TimeoutIsExact` | crates/buzz-acp/src/acp.rs:1371-1404 | the loop times out iff a deadline passed or fired, idle iff the idle deadline is the earlier, hard with the length of the silence, and the steer in flight is answered |
| `PromptLoopOutcomes.RunTimesOutDuly` | crates/buzz-acp/src/acp.rs:1366-1404 | over every run an idle timeout follows that long a silence, and a hard one the passing of the renewed deadline |
| `PromptLoopOutcomes.AwaitedResponseIsExact` | crates/buzz-acp/src/acp.rs:1698-1712 | the awaited response ends the loop with its value, or with the agent's code or -32000, after answering a steer in flight |
| `PromptLoopOutcomes.BrokenStreamIsExact` | crates/buzz-acp/src/acp.rs:1536-1556 | end of stream, oversized line and failed read each end the loop with their own error, after answering a steer in flight |
| `PromptLoopOutcomes.OtherMessagesAreServed` | crates/buzz-acp/src/acp.rs:1716-1750 | a message that is no response to the loop is served and changes nothing else; it ends the loop iff it cannot be served |
| `PromptLoopOutcomes.ServiceIsExact` | crates/buzz-acp/src/acp.rs:1716-1750 | the run id follows session updates, an unknown request is refused iff it bears an id, other messages change nothing |
| `PromptLoopOutcomes.PermissionIsAnswered` | crates/buzz-acp/src/acp.rs:1956-2031 | a request with an id gets the reply its options call for, and is then no longer pending |
| `PromptLoopOutcomes.PermissionIsLeftOpen` | crates/buzz-acp/src/acp.rs:1956-2031 | any other is an error of the protocol or of the write, and its id stays pending |
| `PromptLoopOutcomes.PromptBegins` | crates/buzz-acp/src/acp.rs:799-835 | a prompt takes the next id, the installed steer channel, and a clock that starts before the write |
| `PromptLoopOutcomes.PromptLeavesBehind` | crates/buzz-acp/src/acp.rs:827-859 | a prompt stays marked as in flight, with its deadline, iff it timed out or was dropped |
| `PromptLoopOutcomes.PromptCompletesExactlyWhen` | crates/buzz-acp/src/acp.rs:799-861 | end to end a prompt completes with a value iff it was written and a success response to the id it took brought it |
| `PromptLoopOutcomes.RequestCompletesExactlyWhen` | crates/buzz-acp/src/acp.rs:1118-1148 | end to end the same for a plain request, which issues exactly the next id |
| `PromptLoopOutcomes.RequestEndsExactlyWhen` | crates/buzz-acp/src/acp.rs:1213-1304 | how each wake-up ends the plain loop, if it does, and that every other message is served |
| `PromptLoopOutcomes.CancelWithoutPrompt` | crates/buzz-acp/src/acp.rs:1041-1046 | without a prompt in flight a cancel is a protocol error that writes nothing |
| `PromptLoopOutcomes.CancelThatCannotBeWritten` | crates/buzz-acp/src/acp.rs:1048-1064 | an open permission is answered once, as cancelled, before the cancel; a failed write ends it there and an unanswered permission stays pending |
| `PromptLoopOutcomes.CancelDrains` | crates/buzz-acp/src/acp.rs:985-1084 | otherwise the prompt's response is drained under the thirty-second idle limit against the exact deadline, and only an expired grace window is reported as such |
| `PromptLoopProperties.OnlyInjectionRenews` | crates/buzz-acp/src/acp.rs:1637-1669 | one step moves the hard deadline at most once, by at most the turn's duration, and only for a steer injected into the awaited turn |
| `PromptLoopProperties.RunIsOnBudget` | crates/buzz-acp/src/acp.rs:1366-1404 | over every run the idle deadline is the last activity plus the idle timeout, the hard deadline never moves back and never exceeds its allowance, and the client's stored deadline follows it |
| `PromptLoopProperties.HardDeadlineBound` | crates/buzz-acp/src/acp.rs:1371-1404 | an iteration that does not return begins before the original hard deadline plus one duration per renewal, however fast the agent streams |
| `PromptLoopProperties.ExtraIsProduct` | crates/buzz-acp/src/acp.rs:1656-1664 | that allowance is the number of renewals times the duration |
| `PromptLoopProperties.CancelInheritsTheDeadline` | crates/buzz-acp/src/acp.rs:844-859 | after a timeout the cancel drains against the final renewed deadline, with the thirty-second floor |
| `PromptLoopProperties.IdRouting` | crates/buzz-acp/src/acp.rs:1588-1714 | the loop completes with a value exactly when a success response with the awaited id and no method brought it |
| `PromptLoopProperties.OtherResponsesAreIgnored` | crates/buzz-acp/src/acp.rs:1588-1714 | a response to anything but the awaited request and the steer in flight moves only the idle clock |
| `PromptLoopProperties.LateResponsesAreIgnored` | crates/buzz-acp/src/acp.rs:1588-1714 | from any moment of any prompt or drain loop on, that holds of every id issued by then, steers already answered included |
| `PromptLoopProperties.RequestRouting` | crates/buzz-acp/src/acp.rs:1213-1271 | a plain request completes with a value exactly when a success response with its own id and no method brought it |
| `PromptLoopProperties.RequestIgnoresOtherResponses` | crates/buzz-acp/src/acp.rs:1261-1271 | the plain loop only logs a response to any other id |
| `PromptLoopProperties.LateResponsesNeverReachARequest` | crates/buzz-acp/src/acp.rs:1150-1158 | dropping all such responses from a request's script changes neither its outcome nor anything of the client but what it received |
| `PromptLoopProperties.StepKeepsIds` | crates/buzz-acp/src/acp.rs:1476-1492 | no id is issued twice and the counter never goes back |
| `PromptLoopProperties.StepKeepsPermissions` | crates/buzz-acp/src/acp.rs:1963-1966 | a pending permission has one asking unanswered, and no permission is answered more often than asked |
| `PromptLoopProperties.RepliesAreOffered` | crates/buzz-acp/src/acp.rs:1978-2011 | a permission is never refused while some option allows it, and the option named in a reply is one the agent offered |
| `PromptLoopProperties.UnanswerableExactlyWhen` | crates/buzz-acp/src/acp.rs:1978-2011 | a request has no reply iff its first `allow_once` names no option or it offers neither an `allow_once` nor a `reject_once` |
| `PromptLoopProperties.CancelPermissionIsSound` | crates/buzz-acp/src/acp.rs:1048-1061 | answering an open permission while cancelling keeps that |
| `PromptLoopProperties.EveryLifeIsSound` | crates/buzz-acp/src/acp.rs:141-217 | distinct ids, at most one ack per steer and bounded permission replies hold after every sequence of client operations |
| `AcpClients.AcpClient.InstallSteer` | crates/buzz-acp/src/acp.rs:939-946 | the next loop is steerable |
| `AcpClients.AcpClient.ClearSteer` | crates/buzz-acp/src/acp.rs:954-956 | the next loop is not steerable |
| `AcpClients.AcpClient.Operate` | crates/buzz-acp/src/acp.rs:799-1148 | the imperative client stays sound and truthful under any one operation |
| `AcpClients.AcpClient.Live` | crates/buzz-acp/src/acp.rs:141-217 | the imperative client is sound and truthful after any sequence of operations |
| `CodexConfig.DeepMerge` | crates/buzz-acp/src/acp.rs:222-242 | the in-place merge computes the recursive merge whatever the order of keys |
| `CodexConfig.PathSemantics` | crates/buzz-acp/src/acp.rs:219-221 | what the merge reads at every path: the overlay's value, the base's value, or a merged object |
| `CodexConfig.OverlayWins` | crates/buzz-acp/src/acp.rs:236-239 | a non-object set by the overlay is read back |
| `CodexConfig.UnshadowedBaseSurvives` | crates/buzz-acp/src/acp.rs:228-235 | a base path that the overlay does not shadow survives |
| `CodexConfig.MergeIsIdempotent` | crates/buzz-acp/src/acp.rs:222-242 | merging an object into itself changes nothing |
| `CodexConfig.MergeAbsorbs` | crates/buzz-acp/src/acp.rs:222-242 | merging the same overlay twice equals merging it once |
| `CodexConfig.AssociativeExactlyWhen` | crates/buzz-acp/src/acp.rs:226-241 | layering is associative iff wherever two objects meet a scalar between them the last one covers the first |
| `CodexConfig.NotAssociativeExample` | crates/buzz-acp/src/acp.rs:236-239 | an object, a scalar and an object under one key do not associate |
| `CodexConfig.LastWordWins` | crates/buzz-acp/src/acp.rs:316-326 | over any number of layers and at every path, a non-object is read iff the last layer to set the path or cut it off says so, and an object iff some layer has one that no later layer cuts off |
| `CodexConfig.EntriesByPosition` | crates/buzz-acp/src/acp.rs:282-287 | the entries are exactly the `CODEX_CONFIG` values, in environment order |
| `CodexConfig.LastLayerWins` | crates/buzz-acp/src/acp.rs:322-326 | what the last layer, the parent's when there is one, sets to a non-object is what the built configuration reads |
| `CodexConfig.UnsetPathIsAbsent` | crates/buzz-acp/src/acp.rs:316-326 | a path that no layer sets reads as absent |
| `CodexConfig.BuildCodexConfigEnv` | crates/buzz-acp/src/acp.rs:271-359 | none; or the first layer that is no object, with its source; or an error iff the last word on the sandbox is no object; or the configuration in which the last word wins at every path, with network access forced |
| `CodexConfig.ForcedChangesOnlyNetworkAccess` | crates/buzz-acp/src/acp.rs:341-356 | the forced leaf reads true and every other path is that of the layered merge |
| `PoolLifecycles.BackoffIsExact` | crates/buzz-acp/src/pool_lifecycle.rs:123-132 | the saturating computation is min(300, 5 times 2 to the attempt minus one) for every attempt, without overflow |
| `PoolLifecycles.PoolLifecycle.StartWakeIfDue` | crates/buzz-acp/src/pool_lifecycle.rs:37-58 | tokens of a cycle are 1, 2, 3 up to saturation, and a retry never starts before its backoff elapsed |
| `PoolLifecycles.PoolLifecycle.CompleteWake` | crates/buzz-acp/src/pool_lifecycle.rs:99-120 | only the current token is accepted; any other completion changes nothing, in particular one of an earlier attempt of the cycle before saturation |
| `PoolLifecycles.PoolLifecycle.CancelWake` | crates/buzz-acp/src/pool_lifecycle.rs:91-93 | cancelling is a failed completion of the same token |
| `PoolLifecycles.PoolLifecycle.TakeReady` | crates/buzz-acp/src/pool_lifecycle.rs:60-68 | hands out the ready pool; the pools handed out are the accepted ones in order, less at most the one that is ready |
| `PoolLifecycles.RetriesAreSpaced` | crates/buzz-acp/src/pool_lifecycle.rs:46-56 | attempt k of a cycle begins no sooner than the sum of the backoffs before it, saturated tokens included |
| `PoolLifecycles.TokenPassesExactlyWhen` | crates/buzz-acp/src/pool_lifecycle.rs:95-109 | an attempt's token is that of the attempt in flight iff it has the same position in its cycle or both are saturated |
| `PoolLifecycles.ReusedTokenExample` | crates/buzz-acp/src/pool_lifecycle.rs:60-68 | a late completion of an earlier cycle is accepted once its token is in use again |
| `Subscriptions.ResolveChannelFilters` | crates/buzz-acp/src/config.rs:1253-1344 | every discovered channel gets exactly the filter the incremental resolver gives, and no other channel gets one |
| `Subscriptions.ResolveByRules` | crates/buzz-acp/src/config.rs:1305-1340 | the configured rules of every discovered channel, merged |
| `Subscriptions.ResolveDynamicChannelFilter` | crates/buzz-acp/src/config.rs:1355-1433 | the filter of one channel in each of the three modes |
| `Subscriptions.ModeDecidesTheFilter` | crates/buzz-acp/src/config.rs:1355-1400 | outside the rules mode, scope and filter in the fields of the configuration: the override ids, the kinds or the three default kinds, and the mention flag |
| `Subscriptions.RulesDecideTheFilter` | crates/buzz-acp/src/config.rs:1401-1444 | in the rules mode, scope and filter in the fields of the rules that cover all channels or list an id parsing to the channel |
| `Subscriptions.MergeMeaning` | crates/buzz-acp/src/config.rs:1307-1328 | the merged filter without its order: wildcard iff some applying rule is, each kind exactly once, mention required iff all require it |
| `Subscriptions.OrderDoesNotMatter` | crates/buzz-acp/src/config.rs:1311-1328 | reordering or repeating rules does not change what the filter admits |
| `RuleMatching.RuleMatcher.MatchEvent` | crates/buzz-acp/src/filter.rs:368-460 | the deciding rule, its prompt tag, and every timeout counter afterwards |
| `RuleMatching.FirstMatchFailsClosed` | crates/buzz-acp/src/filter.rs:343-367 | a rule is picked iff it passes all checks and no earlier rule passes them or has its filter disabled, timed out or in error |
| `RuleMatching.RuleMatchesByFields` | crates/buzz-acp/src/filter.rs:376-460 | one rule matches one event iff channel, kind and mention pass in its own fields and its filter is enabled and true |
| `RuleMatching.CounterStep` | crates/buzz-acp/src/filter.rs:402-447 | an evaluation that answers resets the counter, one that times out raises it by one, and nothing else changes it |
| `RuleMatching.CounterCountsTimeouts` | crates/buzz-acp/src/filter.rs:336-341 | over every run a counter is the number of the rule's evaluations that timed out since its last true or false one |
| `RuleMatching.DisabledExactlyWhen` | crates/buzz-acp/src/filter.rs:402-415 | a rule is disabled iff five of its evaluations timed out with no true or false one in between |
| `RuleMatching.DisabledForGood` | crates/buzz-acp/src/filter.rs:336-341 | over every run a counter stays within five, and at five for good |
| `RuleMatching.DisabledRuleShieldsLaterRules` | crates/buzz-acp/src/filter.rs:402-415 | no event that reaches a disabled rule is ever given to a later one |
| `RuleMatching.SubscriptionCoversMatching` | crates/buzz-acp/src/config.rs:1305-1340 | whatever the matcher picks, the channel has a filter and it admits the event |
| `RuleMatching.ChannelTestsAgreeExactlyWhen` | crates/buzz-acp/src/config.rs:1435-1444 | the parsed and the textual test agree on every channel iff each listed id that parses comes with the printed form of its channel |
| `RuleMatching.MisspeltChannelIsSubscribedAndNeverMatched` | crates/buzz-acp/src/filter.rs:376-380 | a channel listed in other spellings only gets a filter, and no event on it is ever matched |
| `RuleMatching.MatchableExactlyWhen` | crates/buzz-acp/src/filter.rs:67-72 | some event on a channel can be matched iff some rule covers all channels or lists it in printed form |
| `RuleMatching.SecondSpellingIsNeverMatched` | crates/buzz-acp/src/filter.rs:67-72 | for every codec with a second spelling of a channel, a rule listing that spelling subscribes to it and matches nothing |
| `Resp.EncodeCommand` | perf/relay_bus_scaling.py:110-117 | the frames of a command, part by part |
| `Resp.ByteStream.ReadLine` | perf/relay_bus_scaling.py:120-126 | a line up to its first line feed, without CR LF, or the error; in both cases exactly what is left of the stream |
| `Resp.ByteStream.ReadBulk` | perf/relay_bus_scaling.py:139-147 | a bulk string of the announced length, null at minus one, an error otherwise, and what is left of the stream |
| `Resp.ByteStream.ReadResp` | perf/relay_bus_scaling.py:129-153 | one reply or error from the front of the stream, and exactly the remaining bytes |
| `Resp.CommandReadsBack` | perf/relay_bus_scaling.py:110-153 | any command, line breaks included, decodes to its parts and leaves exactly what follows |
| `Resp.PipelineReadsBack` | perf/relay_bus_scaling.py:148-152 | pipelined commands decode in order |
| `Resp.EncodingIsUnambiguous` | perf/relay_bus_scaling.py:110-117 | equal streams began with the same command |
| `Resp.ReplyReadsBack` | perf/relay_bus_scaling.py:129-153 | round trip of every reply of texts, integers, nulls and arrays, nested to any depth |
| `Resp.LineRepliesAreExact` | perf/relay_bus_scaling.py:133-136 | a simple string is its text and an error reply is raised with its text |
| `Resp.NegativeArraysAreExact` | perf/relay_bus_scaling.py:148-152 | a null array is null and any smaller count gives an empty array |
| `Resp.BadBulksAreExact` | perf/relay_bus_scaling.py:139-147 | a bulk string with a count below minus one, or cut short, is malformed and uses up the stream |
| `Resp.FullBulksAreExact` | perf/relay_bus_scaling.py:139-147 | a bulk string of the announced length is refused iff CR LF does not follow or it is no UTF-8 |
| `Resp.LinesAreExact` | perf/relay_bus_scaling.py:120-126 | a line ends at the first line feed and is accepted iff a carriage return precedes it |
| `Resp.IntegersParseBack` | perf/relay_bus_scaling.py:137-140 | every integer is read back, with either sign and any space around it |
| `Resp.NumeralsAreExact` | perf/relay_bus_scaling.py:137-140 | exactly digits with single underscores between them are read, with their decimal value |
| `Resp.DecodeIgnoresWhatFollows` | perf/relay_bus_scaling.py:129-153 | a reply that can be read is read the same whatever arrives after it |
| `Utf8.Utf8IsExact` | perf/relay_bus_scaling.py:133-147 | exactly the UTF-8 encodings of Unicode scalar values are accepted as text |
| `AudioFraming.SttTapProcessor.constructor` | desktop/public/worklet.js:19-24 | an empty buffer, transmitting |
| `AudioFraming.SttTapProcessor.Transmit` | desktop/public/worklet.js:45-61 | an open block is kept whole, in order, in full frames; it throws iff the leftover exceeds a frame |
| `AudioFraming.SttTapProcessor.Process` | desktop/public/worklet.js:34-64 | frames followed by the buffer equal everything heard since the last gated block, and a gated block ends that stretch |
| `AudioFraming.FramesDependOnlyOnSpeech` | desktop/public/worklet.js:45-54 | how speech was cut into blocks does not change the frames |

## Left out

- Process spawning, pipes, kill and reap, scheduling, tracing and observer events: only the step semantics of the client is modelled.
- Prompt, steer and permission payload building and the parsing of stop reasons: text assembly without state.
- The merged sequence numbering of the two trackers in `take_turn_usage`: each tracker numbers on its own, so sequence properties are per tracker.
- Floating-point rounding of costs: exact reals, with non-finite costs as a separate value.
- Evaluation of filter expressions, the blocking thread pool and its semaphore: an evaluation gives true, false, a timeout or an error.
- Concurrent calls of the matcher on shared counters: events are matched one after the other.
- UUID syntax: any codec that reads back what it prints.
- JSON text: parsing is a parameter of the configuration build, and its result is the object rather than its rendering.
- JSON-RPC ids that are neither integers nor strings: one value stands for all of them, so permission counts of such ids are added together.
- Python's limit on the number of digits of an integer, and interrupted reads of the Redis stream.
- InstallSteer: the panic on a second receiver is not modelled; installing twice is the same as once.
- SendRequest: the sixty-second limit of a request is an event of the script.
- `broker.rs`, `setup_mode.rs`, `engram_fetch.rs` and `observer.rs`: plumbing, rendering or one bounded queue, which would add only easy members.
