# Verification of the omni-acp daemon, protocol and client

A Dafny model of the parts of omni-acp whose correctness is hardest to see by reading: how a turn is folded out of an
event log, how the client keeps one stream alive over many connections, how event streams are parsed, how ids are made,
how the daemon counts worker slots, and six smaller state machines. `dafny verify dfyconfig.toml` checks all of it.

Objects whose methods update fields are classes here, with the same fields and the same branches; each method is proved
equal to a function of the old state, and the results are lemmas about those functions. What one piece of JavaScript does
between two `await`s is one step, so a sequence of steps is one interleaving.

Most parts also have a reading: a second account of what the operations leave behind, field by field, taken off the log, the
calls or the schedule and not off the functions the methods are tied to, and the proof that the two agree.

| file | what it models |
|---|---|
| `Envelopes`, `Turn`, `TurnFold` | envelopes, the turn reducer as functions, and as the program runs it |
| `TurnEvents`, `TurnAgreement`, `TurnVerdict` | the fold depends only on the events; client and daemon agree; what a result says |
| `TurnReading`, `TurnReadingLaws` | every field of a result and of a status, read off the turn's own envelopes |
| `Tail`, `Handle`, `HandleLaws` | the resumable stream, the handle it feeds, several streams at once, a prompt end to end |
| `TailOutcomes` | why and where a stream ends, read off its schedule, and that it catches up otherwise |
| `Sse`, `SseLaws`, `SseStandard` | the incremental event-stream parser, chunking, and the HTML Living Standard's own reading |
| `SseFrames` | a frame read off what the lines of its block say |
| `Ids`, `IdsLaws`, `IdsReading` | monotonic ULIDs and worker addresses; what an id says of the calls that led to it |
| `Slots`, `SlotsLaws`, `SlotsCapacity`, `SlotsLost` | the registry's accounting: conservation, exactly when limits are passed, and exactly when lost slots shut a token out |
| `SlotsBook` | the same registry as a book of who holds a slot, without counters, and what sleeping workers hold |
| `Clock`, `ClockLaws`, `ClockReading` | the virtual clock; what callbacks leave pending |
| `Paging`, `Deliveries`, `DeliveriesLaws`, `DeliveriesReading` | cursor paging, the webhook delivery store, and its rows read off the calls |
| `Adoption`, `AdoptionLaws` | what a starting daemon does with the workers of earlier boots |
| `Presets`, `PresetsLaws`, `PresetsReading` | managed MCP presets in memory, in the configuration and on disk; records and answers read off the operations |
| `ProbeGate`, `ProbeGateLaws` | the probe semaphore and one probe per agent |
| `StderrTail`, `StderrTailLaws` | the last bytes of a UTF-8 stream, and its lines |
| `Wrappers`, `Reading` | `Option`, and the associativity of concatenation; reading values off a list |

## What turned out

Seven promises hold only under a condition. Each comes with an input where it fails and an exact condition; where the
condition is about something finer than what a caller sees, the text says so.

- The client's local fold is the daemon's answer unless a replay-marked envelope ends the client's buffer before a live
  one does (`TurnAgreement.AgreementExactlyWhen`).
- Parsing: the blocks cut and the buffer kept do not depend on chunking if and only if the text holds no CR CR LF, because
  the buffer is normalized again after every chunk (`SseLaws.ChunkingMattersExactlyWhen`). That necessity is of the
  parser's state; in a comment line nobody sees it, in a data line the frames differ (`SseLaws.FrameReadTwoWays`). The
  parser sees the standard's lines if and only if CR stands only in CRLF (`SseStandard.LinesAgreeExactlyWhen`); again a lone
  CR in a comment changes no event, and one between two data lines does (`SseStandard.LoneCrChangesTheEvent`).
- Ids climb if and only if every call rises: room in the 80-bit field within a tick, and otherwise a higher time modulo
  2^50 ms, or the same one and a higher draw (`IdsLaws.IdsClimbExactlyWhen`). Below 2^50 ms only an overflow within a tick
  can break it (`IdsLaws.IdsClimbInTime`); at 2^50 ms the next id comes before the last one (`IdsLaws.TimeLimitIsSharp`).
- `maxWorkers` holds unless a slot is taken without a check while the daemon is full, which waking by prompting does
  (`SlotsCapacity.LimitHoldsExactlyWhen`, `SlotsCapacity.AutoWakePassesTheLimit`), and a token's own limit likewise
  (`SlotsCapacity.QuotaHoldsExactlyWhen`).
- A failed creation gives its slot back unless it throws between reserving and its `try`; then the slot is gone for good
  (`SlotsCapacity.LostSlotsStayLost`). A token can be admitted again, by some course of events, if and only if lost
  creations fill neither the daemon's limit nor, its own among them, the token's (`SlotsLost.AdmitsAgainExactlyWhen`). One
  throw shuts everybody out of a daemon limited to one, and out of a larger one only the token that created, if its own
  limit is one (`SlotsLost.OneThrowClosesTheDaemon`, `SlotsLost.OneThrowClosesTheToken`).
- A hibernated worker holds no slot but one that a `wake()` has reserved, if and only if no worker is published asleep and
  no `wake()` ends well with the worker it reserved for asleep (`SlotsBook.SleepersAreFreeExactlyWhen`); otherwise the
  sleeper keeps its slot (`SlotsBook.SleeperKeepsSlot`).
- MCP presets: what the daemon serves keeps its meaning on every run, failed writes and crashes included: recorded names,
  the configuration, the quota in memory (`PresetsLaws.NamesKeepTheirMeaning`, `PresetsLaws.ConfigurationIsExact`). Memory
  and disk stay in step if and only if no write fails after its rename (`PresetsLaws.InStepExactlyWhen`), and a record on
  disk changes its meaning if and only if a leftover of such a failure is registered again
  (`PresetsLaws.DiskAlwaysKeepsExactlyWhen`, `PresetsLaws.NameReusedAfterLateFailure`).

Two comments in the code promise more than it does, and the code was followed: "both deliver in ascending seq, so one
comparison is enough" at packages/client/src/worker.ts:329-332 (nothing is emitted twice or out of order, but envelopes can
be skipped, `HandleLaws.OvertakingLosesEnvelopes`), and the registry's remark that the limit check "belongs to `wake()`" at
packages/daemon/src/registry.ts:443-450.

## Model

| member | source | states |
|---|---|---|
| TurnFold.Fold.UpsertToolCall | packages/protocol/src/turn.ts:481-533 | one tool-call update leaves the fold as the specification says: fields carried are overwritten, others kept, first sight appended to the order |
| TurnFold.Fold.ApplySessionUpdate | packages/protocol/src/turn.ts:535-600 | text is appended, tool calls are upserted, usage and mode are set, anything else is ignored |
| TurnFold.Fold.Take | packages/protocol/src/turn.ts:633-856 | one envelope of the sorted log changes the fold as `Turn.Step` says: foreign envelopes, the start, the three terminals, everything after a terminal |
| TurnFold.FoldEnvelopes | packages/protocol/src/turn.ts:610-857 | dropping replays, de-duplicating by (workerId, seq), sorting and running the loop gives exactly `Turn.FoldOf` |
| TurnFold.FindUnpoliced | packages/protocol/src/turn.ts:452-479 | one warning per watched, unpoliced tool call, in order |
| TurnFold.Materialize | packages/protocol/src/turn.ts:859-986 | the result read off the fold: verdict, failed and stranded calls, warnings, changes |
| TurnFold.GetTurnStatus | packages/protocol/src/turn.ts:1049-1074 | the status read off the fold, unknown when the turn never started |
| TurnEvents.FoldIsOverOwnEvents | packages/protocol/src/turn.ts:610-720 | folding any pile of envelopes is running over the turn's own worker's live envelopes in seq order |
| TurnEvents.FoldDependsOnlyOnEvents | packages/protocol/src/turn.ts:633-720 | two piles with the same live envelopes of the turn's worker give the same result and status |
| TurnEvents.PermutationAndRedelivery | packages/protocol/src/turn.ts:633-660 | any permutation and any re-delivery changes nothing |
| TurnEvents.FirstOneIsKept | packages/protocol/src/turn.ts:633-656 | of the live envelopes with one identity exactly the first handed in is folded, whatever the others say |
| TurnEvents.ForeignEnvelopesAreInert | packages/protocol/src/turn.ts:660-720 | envelopes of other workers change nothing, their closes and restarts at equal seq included |
| TurnEvents.TwoLogsMakeOrderVisible | packages/protocol/src/turn.ts:633-660 | without one worker per turn the order of the pile shows: two workers' envelopes of one turn at equal seq |
| TurnEvents.OrderShowsOnlyThroughTies | packages/protocol/src/turn.ts:633-720 | with any number of workers, two piles with the same live envelopes that matter to the turn (its own, closes, restarts) and no two of those at one seq give the same result and status: order can show only through such ties |
| TurnAgreement.ClientAndDaemonAgree | packages/client/src/worker.ts:622-637 | folding only from `accepted.seq` to the first terminal gives the daemon's fold, result and status of the whole log, finished or running |
| TurnAgreement.ReplayedEndBreaksAgreement | packages/client/src/worker.ts:274-286 | an input family where a replay-marked terminal makes the two disagree |
| TurnAgreement.AgreementExactlyWhen | packages/client/src/worker.ts:274-286 | when the client stopped at the last envelope of a log that goes on, the two agree on every continuation if and only if that envelope was live |
| TurnVerdict.ToolCallsAreLastWriterView | packages/protocol/src/turn.ts:481-533 | every call once, in first-seen order, each field the value of the last update that carries it |
| TurnVerdict.ReportedToolCalls | packages/protocol/src/turn.ts:859-930 | the same of the calls in the result, whatever pile it was folded from |
| TurnVerdict.FinishedCallsPartition | packages/protocol/src/turn.ts:859-986 | a finished turn's calls are completed, failed or stranded, each exactly once |
| TurnVerdict.OkMeansNothingWrong | packages/protocol/src/turn.ts:930-986 | the verdict is `ok` if and only if the turn's window holds no worker end, error, denial, parked interaction or failed call, and no call is left open once it is over |
| TurnVerdict.StatusIsTheLogs | packages/protocol/src/turn.ts:1049-1074 | unknown, running, completed and failed, each in terms of the log, one direction and the other |
| TurnVerdict.UnpolicedOnce | packages/protocol/src/turn.ts:452-479 | of the calls of watched kinds that no interaction names, each is warned about exactly once, and nothing else is |
| TurnReadingLaws.SpanIsRead | packages/protocol/src/turn.ts:660-720 | the stretch of the log a turn takes in: from its first own envelope through the first idle of its own, close or restart, or to the end of the log |
| TurnReadingLaws.ResultIsReadOff | packages/protocol/src/turn.ts:610-986 | the whole result of any pile, field by field: text joined, calls as last written in first-seen order, changes of their diff blocks, one record per decision, denials, what is still parked and in which order, usage as last carried, stop reason, tokens and patches as the settling idle gives them, the error reported last or else the worker's end, verdict, and every warning in order |
| TurnReadingLaws.StatusIsReadOff | packages/protocol/src/turn.ts:1049-1074 | the whole status: state, the seq of the first own envelope, the seq of the end if there is one, and that result |
| Tail.TailIsExact | packages/client/src/worker.ts:467-529 | over any schedule of failed opens, drops and overlaps the yielded envelopes are exactly the log after the start up to the cursor, once each and in order |
| Tail.NeverTwice | packages/client/src/worker.ts:467-529 | whatever the connections deliver, seqs climb strictly and lie above `since` |
| Tail.TailHalts | packages/client/src/worker.ts:467-529 | on a finite log the generator ends within a bound on attempts, by remaining log, empty reconnects and failed opens |
| Tail.UnreachableMeansFailuresInARow | packages/client/src/worker.ts:485-500 | giving up as unreachable means more than twenty failed opens in a row |
| TailOutcomes.EndsWhereFirstEnded | packages/client/src/worker.ts:467-529 | a stream ends at the first attempt that ends one, in the way that attempt says: returned at an aborted open, an aborted connection or a stream end; thrown at a fatal failure, at the 21st failed open in a row, or at the 21st connection that brought nothing new; with what was yielded and the cursor until then |
| TailOutcomes.WaitsWhenNothingEnds | packages/client/src/runs.ts:67-126 | when no attempt ends it, the whole schedule is used and the stream goes on |
| TailOutcomes.OutcomeExactlyWhen | packages/client/src/worker.ts:467-529 | each outcome if and only if the first attempt that ends the stream ends it so |
| TailOutcomes.NothingIsReadAfterLeaving | packages/client/src/worker.ts:500-507 | a connection is read up to the first stream end or overflow and no further |
| TailOutcomes.CatchesUp | packages/client/src/worker.ts:467-529 | a stream that gets as far as a connection which delivers the log's head has yielded the whole rest of the log, whatever failed or dropped before |
| Handle.WorkerHandle.Ingest | packages/client/src/worker.ts:403-456 | an envelope at or below the mark changes nothing; one above is emitted, moves mark and head, sets the state, and announces `closed` at most once |
| Handle.WorkerHandle.CloseAnswered | packages/client/src/worker.ts:773-786 | an answered `close()` settles `closed` and its listeners have then been called once, whether or not the closing envelope is seen |
| Handle.WorkerHandle.Envelopes | packages/client/src/worker.ts:467-529 | the loop with its cursor and two counters yields exactly `Tail.Stream` and feeds all of it to the emitter |
| Handle.RunEvents | packages/client/src/runs.ts:67-126 | the second copy of the loop meets the same specification |
| HandleLaws.GapsOnlyAtAFirstYield | packages/client/src/worker.ts:403-409 | with any number of streams interleaved, an emission follows its predecessor by exactly one unless it is its own stream's first |
| HandleLaws.EmitterClimbs | packages/client/src/worker.ts:403-409 | no seq is emitted twice or out of order |
| HandleLaws.CompleteExactlyWhen | packages/client/src/worker.ts:531-546 | listeners get every envelope if and only if no stream overtakes at its first yield |
| HandleLaws.RealStreamsAreContiguous | packages/client/src/worker.ts:467-529 | any interleaving of streams of `envelopes` over one log, whatever their connections, is contiguous stream by stream, as the two results before ask |
| HandleLaws.StreamsJumpOnlyWhereTheyBegin | packages/client/src/worker.ts:403-409 | for such streams an emission that is not its stream's first is the log's next envelope after the mark |
| HandleLaws.ListenersGetTheLogExactlyWhen | packages/client/src/worker.ts:531-546 | for such streams listeners get the log from its first envelope on, without a gap, if and only if no stream begins ahead of the mark |
| HandleLaws.OvertakingLosesEnvelopes | packages/client/src/worker.ts:329-332 | two real streams over one log of three, the background one dropped once and the prompt's one starting at the third envelope: their interleaving loses the second |
| HandleLaws.Collect | packages/client/src/worker.ts:622-637 | the buffering loop stops at the first terminal and reduces what it buffered |
| HandleLaws.PromptIsTheDaemonsAnswer | packages/client/src/worker.ts:100-112 | end to end: a prompt that saw its turn's end, or read as far as the log goes, over any connections, returns the daemon's result |
| Sse.ParseBlock | packages/client/src/sse-parse.ts:37-62 | the frame of a block: fields by their lines, comments and unknown fields ignored, no frame for a heartbeat |
| Sse.Iterate | packages/client/src/sse-parse.ts:133-151 | reading chunk by chunk gives the frames of the blocks of `Sse.Feed` |
| SseLaws.ChunkingDoesNotMatter | packages/client/src/sse-parse.ts:138-151 | without CR CR LF every cutting into chunks gives the blocks of the whole text |
| SseLaws.ChunkingMattersExactlyWhen | packages/client/src/sse-parse.ts:138-140 | every two cuttings of a text give the same blocks and leave the same buffer if and only if it holds no CR CR LF |
| SseLaws.FrameReadTwoWays | packages/client/src/sse-parse.ts:138-151 | one text, cut in two ways, gives frames with different data |
| SseStandard.ParserFollowsTheStandard | packages/client/src/sse-parse.ts:37-62 | where CR stands only in CRLF, every cutting gives the events of a line-at-a-time reading of sections 9.2.5 and 9.2.6 of the HTML Living Standard, an unfinished last block discarded |
| SseStandard.LoneCrIsReadDifferently | packages/client/src/sse-parse.ts:140 | the standard ends a line at a lone CR, the parser does not: the two lists of lines |
| SseStandard.LinesAgreeExactlyWhen | packages/client/src/sse-parse.ts:140 | the parser sees the lines the standard sees if and only if CR stands only in CRLF |
| SseStandard.LoneCrChangesTheEvent | packages/client/src/sse-parse.ts:37-62 | two data lines with a lone CR between them: the event of the standard and the other event of the parser |
| SseFrames.FrameIsRead | packages/client/src/sse-parse.ts:37-62 | a block's frame is the last id its lines say, the last event name and every data value in order; none when no line says one of the three |
| SseFrames.OnlyOneIsSaid | packages/client/src/sse-parse.ts:41-45 | a line says at most one value of a field: what follows the colon and one space, or the colon, or nothing when there is no colon |
| SseFrames.FramesAreRead | packages/client/src/sse-parse.ts:142-150 | every such block gives its frame, in order |
| Ids.IncrementRandom | packages/protocol/src/ids.ts:158-175 | base-32 plus one with carry, in place |
| Ids.EncodeTime | packages/protocol/src/ids.ts:134-144 | the ten low base-32 digits of the time, highest first |
| Ids.IdGen.Next | packages/protocol/src/ids.ts:177-210 | one id: time and random field advance as the specification says and the body encodes both |
| Ids.IncrementIsPlusOne | packages/protocol/src/ids.ts:158-175 | the carry loop adds one to the number, or wraps to zero when all digits are highest |
| IdsLaws.NextIsHigher | packages/protocol/src/ids.ts:184-200 | below 2^50 ms the next id is a higher number if and only if the field does not overflow |
| IdsLaws.NextIsHigherExactlyWhen | packages/protocol/src/ids.ts:184-200 | for every clock reading: the next id is a higher number if and only if, within a tick, the field has room, and otherwise the time modulo 2^50 rises, or stays and the draw is higher |
| IdsLaws.IdsClimbExactlyWhen | packages/protocol/src/ids.ts:177-210 | for every clock, however far it runs, the ids of a run strictly increase as strings if and only if every call rises in that sense |
| IdsLaws.IdsClimbInTime | packages/protocol/src/ids.ts:177-210 | for times below 2^50 ms that is: if and only if no tick overflows |
| IdsLaws.ShortRunsClimb | packages/protocol/src/ids.ts:158-175 | a bound on the first draws and the length of the run that rules overflow out |
| IdsReading.GeneratorIsRead | packages/protocol/src/ids.ts:184-200 | after any calls the time is the latest the clock has shown, and the random field is the draw of the first call that saw it plus one for every id since, modulo 2^80 |
| IdsReading.LastIdIsRead | packages/protocol/src/ids.ts:134-210 | the text of an id decodes to exactly those two numbers, the time modulo 2^50 |
| IdsReading.DrawsAreParts | packages/protocol/src/ids.ts:153-156 | a draw from [0, 1) is one of 32 equal parts; anything below or above is the first or the last |
| IdsLaws.TimeLimitIsSharp | packages/protocol/src/ids.ts:134-144 | the id minted at 2^50 ms comes before every earlier one of a time above zero |
| Ids.ValueOfLowDigits | packages/protocol/src/ids.ts:134-144 | the ten digits of a time stand for it modulo 2^50 |
| IdsLaws.EveryBodyIsWellFormed | packages/protocol/src/ids.ts:130-210 | every body is 26 Crockford characters |
| IdsLaws.PrefixKeepsOrder | packages/protocol/src/ids.ts:177-210 | ids of one kind compare as their bodies do |
| IdsLaws.RefRoundTrip | packages/protocol/src/ids.ts:110-122 | a worker address parses back to its two ids, and only addresses of two well-formed ids parse |
| Slots.Registry.Reserve | packages/daemon/src/registry.ts:414-430 | refused at either limit, otherwise one more for the daemon and for the token |
| Slots.Registry.Release | packages/daemon/src/registry.ts:432-441 | an entry gives its slot back once; a second release changes nothing |
| Slots.Registry.Reacquire | packages/daemon/src/registry.ts:451-456 | an entry without a slot takes one, unchecked |
| Slots.Registry.ReserveForWake | packages/daemon/src/registry.ts:470-488 | refused at the daemon's limit, at the owner's only when the owner asks |
| Slots.Registry.OnStateChange | packages/daemon/src/registry.ts:1027-1051 | hibernating releases, entering a state with a process reacquires |
| Slots.Registry.Rehydrate | packages/daemon/src/registry.ts:896-932 | a persisted row holds a slot only if its state owns a process |
| Slots.Registry.AddCreated | packages/daemon/src/registry.ts:1675-1694 | a successful creation files a live entry of its token; no counter moves |
| SlotsLaws.GivingCounts | packages/daemon/src/registry.ts:437-440 | there is always a slot to give back, so the clamp at zero never decides |
| SlotsLaws.StepKeeps | packages/daemon/src/registry.ts:414-488 | each of the nine steps keeps the accounting right |
| SlotsLaws.SlotsAreConserved | packages/daemon/src/registry.ts:1675-1694 | after every interleaving `liveTotal` is the number of slots in use and the sum of `perToken`, which counts each token's live entries and reservations, never stores zero |
| SlotsBook.StepKeepsBook | packages/daemon/src/registry.ts:414-488 | what each of the nine steps does to the slots in use, to their owners and to the workers known: which slot is taken or given back, and who is charged |
| SlotsBook.RegistryKeepsTheBook | packages/daemon/src/registry.ts:1027-1051 | over every run the slots in use are those of the book, which keeps no counters |
| SlotsBook.AdmissionIsTheBooks | packages/daemon/src/registry.ts:470-488 | after any run a creation is admitted if and only if the slots in use are fewer than both limits, and a `wake()` if the worker holds a slot or there is such room, the owner's limit binding the owner only |
| SlotsBook.SleepersAreFreeExactlyWhen | packages/daemon/src/registry.ts:1036-1045 | over a run hibernated workers hold no slot but one a `wake()` has reserved, if and only if no step leaves a worker asleep with its slot |
| SlotsBook.SleeperKeepsSlot | packages/daemon/src/registry.ts:2053-2062 | a run in which a `wake()` ends well without its worker starting, and the sleeper keeps the slot |
| SlotsLaws.LateFailureMiscounts | packages/daemon/src/registry.ts:1691-1700 | if anything threw between publishing a new entry and returning it, the clean-up would release the slot the live entry holds, and one slot too few is counted |
| SlotsCapacity.StepPassesLimitExactlyWhen | packages/daemon/src/registry.ts:414-456 | a step passes the daemon's limit if and only if the daemon is full and the step takes a slot unchecked |
| SlotsCapacity.LimitHoldsExactlyWhen | packages/daemon/src/registry.ts:443-456 | a whole run keeps the limit if and only if no such step occurs |
| SlotsCapacity.TokenPassesQuotaExactlyWhen | packages/daemon/src/registry.ts:470-488 | the same for one token, where another token's `wake()` is unchecked too |
| SlotsCapacity.QuotaHoldsExactlyWhen | packages/daemon/src/registry.ts:470-488 | a whole run keeps a token's limit if and only if it is never charged unchecked while full |
| SlotsCapacity.CapacityIsNeverExceeded | packages/daemon/src/registry.ts:2046-2064 | when slots are taken only by `create` and by owners' non-overlapping `wake()` calls, both limits hold at every step |
| SlotsCapacity.CapacityHoldsFromTheStart | packages/daemon/src/registry.ts:2046-2064 | the same for every such run from a daemon that just started, whatever its limits |
| SlotsCapacity.AutoWakePassesTheLimit | packages/daemon/src/registry.ts:443-456 | a run in which a daemon limited to one has two |
| SlotsCapacity.LostSlotsStayLost | packages/daemon/src/registry.ts:1398-1558 | creations that throw between reserving and the `try` keep their slots on every run; once they fill the limit, no creation and no `wake()` of a worker without a slot is admitted again |
| SlotsLost.AdmitsAgainExactlyWhen | packages/daemon/src/registry.ts:1398-1558 | some course of events leads to a creation of the token being admitted if and only if lost creations are fewer than the daemon's limit and the token's own lost ones fewer than its limit |
| SlotsLost.OneThrowClosesTheDaemon | packages/daemon/src/registry.ts:1398-1558 | the run: a creation reserves and throws on a daemon limited to one, after which no course of events admits any token |
| SlotsLost.OneThrowClosesTheToken | packages/daemon/src/registry.ts:414-430 | after that run on a larger daemon, a token can be admitted again if and only if it is another token or its own limit exceeds one |
| Clock.FakeClock.SetTimer | packages/testkit/src/fake-clock.ts:45-48 | a timer due at now plus the delay, negative delays being none |
| Clock.FakeClock.CancelTimer | packages/testkit/src/fake-clock.ts:48-53 | the timer is gone; cancelling a fired or cancelled one does nothing |
| Clock.FakeClock.Advance | packages/testkit/src/fake-clock.ts:55-66 | the firing loop, when it ends, leaves the clock as `Clock.Advanced` says |
| Clock.FakeClock.Set | packages/testkit/src/fake-clock.ts:70-72 | only `now` changes |
| ClockLaws.EarliestIsFirst | packages/testkit/src/fake-clock.ts:31-40 | the search finds a due timer no other due timer precedes, or there is none |
| ClockLaws.FiresInOrder | packages/testkit/src/fake-clock.ts:55-66 | firings are strictly ascending by (deadline, age), each of a pending or new timer, each seeing its own deadline; `now` never goes back |
| ClockLaws.FiresExactlyTheDue | packages/testkit/src/fake-clock.ts:55-68 | of the timers pending at the start, exactly those due and not cancelled fire; the clock ends at the target |
| ClockLaws.AdvanceSettlesAll | packages/testkit/src/fake-clock.ts:45-68 | every timer ever made, by callbacks too, fired once, or was cancelled once, or is pending with a deadline past the target |
| ClockLaws.AdvanceInTwo | packages/testkit/src/fake-clock.ts:55-68 | advancing by a and then b is advancing by a + b, firings and times seen included |
| ClockReading.FiringIsRead | packages/testkit/src/fake-clock.ts:55-66 | one firing: the clock at the deadline, the timer gone, the others pending unless its callback cancelled them, and the timers its callback made and did not cancel, counted from that moment |
| ClockReading.EveryScriptIsRun | packages/testkit/src/fake-clock.ts:55-68 | over a whole advance the callback of every timer fired is run once, in full |
| Paging.SortingPermutes | packages/daemon/src/runs.ts:236-241 | the sort gives the same rows, in order |
| Paging.SortingIsStable | packages/daemon/src/runs.ts:348-356 | rows that neither precede nor follow one another keep their order |
| Paging.ListingIgnoresInsertionOrder | packages/daemon/src/runs.ts:236-241 | the same rows put in any order are listed the same |
| Paging.PagesVisitEveryRowOnce | packages/daemon/src/runs.ts:254-261 | with a limit of at least one, following the cursor to null ends and gives the listing, whole and in order |
| Paging.FollowingGivesAllExactlyWhen | packages/daemon/src/runs.ts:254-261 | following the cursor from the start gives the whole listing if and only if the limit is at least one or there is nothing to list |
| Paging.UnknownCursorStartsOver | packages/daemon/src/runs.ts:254-261 | a cursor that names no listed row starts the listing over |
| Paging.BothStoresListAlike | packages/daemon/src/runs.ts:254-261 | filtering after sorting (runs) and before it (deliveries) list alike |
| Paging.PagingIsComplete | packages/daemon/src/runs.ts:395-411 | the pages together are exactly the matching rows, each once, newest first |
| Deliveries.MemoryDeliveryStore.EnqueueRow | packages/daemon/src/runs.ts:326-347 | a fresh pending row, in its old place when the id was known |
| Deliveries.MemoryDeliveryStore.ClaimRow | packages/daemon/src/runs.ts:357-367 | succeeds if and only if the row is pending, and stamps the boot |
| Deliveries.MemoryDeliveryStore.SettleRow | packages/daemon/src/runs.ts:368-380 | one attempt more, the lease gone, the verdict recorded; an unknown id does nothing |
| Deliveries.MemoryDeliveryStore.RequeueStaleRows | packages/daemon/src/runs.ts:381-394 | every other boot's delivering row is pending again, and the answer counts them |
| Deliveries.MemoryDeliveryStore.RedeliverRow | packages/daemon/src/runs.ts:416-433 | refused alike for an absent and a foreign row, otherwise pending with a fresh count |
| Deliveries.MemoryDeliveryStore.SweepRows | packages/daemon/src/runs.ts:434-443 | rows older than the cut go, the others stay in order, and the answer counts them |
| Deliveries.MemoryDeliveryStore.DueRows | packages/daemon/src/runs.ts:348-356 | gives `Deliveries.Due`, whose meaning is `DeliveriesLaws.DueGivesTheEarliest` |
| Deliveries.MemoryDeliveryStore.ListRows | packages/daemon/src/runs.ts:395-411 | gives a page of the listing of `DeliveriesLaws.DeliveriesPageCompletely` |
| DeliveriesLaws.StoreAlwaysHolds | packages/daemon/src/runs.ts:325-443 | after any calls a row is `delivering` if and only if a boot holds it, and `nextAttemptAt` mirrors `nextAttemptMs` |
| DeliveriesLaws.AttemptCountsSettles | packages/daemon/src/runs.ts:368-431 | `attempt` is the number of settles since the last enqueue or successful redeliver, read off the calls |
| DeliveriesLaws.RowsTellThePast | packages/daemon/src/runs.ts:326-431 | a row keeps what its last enqueue said and shows the last verdict since then or since a redelivery, read off the calls |
| DeliveriesReading.StoredExactlyWhen | packages/daemon/src/runs.ts:326-443 | a delivery is stored if and only if some enqueue put it in and no later sweep reached back to it |
| DeliveriesReading.RowsAreRead | packages/daemon/src/runs.ts:326-431 | after any calls every field of a row, state, holder, next try and times included, is read off the enqueue, the last call that took effect and the last verdict |
| DeliveriesReading.KeysAreByAge | packages/daemon/src/runs.ts:326-347 | rows are kept in the order in which their present stay began; a second enqueue keeps the place |
| DeliveriesReading.RequeueCountsTheOthers | packages/daemon/src/runs.ts:381-394 | the answer of a requeue is the number of deliveries some other boot holds |
| DeliveriesLaws.ClaimedOncePerStay | packages/daemon/src/runs.ts:357-367 | between two claims that succeed some call found the row not pending and left it pending: one winner for each stay |
| DeliveriesLaws.OnlyThesePutBack | packages/daemon/src/runs.ts:326-431 | such a call is an enqueue, a settle for another try, a requeue by another boot, or a redelivery that was allowed |
| DeliveriesLaws.RequeueLeavesOnlyOurs | packages/daemon/src/runs.ts:381-394 | afterwards every delivering row is this boot's, attempts are unchanged, and doing it again changes nothing |
| DeliveriesLaws.DueGivesTheEarliest | packages/daemon/src/runs.ts:348-356 | as many eligible rows as the limit allows, soonest first, none left out that is sooner than one given |
| DeliveriesLaws.DueKeepsStoreOrder | packages/daemon/src/runs.ts:348-356 | deliveries due at one time are given in the order in which they are stored |
| DeliveriesLaws.DueIsEligible | packages/daemon/src/runs.ts:348-356 | only stored, pending rows whose time has come are given |
| DeliveriesLaws.DeliveriesPageCompletely | packages/daemon/src/runs.ts:395-411 | after any calls, paging visits every matching delivery once, newest first |
| Adoption.Recovery.ReapIfProven | packages/daemon/src/boot-recovery.ts:117-151 | a process is reported if and only if there was one; it is reaped only by the answer of a supervisor that was asked; a policy of never and a supervisor that throws both leave it unreaped for `policy` |
| Adoption.Recovery.AdoptRow | packages/daemon/src/boot-recovery.ts:175-309 | three appends and one upsert |
| Adoption.Recovery.Recover | packages/daemon/src/boot-recovery.ts:61-103 | every abandoned row is adopted in turn and the tally counts them |
| AdoptionLaws.PassConverges | packages/daemon/src/boot-recovery.ts:61-309 | every abandoned row and log is exactly as adoption should leave it: three envelopes at the next three seqs with the turn, the states before and after, the report and the lease taken away, and every field of the row; other rows and logs are untouched; no foreign row is left live |
| AdoptionLaws.TallyIsHonest | packages/daemon/src/boot-recovery.ts:72-98 | found is hibernated plus closed, hibernated the rows that can be woken; reaped the rows whose process the supervisor was allowed to reap and said it did, skipped the other rows with a process; the reports are those of the rows, in order |
| AdoptionLaws.PassAnswersTheRows | packages/daemon/src/boot-recovery.ts:61-98 | the same as numbers of rows of the whole store as it was, and the reports in the order of the store |
| AdoptionLaws.AdoptedRowTellsTheReap | packages/daemon/src/boot-recovery.ts:105-300 | after a pass an adopted row carries a report if and only if it had a process, a proven one if and only if reaping is allowed and the supervisor answers so, and a closed row says its tree is gone exactly when the reap was proven |
| AdoptionLaws.SecondRunIsANoOp | packages/daemon/src/boot-recovery.ts:56-58 | a second run finds nothing and changes nothing |
| AdoptionLaws.FirstBootSettlesEverything | packages/daemon/src/boot-recovery.ts:61-103 | after one boot with a new id no row is live, and however many boots follow change nothing |
| AdoptionLaws.EpochsNeverFall | packages/daemon/src/boot-recovery.ts:240-256 | a row's lease epoch rises by one if it was abandoned and stays otherwise |
| Presets.McpManagement.RegisterPreset | packages/daemon/src/mcp-management.ts:265-324 | refused by role, conflict, quota or validation; otherwise written, recorded, configured, in that order |
| Presets.McpManagement.RemovePreset | packages/daemon/src/mcp-management.ts:325-343 | refused for static, unknown and deleted names; otherwise a tombstone |
| Presets.McpManagement.Load | packages/daemon/src/mcp-management.ts:116-180 | loads every record unless one collides with a static name or the quota is passed |
| PresetsLaws.StepKeepsStepExactlyWhen | packages/daemon/src/mcp-management.ts:237-245 | one operation keeps memory, configuration and disk in step if and only if its record was not written and then reported as failed |
| PresetsLaws.InStepExactlyWhen | packages/daemon/src/mcp-management.ts:265-343 | the same over registrations, removals, stops and restarts |
| PresetsLaws.NamesKeepTheirMeaning | packages/daemon/src/mcp-management.ts:277-283 | over every run, however its writes end and wherever it restarts, a name once recorded keeps its server and its birth, and `deleted` only becomes true |
| PresetsLaws.MeaningIsKeptFromAnEmptyStore | packages/daemon/src/mcp-management.ts:277-283 | from a daemon with an empty store, between any two moments of any run |
| PresetsLaws.ConfigurationIsExact | packages/daemon/src/mcp-management.ts:265-343 | over every run the configuration is the static entries and the undeleted records, nothing else, and the quota in memory holds, tombstones counted |
| PresetsReading.RegistrationAnswers | packages/daemon/src/mcp-management.ts:265-324 | every answer to a registration, exactly when: by role, name, quota, server and disk, in that order |
| PresetsReading.RemovalAnswers | packages/daemon/src/mcp-management.ts:325-343 | every answer to a removal, exactly when |
| PresetsReading.RecordsAreRead | packages/daemon/src/mcp-management.ts:237-343 | over every run the record on disk is the last that reached it, the one in memory the last that was answered as done or that a restart loaded, and the daemon is down exactly since its last stop or failed start |
| PresetsReading.OffersAreRead | packages/daemon/src/mcp-management.ts:265-343 | what is offered under a name after any run: its static entry, or its last kept record unless deleted |
| PresetsLaws.DiskKeepsMeaningExactlyWhen | packages/daemon/src/mcp-management.ts:237-245 | one operation keeps the meaning of every record on disk if and only if it does not register, with another server, birth or after deletion, a name that only the disk still holds |
| PresetsLaws.DiskAlwaysKeepsExactlyWhen | packages/daemon/src/mcp-management.ts:265-343 | the same over whole runs |
| PresetsLaws.RestartAcceptedExactlyWhen | packages/daemon/src/mcp-management.ts:116-180 | after any run a restart is accepted if and only if the records on disk, leftovers counted, are within the quota |
| PresetsLaws.ReloadChangesNothing | packages/daemon/src/mcp-management.ts:116-127 | while in step, a restart is accepted and gives back what was in memory |
| PresetsLaws.NameReusedAfterLateFailure | packages/daemon/src/mcp-management.ts:237-245 | a write that fails late and a second registration, after which the record on disk has another server |
| PresetsLaws.RestartRefusedAfterLateFailure | packages/daemon/src/mcp-management.ts:237-245 | a write that fails late and a registration of another name, after which the quota on disk stops the daemon from starting |
| ProbeGate.Semaphore.Acquire | packages/daemon/src/probe-service.ts:104-110 | a permit at once while one is free, otherwise the end of the queue |
| ProbeGate.Semaphore.Release | packages/daemon/src/probe-service.ts:93-118 | the first call of a release frees one permit or hands it to the longest waiter, a second does nothing |
| ProbeGate.ProbeService.RunProbe | packages/daemon/src/probe-service.ts:171-181 | a second caller for an agent joins the probe in flight |
| ProbeGate.ProbeService.FinishProbe | packages/daemon/src/probe-service.ts:225-229 | the permit is released and the agent's entry removed |
| ProbeGateLaws.GateStaysFair | packages/daemon/src/probe-service.ts:93-118 | on every run permits out are granted minus released, at most the limit, and nobody waits while one is free |
| ProbeGateLaws.ServedInOrder | packages/daemon/src/probe-service.ts:93-118 | exactly the first limit-plus-released callers have been served, first come first served |
| ProbeGateLaws.ServedIsRead | packages/daemon/src/probe-service.ts:93-118 | who has been served and who waits after any calls, read off the number of `acquire` calls and the set of tickets released |
| ProbeGateLaws.SecondReleaseDoesNothing | packages/daemon/src/probe-service.ts:111-117 | a release called again after any further calls changes nothing: no permit is handed away twice |
| ProbeGateLaws.NoAgentIsProbedTwice | packages/daemon/src/probe-service.ts:171-233 | on every run two unfinished probes are of different agents |
| ProbeGateLaws.ServiceIsRead | packages/daemon/src/probe-service.ts:171-233 | over every run an agent is being probed exactly when it was asked for and not finished since; every call that did not join one has drawn a ticket, every probe that finished has released one |
| ProbeGateLaws.ProbesUnderWay | packages/daemon/src/probe-service.ts:171-233 | how many probes hold a permit and how many wait, read off the calls |
| StderrTail.DecodeTail | packages/testkit/src/fake-supervisor.ts:43-55 | the index loops find the range `StderrTail.Decodable` gives |
| StderrTail.Tail.Write | packages/testkit/src/fake-supervisor.ts:68-82 | the buffer is the last bytes of the whole stream, the lines emitted and the pending line are those of the whole stream |
| StderrTail.Tail.Finalize | packages/testkit/src/fake-supervisor.ts:88-95 | an unterminated rest is emitted, once |
| StderrTail.Tail.Snapshot | packages/testkit/src/fake-supervisor.ts:83 | decodes the buffer, which holds the last bytes of the stream |
| StderrTailLaws.DecodingIsExact | packages/testkit/src/fake-supervisor.ts:39-55 | any window of a well-formed UTF-8 stream (RFC 3629, section 4) decodes to exactly the runes wholly inside it |
| StderrTailLaws.SnapshotIsExact | packages/testkit/src/fake-supervisor.ts:68-83 | the same for the last bytes that a snapshot decodes |
| StderrTailLaws.LinesAreTheStream | packages/testkit/src/fake-supervisor.ts:74-80 | no line holds a line feed, and the lines and the rest together are the stream |
| StderrTailLaws.LinesAreTheOnlySplit | packages/testkit/src/fake-supervisor.ts:74-80 | no other cutting into lines does that |
| StderrTailLaws.FinalizedTailEmitsEverything | packages/testkit/src/fake-supervisor.ts:88-95 | a tail finalized in the middle of its stream has emitted the lines so far and any unterminated rest as a line, and starts a line afresh with what follows |

## Left out

- The daemon's core (event ring, SQLite store, lease, worker kernel, policy engine, webhook dispatcher) is not part of this
  model; its written contracts enter as hypotheses, such as a log numbered without gaps and connections that deliver a
  contiguous run.
- The runs of `Slots` do not include a throw between publishing a new entry and returning it (state listeners, the row's
  write and the view are taken not to throw); `SlotsLaws.LateFailureMiscounts` says what such a throw would do.
- Network, files, processes, signals and git: a connection is an entry of a schedule, the disk is a map, a reap is an
  answer of the supervisor.
- Abort signals are outcomes of the schedule (an open or a connection that was aborted); backoff delays are not modelled.
- Credentials, roles, hashing, redaction and validation: a mutation carries whether it was allowed and whether its server
  was valid.
- SSE `id` and `retry` fields: the parser keeps `id` per frame, and the comparison with the standard is of event types and
  data only.
- Frames with an event name and no data: the parser hands them on to `toMessage`, which drops them or, for a control event,
  reports malformed data; the standard dispatches nothing for them. The comparison with the standard
  (`SseStandard.EventsOf`) drops them on the parser's side, so it does not show this difference.
- JSON decoding, `toMessage`, `TextDecoder` (including its dropping of a leading byte order mark), ISO formatting and
  `localeCompare`: given functions, the last a total order on ids.
- JavaScript's built-in stable sort is the function `Paging.SortedBy` (`Turn.Sorted` in the fold), not a loop.
- Usage, tokens, patches and other payload parts of the fold are opaque values set by the last writer; the fold's own
  reading of malformed payloads is not modelled.
- Tool calls, preset records and delivery rows are values inside a map that is reassigned; that `due` and `get` hand out the
  live row object, so that a caller sees later changes in it, is not captured.
- Ring eviction and truncated streams: a log here keeps every envelope.
- Times in the virtual clock and the stores are whole milliseconds; the id generator takes any real clock.
- A callback of the virtual clock only schedules and cancels; one that calls `advance` or `set` itself is not modelled.
- Text written to the stderr tail is a sequence of well-formed runes: a surrogate pair split between two writes, which the
  program encodes as two replacement characters, is not modelled. Listeners that join late hear only later lines.
- The run store's idempotency keys and retention, `countHibernated` and the hibernation limit: easy, or checked before an
  `await` and therefore no bound.
- MCP installations, and listing presets by visibility.
- Probe caching, freshness and fingerprints; the file names of the probe cache.
- Turn ids in the fold of several turns at once, lease acquisition and the prompt queue.
- Handle.WorkerHandle.Ingest: the per-event listeners (`tool_call`, `interaction` and the others) are one list of emitted
  envelopes.
- Clock.FakeClock.Advance: takes a number of firings that is enough, because callbacks can keep the loop going for ever.
- Adoption.Recovery.Recover: the order in which the store lists its rows is a parameter.
