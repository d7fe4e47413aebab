# Kronos: verified models of its protocols

Dafny models of the stateful core of the Kronos event-sourcing framework: the Postgres event
store and the capabilities wrapped around it, the subscription mirror of the RabbitMQ query
bus, and the native KronosDB client. `dafny verify dfyconfig.toml` checks everything.

Two forms are used, following the code.

- A protocol that many transactions, instances or callbacks take part in is a state machine:
  a `State`, a `Step`, a relation `Takes` between states, and runs of any length. What the
  environment promises (READ COMMITTED, a position sequence that hands out positions at insert
  and shows them at commit, increasing transaction ids, row and advisory locks, first-in
  first-out channels, single-threaded callbacks that may re-enter) is the step relation itself.
- Code that updates an object, a buffer or a map in place is a class whose methods are proved
  against functions on values; those functions are the ones the state machines step by.

| file | what it is about |
|---|---|
| `Criteria.dfy` | criteria, their meaning, and the parameterised SQL they compile to |
| `AppendProtocol.dfy` | the conditional append over interleaved transactions |
| `AppendHistory.dfy` | what the log holds, told by the calls; what a read returns and an append locks |
| `AppendExactness.dfy` | exactly which queries the append guarantee holds for |
| `FusedSnapshot.dfy` | the snapshot cache against full replay |
| `AdvisoryLocks.dfy` | lock keys, lock plans, deadlock freedom |
| `Tailing.dfy` | the gap-free tailing stream, its jumps and its restarts |
| `TailingProgress.dfy` | what a stream reports of quiet stretches, and the tokens it leaves |
| `TailingExactness.dfy` | exactly when a stream opened at a position delivers nothing at or below it |
| `DeadLetters.dfy` | replaying dead letters with leases |
| `Scheduling.dfy` | scheduled events |
| `Gossip.dfy` | the cluster-wide subscription mirror |
| `Bytes.dfy`, `Wire.dfy` | integers, text and the growable buffer of the native protocol |
| `Doubles.dfy` | which integers a double holds, and what becomes of the others |
| `Utf8.dfy` | text as UTF-16 code units, its bytes, and what becomes of it on the way |
| `Names.dfy`, `Objects.dfy` | qualified names in one string; fields assigned to an object |
| `Framing.dfy` | frames out of coalesced writes and into arbitrary chunks |
| `Settlement.dfy` | what every request and stream on a connection is told |
| `Subscription.dfy`, `Provider.dfy` | credits and progress; updates and permits |
| `EventCodec.dfy`, `MessageCodec.dfy` | the binary codecs |

Where the code does not keep what one would expect of it, the code is modelled as it is, a
lemma gives the run or the input, and another says exactly when it does:

- The append guarantee, and the cache built on it, hold for a query if and only if the locks of
  every two of its items exclude each other (`AppendExactness.ExactlyTheSafeQueries`,
  `FusedSnapshot.CachedExactlyWhenSafe`).
- Lock keys of different classes can collide and deadlock: for every assignment of keys, all runs
  are free of deadlock if and only if the keys can be ranked (`AdvisoryLocks.DeadlockFreeExactly`).
- An empty `either` compiles to SQL the database rejects (`Criteria.CompilationPreservesMeaning`).
- Different tags can be stored alike (`Criteria.EncodingCollides`); asking for a tag then finds
  events the in-memory store would not, exactly as `Criteria.AgreeExactly` says.
- A stream opened at a bare position can also deliver events at or below it
  (`Tailing.LowerPositionAfterHigher`); it never does if and only if the store is clean when
  it is opened (`TailingExactness.OnlyLaterExactlyWhenClean`).
- Enqueues that overlap open more lanes than allowed; with up to `k` at once the limit is kept if
  and only if `k` is one or no lane is allowed (`DeadLetters.LaneLimitExactly`).
- A request is never settled if a failure frame does not decode, or if a stream's sink throws
  after the stream's id went to that request; these are the only two ways
  (`Settlement.ReusedIdLosesARequest`, `Settlement.UntoldExactlyWhenLost`).
- Text loses a byte order mark in front and has lone surrogates replaced, so it arrives as sent if
  and only if it is well formed and unmarked (`Wire.Str16Exactly`); for whole events, messages and
  answers the exact conditions are `EventCodec.EventExactly`, `MessageCodec.MessageExactly` and
  `MessageCodec.ResultExactly`. Keys can collapse (`MessageCodec.MarkedKeysCollapse`), and a failure
  whose code is a lone mark reads as a success (`MessageCodec.FailureReadsAsFailure`).
- A name whose local part has a dot comes back divided elsewhere (`EventCodec.DottedNameMoves`,
  `EventCodec.NameExactly`, `Scheduling.PlannedExactly`).
- A metadata key `__proto__` is lost by the event reader, also with a byte order mark in front
  (`EventCodec.AssignedLosesProto`, `EventCodec.MarkedProtoIsLost`), though not by the message reader.
- A bigint in message metadata comes back rounded unless a double holds it
  (`MessageCodec.BigIntIsRounded`, `MessageCodec.BigIntsExactly`).
- A floor hides the error of a record below it that cannot be read or whose payload the serializer
  refuses (`EventCodec.FloorHidesAnError`, `EventCodec.RefusedBelowTheFloor`); otherwise it is a
  filter (`EventCodec.FloorIsAFilter`).
- A record reads back if and only if its length fits its prefix and the serializer accepts it or it
  is not wanted (`EventCodec.RecordReadsBackExactly`).

## Model

| member | source | states |
|---|---|---|
| Criteria.TagRoundTrip | packages/postgres/src/event-row.ts:43-48 | reading an encoded tag back gives the tag exactly when its key is free of U+001F |
| Criteria.EncodingIsInjective | packages/postgres/src/criteria-sql.ts:30-34 | with plain keys, two tags share their stored form only when they are the same tag |
| Criteria.EncodingCollides | packages/postgres/src/criteria-sql.ts:30-34 | tags with different keys can share their stored form if and only if one key is the other, U+001F and anything |
| Criteria.BuildCriteriaWhere | packages/postgres/src/criteria-sql.ts:36-89 | the builder's loop over `either` yields the fragment, parameters and next index that the meaning theorems are about |
| Criteria.ParametersAreContiguous | packages/postgres/src/criteria-sql.ts:20-89 | parameters fill exactly the indices from the start index to the next one minus one |
| Criteria.BuildMeans | packages/postgres/src/criteria-sql.ts:36-89 | read by SQL's grammar inside any larger statement, the fragment has the value of the criteria, or is a syntax error exactly when some `either` is empty |
| Criteria.EncodedMatch | packages/core/src/event-sourcing/in-memory.ts:54-85 | matching on stored tags is the in-memory store's matching |
| Criteria.AgreeExactly | packages/postgres/src/criteria-sql.ts:30-34 | asking for a tag finds the same events in both stores if and only if its key is plain, given events with plain keys, and on all events if and only if its value is free of U+001F too |
| Criteria.CompilationPreservesMeaning | packages/postgres/src/criteria-sql.ts:36-89 | the WHERE fragment with its parameters selects a row exactly when the event matches the criteria |
| Criteria.CompiledQuery | packages/core/src/event-sourcing/dcb-query.ts:140-150 | compiling a query keeps its meaning and every tag the lock targets are taken from |
| Criteria.BuildConflictCheck | packages/postgres/src/postgres-event-store.ts:147-159 | the loop over the reads builds one clause per read, numbered on |
| Criteria.ConflictCheckMeans | packages/postgres/src/postgres-event-store.ts:147-159 | the multi-read OR selects exactly the rows above some read's own marker that match that read |
| AppendProtocol.LastPosition | packages/postgres/src/postgres-event-store.ts:206-228 | a read's marker is its last match, or the position just below its start |
| AppendProtocol.CoveringGuards | packages/postgres/src/postgres-event-store.ts:103-124 | when the condition's query covers its reads, the locks taken exclude the writers of every item read |
| AppendProtocol.ConflictIsTheStatement | packages/postgres/src/postgres-event-store.ts:137-168 | the conflict test of the protocol is a committed row that the generated statement selects |
| AppendProtocol.StepKeepsInv | packages/postgres/src/postgres-event-store.ts:137-205 | every step of every transaction and read keeps positions, locks, the per-tag prefix, read completeness and checked reads |
| AppendProtocol.VisibleEventsOfATagAreAPrefix | packages/postgres/src/postgres-event-store.ts:87-101 | in every reachable state an uncommitted event of a tag lies above every committed event of it |
| AppendProtocol.MarkerStaysTrue | packages/postgres/src/postgres-event-store.ts:206-228 | in every state after a read, nothing unseen matches at or below its marker, committed or in flight |
| AppendProtocol.RefusesExactlyWhenStale | packages/postgres/src/postgres-event-store.ts:137-168 | the conflict check refuses if and only if some read is stale, each judged by its own marker |
| AppendProtocol.GuardedAppendSawEverything | packages/postgres/src/postgres-event-store.ts:103-168 | the next row's guarantee from the weaker premise that the locks held exclude the writers of every item read |
| AppendProtocol.CommittedAppendSawEverything | packages/postgres/src/postgres-event-store.ts:103-168 | once a conditional append has committed, the committed matches of each of its reads, its own events left out, are exactly what that read returned |
| AppendHistory.CommitStoresTheCall | packages/postgres/src/postgres-event-store.ts:170-204 | a commit adds to the log exactly the events its call asked for, at least one, one row each, in order, at new positions, and leaves every other row alone |
| AppendHistory.LogIsWhatWasCommitted | packages/postgres/src/postgres-event-store.ts:137-204 | at every point of every run the log holds a row if and only if some commit so far stored it |
| AppendHistory.TransactionIsItsCall | packages/postgres/src/postgres-event-store.ts:103-204 | an open transaction has the events and the condition its call came with |
| AppendHistory.ReadReturnsEveryMatch | packages/postgres/src/postgres-event-store.ts:206-228 | a read returns every committed match from its start on, and the greatest of their positions as its marker |
| AppendHistory.CheckDecides | packages/postgres/src/postgres-event-store.ts:137-168 | with its locks in hand a conditional append can be refused if and only if some read is stale, and can go on if and only if none is |
| AppendHistory.RefusedLeavesNothing | packages/postgres/src/postgres-event-store.ts:137-168 | a refused or aborted append leaves no row and no lock behind |
| AppendHistory.LocksAreTheWritePlan | packages/postgres/src/postgres-event-store.ts:103-111 | the locks of an append are exactly those the write plan asks for its tags |
| AppendHistory.SafeMeansASharedLeaf | packages/postgres/src/postgres-event-store.ts:87-124 | with leaf keys apart from the intents, a query is safe if and only if every two of its items have a leaf key in common |
| AppendExactness.UnsafeQueryBreaks | packages/postgres/src/postgres-event-store.ts:87-124 | for two items whose locks do not exclude each other there is a run in which a committed append missed an event |
| AppendExactness.ExactlyTheSafeQueries | packages/postgres/src/postgres-event-store.ts:87-168 | for every hash, intent keys included, and every query, the guarantee holds in all runs if and only if the locks of every two items exclude each other |
| FusedSnapshot.LoadIsReplay | packages/postgres/src/postgres-snapshotting-event-store.ts:104-172 | a load from a snapshot backed by any earlier read, however old, folds to the state of a full replay, with the plain read's marker |
| FusedSnapshot.FusedReadRefinesReplay | packages/postgres/src/postgres-snapshotting-event-store.ts:104-196 | for a key with a safe query the same holds in every world reached by interleaved appends, loads and snapshot writes, whatever is cached under other keys |
| FusedSnapshot.StartFloorSkips | packages/postgres/src/postgres-snapshotting-event-store.ts:104-172 | with a start of its own, the read returns every match after the snapshot exactly when none lies below the start |
| FusedSnapshot.UnsafeQueryLosesAnEvent | packages/postgres/src/postgres-snapshotting-event-store.ts:104-196 | for a key whose query is not safe there is a run after which a load misses a committed event |
| FusedSnapshot.CachedExactlyWhenSafe | packages/postgres/src/postgres-snapshotting-event-store.ts:104-196 | every load under a key agrees with full replay in all worlds if and only if that key's query is safe, for the fold that keeps every event |
| FusedSnapshot.FusedReturnsExactly | packages/postgres/src/postgres-snapshotting-event-store.ts:104-172 | whatever is cached and whatever start is asked for: the snapshot, every committed match past both, and the marker of the last, or just below where the scan began |
| FusedSnapshot.AnyLoadCanBeCached | packages/postgres/src/postgres-snapshotting-event-store.ts:174-196 | any load can be written to the cache, over a newer one too, and is what the next read finds |
| FusedSnapshot.ReplayAppliesTheHistory | packages/postgres/src/postgres-snapshotting-event-store.ts:104-172 | full replay applies every committed match, each once, in position order |
| AdvisoryLocks.HashLockKey | packages/postgres/src/advisory-locks.ts:46-55 | the byte loop computes 64-bit FNV-1a, read as a signed integer |
| AdvisoryLocks.KnownHashes | packages/postgres/src/advisory-locks.ts:46-55 | the published hashes of nothing and of `a` |
| AdvisoryLocks.TextsAreDistinct | packages/postgres/src/advisory-locks.ts:57-69 | the texts hashed for different key classes and tags are different |
| AdvisoryLocks.UniqueSorted | packages/postgres/src/advisory-locks.ts:137-139 | strictly increasing and with exactly the given keys |
| AdvisoryLocks.AcquireWriteLocks | packages/postgres/src/advisory-locks.ts:84-108 | the loops issue exactly the write plan, in order |
| AdvisoryLocks.AcquireReadLocks | packages/postgres/src/advisory-locks.ts:114-135 | the loops issue exactly the read plan, in order |
| AdvisoryLocks.WritePlanAsks | packages/postgres/src/advisory-locks.ts:84-108 | a writer asks exclusively for exactly the leaves of its targets, and shared for exactly their type intents and the global one |
| AdvisoryLocks.ReadPlanAsks | packages/postgres/src/advisory-locks.ts:114-135 | a reader asks the other way round |
| AdvisoryLocks.PlansAreOrderly | packages/postgres/src/advisory-locks.ts:84-135 | every plan asks for leaves, then type intents, then the global intent, each increasing |
| AdvisoryLocks.SomebodyCanProceed | packages/postgres/src/advisory-locks.ts:84-135 | with keys that can be ranked, in every reachable state with unfinished transactions some waiting request can be granted |
| AdvisoryLocks.FullReadExcludesWriters | packages/postgres/src/advisory-locks.ts:84-135 | no writer has its full lock set while an empty-target reader has its own |
| AdvisoryLocks.WritersOfOneLeafExclude | packages/postgres/src/advisory-locks.ts:84-108 | two writers that share a leaf never both have their full lock sets |
| AdvisoryLocks.CollidingClassesDeadlock | packages/postgres/src/advisory-locks.ts:84-135 | for every assignment of keys that cannot be ranked there is a run that deadlocks |
| AdvisoryLocks.DeadlockFreeExactly | packages/postgres/src/advisory-locks.ts:84-135 | for every assignment of keys, no run deadlocks if and only if the keys can be ranked |
| Tailing.TailStream.constructor | packages/postgres/src/postgres-event-store.ts:414-431 | a gap-aware token resumes at its tuple, anything else at a bare position |
| Tailing.TailStream.Absorb | packages/postgres/src/postgres-event-store.ts:538-549 | the loop over fetched rows buffers them in order and leaves the cursor at the last |
| Tailing.TailStream.TakeLook | packages/postgres/src/postgres-event-store.ts:549-555 | an answered look moves the cursor to it, an unanswered one leaves it |
| Tailing.TailStream.Next | packages/postgres/src/postgres-event-store.ts:602-604 | hands out the oldest buffered event and removes it |
| Tailing.TailStream.ProgressToken | packages/postgres/src/postgres-event-store.ts:629-631 | the look's token, only while nothing is buffered |
| Tailing.NothingAppearsBehind | packages/postgres/src/postgres-event-store.ts:472-548 | a transaction id below the watermark stays below it, and rows that become visible lie beyond it |
| Tailing.FetchFromTuple | packages/postgres/src/postgres-event-store.ts:505-548 | a batch from a tuple cursor extends what was delivered to exactly what is due up to its last row |
| Tailing.FetchFromPosition | packages/postgres/src/postgres-event-store.ts:481-504 | the same for the first batch of a stream opened at a position |
| Tailing.JumpFromTuple | packages/postgres/src/postgres-event-store.ts:433-470 | the jump over a quiet stretch skips nothing that is due |
| Tailing.EventTokenIsSafe | packages/postgres/src/postgres-event-store.ts:538-548 | an event's token stands for exactly what had been taken up to that event |
| Tailing.StepKeepsInv | packages/postgres/src/postgres-event-store.ts:433-555 | every database step, fetch, look, take and restart keeps delivered rows equal to the rows due |
| Tailing.TakenInOrderExactlyOnce | packages/postgres/src/postgres-event-store.ts:472-548 | over every run with restarts, what the reader took is in strict (id, position) order, so nothing twice, and committed and wanted |
| Tailing.NothingBehindTheCursor | packages/postgres/src/postgres-event-store.ts:472-548 | no event ever becomes visible at or behind the cursor |
| Tailing.DeliveredOrAhead | packages/postgres/src/postgres-event-store.ts:472-548 | a wanted committed event past the start is delivered if and only if it is not ahead of the cursor, and a fetch selects it once it is under the watermark |
| Tailing.EmptyFetchMeansCaughtUp | packages/postgres/src/postgres-event-store.ts:472-548 | with nothing in flight, an empty fetch and an empty buffer, every wanted event past the start has been taken |
| Tailing.ProgressTokenIsSafe | packages/postgres/src/postgres-event-store.ts:549-631 | a progress token names no point past an untaken event of this or any later state |
| Tailing.ReopeningContinues | packages/postgres/src/postgres-event-store.ts:414-431 | a stream reopened at any token handed out has ahead of it exactly the wanted events the reader had not taken |
| Tailing.FromTheBeginning | packages/postgres/src/postgres-event-store.ts:481-543 | when every position lies past the start, delivered means exactly committed, wanted and not ahead of the cursor |
| Tailing.LowerPositionAfterHigher | packages/postgres/src/postgres-event-store.ts:481-543 | for every batch size, a run in which a stream opened at position 1 delivers position 2 and then position 1 |
| TailingProgress.LookAnswers | packages/postgres/src/postgres-event-store.ts:433-470 | a look answers if and only if the stream is filtered, nothing it wants is settled ahead and some row is settled, and then with the newest of these |
| TailingProgress.LookReports | packages/postgres/src/postgres-event-store.ts:549-555 | an answer moves the cursor and is the progress token once nothing waits; without one there is no token |
| TailingProgress.ReportStays | packages/postgres/src/postgres-event-store.ts:549-631 | a progress token stays until the next look, a fetch that finds something or a restart |
| TailingProgress.FetchWithdrawsTheReport | packages/postgres/src/postgres-event-store.ts:538-549 | a fetch that finds rows queues them in order and withdraws the token |
| TailingProgress.QuietStretchIsReported | packages/postgres/src/postgres-event-store.ts:433-555 | a filtered stream that has run dry reports the newest settled row, so its token moves over rows it never wanted |
| TailingProgress.EveryEventLeavesAToken | packages/postgres/src/postgres-event-store.ts:538-548 | every event taken, through any restarts, has left a token that stands for everything taken up to it |
| TailingProgress.ReportIsAToken | packages/postgres/src/postgres-event-store.ts:629-631 | a report can be kept as a token with what had been taken |
| TailingExactness.CleanIsEnough | packages/postgres/src/postgres-event-store.ts:414-555 | on a clean store no run of the stream, whatever the batch size, delivers anything at or below the position it was opened at |
| TailingExactness.CleanIsNeeded | packages/postgres/src/postgres-event-store.ts:414-555 | on any other store some run does, at every batch size: an older transaction, an out-of-order row, a position still to come or a jump past an open transaction |
| TailingExactness.OnlyLaterExactlyWhenClean | packages/postgres/src/postgres-event-store.ts:414-555 | for every query, batch size and store, the two together: if and only if |
| DeadLetters.Replayer.Claim | packages/postgres/src/postgres-dead-letter-queue.ts:363-376 | takes a letter's lease exactly when it is there and nobody's lease on it is live |
| DeadLetters.Replayer.Release | packages/postgres/src/postgres-dead-letter-queue.ts:384-395 | clears a lease only while it is still the one taken |
| DeadLetters.Replayer.WalkLane | packages/postgres/src/postgres-dead-letter-queue.ts:435-503 | the loop over a lane, with its hand-over-hand claims, computes the walk that the next rows are about |
| DeadLetters.Replayer.ProcessOne | packages/postgres/src/postgres-dead-letter-queue.ts:397-433 | the loop over candidates claims, reads the lane again, judges it, and walks it or hands it back |
| DeadLetters.WalkExactly | packages/postgres/src/postgres-dead-letter-queue.ts:435-503 | a walk replays the letters up to the first that fails, or behind which none can be claimed: exactly those have their effects committed and are gone, a failed one keeps its place and is free, the others are untouched |
| DeadLetters.ProcessReplays | packages/postgres/src/postgres-dead-letter-queue.ts:397-503 | processing replays the lane of the first candidate that can be claimed and is wanted, and has handed back those before it |
| DeadLetters.ProcessFindsNone | packages/postgres/src/postgres-dead-letter-queue.ts:397-433 | without such a candidate nothing is replayed, and what could be claimed has been handed back |
| DeadLetters.ReleasedIsFree | packages/postgres/src/postgres-dead-letter-queue.ts:384-395 | a letter handed back can be claimed at once, and another's lease is left alone |
| DeadLetters.ClaimedIsHeld | packages/postgres/src/postgres-dead-letter-queue.ts:363-376 | a letter claimed can be claimed again exactly once its lease has run its time |
| DeadLetters.WalkIsARun | packages/postgres/src/postgres-dead-letter-queue.ts:435-503 | an undisturbed walk is a run of the protocol's steps to the same table and effects |
| DeadLetters.ProcessIsARun | packages/postgres/src/postgres-dead-letter-queue.ts:397-503 | and so is the whole of `process` from its candidates on |
| DeadLetters.ClaimedLetterIsFree | packages/postgres/src/postgres-dead-letter-queue.ts:357-376 | a claim that succeeds takes a letter that no live walker holds |
| DeadLetters.FreshLaneStartsAtHead | packages/postgres/src/postgres-dead-letter-queue.ts:397-432 | the lane read after a claim starts with the claimed letter |
| DeadLetters.WalkMovesOn | packages/postgres/src/postgres-dead-letter-queue.ts:435-503 | after an eviction the next letter in hand is the head of the lane |
| DeadLetters.StepKeepsInv | packages/postgres/src/postgres-dead-letter-queue.ts:274-503 | every read and insert of an enqueue, claim, walk, failure, release and crash keeps leases exclusive and lanes evicted from the front |
| DeadLetters.OneAtATimeInLaneOrder | packages/postgres/src/postgres-dead-letter-queue.ts:334-503 | at most one walker is at work in a lane, at a letter all of whose predecessors have been replayed |
| DeadLetters.EffectsExactlyOnceInLaneOrder | packages/postgres/src/postgres-dead-letter-queue.ts:435-503 | a letter's effects are committed exactly when it is evicted, once, and in lane order |
| DeadLetters.EnqueueExactly | packages/postgres/src/postgres-dead-letter-queue.ts:274-289 | a letter is taken in if and only if its lane is new and there is room for a lane, or it is there and has room for a letter |
| DeadLetters.EnqueuedIsLast | packages/postgres/src/postgres-dead-letter-queue.ts:274-289 | it goes behind all letters of its lane, unleased, and nothing else changes |
| DeadLetters.LanesStayWithinTheirLimit | packages/postgres/src/postgres-dead-letter-queue.ts:274-304 | no lane grows past its limit, letters about to be inserted included |
| DeadLetters.LaneCountIsBounded | packages/postgres/src/postgres-dead-letter-queue.ts:274-289 | with up to `k` enqueues at once there are at most `k - 1` lanes more than allowed |
| DeadLetters.OverlappingEnqueuesExceedTheLanes | packages/postgres/src/postgres-dead-letter-queue.ts:274-289 | a run reaches that bound |
| DeadLetters.LaneLimitExactly | packages/postgres/src/postgres-dead-letter-queue.ts:274-289 | with up to `k` enqueues between their reads and their insert, the number of lanes stays within its limit in all runs if and only if `k` is one or no lane is allowed |
| Scheduling.ScheduleRoundTrip | packages/postgres/src/postgres-scheduling-event-store.ts:145-222 | the event that fires is the event that was scheduled exactly when its tag keys are plain |
| Scheduling.PlannedExactly | packages/postgres/src/postgres-scheduling-event-store.ts:145-222 | with its name in two parts, exactly when its local name has no dot either; what the log stores of it is the same in any case |
| Scheduling.UnitOfWork.InsertSchedule | packages/postgres/src/postgres-scheduling-event-store.ts:145-168 | a pending row under the event's own id, due when asked for |
| Scheduling.UnitOfWork.CancelOnTx | packages/postgres/src/postgres-scheduling-event-store.ts:170-188 | what each prior status is answered and changed to |
| Scheduling.UnitOfWork.FireBatch | packages/postgres/src/postgres-scheduling-event-store.ts:255-266 | the loop over locked rows appends each event and flips its row, in order |
| Scheduling.StepKeepsInv | packages/postgres/src/postgres-scheduling-event-store.ts:145-273 | every step of callers and workers keeps log, rows, row locks and answers in agreement |
| Scheduling.FiresExactlyOnce | packages/postgres/src/postgres-scheduling-event-store.ts:229-273 | the log holds a schedule's event exactly when its committed row is appended, never twice, never early, and as the row has it |
| Scheduling.FinalStatusStays | packages/postgres/src/postgres-scheduling-event-store.ts:170-273 | a committed row keeps its event and due time, and its status once final |
| Scheduling.AnswersAreFinal | packages/postgres/src/postgres-scheduling-event-store.ts:170-188 | a committed `cancelled` never fires, a committed `already-appended` is in the log for good |
| Scheduling.RowsAreWhatWasScheduled | packages/postgres/src/postgres-scheduling-event-store.ts:145-168 | every committed row is of an event some call scheduled and due when that call asked for it |
| Scheduling.LogIsWhatWasScheduled | packages/postgres/src/postgres-scheduling-event-store.ts:145-273 | whatever is in the log was scheduled by some call, fired no earlier than that call asked for, and is the very event exactly when its tag keys are plain |
| Scheduling.CancelAnswers | packages/postgres/src/postgres-scheduling-event-store.ts:170-188 | what a cancel answers for each status of the row it sees, and what it changes |
| Scheduling.CancelledExactly | packages/postgres/src/postgres-scheduling-event-store.ts:170-188 | a committed row is cancelled if and only if some committed cancel was answered so |
| Scheduling.BatchFires | packages/postgres/src/postgres-scheduling-event-store.ts:255-266 | a worker's loop appends the event of every row of its batch, in order, and marks those rows and no others |
| Scheduling.TickFiresAllThatIsDue | packages/postgres/src/postgres-scheduling-event-store.ts:229-266 | a tick with room to spare fires everything pending, due and not locked by another |
| Scheduling.TickFiresTheOldest | packages/postgres/src/postgres-scheduling-event-store.ts:238-252 | a tick without room fires the oldest |
| Gossip.Registry.ClaimSub | packages/rabbitmq/src/distributed-subscriber-registry.ts:273-289 | closed, failed and full refuse and change nothing; otherwise the mirror has the claim and it is to be published |
| Gossip.Registry.ReleaseSub | packages/rabbitmq/src/distributed-subscriber-registry.ts:291-297 | the entry is dropped in every case, and announced unless closed or failed |
| Gossip.Registry.Terminate | packages/rabbitmq/src/distributed-subscriber-registry.ts:142-149 | every local subscriber is failed exactly once and the mirror is emptied |
| Gossip.Registry.HandleGossip | packages/rabbitmq/src/distributed-subscriber-registry.ts:169-210 | own messages are ignored, others applied, a full mirror ends the registry, and another's sync request is answered with every owned claim |
| Gossip.Registry.Deliver | packages/rabbitmq/src/distributed-subscriber-registry.ts:303-321 | a delivery goes to the owner the mirror names, or nowhere |
| Gossip.AnswerTells | packages/rabbitmq/src/distributed-subscriber-registry.ts:194-208 | an answer leaves every listener with the truth about what the answerer owns |
| Gossip.StepKeepsInv | packages/rabbitmq/src/distributed-subscriber-registry.ts:169-297 | joins, claims, releases, publishes, deliveries and handling keep what is under way ending in the truth, or a sync request pending |
| Gossip.MirrorsConverge | packages/rabbitmq/src/distributed-subscriber-registry.ts:169-297 | once every message is handled each mirror holds exactly the union of what all instances own, as its owner has it, late joiners included |
| Gossip.HeardMeansAgreed | packages/rabbitmq/src/distributed-subscriber-registry.ts:169-297 | before that, what an instance will have heard of a subscription is the truth unless its sync request is still pending |
| Gossip.MirrorsHoldWhatWasCalled | packages/rabbitmq/src/distributed-subscriber-registry.ts:169-297 | once every message is handled, every mirror has of every subscription what the last claim or release call made of it |
| Gossip.OwnersHaveWhatWasCalled | packages/rabbitmq/src/distributed-subscriber-registry.ts:273-297 | an owner has that at once |
| Gossip.SomethingCanBeDone | packages/rabbitmq/src/distributed-subscriber-registry.ts:169-297 | while anything is left to connect, publish, deliver or handle, some instance can go on |
| Bytes.U32RoundTrip | packages/kronosdb/src/protocol/kronosdb-protocol.ts:44-50 | a little-endian u32 reads back as written |
| Bytes.Writer.Ensure | packages/kronosdb/src/protocol/kronosdb-protocol.ts:149-157 | doubling makes room and keeps what was written |
| Bytes.Writer.Write | packages/kronosdb/src/protocol/kronosdb-protocol.ts:235-239 | appends exactly the bytes, whether or not the buffer moved |
| Framing.FrameRoundTrip | packages/kronosdb/src/protocol/kronosdb-protocol.ts:253-286 | a frame's bytes give its length and, decoded, the frame |
| Framing.FrameWriter.WriteFrame | packages/kronosdb/src/native-transport.ts:205-234 | a frame is appended whole or, when the body throws or the frame is too large, not at all; everything written is exactly the frames sent |
| Framing.FrameWriter.Flush | packages/kronosdb/src/native-transport.ts:194-202 | the socket has been handed exactly the frames sent so far |
| Framing.FrameWriter.Shutdown | packages/kronosdb/src/native-transport.ts:237-247 | a graceful close hands over what was still buffered |
| Framing.FrameReader.Consume | packages/kronosdb/src/native-transport.ts:385-423 | the loop over a buffer dispatches, stops and keeps a tail as one pass over it does |
| Framing.FrameReader.OnData | packages/kronosdb/src/native-transport.ts:425-455 | after any chunk the state is that of one pass over everything received; the recursion ends |
| Framing.ParseSplits | packages/kronosdb/src/native-transport.ts:385-455 | parsing a stream is parsing a part of it and going on |
| Framing.ChunkingDoesNotMatter | packages/kronosdb/src/native-transport.ts:385-455 | any cut of any byte stream gives the same frames and the same verdict |
| Framing.FramesArrive | packages/kronosdb/src/native-transport.ts:194-455 | the frames sent, flushed and cut anywhere, are dispatched exactly and in order, up to one that ends the connection |
| Framing.AllReceived | packages/kronosdb/src/native-transport.ts:385-455 | with a receiver that never ends the connection, those are all of them |
| Framing.PartialArrival | packages/kronosdb/src/native-transport.ts:385-455 | while part of the bytes is missing, the frames dispatched are a prefix of those |
| Framing.ParsedIsWhatCame | packages/kronosdb/src/native-transport.ts:385-455 | whatever bytes arrive, the frames dispatched are, encoded again, exactly the bytes read, none over the limit; reading stops only for a bad length or the receiver, and what is left is part of a frame |
| Framing.FrameLayout | packages/kronosdb/src/protocol/kronosdb-protocol.ts:253-286 | where length, kind, flags, stream and body of a frame lie |
| Settlement.Slots.NextStream | packages/kronosdb/src/native-transport.ts:458-463 | with a free id the loop ends, at the first free id after the last one, zero skipped |
| Settlement.NextExistsExactly | packages/kronosdb/src/native-transport.ts:458-463 | the search has an id to end at if and only if not every id is taken |
| Settlement.Slots.Begin | packages/kronosdb/src/native-transport.ts:467-508 | a slot is there exactly when its frame could be written, otherwise the request is rejected |
| Settlement.Slots.CancelStream | packages/kronosdb/src/native-transport.ts:514-523 | a cancel ends its own stream and does nothing once the id belongs to another |
| Settlement.Slots.FrameArrives | packages/kronosdb/src/native-transport.ts:269-288 | the slot is found, and goes with a unary or last frame before the sink runs |
| Settlement.Slots.SinkThrows | packages/kronosdb/src/native-transport.ts:291-302 | whatever sits at the id is deleted and the stream whose sink threw is failed |
| Settlement.Slots.FailedArrives | packages/kronosdb/src/native-transport.ts:282-286 | the slot goes in any case, and is failed only if the failure decodes |
| Settlement.Slots.Shutdown | packages/kronosdb/src/native-transport.ts:237-258 | every open slot is failed exactly once; a second close does nothing |
| Settlement.StepKeepsInv | packages/kronosdb/src/native-transport.ts:237-303 | everything started is live, about to be failed, over or lost, and only one of these, whatever callbacks do |
| Settlement.LiveIdsAreSound | packages/kronosdb/src/native-transport.ts:458-508 | live ids are nonzero and belong to different requests |
| Settlement.FrameReachesItsRequest | packages/kronosdb/src/native-transport.ts:269-288 | a frame is told to the request or stream started with its id, as the last one if unary or marked so, and the id is free again exactly then |
| Settlement.EndReachesItsRequest | packages/kronosdb/src/native-transport.ts:282-286 | so are a failure that decodes and a cancel, which free the id |
| Settlement.StepTells | packages/kronosdb/src/native-transport.ts:237-303 | every step tells and frees just what it is about, and leaves every other slot alone |
| Settlement.SettlesAtMostOnce | packages/kronosdb/src/native-transport.ts:269-303 | no unary request is ever settled twice |
| Settlement.SettledUnlessLost | packages/kronosdb/src/native-transport.ts:237-303 | once the transport has closed, everything started has been told how it ended if and only if it is not lost |
| Settlement.LostExactlyThen | packages/kronosdb/src/native-transport.ts:282-302 | a step loses something exactly when a failure does not decode, or a sink throws and its id is another's |
| Settlement.LostByAStep | packages/kronosdb/src/native-transport.ts:282-302 | which keys are lost at any point of a run: exactly those whose slot some step took away untold |
| Settlement.UntoldExactlyWhenLost | packages/kronosdb/src/native-transport.ts:237-303 | after the close a request or stream was never told how it ended if and only if some step of the run lost that very one |
| Settlement.SettledExactlyOnce | packages/kronosdb/src/native-transport.ts:237-303 | in a run without such steps every request has been settled exactly once by the close |
| Settlement.NothingAfterTheEnd | packages/kronosdb/src/native-transport.ts:237-303 | after an end, failure, cancel or close nothing is told but the one failure of a sink that throws |
| Settlement.ThrowAfterTheEnd | packages/kronosdb/src/native-transport.ts:288-302 | that happens exactly when the sink throws with its slot already gone |
| Settlement.ReusedIdLosesARequest | packages/kronosdb/src/native-transport.ts:287-302 | a reachable state, ids wrapped around, in which a throwing sink has deleted another's request |
| Settlement.UndecodableFailureLosesARequest | packages/kronosdb/src/native-transport.ts:282-286 | a reachable state in which an undecodable failure has left its request unsettled |
| Subscription.Subscribe | packages/kronosdb/src/kronosdb-subscription.ts:66-84 | a window outside the positive u32 range is refused; otherwise all of it is granted and nothing waits |
| Subscription.Consumer.OnEvents | packages/kronosdb/src/kronosdb-subscription.ts:136-155 | a batch waits in order behind what waits already; nothing is accepted once completed |
| Subscription.Consumer.OnProgress | packages/kronosdb/src/kronosdb-subscription.ts:147-151 | a report remembers how many records came before it |
| Subscription.Consumer.Pull | packages/kronosdb/src/kronosdb-subscription.ts:114-134 | the next event in arrival order, stepping over other records; what waits is discarded and the subscription ended if and only if unreadable bytes come first |
| Subscription.Consumer.Next | packages/kronosdb/src/kronosdb-subscription.ts:184-203 | hands out the first waiting event, nothing only if none waits or unreadable bytes come first, and grants credit exactly when a quarter of the window or less is left |
| Subscription.Consumer.Peek | packages/kronosdb/src/kronosdb-subscription.ts:205-208 | shows the first waiting event and takes nothing |
| Subscription.Consumer.Progress | packages/kronosdb/src/kronosdb-subscription.ts:108-112 | the newest report whose preceding records have all been taken |
| Subscription.Consumer.HasNextAvailable | packages/kronosdb/src/kronosdb-subscription.ts:210-212 | true whenever an event waits; true without one exactly while records that are no events stay counted |
| Subscription.Consumer.Close | packages/kronosdb/src/kronosdb-subscription.ts:226-232 | completes and discards what waits |
| Subscription.Consumer.CreditsBoundTheQueue | packages/kronosdb/src/kronosdb-subscription.ts:184-192 | with a server that honours credits at most the window waits, and an emptied queue leaves it more than a quarter to send |
| Subscription.ReachedIsNewest | packages/kronosdb/src/kronosdb-subscription.ts:108-112 | the reached report is the last one at or behind what was taken |
| Provider.ProvidedSubscription.Drain | packages/kronosdb/src/kronosdb-query-bus.ts:355-365 | the loop sends what permits allow, then a waiting terminal event once nothing is held |
| Provider.ProvidedSubscription.Offer | packages/kronosdb/src/kronosdb-query-bus.ts:367-379 | an update is sent, held, dropped after an ending, or ends the subscription by overflow |
| Provider.ProvidedSubscription.Grant | packages/kronosdb/src/kronosdb-query-bus.ts:234-241 | permits add up and drain what is held |
| Provider.ProvidedSubscription.Finish | packages/kronosdb/src/kronosdb-query-bus.ts:381-384 | a terminal event waits behind held updates |
| Provider.ApplyKeepsInv | packages/kronosdb/src/kronosdb-query-bus.ts:355-384 | every operation keeps accepted equal to sent and then held, and sent plus permits equal to granted |
| Provider.UpdatesGoOutInOrder | packages/kronosdb/src/kronosdb-query-bus.ts:355-384 | over every run: an ordered prefix within the permits, held only without permits, one terminal event at the end, and after every accepted update unless it is an overflow |
| Provider.NothingAfterwards | packages/kronosdb/src/kronosdb-query-bus.ts:234-245 | a subscription no longer provided is never told anything again |
| Provider.OrdinaryRun | packages/kronosdb/src/kronosdb-query-bus.ts:355-384 | while nobody finishes or cancels, the subscription is alive if and only if offers never exceeded permits and buffer; then every offered update is accepted in order, otherwise the overflow has been told |
| Provider.SentExactly | packages/kronosdb/src/kronosdb-query-bus.ts:355-379 | what has been sent is the first offered updates, as many as permits were granted, and the rest waits |
| Provider.FinishSendsTheRest | packages/kronosdb/src/kronosdb-query-bus.ts:355-384 | after a finish the updates offered before it go out, none offered after it, then the terminal event, exactly once as many permits have been granted |
| Provider.LastFinishCounts | packages/kronosdb/src/kronosdb-query-bus.ts:381-384 | of several terminal events asked for before the end the last is told |
| Provider.CancelStops | packages/kronosdb/src/kronosdb-query-bus.ts:243-245 | a cancelled subscription is sent nothing more |
| Wire.SplitIsTwosComplement | packages/kronosdb/src/native-messaging.ts:79-91 | the split 32/32-bit form is the 64-bit two's complement form, negative values included |
| Doubles.NearestIsExact | packages/kronosdb/src/native-messaging.ts:288-296 | it is unchanged if and only if it is a double, if and only if the bits beyond 53 are zero |
| Doubles.NearestIsNearest | packages/kronosdb/src/native-messaging.ts:288-296 | what a sum of halves becomes is a double, and no double is nearer |
| Doubles.HalvesToEven | packages/kronosdb/src/native-messaging.ts:288-296 | halfway between two doubles, the one with an even last bit |
| Doubles.FirstInexact | packages/kronosdb/src/native-messaging.ts:288-296 | 2^53 + 1 becomes 2^53 and nothing smaller changes |
| Utf8.RoomSuffices | packages/kronosdb/src/protocol/kronosdb-protocol.ts:213-230 | three bytes per code unit are room enough for any text |
| Utf8.TextRoundTrip | packages/kronosdb/src/protocol/kronosdb-protocol.ts:94-110 | decoding what was encoded, strictly or leniently, gives the text with lone surrogates replaced and one U+FEFF in front dropped |
| Utf8.CarriedExactly | packages/kronosdb/src/protocol/kronosdb-protocol.ts:94-110 | that is the text itself if and only if it is well formed and does not begin with U+FEFF |
| Utf8.RefusedExactly | packages/kronosdb/src/protocol/kronosdb-protocol.ts:94-110 | the strict decoder accepts exactly the bytes that some text is encoded as |
| Utf8.KnownEncodings | packages/kronosdb/src/protocol/kronosdb-protocol.ts:213-230 | two, three and four bytes and a lone surrogate on known characters |
| Utf8.DecodeShort | packages/kronosdb/src/protocol/kronosdb-protocol.ts:94-110 | the character loop for short ASCII, with its way out at the first wide byte, is the decoder |
| Utf8.KeysArriveIntact | packages/kronosdb/src/native-messaging.ts:279-314 | keys that are all among what arrived of them are all intact, however many marks they begin with |
| Names.JoinedThenSplit | packages/core/src/messaging/messages.ts:46-60 | a qualified name is read from its string as it was if and only if its local part has no dot |
| Names.SplitThenJoined | packages/core/src/messaging/messages.ts:46-60 | a string with a dot is the string of the name read from it |
| Objects.ObjectHolds | packages/kronosdb/src/native-messaging.ts:279-314 | with distinct keys the object assigned holds every field and nothing else |
| Objects.ObjectArrives | packages/kronosdb/src/native-messaging.ts:279-314 | an object received with everything the one sent had came from fields that all arrived as they were |
| Wire.I64RoundTrip | packages/kronosdb/src/protocol/kronosdb-protocol.ts:75-83 | an integer read as two halves is the double nearest to the integer written, for every i64 |
| Wire.I64ExactlyDoubles | packages/kronosdb/src/protocol/kronosdb-protocol.ts:75-83 | it comes back as written if and only if a double holds it, that is, if the bits beyond 53 are zero |
| Wire.SafeRoundTrip | packages/kronosdb/src/protocol/kronosdb-protocol.ts:75-83 | safe integers come back as written |
| Wire.Str16RoundTrip | packages/kronosdb/src/protocol/kronosdb-protocol.ts:94-113 | length-prefixed text arrives as what is carried of it, to strict and lenient readers alike, and leaves what follows it |
| Wire.Str16Exactly | packages/kronosdb/src/protocol/kronosdb-protocol.ts:94-113 | it arrives as it was sent if and only if it is well formed and does not begin with U+FEFF |
| Wire.WriteText | packages/kronosdb/src/protocol/kronosdb-protocol.ts:213-233 | the ASCII loop and the encoder for the rest write exactly the text's UTF-8 form |
| Wire.WriteUtf8 | packages/kronosdb/src/protocol/kronosdb-protocol.ts:213-233 | the length patched in, and failure exactly when the encoded text exceeds its prefix |
| EventCodec.WriteMetadata | packages/kronosdb/src/native-events.ts:130-143 | nulls skipped and the count patched in afterwards; refuses exactly what does not fit |
| EventCodec.WriteTags | packages/kronosdb/src/native-events.ts:145-149 | a counted list of pairs |
| EventCodec.WriteRecord | packages/kronosdb/src/native-events.ts:120-158 | appends exactly the record's bytes, the length patched in modulo 2^32, or fails exactly when something does not fit |
| EventCodec.WriteRecords | packages/kronosdb/src/native-events.ts:160-163 | the count and every record in order, or failure exactly when something does not fit |
| EventCodec.PresentHolds | packages/kronosdb/src/native-events.ts:130-143 | what is sent of metadata is every entry that is not null, and nothing else |
| EventCodec.RecordInOrder | packages/kronosdb/src/native-events.ts:120-158 | a record is its length, a zero flag, its position, head, metadata, tags and payload, in this order |
| EventCodec.HeadInOrder | packages/kronosdb/src/native-events.ts:120-130 | identifier, full name, version and instant, read with nothing but lengths |
| EventCodec.ListInOrder | packages/kronosdb/src/native-events.ts:130-149 | a list is its count and each key before its value |
| EventCodec.RecordsRoundTrip | packages/kronosdb/src/native-events.ts:254-304 | reading a list of records gives the wanted events in order, unknown records stepped over, up to the first wanted event the serializer refuses |
| EventCodec.OutcomeExactly | packages/kronosdb/src/native-events.ts:254-304 | it fails if and only if a wanted event is refused, and otherwise gives all wanted events and consumes exactly the list's bytes |
| EventCodec.RecordReadsBackExactly | packages/kronosdb/src/native-events.ts:120-158 | a record written reads back, whatever follows, if and only if its length did not wrap and the serializer does not refuse an event that is wanted |
| EventCodec.WrittenEventsAreRead | packages/kronosdb/src/native-events.ts:120-163 | written events below 4 GiB read back if and only if the serializer accepts them all, each as what a reader makes of it, and as it was sent if and only if it is intact |
| EventCodec.EventExactly | packages/kronosdb/src/native-events.ts:120-247 | an event comes back as it was sent, nulls dropped, if and only if its texts are intact, no metadata key is `__proto__` and its local name has no dot |
| EventCodec.MetadataExactly | packages/kronosdb/src/native-events.ts:220-224 | metadata comes back if and only if keys and values are intact and no key is `__proto__`, although keys may collapse or change places on the way |
| EventCodec.NameExactly | packages/kronosdb/src/native-events.ts:200-238 | a name comes back if and only if its string is intact and its local part has no dot |
| EventCodec.DottedNameMoves | packages/kronosdb/src/native-events.ts:200-238 | a dot in the local part moves what is in front of it into the namespace |
| EventCodec.MarkedProtoIsLost | packages/kronosdb/src/native-events.ts:220-224 | the key U+FEFF and `__proto__` is lost too |
| EventCodec.AssignedLosesProto | packages/kronosdb/src/native-events.ts:220-224 | assigning received pairs to an object keeps the last value of each key and loses `__proto__` alone |
| EventCodec.FloorIsAFilter | packages/kronosdb/src/native-events.ts:254-304 | reading with a floor is reading everything and dropping lower positions, error and rest included, if and only if no record below the floor that cannot be read or is refused is in the way |
| EventCodec.FloorHidesAnError | packages/kronosdb/src/native-events.ts:254-304 | a record without a body below the floor: an error without the floor, nothing with it |
| EventCodec.RefusedBelowTheFloor | packages/kronosdb/src/native-events.ts:232-282 | any whole event below the floor whose payload the serializer refuses: an error without the floor, stepped over with it |
| EventCodec.PositionsAreExtra | packages/kronosdb/src/native-events.ts:254-283 | not asking for positions changes neither events nor errors |
| EventCodec.ReadEvents | packages/kronosdb/src/native-events.ts:289-304 | the eager loop gives the records' events and the marker, or fails |
| EventCodec.RawBatch.Take | packages/kronosdb/src/native-events.ts:317-331 | the lazy batch's next event, stepping over records that are not events |
| EventCodec.TakeThenRead | packages/kronosdb/src/native-events.ts:289-331 | taking one event lazily and reading on eagerly is reading everything eagerly |
| EventCodec.Drain | packages/kronosdb/src/native-events.ts:317-331 | draining lazily gives the events, and the error, of reading eagerly, on any bytes |
| MessageCodec.WriteI64Number | packages/kronosdb/src/native-messaging.ts:79-91 | halves for safe integers, a wide integer otherwise, and failure exactly outside the i64 range |
| MessageCodec.WriteMetadata | packages/kronosdb/src/native-messaging.ts:136-184 | entries without a wire form skipped, the count patched in, failure exactly when something does not fit |
| MessageCodec.WireHolds | packages/kronosdb/src/native-messaging.ts:136-184 | metadata on the wire has every key whose value has a wire form, with the value that stands for its kind, and nothing else |
| MessageCodec.KnownValues | packages/kronosdb/src/native-messaging.ts:64-70 | each kind of value behind its tag |
| MessageCodec.MetadataRoundTrip | packages/kronosdb/src/native-messaging.ts:279-314 | metadata reads back as an object of the normalised entries, keys and texts as carried, integers as the nearest double |
| MessageCodec.MetadataExactly | packages/kronosdb/src/native-messaging.ts:136-314 | metadata arrives as the wire has it if and only if every key and text is intact and every integer a double |
| MessageCodec.MarkedKeysCollapse | packages/kronosdb/src/native-messaging.ts:279-314 | two keys that differ in U+FEFF in front arrive as one, with the later value |
| MessageCodec.ReceivedExactly | packages/kronosdb/src/native-messaging.ts:279-314 | a value is received as sent, exactly unless it is text that is not intact or an integer that is no double |
| MessageCodec.BigIntsExactly | packages/kronosdb/src/native-messaging.ts:163-169 | a bigint comes back as the nearest double, so it and its key unchanged if and only if it is one and the key is intact |
| MessageCodec.NumbersComeBack | packages/kronosdb/src/native-messaging.ts:136-184 | an integral number in the i64 range comes back as it was, and minus zero as zero |
| MessageCodec.BigIntIsRounded | packages/kronosdb/src/native-messaging.ts:163-169 | 2^53 + 1 is accepted and comes back as 2^53 |
| MessageCodec.WriteMessage | packages/kronosdb/src/native-messaging.ts:202-217 | appends the message, its instructions and its sender |
| MessageCodec.MessageInOrder | packages/kronosdb/src/native-messaging.ts:202-217 | id, name, instant, payload type, revision and bytes, then metadata, read with nothing but lengths |
| MessageCodec.MessageRoundTrip | packages/kronosdb/src/native-messaging.ts:354-363 | id, name and payload type come back as carried, instant and payload bytes as sent and metadata normalised, whatever follows |
| MessageCodec.MessageExactly | packages/kronosdb/src/native-messaging.ts:202-363 | a message arrives as it was sent, its metadata as the wire has it, if and only if every text in it is intact and every integer in its metadata a double |
| MessageCodec.WriteResult | packages/kronosdb/src/native-messaging.ts:230-251 | appends the result's bytes, or fails exactly when something does not fit |
| MessageCodec.ResultInOrder | packages/kronosdb/src/native-messaging.ts:230-251 | no message id, request id, error code, and then a failure's message or a success's payload |
| MessageCodec.ResultRoundTrip | packages/kronosdb/src/native-messaging.ts:375-389 | the error code and message as carried when anything of the code is, otherwise the payload, possibly absent |
| MessageCodec.ResultExactly | packages/kronosdb/src/native-messaging.ts:230-389 | an answer arrives as it was given if and only if the texts the dispatcher sees of it are intact |
| MessageCodec.FailureReadsAsFailure | packages/kronosdb/src/native-messaging.ts:375-389 | a failure is taken for a success if and only if its code is U+FEFF alone |
| MessageCodec.ReadMetadataStepwise | packages/kronosdb/src/native-messaging.ts:279-314 | the loop over entries assigns what the list means, later keys winning, typed objects stepped over, unknown tags refused |

## Left out

- Sockets, TLS, gRPC, AMQP connections, timers, retries and the handshake: I/O around the protocols; a frame limit is fixed from the start.
- Database drivers, LISTEN/NOTIFY, schema and session timeouts: only what the issued statements mean is modelled.
- The generated protocol codec beyond the primitives the two hand-written codecs use: easy members.
- Token store, admission counters, shutdown latches, the dispatching side of the query bus, the command bus, the Axon Server and OTLP packages, observability: no property as hard as those here.
- Payloads stand as the serializer's bytes and a serializer as which payloads it refuses; a metadata value stands as its text or JSON form, so one whose conversion throws is not modelled.
- Text in Postgres is Unicode text without lone surrogates and U+0000; payload, metadata, version and instant of a row are one opaque body.
- Instants are integers: minus zero, which comes back as zero, is not told from it.
- EventCodec.WrittenEventsAreRead: for records below 4 GiB, which `EventCodec.RecordReadsBackExactly` shows to be necessary.
- Settlement.Slots.NextStream: needs a free id; `Settlement.NextExistsExactly` shows that the loop does not end without one.
- Subscription.Consumer.HasNextAvailable: a record that was stepped over stays counted, so the answer can stay true with nothing left.
- Subscription.Consumer.Next: the stream is taken to be open, so a granted credit reaches the server.
- DeadLetters.StepKeepsInv: leases are assumed to outlast live walkers, statements that fail to have no effect, enqueues to one lane to follow one another, as the events of a lane do, and one processing group is modelled.
- DeadLetters.Replayer.ProcessOne: speaks of one replayer undisturbed, its table a field; with others at work the steps are what holds.
- The order in which replay tries lanes, by when their heads were last touched, and the cause and diagnostics a failed letter takes on.
- Gossip.MirrorsConverge: for instances that neither close nor fail nor run out of room, and subscription ids that belong to one owner.
- AppendProtocol.CommittedAppendSawEverything: one append per transaction, and reads whose items exclude each other's writers as `AppendExactness.ExactlyTheSafeQueries` shows to be necessary.
- Tailing.ReopeningContinues: speaks of events past the position the stream was first opened at.
- Provider.UpdatesGoOutInOrder: the initial result, which is sent independently of updates, is not modelled.
