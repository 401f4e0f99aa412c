# Verification of the agent host's core protocols

This project models the parts of the host and of the in-container agent runner where a mistake is
hardest to see: the two-database session protocol, the delivery loop, container wake-ups, the
persistent state adapter, session routing, the secret store and the text and name algorithms around
the chat channels.

How the model is built:

- A **table** is a sequence of rows or a map. One SQL statement, and one transaction, is one atomic step.
- Code that changes state is a **class or a method with loops**, proved equal to a function of the old
  state. The functions then drive a **step machine** (`Apply`, `Run`): a run is any list of steps, and a
  step that its side cannot take changes nothing, so "for every list of steps" means every
  interleaving, crashes included. Main results are stated over `Run(INIT, steps)`, or over two
  stretches of a run when they say what a later state owes to an earlier one.
- Clocks, random ids, the outcome of a send and the verdict of a task script are parameters of the
  steps. Times are on one UTC scale; what SQL's `datetime` writes is rounded down to whole seconds.

| module | part of the system |
|---|---|
| `Wrappers`, `Text` | option and result types; the string operations several modules use |
| `SessionDb`, `HostSweep`, `SweepSession`, `PollLoop`, `Protocol` | the session tables, the host's sweep, the runner's loop, and all of them interleaved |
| `Delivery`, `ContainerRunner` | the outbound delivery loop; waking, spawning and losing containers |
| `StateAdapter` | locks with fencing tokens and the bounded queue |
| `Formatter`, `TelegramMarkdown`, `TelegramPasses`, `ChatSdkBridge` | transcript printing with its parser; Markdown repair and its passes; splitting long messages |
| `PlatformId`, `StartupBootstrap`, `Destinations` | platform ids and their backfill; per-agent destination names |
| `SessionManager`, `AgentActivity`, `Secrets`, `SecretListings` | session routing, the activity ledger, the secret store |

## Where the code falls short of what is said of it

The model follows the code. Each case has a lemma that shows it on concrete data, and the exact
condition where it is a matter of one.

- `src/host-sweep.ts:173-178` says that the order of the stages gives a woken container the chance to
  clear its predecessor's claims. `Protocol.SameTickKill`: the next stage of the same tick can kill it
  before it has; `Protocol.FreshContainerDiesOnlyForOldClaims` says exactly when. In the run of
  `Protocol.KilledBeforeEveryBoot` this happens six times over, and the message is failed without being looked at again.
- `src/host-sweep.ts:192-195` says that the clean-up after a crash also fires when the wake failed. A wake
  that throws ends the tick first: `Protocol.FailedWakeLeavesClaims`, and for whole runs
  `Protocol.FailingWakesNeverReset`. `SweepSession.AbsentContainerResetsExactlyWhen` has the exact condition.
  The exception also ends the pass (`src/host-sweep.ts:124-131`): `SweepSession.Sweep` says which sessions
  are swept, and in `SweepSession.FailingWakeBlocksTheRest` one failing session keeps all later ones waiting.
- `container/agent-runner/src/poll-loop.ts:80-87` says that the host gates "the same way".
  `Protocol.OldTriggerRowStarves`: the runner limits the batch before it looks at acks and triggers, so a
  due trigger row behind enough context rows is work to the host and out of every runner's reach;
  `Protocol.GatesDisagreeExactlyWhen` has the exact condition.
- `src/secrets/index.ts:310-318` calls an unassigned own secret in a selective group unreachable.
  `Secrets.RevocationOverReports`: revoking the seeded assignment reaches it;
  `Secrets.OverReportsExactlyWhen` has the exact condition, with a second case the comment does not name.
- `src/secrets/index.ts:303-304` promises the sessions whose container started before the update; the query
  compares the session's creation. `Secrets.RestartKeepsReport`: a restart never clears the report;
  `Secrets.CurrentButReportedExactlyWhen` has the exact condition.
- `src/container-runner.ts:169-179` deletes the session's entry without comparing the process.
  `ContainerRunner.LateReportAllowsTwins`: a second end report lets two successors live at once;
  `ContainerRunner.TwinsExactlyWhenLate`: exactly when it comes after a successor was registered.
- `src/session-manager.ts:106` promises one session per (messaging group, thread).
  `SessionManager.UniqueExactlyWhenSafe`: an empty thread id or a missing messaging group breaks it, nothing else does.
- `src/session-manager.ts:107-108` promises one shared session per agent group.
  `SessionManager.AgentSharedMoves`: a newer session of another wiring takes its messages over;
  `SessionManager.AgentSharedSticksExactlyWhen` has the exact condition.
- The start-up backfill is meant to be done once. `StartupBootstrap.IdempotentExactlyWhenRecognised`: it is,
  exactly when the part of every bot id before its first colon is a known bot.
- The Markdown repair is meant to keep code spans and text. `TelegramMarkdown.SanitizeExactly`: it does
  exactly when nothing in the rewritten text outside the spans reads like one of its placeholders, which takes a NUL.
- `src/state-sqlite.ts:150-154` returns the depth after its own append. `StateAdapter.OverlappingCalls`: read
  after an await, it can count another call's. `StateAdapter.EnqueueDepthExactlyWhen` has the exact condition
  when the others only append or only dequeue meanwhile; `StateAdapter.ReportedDepth` counts any mixture.

## Model

| member | source | states |
|---|---|---|
| SessionDb.NextEvenSeq | src/db/session-db.ts:80-83 | the smallest even number from 2 on that is above every sequence number in use |
| SessionDb.CountDue | src/db/session-db.ts:124-135 | positive exactly when some pending trigger row is due |
| SessionDb.CountDueCounts | src/db/session-db.ts:124-135 | every due trigger row counts once |
| SessionDb.PendingBatchExactly | container/agent-runner/src/db/messages-in.ts:52-78 | the batch is exactly the due, unacked rows with fewer than `limit` due rows after them, oldest first |
| SessionDb.TableIsNumberedFirstWrites | src/db/session-db.ts:85-122 | after any history of writes the table holds the first write of each id, in order, numbered 2, 4, 6, … |
| SessionDb.RowsAreAsWritten | src/db/session-db.ts:85-122 | each row holds its message, is pending and untried, and is scheduled as the message asks |
| SessionDb.FirstWritesKeepEveryId | src/db/session-db.ts:85-122 | dropping the later writes loses no id |
| SessionDb.FirstWritesAreDistinct | src/session-manager.ts:220-283 | what survives has pairwise distinct ids, each the first of its id in the history |
| SessionDb.ReplayChangesNothing | src/session-manager.ts:220-283 | replaying messages already written, in any number and order, leaves the table as it was |
| SessionDb.InboundDb.InsertMessage | src/db/session-db.ts:85-122 | the new table, and whether the id was new |
| SessionDb.InboundDb.GetMessageForRetry | src/db/session-db.ts:147-155 | a pending row of the id, or none exactly when there is none |
| SessionDb.InboundDb.SyncProcessingAcks | src/db/session-db.ts:157-170 | completes exactly the rows whose ack is finished, whatever order the acks come in |
| SessionDb.OutboundDb.MarkProcessing | container/agent-runner/src/db/messages-in.ts:81-90 | every id of the batch gets a processing ack, no other ack changes |
| SessionDb.OutboundDb.MarkCompleted | container/agent-runner/src/db/messages-in.ts:93-102 | the same with completed acks |
| SessionDb.ClearingGivesClaimsBack | container/agent-runner/src/db/connection.ts:168-170 | clearing gives exactly the messages a dead container had claimed back to the next batch, and no finished one |
| HostSweep.DecideStuckAction | src/host-sweep.ts:71-107 | the loop computes the verdict function the following results are about |
| HostSweep.FirstStuckFindsStuck | src/host-sweep.ts:96-104 | the claim loop keeps the container exactly when no claim is stuck, and names a stuck claim otherwise |
| HostSweep.KillsExactlyWhen | src/host-sweep.ts:71-107 | killed by the ceiling exactly when the heartbeat is past it; kept exactly when no rule fires; a claim kill names a claim that is stuck |
| HostSweep.DeclaredTimeoutIsHonoured | src/host-sweep.ts:71-104 | a Bash call with a declared timeout is killed exactly past both that and the fixed limit, by either rule |
| HostSweep.OtherTimeoutsAreIgnored | src/host-sweep.ts:219-223 | in any other tool, or with no number declared, the limits are exactly 30 min and 60 s |
| HostSweep.VerdictIsMonotone | src/host-sweep.ts:71-107 | a later clock or a shorter Bash timeout never turns a kill into a reprieve |
| HostSweep.NewerHeartbeatHelps | src/host-sweep.ts:88-103 | a newer heartbeat never turns a reprieve into a kill |
| HostSweep.FreshContainerVerdict | src/host-sweep.ts:80-104 | a container just spawned is never killed by the ceiling; it is killed exactly when it has no heartbeat yet and a claim older than its spawn is past the tolerance |
| HostSweep.ResetStuckRow | src/host-sweep.ts:259-286 | one claimed message: failed, rescheduled or left, nothing else touched |
| HostSweep.ResetStuckProcessingRows | src/host-sweep.ts:256-287 | the table after the whole reset loop |
| HostSweep.ResetsEachClaimOnce | src/host-sweep.ts:256-287 | exactly the claimed rows are reset, each once |
| HostSweep.ResetProgresses | src/host-sweep.ts:262-286 | an effective reset needs a due pending row, and either uses up one of five tries or fails the row |
| HostSweep.ResetRowTwice | src/host-sweep.ts:265-268 | a row just reset is skipped by a second reset at the same instant |
| HostSweep.ResetIsIdempotent | src/host-sweep.ts:192-195 | repeating the whole reset at the same instant changes nothing |
| SweepSession.EnforceRunningContainerSla | src/host-sweep.ts:225-254 | kills exactly on the verdict, and resets the claims exactly when it kills |
| SweepSession.SweepSession | src/host-sweep.ts:146-198 | the tables, the container map and the kill after one tick, which ends with the wake if that throws |
| SweepSession.TickActsPerRow | src/host-sweep.ts:167-198 | one tick completes every row with a finished ack, resets every other claimed row if the container is absent with no wake tried, or is killed, and leaves the rest |
| SweepSession.AbsentContainerResetsExactlyWhen | src/host-sweep.ts:179-198 | without a container, a claimed message is reset exactly when no trigger row is due after the sync, or when the container woken for it is killed at once |
| SweepSession.Sweep | src/host-sweep.ts:121-131 | of a pass over all sessions: a session is swept exactly when no earlier one has due work, no container and a wake that throws |
| SweepSession.FailingWakeBlocksTheRest | src/host-sweep.ts:124-131 | while one session's wake keeps throwing, no later session is swept, pass after pass |
| SweepSession.TickIsTheMachine | src/host-sweep.ts:167-198 | the interleaved machine, left undisturbed, does to the table what the straight-line tick does, whether the wake spawns or throws |
| PollLoop.IdleBatchExactly | container/agent-runner/src/poll-loop.ts:66-67 | an idle runner sees, in order, exactly the due, unacked rows other than system messages with fewer than `limit` due rows after them |
| PollLoop.FollowUpBatchExactly | container/agent-runner/src/poll-loop.ts:263-279 | what is pushed into a running query is exactly the same rows without the /clear commands |
| PollLoop.GroupsPartitionTheBatch | container/agent-runner/src/poll-loop.ts:93-167 | commands, skipped tasks and prompted messages are disjoint and make up the claimed batch |
| PollLoop.GroupsExactly | container/agent-runner/src/poll-loop.ts:93-167 | commands are the chat messages `/clear`, skipped are the tasks whose script says so, the rest is prompted |
| PollLoop.SplitCommands | container/agent-runner/src/poll-loop.ts:101-121 | the command ids are those of the /clear rows, the rest are all other rows |
| PollLoop.ApplyPreTaskScripts | container/agent-runner/src/scheduling/task-script.ts:79-121 | skipped and kept rows split the batch by the scripts' verdicts, which only bind task rows |
| PollLoop.PollFollowUps | container/agent-runner/src/poll-loop.ts:263-288 | completes every follow-up it claims and changes no other ack |
| PollLoop.ProcessQuery | container/agent-runner/src/poll-loop.ts:248-323 | wherever the query ends or throws, only its own batch can still be owed a completion |
| PollLoop.RunBatch | container/agent-runner/src/poll-loop.ts:93-207 | from claim to completion the three groups are dealt with and nothing is left processing |
| PollLoop.RunIteration | container/agent-runner/src/poll-loop.ts:65-207 | acts exactly on batches with a trigger row; then every claimed id is completed; otherwise no ack changes |
| Protocol.InvHolds | src/host-sweep.ts:146-207 | the protocol invariant (unique ids, honest statuses, spaced resets, claims within the runner's batch) holds in every reachable state |
| Protocol.UndisturbedIteration | container/agent-runner/src/poll-loop.ts:65-207 | the runner's steps, left undisturbed, return to the loop's head with exactly the batch completed if it wakes the agent, and with nothing changed if not |
| Protocol.UndisturbedFollowUp | container/agent-runner/src/poll-loop.ts:263-288 | left undisturbed, a follow-up poll ends with exactly its batch completed and the query going on |
| Protocol.ResultCompletesThePrompt | container/agent-runner/src/poll-loop.ts:304-311 | a result completes exactly the prompted messages |
| Protocol.AnswerAcksItsQuestion | container/agent-runner/src/db/messages-in.ts:122-137 | acks exactly a pending, unacked answer, and nothing else happens |
| Protocol.RunsEvolve | src/db/session-db.ts:85-170 | between any two points of a run no row vanishes or changes its message, status only rises, tries only grow, no finished ack is lost |
| Protocol.StatusesAreEarned | src/host-sweep.ts:256-287 | tries never exceeds 5, a failed row has used 5, a completed row has a finished ack |
| Protocol.SpacedSum | src/host-sweep.ts:276-278 | resets that are each a doubled back-off apart add up to 5·(2^k − 1) seconds |
| Protocol.BackoffBound | src/host-sweep.ts:256-287 | in every run at most five resets, the k-th schedule no earlier than 5·(2^k − 1) s and the failure no earlier than 155 s after the first |
| Protocol.FirstDueAsScheduled | src/db/session-db.ts:110-135 | in every run a message not yet retried is due exactly from the second it was scheduled for |
| Protocol.NothingRunsEarly | src/db/session-db.ts:124-135 | in every run, whatever the retries, no batch holds a message and no container is woken for one before its scheduled second |
| Protocol.SyncCompletesExactly | src/db/session-db.ts:157-170 | a tick's sync completes every message with a finished ack, failed ones too, and changes nothing else |
| Protocol.SweepReadsEveryClaim | src/host-sweep.ts:225-260 | a tick judges and resets by every claim the table holds at that moment, each once |
| Protocol.FailedIsNeverDue | src/db/session-db.ts:137-139 | a failed message is due at no time and not retried, at any later point of any run |
| Protocol.RetryIsDueAfterBackoff | src/db/session-db.ts:141-145 | after its n-th retry a message is not due before that back-off is over, at any later point of any run, and is due from then on unless retried again |
| Protocol.ClaimsBelongToTheRunner | container/agent-runner/src/poll-loop.ts:60-207 | at the head of a live runner's loop nothing is claimed; while it works, only its own batch is, and that batch holds a trigger row |
| Protocol.FreshContainerDiesOnlyForOldClaims | src/host-sweep.ts:179-190 | in every run a container checked just after its spawn is killed exactly when it has no heartbeat and a claim is past the tolerance, and that claim is an earlier container's |
| Protocol.LifeSignProtects | src/host-sweep.ts:90-104 | a container is not killed for 60 s after a heartbeat, nor for as long as its Bash call declared |
| Protocol.SpawnsExactlyWhenFree | src/container-runner.ts:75-79 | a registered container is left alone; a new one starts without a heartbeat |
| Protocol.RestartStartsOver | src/container-runner.ts:49-59 | after a host restart the next tick syncs, and tries a wake exactly when there is due work |
| Protocol.SameTickKill | src/host-sweep.ts:173-190 | a run in which the sweep that wakes a container also kills it |
| Protocol.KilledUntilFailed | src/host-sweep.ts:173-198 | whatever tries are left, each can go to a container killed in the tick that wakes it, until the message is failed |
| Protocol.KilledBeforeEveryBoot | src/host-sweep.ts:173-198 | a run from the start in which six containers are woken and killed for one message and none sees it |
| Protocol.FailingWakesNeverReset | src/host-sweep.ts:179-198 | in every run, as long as no wake succeeds, a message that is due work stays as it is and no message of its session is reset |
| Protocol.FailedWakeLeavesClaims | src/host-sweep.ts:182-205 | a run in which a wake throws and the tick ends with the dead container's claim as it was |
| Protocol.OldTriggerRowStarves | container/agent-runner/src/db/messages-in.ts:52-78 | for every limit a run of inserts reaches a table that is work to the host at every time and moves no runner at the head of its loop, whatever it has acked |
| Protocol.RowsStayInOrder | src/db/session-db.ts:80-122 | in every run the rows stand in the order of their sequence numbers |
| Protocol.GatesDisagreeExactlyWhen | container/agent-runner/src/poll-loop.ts:80-91 | host and runner disagree exactly when some trigger row is due and every such row is acked, a system message or behind `limit` due rows |
| Delivery.DeliveryLoop.MarkOutcome | src/db/session-db.ts:254-265 | the first outcome recorded for a message stays |
| Delivery.DeliveryLoop.SettleSend | src/delivery.ts:203-238 | ledger and attempt counter after one send, for success, retry and giving up |
| Delivery.DeliveryLoop.DrainSession | src/delivery.ts:166-243 | the ledger after all undelivered rows of one call |
| Delivery.DeliveryLoop.DeliverSessionMessages | src/delivery.ts:153-164 | a call on a session in flight does nothing, any other drains it and leaves the guard as it was |
| Delivery.SettledMessage | src/delivery.ts:203-238 | a success is recorded, the first two failures are counted, the third is recorded as given up, and no other message is touched |
| Delivery.DrainSettlesEachOnce | src/delivery.ts:200-240 | a drain settles every undelivered row once, by its own send, and nothing else |
| Delivery.UndeliveredKeepsOrder | src/delivery.ts:193-200 | what is left to deliver are the unrecorded rows, all of them, in the order of the query |
| Delivery.SendsInOrder | src/delivery.ts:203-243 | in every run a call hands over a prefix of that list, and all of it by the time it returns |
| Delivery.UndisturbedCall | src/delivery.ts:153-243 | an undisturbed call ends with the ledger the loop computes and leaves its session free |
| Delivery.NewMessageIsDelivered | src/delivery.ts:193-210 | in every run a new message of a free session is due, and one successful call records it as delivered |
| Delivery.AloneIsTheLoop | src/delivery.ts:203-238 | the interleaved machine, left undisturbed, computes what the loop computes |
| Delivery.InvHolds | src/delivery.ts:153-243 | counters, outcomes, guard and calls agree in every reachable state |
| Delivery.DeliveryIsBounded | src/delivery.ts:203-238 | in every run a message is handed over at most three times, ends with the outcome it had, and leaves a counter of 1 or 2 only while unrecorded |
| Delivery.NeverResent | src/delivery.ts:194-238 | once recorded, no continuation of the run hands the message over again or changes its outcome |
| Delivery.CallsExcludeEachOther | src/delivery.ts:153-164 | two calls never work on one session, so no row is with an adapter twice |
| ContainerRunner.Runner.WakeContainer | src/container-runner.ts:75-90 | a call starts a spawn exactly when there is neither a container nor a wake |
| ContainerRunner.Runner.SetupEnds | src/container-runner.ts:147-150 | the maps after the set-up returned or threw |
| ContainerRunner.Runner.WakeFinally | src/container-runner.ts:85-87 | only the settled wake is forgotten |
| ContainerRunner.Runner.OnEnd | src/container-runner.ts:167-179 | the end handlers unregister the session, on a first and on a repeated report |
| ContainerRunner.InvHolds | src/container-runner.ts:75-180 | registered containers and live children correspond one to one in every run in which no repeated end report comes while its session has a container |
| ContainerRunner.AtMostOneContainer | src/container-runner.ts:75-180 | per session, spawns in progress and live containers together never exceed one |
| ContainerRunner.WakeIsNeverBlocked | src/container-runner.ts:75-90 | with no live container and no set-up, a wake call starts a set-up once pending callbacks have run; with one, it does not |
| ContainerRunner.FailedSpawnIsRetried | src/container-runner.ts:85-90 | after a failed spawn the next wake starts a new one |
| ContainerRunner.SpawnRegistersOne | src/container-runner.ts:147-150 | a spawn that succeeds ends the set-up and leaves one registered container, a new one |
| ContainerRunner.EndFreesTheSession | src/container-runner.ts:167-179 | a reported end takes its child, and the session can be woken again |
| ContainerRunner.OtherSessionsAreUntouched | src/container-runner.ts:75-180 | no step touches the wake, registration or children of another session |
| ContainerRunner.LateReportStartsTwin | src/container-runner.ts:167-179 | in every state with the invariant, a repeated report followed by a wake leads to two live containers exactly when the session had one registered |
| ContainerRunner.TwinsExactlyWhenLate | src/container-runner.ts:75-180 | so over runs at-most-one is lost exactly through the first late report |
| ContainerRunner.LateReportAllowsTwins | src/container-runner.ts:167-179 | a run from the start that does it |
| StateAdapter.SqliteStateAdapter.AcquireLock | src/state-sqlite.ts:87-97 | grants a lock exactly when the thread has no unexpired row, and the lock and row it then creates |
| StateAdapter.SqliteStateAdapter.ReleaseLock | src/state-sqlite.ts:99-101 | removes the row only if it carries this token |
| StateAdapter.SqliteStateAdapter.ExtendLock | src/state-sqlite.ts:103-113 | moves the expiry of row and lock object only if the row carries this token |
| StateAdapter.ForcedReleaseFrees | src/state-sqlite.ts:115-117 | in every reachable state a forced release makes the lock available, its holder's token stale, and touches no other thread's lock |
| StateAdapter.LocksHold | src/state-sqlite.ts:87-117 | table rows and issued locks agree in every reachable state |
| StateAdapter.MutualExclusion | src/state-sqlite.ts:87-117 | in every run at most one issued, unreleased, unexpired lock per thread |
| StateAdapter.GrantsExactlyWhenFree | src/state-sqlite.ts:87-97 | in every reachable state a lock is granted exactly when nobody holds a live one |
| StateAdapter.HolderReleasesAndExtends | src/state-sqlite.ts:99-122 | in every run a holder frees its thread or extends its lock, and a stale token changes no lock |
| StateAdapter.LockRunsOut | src/state-sqlite.ts:87-97 | in every run a granted lock keeps its thread exactly as long as its time to live |
| StateAdapter.StaleForever | src/state-sqlite.ts:99-113 | a token that lost its row never gets it back, and its holder can neither release nor extend a later holder's lock |
| StateAdapter.CleanUpSparesLive | src/state-sqlite.ts:176-181 | cleaning up removes no live lock |
| StateAdapter.CleanUpExactly | src/state-sqlite.ts:176-181 | cleaning up removes exactly the expired locks |
| StateAdapter.UnexpiredExactly | src/state-sqlite.ts:176-181 | and exactly the expired list rows |
| StateAdapter.UnexpiredInOrder | src/state-sqlite.ts:176-181 | leaving the others in order |
| StateAdapter.SqliteStateAdapter.AppendToList | src/state-sqlite.ts:121-136 | the list after the append and the trim; other keys untouched |
| StateAdapter.SqliteStateAdapter.EnqueueEntry | src/state-sqlite.ts:150-152 | the queue's table when a call reaches its await |
| StateAdapter.SqliteStateAdapter.EnqueueReturns | src/state-sqlite.ts:153-154 | the depth the call returns is that of the table after its await |
| StateAdapter.SqliteStateAdapter.DequeueEntry | src/state-sqlite.ts:156-164 | the queue's table and the entry returned |
| StateAdapter.SqliteStateAdapter.QueueDepth | src/state-sqlite.ts:166-172 | the number of rows of the thread's queue |
| StateAdapter.SqliteStateAdapter.Cleanup | src/state-sqlite.ts:176-181 | drops expired locks and list rows and nothing else |
| StateAdapter.AboveDropsPrefix | src/state-sqlite.ts:129-134 | on contiguous indices the index cut-off drops exactly a prefix |
| StateAdapter.TrimKeepsNewest | src/state-sqlite.ts:129-134 | the trim keeps exactly the newest maxLength rows |
| StateAdapter.StepRefines | src/state-sqlite.ts:121-172 | one operation on table and abstract queue, an enqueue counting as two, gives the same output and keeps them in step |
| StateAdapter.QueueRefinesFifo | src/state-sqlite.ts:150-172 | in every run, calls overlapping at will, the table has contiguous indices and answers as a FIFO that drops its oldest, including after it empties and indices restart |
| StateAdapter.ReportedDepth | src/state-sqlite.ts:150-154 | the depth a call reports is min(old depth + 1, maxSize) moved by what the others did while it waited |
| StateAdapter.EnqueueDepthExactlyWhen | src/state-sqlite.ts:150-154 | it is min(old depth + 1, maxSize) exactly when, the others only appending, the queue is full or none appends, and, the others only dequeuing, the queue is empty or none dequeues |
| StateAdapter.OverlappingCalls | src/state-sqlite.ts:150-154 | of two overlapping calls the first reports its own depth exactly when it fills the queue, else the second's |
| Formatter.EscapeXmlIsPerCharacter | container/agent-runner/src/formatter.ts:249-251 | the four chained replaces equal one map per character |
| Formatter.UnescapeEscape | container/agent-runner/src/formatter.ts:249-251 | reading the predefined entities of XML 1.0, section 4.6, undoes the escaping |
| Formatter.EscapeHasNoMarkup | container/agent-runner/src/formatter.ts:249-251 | escaped text holds no quote and no angle bracket |
| Formatter.FormatIsRender | container/agent-runner/src/formatter.ts:160-182 | the printed message depends only on what it shows, field by field |
| Formatter.ParseMessageInverts | container/agent-runner/src/formatter.ts:160-182 | parsing a printed message gives its id, origin, sender, time, reply link, quote and text, and the rest of the input |
| Formatter.JoinIsLines | container/agent-runner/src/formatter.ts:147-158 | the joined batch is the messages, one after each newline |
| Formatter.TranscriptRoundTrip | container/agent-runner/src/formatter.ts:147-182 | the transcript of every batch parses back to what each message shows, in order |
| Formatter.TranscriptShows | container/agent-runner/src/formatter.ts:147-240 | read back, a message shows the first of its names that is not empty, its destination's name if it has one, its text, time, reply and quote |
| Formatter.TranscriptIsInjective | container/agent-runner/src/formatter.ts:147-182 | batches with the same transcript show the same messages |
| TelegramMarkdown.ProtectCode | src/channels/telegram-markdown-sanitize.ts:15-22 | the replacing pass computes the tokenised text and its code spans |
| TelegramMarkdown.CodeLengthExactly | src/channels/telegram-markdown-sanitize.ts:11 | a code span starts exactly where the pattern matches: the shortest fenced block, else inline code on one line |
| TelegramMarkdown.ProtectCutsRight | src/channels/telegram-markdown-sanitize.ts:18-22 | from left to right every match of the pattern is cut out, and nothing else |
| TelegramMarkdown.SanitizeTelegramLegacyMarkdown | src/channels/telegram-markdown-sanitize.ts:15-55 | the passes compute the function the following results are about |
| TelegramMarkdown.ProtectExpands | src/channels/telegram-markdown-sanitize.ts:18-22 | putting the spans back where their references stand gives the input |
| TelegramMarkdown.ProtectNumbers | src/channels/telegram-markdown-sanitize.ts:18-22 | references are numbered in order of appearance |
| TelegramMarkdown.ReplaceAllEdits | src/channels/telegram-markdown-sanitize.ts:29-37 | a global replace by a pattern that only edits formatting characters leaves every other character in place |
| TelegramMarkdown.RewriteKeepsRefs | src/channels/telegram-markdown-sanitize.ts:29-49 | no pass between cutting out and putting back harms a placeholder or its order |
| TelegramMarkdown.CodeStandsInText | src/channels/telegram-markdown-sanitize.ts:15-22 | every input is its text with its code spans put back where they stood, numbered in order |
| TelegramMarkdown.RestoreGlue | src/channels/telegram-markdown-sanitize.ts:51-54 | the last replace undoes the placeholders exactly when no character of the text starts something that reads like one |
| TelegramMarkdown.RewriteBalances | src/channels/telegram-markdown-sanitize.ts:39-49 | an even number of `*`, an even number of `_`, as many `[` as `]` |
| TelegramMarkdown.TextIsRepaired | src/channels/telegram-markdown-sanitize.ts:29-49 | the passes leave the code spans' places in order and the text around them balanced, and bring in no NUL |
| TelegramMarkdown.SanitizeExactly | src/channels/telegram-markdown-sanitize.ts:15-55 | for every input the rewritten text is balanced with the code spans' places in order, and the output is that text with the unchanged spans exactly when it fakes no placeholder |
| TelegramMarkdown.SanitizeKeepsCodeAndBalances | src/channels/telegram-markdown-sanitize.ts:15-55 | with no NUL outside the code spans every span comes through unchanged and in order, and the rest is balanced |
| TelegramMarkdown.CodeGoesThrough | src/channels/telegram-markdown-sanitize.ts:15-55 | after text without a backtick, whatever the pattern matches goes out as it came in |
| TelegramMarkdown.InlineCodeGoesThrough | src/channels/telegram-markdown-sanitize.ts:15-55 | so does any one-line text between backticks |
| TelegramMarkdown.FencedCodeGoesThrough | src/channels/telegram-markdown-sanitize.ts:15-55 | and any text between fences that no fence ends sooner |
| TelegramMarkdown.UntouchedExactlyWhen | src/channels/telegram-markdown-sanitize.ts:15-55 | an input with nothing to format outside its code spans goes out unchanged exactly when that text fakes no placeholder |
| TelegramMarkdown.NulTextIsLost | src/channels/telegram-markdown-sanitize.ts:51-54 | text that is a placeholder, of any number, becomes "undefined" |
| TelegramMarkdown.PlainTextUntouchedExactlyWhen | src/channels/telegram-markdown-sanitize.ts:15-55 | text without code and formatting goes out unchanged exactly when a placeholder starts nowhere in it |
| TelegramPasses.BulletExactly | src/channels/telegram-markdown-sanitize.ts:29 | what the bullet pattern matches, and what replaces it |
| TelegramPasses.RuleExactly | src/channels/telegram-markdown-sanitize.ts:34 | what the rule pattern matches, and what replaces it |
| TelegramPasses.DoubleExactly | src/channels/telegram-markdown-sanitize.ts:36-37 | what the doubled-delimiter patterns match, and what replaces it |
| TelegramPasses.ReplaceFirst | src/channels/telegram-markdown-sanitize.ts:29-37 | a global replace leaves what stands before the first match, replaces it, and goes on behind it |
| TelegramPasses.DoubleMarksBecomeSingle | src/channels/telegram-markdown-sanitize.ts:36-37 | `**x**` and `__x__` among words come out as `*x*` and `_x_` |
| TelegramPasses.BalancedMarksStay | src/channels/telegram-markdown-sanitize.ts:39-49 | `*x*`, `_x_` and `[x]` among words come out unchanged |
| TelegramPasses.UnbalancedMarksGo | src/channels/telegram-markdown-sanitize.ts:39-49 | of any other two marks around words only the words come out |
| TelegramPasses.BulletBecomesPlain | src/channels/telegram-markdown-sanitize.ts:29 | a `-` or `+` bullet comes out as a plain one |
| TelegramPasses.RuleBecomesDivider | src/channels/telegram-markdown-sanitize.ts:34 | three or more rule characters come out as a divider |
| ChatSdkBridge.LastIndexOf | src/channels/chat-sdk-bridge.ts:120-122 | the greatest position up to the bound where the pattern occurs, or none |
| ChatSdkBridge.CutPoint | src/channels/chat-sdk-bridge.ts:120-123 | the cut lies in 1..limit, so the loop ends |
| ChatSdkBridge.CutIsAtBreakOrForced | src/channels/chat-sdk-bridge.ts:120-123 | a cut inside a word happens only when no space or newline lies in 1..limit |
| ChatSdkBridge.CutPrefersParagraphs | src/channels/chat-sdk-bridge.ts:120-123 | the cut is the last paragraph break in 1..limit, else the last newline, else the last space, else the limit |
| ChatSdkBridge.SplitForLimit | src/channels/chat-sdk-bridge.ts:115-129 | the loop computes the split the following results are about |
| ChatSdkBridge.ChunksReassemble | src/channels/chat-sdk-bridge.ts:117-127 | the chunks, woven with white space only, are the text; none is too long; a seam without white space is a forced cut |
| ChatSdkBridge.SplitReassembles | src/channels/chat-sdk-bridge.ts:115-129 | the same for the whole split, where only the first chunk can be empty |
| PlatformId.DecodeInvertsEncodeExactlyWhen | src/platform-id.ts:40-87 | decoding undoes encoding exactly when channel and bot id hold no colon |
| PlatformId.WithoutBotUndoesWithBot | src/channels/chat-sdk-bridge.ts:141-162 | stripping the bot undoes inserting it on every string |
| PlatformId.WithBotUndoesWithoutBotExactlyWhen | src/channels/chat-sdk-bridge.ts:141-162 | the other way round exactly for ids of this bot and ids without a colon |
| StartupBootstrap.KnownBotIdsPerChannel | src/startup-bootstrap.ts:127-150 | a bot is known exactly when an adapter or a token secret names it for the channel |
| StartupBootstrap.TokenNameExactly | src/startup-bootstrap.ts:127-150 | a token secret names a bot exactly when it is the prefix, a channel without a colon, a colon and a bot |
| StartupBootstrap.AlreadyV2Exactly | src/startup-bootstrap.ts:110-117 | an id counts as rewritten exactly when its channel and a known bot come first |
| StartupBootstrap.ColonFreeIsRecognised | src/startup-bootstrap.ts:127-150 | a known bot id without a colon is always recognised |
| StartupBootstrap.RewrittenIsV2 | src/startup-bootstrap.ts:110-117 | a rewritten row is recognised as done exactly when the part of the bot id before its first colon is a known bot |
| StartupBootstrap.RowStepKeeps | src/startup-bootstrap.ts:174-193 | one row under one adapter: keys stay unique, no second rewrite, nothing left to do for the pair |
| StartupBootstrap.RowStepKeepsSettled | src/startup-bootstrap.ts:174-193 | no later rewrite reopens a row, not even one that lost a UNIQUE conflict |
| StartupBootstrap.BackfillKeepsUnique | src/startup-bootstrap.ts:157-202 | keys stay unique, whatever the bots are called |
| StartupBootstrap.BackfillKeepsIdentity | src/startup-bootstrap.ts:157-202 | with recognised bots each row is untouched or rewritten once, and no pair of row and adapter is left to upgrade |
| StartupBootstrap.RewrittenRowDecodes | src/startup-bootstrap.ts:174-193 | with colon-free names every changed row decodes to an active bot of its channel and the native part it had |
| StartupBootstrap.BackfillIsIdempotent | src/startup-bootstrap.ts:157-202 | with recognised bots a second run changes nothing, with several bots and conflicts |
| StartupBootstrap.FixedIsSettled | src/startup-bootstrap.ts:157-202 | conversely, a run that changes nothing had nothing to upgrade |
| StartupBootstrap.IdempotentExactlyWhenRecognised | src/startup-bootstrap.ts:157-202 | for any list of adapters, a second run is idle on every table exactly when every adapter's bot is recognised |
| StartupBootstrap.ColonBotIsRewrittenAgain | src/startup-bootstrap.ts:110-117 | an unrecognised bot at work: every start prefixes the row again |
| StartupBootstrap.MessagingGroups.BackfillMessagingGroupsToV2 | src/startup-bootstrap.ts:157-202 | the table after the nested loops for any adapters, the count of updates returned, and that with recognised bots it is the number of rows changed |
| Destinations.CandidatesDiffer | src/db/messaging-groups.ts:176-182 | the names tried are pairwise distinct |
| Destinations.Pigeonhole | src/db/messaging-groups.ts:179-182 | the loop probes at most one name more than the agent has taken |
| Destinations.FreshIndex | src/db/messaging-groups.ts:179-182 | the index found is free, bounded by the number of taken names, and all before it are taken |
| Destinations.FreshNameIsFirstFree | src/db/messaging-groups.ts:176-182 | the loop stops at a name exactly when it is the first free candidate |
| Destinations.CentralTables.CreateMessagingGroupAgent | src/db/messaging-groups.ts:132-191 | both tables after a wiring, for a new, a repeated and an impossible one |
| Destinations.WireKeepsInv | src/db/messaging-groups.ts:168-190 | a wiring keeps (agent, name) and (agent, channel) unique |
| Destinations.InvHolds | src/modules/agent-to-agent/db/agent-destinations.ts:44-94 | so does every run of wirings, renames, creations and deletions |
| Destinations.WireGrants | src/db/messaging-groups.ts:132-191 | in every reachable state a new wiring leaves exactly one row for its channel, adds at most one, touches none, and re-wiring adds none |
| Destinations.GroupsComeAndGo | src/db/messaging-groups.ts:21-101 | a group can be wired from its creation on, and deleted only when nothing is wired to it |
| Destinations.UnwireKeepsTheDestination | src/db/messaging-groups.ts:239-241 | unwiring takes that wiring and leaves the destination for a later one |
| Destinations.DeletionsAreExact | src/modules/agent-to-agent/db/agent-destinations.ts:89-109 | in every run deletion takes exactly the named row, or every row of an agent or pointing to it |
| Destinations.CreatedDestinationIsThere | src/modules/agent-to-agent/db/agent-destinations.ts:44-55 | an agent destination is added unless its name is taken |
| Destinations.Backfill | src/db/migrations/module-agent-to-agent-destinations.ts:38-73 | the migration's loop, with its own bookkeeping of taken names, computes the migrated table |
| Destinations.MigrationNamesEveryWiring | src/db/migrations/module-agent-to-agent-destinations.ts:54-73 | one row per wiring, in order, and names unique per agent |
| Destinations.MigrationMirrorsWiring | src/db/messaging-groups.ts:126-131 | replaying the old wirings through the wiring call gives the migrated table |
| SessionManager.FindSessionForAgent | src/db/sessions.ts:36-55 | an active session of that agent, group and thread, or none exactly when there is none |
| SessionManager.FindSessionByAgentGroup | src/db/sessions.ts:58-62 | the newest active session of the agent, or none exactly when there is none |
| SessionManager.Sessions.ResolveSession | src/session-manager.ts:110-151 | the table and the result for the three modes, with falsy ids and a repeated id |
| SessionManager.Sessions.CloseSession | src/db/sessions.ts:74-93 | closes the sessions of that id and no other |
| SessionManager.ResolvedSessionFits | src/session-manager.ts:110-151 | the session returned is active, stored, the agent's own and of the group and thread asked for |
| SessionManager.SafeRouteKeepsUnique | src/session-manager.ts:110-151 | a safe call keeps one active session per (agent, group, thread) |
| SessionManager.OneActivePerKey | src/session-manager.ts:103-109 | so does every run of safe calls, closings and deletions |
| SessionManager.UniqueExactlyWhenSafe | src/session-manager.ts:116-146 | making a call twice keeps the key unique exactly when it is agent-shared, or names a real group and no empty thread id where threads count |
| SessionManager.RoutingIsSticky | src/session-manager.ts:116-131 | the session a shared or per-thread call resolved to is the one it resolves to later, until that session is closed or deleted |
| SessionManager.AgentSharedSticksExactlyWhen | src/session-manager.ts:116-121 | an agent-shared call keeps resolving to its session exactly until some call, of any mode, opens a newer session of that agent and leaves it open |
| SessionManager.AgentSharedMoves | src/session-manager.ts:107-121 | a run in which a per-thread call of the same agent takes the agent-shared messages over |
| SessionManager.AgentSharedIsSingle | src/session-manager.ts:107-108 | an agent routed only in agent-shared mode never has two active sessions |
| AgentActivity.CursorSplits | src/db/session-db.ts:298-306 | the cursor splits the ordered rows into those merged and those the query returns |
| AgentActivity.MaxSeq | src/db/agent-activity.ts:55 | the largest sequence number of the batch |
| AgentActivity.Ledger.MergeActivityBatch | src/db/agent-activity.ts:44-74 | central rows, cursor and return value after a merge, and for an empty batch |
| AgentActivity.CommitKeeps | src/db/agent-activity.ts:57-71 | a commit moves rows and cursor together |
| AgentActivity.InvHolds | src/db/agent-activity.ts:31-74 | ledger, cursors and half-done merges agree in every reachable state |
| AgentActivity.MergedExactlyOnce | src/db/agent-activity.ts:8-13 | in every run, host deaths included, a session's central rows are its outbound rows up to the cursor, each once and in order |
| AgentActivity.CursorNeverFalls | src/db/agent-activity.ts:52-54 | no merged row is lost and no cursor falls, from any point of a run on |
| AgentActivity.AppendWrites | src/db/agent-activity.ts:8-13 | in every run a session's new entry comes last, under a number above all others |
| AgentActivity.CleanDrainCatchesUp | src/delivery.ts:184-192 | one undisturbed drain brings over everything, however often the host died or a drain threw before |
| Secrets.SecretStore.PutSecret | src/secrets/index.ts:67-135 | the store after an update, an insert with its seeded assignment, and a refused insert |
| Secrets.SecretStore.RemoveSecret | src/secrets/index.ts:183-186 | the secret goes with all its assignments |
| Secrets.SecretStore.AddAssignment | src/secrets/index.ts:272-281 | adds the pair once; an unknown secret or group fails |
| Secrets.SecretStore.RemoveAssignment | src/secrets/index.ts:283-288 | removes the pair and no other |
| Secrets.SecretStore.ReplaceAssignments | src/secrets/index.ts:255-269 | all assignments replaced, or none when one cannot be inserted |
| Secrets.PutIsRead | src/secrets/index.ts:67-135 | in every run, what is put is what is read under its name and scope, and no other row changes |
| Secrets.DeleteTakesOnlyIt | src/secrets/index.ts:183-186 | in every run deleting takes that secret and no other |
| Secrets.AssignmentsChangeExactly | src/secrets/index.ts:255-288 | pair by pair, what deleting, revoking, granting and replacing do to the assignments |
| Secrets.GroupsChangeExactly | src/db/agent-groups.ts:4-41 | modes are set on known groups only, and a group that nothing refers to goes with its assignments |
| Secrets.ResolveInjectableSecrets | src/secrets/index.ts:222-227 | each name maps to the value of its first row |
| Secrets.ListInjectableSecretsForGroup | src/secrets/index.ts:440-460 | one view per name, made from its first row, and no name missing |
| Secrets.ViewsSayWhy | src/secrets/index.ts:440-460 | a view says whether its secret is the group's own, assigned to it, or global |
| Secrets.FirstIsWinner | src/secrets/index.ts:204-227 | whatever order the query uses within "scoped first", the first row of a name is the reference answer |
| Secrets.InvHolds | src/secrets/index.ts:67-135 | one row per (name, scope), global scope included, in every reachable state |
| SecretListings.WhereIsPasses | src/secrets/index.ts:208-216 | the two joins and conditions, each written out, are the same gate |
| SecretListings.ResolveIsListing | src/secrets/index.ts:208-219 | every result of the first query is the passing rows, each once, own rows first |
| SecretListings.ListIsListing | src/secrets/index.ts:427-439 | so is every result of the second, and its assignment column is right |
| SecretListings.ResultsExist | src/secrets/index.ts:208-219 | both queries have a result in every state |
| SecretListings.ListingsAgree | src/secrets/index.ts:398-415 | in every reachable state the panel names exactly what the container receives, and shows for each name the row its value comes from |
| Secrets.ScopedWins | src/secrets/index.ts:10-11 | a group's own row that passes the gate is the one it gets |
| Secrets.NobodyIsMissed | src/secrets/index.ts:326-370 | a session whose container started before the last update of a secret it is given is in the list |
| Secrets.OverReportsExactlyWhen | src/secrets/index.ts:310-318 | a listed session is not given the secret exactly in two cases, an ungated own row and a shadowed global row |
| Secrets.CurrentButReportedExactlyWhen | src/secrets/index.ts:303-304 | a session given the secret is listed although its container is newer exactly when it was created before the update and its container started after it |
| Secrets.RestartKeepsReport | src/secrets/index.ts:320-325 | restarting a listed session, however late, leaves it listed |
| Secrets.UnrevokedIsNeverUngated | src/secrets/index.ts:97-106 | without a revocation the first case never arises |
| Secrets.RevocationOverReports | src/secrets/index.ts:310-318 | with one it does, in seven steps |

## Left out

- Sessions: the foreign keys of agent and messaging group are not modelled, so `Some("")` as a group stands for a group stored under an empty id.
- Destinations: `normalizeName` is not modelled, a base name is any string; agent groups are taken to exist, and the check for the optional table is always true.
- Locks, queue: the key-value table and the subscriptions of the adapter, which only read and write single rows.
- Attachments, in `writeSessionMessage` and in the transcript: the files, the rewrite of the row's content after the insert, and the rendered suffix, whose type is printed unescaped.
- `SplitForLimit` is stated for a limit of at least 1; the source's loop does not end for smaller limits on long texts.
- Strings are sequences of Dafny characters; a surrogate pair cut in two by a length limit is outside the model.
- Dates: parsing and printing. Rendered times are opaque strings, and a timestamp that does not parse is an absent one.
- `findQuestionResponse`: its LIKE search is reduced to acking one pending, unacked system message.
- A session whose outbound.db does not exist yet: its tick only wakes a container. One without agent group or inbound.db is skipped.
- `SweepSession`: a wake that throws is taken to have registered no container, and other errors in a tick, which end the pass as well, are left out; the machine of `Protocol` lets a wake throw either way.
- Recurrence, pausing and cancelling of tasks: the fan-out of a recurring task is a later insert; the other operations are not part of the model.
- Delivery across a host restart, and writes to a session database that fail: a send succeeds or throws, the recording of its outcome does not.
- `writeOutboundDirect`, which writes through a handle that is opened read-only.
- Deleted session rows in the activity ledger: the model's sessions keep their cursor.
- Encryption, tokens and the vault: a secret's value is stored as it is. `getSecret` and `listSecrets` are single queries.
- Ties in `ORDER BY created_at DESC LIMIT 1`, which the source leaves open, go to the earlier row.
- Containers, sockets, HTTP, the chat and model SDKs, the web server, set-up scripts and the file system, apart from the heartbeat's modification time.
