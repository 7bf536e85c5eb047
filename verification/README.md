# Verified model of the A2A task-execution protocol, its streaming format and its conversions

This project models four parts of the `a2a-rs` workspace in Dafny and proves what they are for.

**Task execution on the server** (`a2a-server/src/handler.rs`). An execution keeps a sequence counter and a task
snapshot and broadcasts events; a registry maps tasks to running executions and keeps a table of subscriptions that
wait for the next one; a driver folds what the agent yields into the stored task and publishes it; cancels and
subscriptions race with all of that.

- `ExecutionProtocol`, `RegistryProtocol` and `Cancellation` are transition systems. Their steps are the regions the
  code runs without being interleaved: `publish` is a bump under the lock, a receiver count and a send;
  `resubscribe` is a join and a read; `start` holds the registry lock over an insertion, a taking of the waiting
  list and one delivery at a time; dropping a waiter closes its receiver and then sweeps the table. Theorems about
  them are about every finite run, whatever the interleaving.
- `ActiveExecutions`, `ExecutionManagers`, `TaskStores`, `Driver`, `Turns` and `Cancel` hold the code in the form it
  has, as objects whose methods update fields and loops with invariants. Each method is proved to do what the
  transition systems (or, for the store, the fold of events over a task) say.

**The client's SSE parser** (`a2a-client/src/jsonrpc.rs`) and the **server's printer** (`a2a-server/src/sse.rs`):
`Sse`, `SseRoundTrip`. The incremental parser is proved against a one-shot parse of the whole byte string
(sections 9.2.5 and 9.2.6 of the WHATWG HTML standard).

**Native/protobuf conversion** (`a2a-pb/src/pbconv.rs`): `Pbconv`, up to whole tasks and streamed events, with
IEEE 754 binary64 numbers.

**Transport negotiation** (`a2a-client/src/factory.rs`) and **push-configuration paging**
(`a2a-server/src/handler.rs`, `a2a-server/src/pagination.rs`): `Negotiation`, `Paging`, over `Sorting` and `Decimal`.

## Reading guide

The main results, by question:

- *Does a stream miss or repeat anything?* `SinglePublisher.ExactlyOnce`, `WaitingSubscriptionMissesNothing`,
  `SnapshotPlusEvents`; with two publishers `ExecutionProtocol.StreamsAreOrdered`, and
  `ExecutionProtocol.YieldedUnlessOvertaken`, which says exactly which events are lost, with a concrete lost one in
  `SinglePublisher.TwoPublishersCanSkip`.
- *Is a waiting subscription ever lost?* `RegistryProtocol.RunKeepsInvariant`, `ResolvedOnce`,
  `Cancellation.CancelLeavesNoneWaiting`, `StrandedExactly`; and what becomes of a released one,
  `ExecutionProtocol.ReleasedStreamEnds`.
- *What does the driver publish, when does a run fail, and what does the store hold?* `DriverRuns.EndsExactly`,
  `FailsExactly`, `FailureIsPublished`, which read it off the executor's results alone; `DriverProperties`, `Turns`,
  `TaskFold.FoldedExactly`.
- *What is a cancel worth?* `CancelRuns.CancelCancels`, `CancelEndsExactly`, `Cancel.CanceledIsFinal`, `Cancellation.CommittedStaysCanceled`.

Some promises do not hold of the code as one would first state them. They are stated with the condition under which
they do hold:

- With a cancel publishing beside the driver, a stream can skip an event for good. `YieldedUnlessOvertaken` is the
  exact condition: no event with a higher sequence was sent before it since the stream joined.
- A subscription that has read a live task and waits for its next execution is left waiting on a task that has ended if
  and only if the driver or a cancel of another task saved it as ended (`Cancellation.StrandsExactly` for one step,
  `StrandedExactly` for whole runs, over a store that keeps terminal states). The code allows it: a task snapshot is
  saved under its own id and nothing checks whose it is (a2a-server/src/handler.rs:363). `ForeignSaveStrands` is such a
  run; `NobodyWaitsOnAnEndedTask` is the guarantee while drivers and cancels save their own tasks only, which they do
  while executors send snapshots of their own tasks only (`DriverProperties.OwnExecutorSavesOwnTask`,
  `Cancel.OwnCancelSavesOwnTask`).
- A terminal stored state is absorbing only because the store refuses to change it. Over a store that overwrites,
  `Cancellation.OverwritingStoreStrands` runs a driver and a cancel so that the task comes back to life and a
  subscription is left waiting with nobody to release it. The in-memory store keeps terminal states unless
  `with_terminal_task_limit` lets it purge tasks that have ended; then a canceled task stays CANCELED until it is
  purged (`CommittedStaysCanceled`), and a driver still running can create it again, live (`PurgedTaskComesBack`).
- The client drops line breaks at the start of an event's data: `SseRoundTrip.DataComesBack` is exact if and only if
  the data does not begin with one.
- A user's message, not there before, reaches the stored history if and only if the turn creates the task or saves
  something of it (a status, an artifact, a snapshot or its failure) and the executor sends no snapshot of the task or
  its last one holds the message (`Turns.MessageIsStoredExactly`; `TurnHistory` says what the history becomes). It is
  lost when an agent answers a continuing message with one message (`AnsweredMessageIsLost`), and with it all the
  history when an agent ends with a snapshot that carries none (`SnapshotForgetsTheHistory`), as the example agent does
  (examples/src/lib.rs:75-95).
- A JSON integer survives the trip through a double if and only if it is at most 2^53 in absolute value:
  `Pbconv.IntegerSurvives`.
- The documentation of transport negotiation (a2a-client/src/factory.rs:68-72) ranks candidates by preference and then by
  newest version. The code does not look at versions when it ranks; the model follows the code
  (`Negotiation.VersionDoesNotRank`).

Conventions. The broadcast channel is a log with one cursor per receiver; a receiver more than the capacity of 32
behind loses the overwritten events and is told so. A oneshot channel is a sender that is queued, taken, sent or spent
and a receiver that is alive, closing or gone. Store faults, the clock, the executor's results and failures of the push
are parameters, so what is proved holds for all of them. A store keeps each task under its own id. A task
handed to the driver has a status timestamp, since every saved task is given one (a2a-server/src/handler.rs:321-325). `DriverState.applied` records the events applied,
`ActiveExecution.history` the publications; neither exists in the code. The theorems about what the store holds are
about a driver or a cancel that is the store's only writer; those about what is published are not.

## Model

| member | source | states |
|---|---|---|
| ExecutionProtocol.RunKeepsInvariant | a2a-server/src/handler.rs:43-99 | whoever publishes and however the halves of `publish`, `resubscribe` and the streams' receives interleave, sequences are handed out once each, the snapshot is that of the last publication, and each stream has yielded its opening and then exactly the record-high events among those it has read |
| ExecutionProtocol.StreamsAreOrdered | a2a-server/src/handler.rs:453-503 | with any number of publishers, a stream yields strictly increasing sequences, each event being the publication of its sequence, and nothing after its first terminal event, error or lag report |
| ExecutionProtocol.YieldedUnlessOvertaken | a2a-server/src/handler.rs:65-90 | of the events a stream read, it yields one newer than its opening if and only if no event sent before it since the stream joined has a higher sequence |
| SinglePublisher.ExactlyOnce | a2a-server/src/handler.rs:59-90 | when only the driver publishes, a stream opened at sequence m yields m+1, m+2, ... with no gap or repeat, and has reached the last publication when it waits with nothing under way or ends by the channel's closing |
| SinglePublisher.WaitingSubscriptionMissesNothing | a2a-server/src/handler.rs:116-133 | a subscription attached by `start` yields every event of the execution from sequence 1 however late it is polled, up to its end or to a lag of more than the capacity |
| SinglePublisher.SenderMissesNothing | a2a-server/src/handler.rs:1002-1034 | the stream returned to the sender of a message, attached before the execution is driven, yields every event from sequence 1 however late it is polled, up to its end or to a lag of more than the capacity |
| SinglePublisher.SnapshotPlusEvents | a2a-server/src/handler.rs:453-503 | applying what a stream yielded to the task it opened with gives the execution's own task as of the last event yielded, and the current one when nothing is under way |
| SinglePublisher.TwoPublishersCanSkip | a2a-server/src/handler.rs:1246-1248 | a run in which a driver and a cancel publish and a stream never yields the driver's event |
| ExecutionProtocol.ReleasedStreamEnds | a2a-server/src/handler.rs:166-175 | a stream that `release` resolved yields the final task once and ends, however it is polled, and never waits |
| ActiveExecutions.ActiveExecution.Publish | a2a-server/src/handler.rs:65-90 | run without interruption it is the bump, count and send of the protocol; the snapshot is kept, the sequence goes up by one, and the event is sent exactly when there is a receiver |
| ActiveExecutions.ActiveExecution.Resubscribe | a2a-server/src/handler.rs:59-63 | it is the join and then the read of the protocol |
| ActiveExecutions.ActiveExecution.NextItem | a2a-server/src/handler.rs:465-500 | one poll is a number of the protocol's stream steps, skipping what the opening snapshot covers; what it returns is what the stream yields, and it waits only when no step is possible |
| ExecutionProtocol.ReceivesExactly | a2a-server/src/handler.rs:465-500 | exactly what a stream's next step yields of what the channel holds for it: nothing and the end, the opening task, the event if it is newer, or the report of falling behind once more than 32 events have been sent past it |
| RegistryProtocol.RunKeepsInvariant | a2a-server/src/handler.rs:101-186 | in every run the waiting table holds each unresolved sender exactly once under its own task, no list is empty, no task is both registered and waited for but inside `start`, and no live subscription is lost |
| RegistryProtocol.ResolvedOnce | a2a-server/src/handler.rs:116-175 | over any run a subscription leaves the table at most once and keeps the resolution it was sent |
| RegistryProtocol.RegisteredUntilFinished | a2a-server/src/handler.rs:116-185 | an execution stays registered for its task until the first `finish` for it, whatever else happens, and is never registered again after |
| RegistryProtocol.GivenItsOwn | a2a-server/src/handler.rs:116-175 | in every run an execution is registered for the task it was created for and no other, and whatever channel or final task a subscription is given is that of its own task |
| RegistryProtocol.TakenWereQueued | a2a-server/src/handler.rs:128-131 | taking a task's waiting list resolves the queued subscriptions of that task and no other |
| RegistryProtocol.SweptWereClosed | a2a-server/src/handler.rs:227-238 | the sweep of a dropped waiter removes the closed senders of its task and no other, and keeps the table exact |
| ExecutionManagers.ExecutionManager.Start | a2a-server/src/handler.rs:116-133 | refused exactly when the task has an execution; otherwise the new execution is registered and every waiting subscription is sent it; the method is a run of the registry's steps |
| ExecutionManagers.ExecutionManager.SendAll | a2a-server/src/handler.rs:129-131 | each sender in hand is sent the resolution if its receiver is open and spent otherwise, one delivery step at a time |
| ExecutionManagers.ExecutionManager.Subscribe | a2a-server/src/handler.rs:144-164 | the subscription of a registered task is sent that task's registered execution; any other is put at the end of its task's list |
| ExecutionManagers.ExecutionManager.Release | a2a-server/src/handler.rs:169-175 | everything waiting for the task is sent its final snapshot, and the task's entry goes |
| ExecutionManagers.ExecutionManager.Finish | a2a-server/src/handler.rs:177-185 | only the given execution is unregistered, not a newer one of the same task |
| ExecutionManagers.ExecutionManager.DropWaiter | a2a-server/src/handler.rs:227-238 | the receiver closes first, then every closed sender of the task leaves the table, with an empty list |
| Cancellation.CancelLeavesNoneWaiting | a2a-server/src/handler.rs:169-199 | whatever the store does and whichever way a cancel ends, a subscription of its task made before its guard ran is attached once the cancel has ended, unless another cancel or a `start` of the task, both still under way, has it in hand; the ended cancel has not |
| Cancellation.AttachedBeforeDriven | a2a-server/src/handler.rs:125-132 | a subscription waiting when `start` empties its task's list has been sent the new execution by the time that execution is driven, if its stream is still there |
| Cancellation.StrandsExactly | a2a-server/src/handler.rs:357-363 | over a store that keeps terminal states, a step leaves a subscription waiting on an ended task that no cancel will release if and only if it is a save by the driver or a cancel of another task that ends the live task waited on |
| Cancellation.StrandedExactly | a2a-server/src/handler.rs:1300-1337 | the same over whole runs of any drivers, cancels and subscriptions |
| Cancellation.NobodyWaitsOnAnEndedTask | a2a-server/src/handler.rs:1279-1297 | while drivers and cancels save their own tasks only, in every run, a subscription that read a live task and waits has a live task still or a cancel under way that will release it |
| Cancellation.ForeignSaveStrands | a2a-server/src/handler.rs:363-363 | a run in which the driver of one task saves another as ended and strands the subscription waiting on it |
| Cancellation.CommittedStaysCanceled | a2a-server/src/task_store/inmemory.rs:92-137 | over a store that refuses to change a terminal state, whatever drivers and other cancels save after a cancel commits, the task stays CANCELED until it is purged, and no other cancel of it gets past `begin_cancel` |
| Cancellation.KeepingNeverPurges | a2a-server/src/task_store/inmemory.rs:30-32 | without a limit on finished tasks no run purges one |
| Cancellation.PurgedTaskComesBack | a2a-server/src/task_store/inmemory.rs:27-38 | under such a limit, a run in which a canceled task is purged and its driver's next save creates it again, live |
| Cancellation.OverwritingStoreStrands | a2a-server/src/task_store/store.rs:23-24 | over a store that overwrites, a run in which a task that ended becomes live again and a subscription is stranded |
| Cancellation.RunKeepsInvariant | a2a-server/src/handler.rs:1169-1337 | in every run of drivers, cancels and subscriptions, saving whatever tasks they like, a driver is registered or its task has ended, a committed cancel's task has ended, and who waits has read a stored task |
| Cancellation.StepsTheRegistry | a2a-server/src/handler.rs:1169-1337 | each step of the racing system is a step of the registry or leaves it alone |
| Cancel.CancelTask | a2a-server/src/handler.rs:1169-1298 | answer, store, publications, registry and waiting table after one cancel; on every way out of a cancel that committed, each subscription waiting for the task is sent the task answered, or else the canceled one |
| Cancel.Conclude | a2a-server/src/handler.rs:1275-1297 | the execution is finished, the task read again and its end pushed, and the waiting subscriptions are released with the task the answer is, or by the guard with the canceled one |
| Cancel.RunCancel | a2a-server/src/handler.rs:1225-1273 | the loop over the executor's results leaves the store and the publications as the fold of its turns says |
| Cancel.TakeCancelTurn | a2a-server/src/handler.rs:1230-1272 | one result of the executor: applied, pushed and published, or an error published and returned |
| Cancel.TakeEvent | a2a-server/src/handler.rs:1232-1253 | an event is applied, pushed and published, in that order, and published only when the first two succeed |
| Cancel.Begin | a2a-server/src/handler.rs:1175-1203 | up to `begin_cancel`: the committed task, or the answer of a cancel that does not commit, others writing in between included |
| Cancel.OnlyLiveTasksAreCanceled | a2a-server/src/handler.rs:1175-1203 | a cancel commits exactly when the task is live at both looks; otherwise nothing changes, a canceled task is returned again and any other ended one refused |
| CancelRuns.BeginCancelsExactly | a2a-server/src/task_store/inmemory.rs:119-137 | a missing task and one that has ended are refused; of any other the state becomes CANCELED, the timestamp the current time, and nothing else changes |
| CancelRuns.CancelCancels | a2a-server/src/handler.rs:1175-1298 | from any stored task, a cancel that commits over a store that keeps terminal states leaves the task CANCELED on every way out, answers with that task or an error, and releases the waiting subscriptions with a CANCELED task of that id; one that does not commit writes and publishes nothing |
| CancelRuns.QuietCancelChangesTheStateOnly | a2a-server/src/handler.rs:1175-1298 | with nothing from the executor and no fault, a live task is canceled, answered and released, and nothing else about it or in the store changes |
| CancelRuns.CancelEndsExactly | a2a-server/src/handler.rs:1229-1297 | read off the executor's results: the first that brings an error ends the cancel with it, after publishing the events before it, and the error too if it is the executor's; otherwise all events up to the first terminal one are published and the stored task is the answer |
| CancelRuns.QuietAnswerExactly | a2a-server/src/handler.rs:1284-1297 | without a terminal event the task's end is pushed, and an answer is withheld exactly when it cannot be read or pushed |
| Cancel.CanceledIsFinal | a2a-server/src/task_store/inmemory.rs:92-117 | once committed, over the in-memory store's update rule, the stored task is CANCELED on every way out whatever the executor yields, and an answer without error is that task |
| Cancel.CancelPublishesWhatItApplied | a2a-server/src/handler.rs:1229-1273 | every event a cancel publishes was applied first and comes with the fold up to it; nothing follows a terminal event or an error |
| Cancel.CancelReturnsTheFold | a2a-server/src/handler.rs:1275-1297 | with no other writer the returned task is the canceled task folded over all events applied |
| Cancel.OwnCancelSavesOwnTask | a2a-server/src/handler.rs:1229-1273 | a cancel whose executor sends snapshots of its own task only leaves every other stored task as it was |
| TaskStores.TaskStore.Apply | a2a-server/src/handler.rs:357-405 | store and outcome after one event: the event applied to the task in hand or the stored one, stamped and saved; on any error the store is unchanged |
| TaskStores.TaskStore.Save | a2a-server/src/handler.rs:321-337 | an update, or a creation when the store has no such task, of the stamped task |
| TaskStores.SaveSucceeds | a2a-server/src/handler.rs:321-337 | without a store fault a save succeeds whether or not the task is there |
| TaskStores.SaveFailsExactly | a2a-server/src/handler.rs:329-336 | a save fails with the fault of the update unless that is a missing task, and then with that of the creation, if at all |
| TaskStores.TaskStore.BeginCancel | a2a-server/src/task_store/inmemory.rs:119-137 | check and transition in one step, refusing a missing or ended task |
| TaskFold.UpdateRefinesMap | a2a-server/src/handler.rs:375-402 | one artifact update of the list is one update of a map from id to content: same refusal, same contents, same order of first appearance, ids unique |
| TaskFold.UpdatesRefineMap | a2a-server/src/handler.rs:375-402 | the same over any sequence of updates |
| TaskFold.AssembledParts | a2a-server/src/handler.rs:375-402 | an artifact is there exactly when some update started it, and is that of its last replacement but for its parts, those of the replacement and of every append since, in order, and its metadata, where the latest entry of a key wins |
| TaskFold.FoldedExactly | a2a-server/src/handler.rs:357-405 | any mixture of status updates, artifact updates and messages leaves the artifacts its artifact updates make of the first ones, the status of its last status update, and everything else as it was, and is refused exactly when one of its artifact updates is |
| TaskFold.SnapshotStartsAfresh | a2a-server/src/handler.rs:363-363 | after a snapshot the events that follow are applied to it alone |
| TaskFold.StampIsNow | a2a-server/src/handler.rs:326-328 | a missing timestamp becomes the current time and nothing else changes |
| TaskFold.FoldAssembles | a2a-server/src/handler.rs:375-402 | a run of artifact events changes the task's artifacts as those updates do and nothing else |
| TaskFold.FoldedConcat | a2a-server/src/handler.rs:357-405 | applying events in two stretches is applying them in one |
| TaskFold.BackfilledIsStamped | a2a-server/src/handler.rs:346-355 | a backfilled event has its timestamp, is terminal exactly when the event was, and one that had its timestamp is unchanged |
| Driver.DriveExecution | a2a-server/src/handler.rs:505-572 | the loop and its failure path leave the store, the snapshot and the publications as the fold of the executor's results says |
| Driver.TakeTurn | a2a-server/src/handler.rs:520-567 | one result: the terminal check, the grammar check, the application, the push, the publication |
| Driver.TakeEvent | a2a-server/src/handler.rs:535-560 | an event is applied, pushed and published, in that order, and published only when the first two succeed |
| Driver.Fail | a2a-server/src/handler.rs:414-439 | a task that has not ended is saved FAILED, and the error is published with what was saved |
| DriverRuns.EndsExactly | a2a-server/src/handler.rs:520-567 | read off the executor's results: the run goes through those that find the task live, bring no error and end nothing, publishing each with the task it leads to, and ends at the first other one or with the last |
| DriverRuns.FailsExactly | a2a-server/src/handler.rs:520-567 | a run fails with an error if and only if it reaches, with the snapshot not terminal, a result that brings it: the executor's own, an event against the one-message-or-task rule, one that cannot be applied, or one that cannot be pushed |
| DriverRuns.FailureIsPublished | a2a-server/src/handler.rs:569-572 | such a run publishes the events before the failure and then the error, last, and if the last save succeeds the stored task is FAILED, with an agent's message about it and everything else as it was, unless it had ended already |
| DriverRuns.ExecutorErrorIsPublished | a2a-server/src/handler.rs:562-572 | an executor's error that comes while the task is live is always published |
| DriverProperties.DriverPublishesWellFormed | a2a-server/src/handler.rs:505-575 | whatever the executor yields and a cancel does, the driver publishes one message or task events only, at most one terminal and then last of them, at most one error and last of all, never after a terminal event |
| DriverProperties.StoreFollowsEvents | a2a-server/src/handler.rs:505-567 | with no cancel running, every published event was applied first, comes with the fold up to it, and the stored task is the fold of all applied events as soon as one is a task event |
| DriverProperties.FailureLeavesTerminal | a2a-server/src/handler.rs:414-439 | a failed run whose last save succeeds leaves the stored task terminal, and as it was when it was terminal already |
| DriverProperties.OwnExecutorSavesOwnTask | a2a-server/src/handler.rs:357-439 | an executor that sends snapshots of its own task only makes the driver save that task only, its failure included |
| DriverProperties.DriverIsFaithful | a2a-server/src/handler.rs:535-551 | each published event comes with the snapshot it leads to |
| DriverProperties.SubscribersRebuildTheTask | a2a-server/src/handler.rs:453-575 | from executor to subscriber: while the driver publishes alone, what a stream yields rebuilds the execution's task |
| Turns.Prepare | a2a-server/src/handler.rs:883-967 | a message is refused, continues the stored task with its history extended, or starts a new task |
| Turns.TakeExchange | a2a-server/src/handler.rs:991-1035 | a turn is the message prepared and the prepared task driven to its end |
| Turns.AcceptedExactly | a2a-server/src/handler.rs:890-928 | a message is accepted exactly when the task it names is stored, has not ended and is of the context it names, or when it names none |
| Turns.RefusalTellsWhy | a2a-server/src/handler.rs:895-920 | a refused message changes nothing and is told which of these failed |
| Turns.ReadiedExactly | a2a-server/src/handler.rs:929-963 | a new task is SUBMITTED, in the message's context or a new one, and holds the message alone; a continued one is as stored but for its history |
| Turns.PreparedIdsAreDistinct | a2a-server/src/handler.rs:938-947 | message ids distinct in the stored history stay distinct in the prepared one: the agent's last word is not added a second time |
| Turns.TurnHistory | a2a-server/src/handler.rs:883-967 | whatever the executor sends of its own task, the stored history becomes that of its last snapshot, or, when it sends none, is extended by the agent's last word and the user's message if and only if the turn creates the task or saves something of it; a turn that keeps nothing leaves the store as it was |
| Turns.MessageIsStoredExactly | a2a-server/src/handler.rs:357-405 | the user's message reaches the stored history if and only if the turn keeps anything and no snapshot was sent or the last one holds the message |
| Turns.OwnExecutorIsPlain | a2a-server/src/handler.rs:357-363 | the turns these theorems are about are those whose executor sends snapshots of its own task only |
| Turns.AnsweredMessageIsLost | a2a-server/src/handler.rs:403-403 | a turn that continues a task and is answered with one message leaves the store as it was |
| Turns.SnapshotForgetsTheHistory | examples/src/lib.rs:75-95 | a turn that reports work and ends with a snapshot without history leaves the task with no history at all |
| Turns.HistoryAccumulates | a2a-server/src/handler.rs:929-948 | over any number of turns, from before the task exists or from a stored one, accepted, failed or neither, the stored history is the first one as the turns made it grow, each extending it or starting afresh from its last snapshot; with no snapshots it is the first one and, for each turn that keeps anything, the agent's last status message, unless one of that id is there, and the user's message |
| Turns.LastWordIsKept | a2a-server/src/handler.rs:935-947 | the agent's last status message of the turn before stands in the history before the user's message unless a snapshot replaces it, and a turn leaves the message of the last status it sent as the next |
| Turns.TurnRemembers | a2a-server/src/handler.rs:929-948 | a turn that keeps anything keeps the history it was prepared with, the user's message included, if and only if its last snapshot, if any, carries it on |
| Turns.UserMessagesStayInOrder | a2a-server/src/handler.rs:929-948 | through all turns whose snapshots, if any, carry the history on, the history a turn was prepared with, the user's message last, begins the history after it and after every later turn |
| Turns.ConversationContinues | a2a-server/src/handler.rs:883-967 | a conversation whose task has not ended or does not exist yet can always go on: a message that names the task and no other context, or opens it, answered with a status, is kept and leaves the task live |
| Sse.FindEventBoundary | a2a-client/src/jsonrpc.rs:199-216 | the separator with the earliest start, or none exactly when there is none |
| Sse.BoundaryOfPrefix | a2a-client/src/jsonrpc.rs:199-216 | the earliest boundary of a prefix is the earliest of any extension |
| Sse.SeparatorsAre | a2a-client/src/jsonrpc.rs:199-214 | a separator is two line feeds, two carriage returns or two pairs, and nothing else |
| Sse.DrainConserves | a2a-client/src/jsonrpc.rs:315-335 | frames, separators and residue together are the input |
| Sse.DrainInStages | a2a-client/src/jsonrpc.rs:312-335 | draining in two stages is draining once |
| Sse.ExtractData | a2a-client/src/jsonrpc.rs:361-375 | the data lines of an event joined by line feeds |
| Sse.SseParser.DrainBuffer | a2a-client/src/jsonrpc.rs:315-335 | every complete frame of the buffer becomes its item in the queue, in order, and the residue stays |
| Sse.SseParser.Next | a2a-client/src/jsonrpc.rs:286-354 | each poll returns the next of the items of the stream, none lost or repeated, and none at the end |
| Sse.ChunksDoNotMatter | a2a-client/src/jsonrpc.rs:286-354 | however the bytes are cut, the items are those of the one-shot parse in order, with failures of the transport reported in between |
| Sse.FailuresAreReported | a2a-client/src/jsonrpc.rs:337-340 | each failure of the transport is reported, once |
| Sse.UnterminatedEventIsRead | a2a-client/src/jsonrpc.rs:255-258 | a final event that no separator ends is read as its framed form is |
| Sse.SilentEndExactly | a2a-client/src/jsonrpc.rs:238-280 | the stream ends silently only on white space or an event without data or skipped; any other tail is a plain body or reported as cut off |
| Sse.FrameIsReadExactly | a2a-client/src/jsonrpc.rs:317-334 | a frame that is not UTF-8 is reported, and one that is gives the reading of its data, if it has any |
| Sse.DataLinesReadAlike | a2a-client/src/jsonrpc.rs:364-374 | a data line reads alike with and without the space after the colon, and no other line carries data |
| Sse.DataLineCarriesData | a2a-client/src/jsonrpc.rs:256-256 | a tail counts as an event exactly when some line of it carries data |
| Text.Utf8Exactly | a2a-client/src/jsonrpc.rs:317-325 | bytes are taken for text exactly when they are the UTF-8 encoding of Unicode scalar values |
| Text.BlankExactly | a2a-client/src/jsonrpc.rs:251-253 | text is blank exactly when all its characters are white space |
| Sse.Utf8Split | a2a-client/src/jsonrpc.rs:317-325 | an ASCII byte cuts valid UTF-8 into valid UTF-8 |
| SseRoundTrip.EventPrinter.Print | a2a-server/src/sse.rs:23-26 | each event gets the next number and is printed as its id line and data lines |
| SseRoundTrip.Respond | a2a-server/src/sse.rs:66-86 | a response is the printed events and comments one after another |
| SseRoundTrip.EventIsOneFrame | a2a-server/src/sse.rs:66-86 | a printed event is exactly one frame, its id on the first line |
| SseRoundTrip.DataComesBack | a2a-client/src/jsonrpc.rs:361-378 | the client reads back the data exactly if and only if it does not start with a line break |
| SseRoundTrip.CrLfReadsAlike | a2a-client/src/jsonrpc.rs:361-375 | lines ended by CR LF read like lines ended by LF, and so does the data of an event |
| SseRoundTrip.AnySeparatorEndsTheEvent | a2a-client/src/jsonrpc.rs:199-216 | an event before any of the three separators is a frame of its own |
| SseRoundTrip.FieldsAreNamed | a2a-client/src/jsonrpc.rs:364-369 | the field names and line ends, as text |
| SseRoundTrip.BodyDrains | a2a-client/src/jsonrpc.rs:286-354 | a response is one frame for each event or comment and nothing else |
| SseRoundTrip.EventsRoundTrip | a2a-client/src/jsonrpc.rs:286-439 | events without carriage returns and with a non-empty first line, comments between them, cut anywhere, come back exactly and in order |
| SseRoundTrip.IdsCountUp | a2a-server/src/sse.rs:23-26 | the events of a response are numbered 1, 2, 3 and so on |
| Pbconv.RoundedIsNearest | a2a-pb/src/pbconv.rs:40-60 | an integer is rounded to a double, no integer-valued double is nearer, and up to 2^53 it is left as it is |
| Pbconv.IntegerSurvives | a2a-pb/src/pbconv.rs:87-94 | an integer comes back as itself if and only if it is at most 2^53 in absolute value |
| Pbconv.JsonTrip | a2a-pb/src/pbconv.rs:40-85 | for JSON of any depth, there and back is the normal form, which is normal, and exactly normal values are left alone |
| Pbconv.TimestampTrip | a2a-pb/src/pbconv.rs:111-125 | timestamps outside protobuf's range are dropped and no other |
| Pbconv.PartTrip | a2a-pb/src/pbconv.rs:203-232 | the same for a part |
| Pbconv.MessageTrip | a2a-pb/src/pbconv.rs:238-271 | the same for a message |
| Pbconv.StatusTrip | a2a-pb/src/pbconv.rs:276-290 | the same for a status |
| Pbconv.ArtifactTrip | a2a-pb/src/pbconv.rs:296-320 | the same for an artifact |
| Pbconv.TaskTrip | a2a-pb/src/pbconv.rs:326-370 | the same for a whole task |
| Pbconv.ListTasksRequestTrip | a2a-pb/src/pbconv.rs:511-545 | the trip is the normal form, which is normal, and exactly normal requests are left alone |
| Pbconv.StreamResponseTrip | a2a-pb/src/pbconv.rs:745-844 | a streamed event always comes back, as its normal form |
| Pbconv.SecondTripChangesNothing | a2a-pb/src/pbconv.rs:812-844 | a second trip changes nothing |
| Pbconv.TripKeepsTerminal | a2a-pb/src/pbconv.rs:812-844 | whether an event is terminal survives the trip |
| Pbconv.NumbersAreTheProtos | a2a-pb/proto/a2a.proto:187-208 | states and roles have the numbers of the protocol definition, and any other number reads as unspecified |
| Pbconv.ValueKinds | a2a-pb/src/pbconv.rs:40-60 | a JSON value of each kind becomes the protobuf value of that kind, element by element and field by field |
| Pbconv.PartFields | a2a-pb/src/pbconv.rs:203-216 | which protobuf field holds what of a part |
| Pbconv.MessageFields | a2a-pb/src/pbconv.rs:238-249 | the same for a message |
| Pbconv.StatusFields | a2a-pb/src/pbconv.rs:276-282 | the same for a status |
| Pbconv.ArtifactFields | a2a-pb/src/pbconv.rs:296-305 | the same for an artifact |
| Pbconv.TaskFields | a2a-pb/src/pbconv.rs:326-343 | the same for a task |
| Pbconv.UpdateFields | a2a-pb/src/pbconv.rs:745-786 | the same for status and artifact updates |
| Pbconv.ListTasksRequestFields | a2a-pb/src/pbconv.rs:511-525 | the same for a list request |
| Pbconv.PayloadKinds | a2a-pb/src/pbconv.rs:812-826 | a streamed event fills the payload of its kind |
| Pbconv.ProtoRangeIsYears | a2a-pb/src/pbconv.rs:96-99 | a timestamp fits protobuf's exactly from the start of year 1 to the end of year 9999 |
| Negotiation.CreateFromCard | a2a-client/src/factory.rs:94-149 | succeeds exactly when some supported interface's factory does, with the one least by preference and then card order, which is the only such one; otherwise the error of the last one tried, or unsupported when there is none |
| Negotiation.PreferenceDecides | a2a-client/src/factory.rs:103-119 | if some working interface has a listed binding, the chosen one has the binding listed first among those that work, and comes first in the card among the working interfaces of that binding |
| Negotiation.UnlistedByCardOrder | a2a-client/src/factory.rs:179-182 | if none has, the chosen one is the first working interface of the card |
| Negotiation.VersionNamesFactory | a2a-client/src/factory.rs:22-33 | a version that is a number, alone or before a dot, names the factory of its binding and that major version |
| Negotiation.OtherVersionsAreOne | a2a-client/src/factory.rs:23-29 | any other version counts as version 1 |
| Negotiation.BestIsUnique | a2a-client/src/factory.rs:118-119 | preference and card order leave at most one best interface |
| Negotiation.Collect | a2a-client/src/factory.rs:98-110 | one candidate for each supported interface, in the card's order |
| Negotiation.TryInOrder | a2a-client/src/factory.rs:121-148 | the first candidate whose factory succeeds is the best interface; when none does, the error is the last one's |
| Negotiation.SortingRanks | a2a-client/src/factory.rs:118-119 | the stable sort by preference puts the candidates in order of preference and then of the card |
| Negotiation.CardOrderDecides | a2a-client/src/factory.rs:179-185 | with no preferences the best interface is the first working one of the card |
| Negotiation.ListedBeforeUnlisted | a2a-client/src/factory.rs:103-107 | a listed binding ranks before every unlisted one |
| Negotiation.VersionDoesNotRank | a2a-client/src/factory.rs:68-72 | of two working interfaces of one binding the later in the card is never chosen, whatever its version |
| Negotiation.PositionOf | a2a-client/src/factory.rs:103-107 | the first position of a binding in the preferences |
| Paging.ListPushConfigs | a2a-server/src/handler.rs:1360-1389 | one page of the configurations sorted by id, or an error for a token that is no number |
| Paging.TokensAdvance | a2a-server/src/handler.rs:1375-1383 | a page's token is parsed back to where the page ended, strictly further on |
| Paging.PageOfAnyToken | a2a-server/src/handler.rs:1374-1383 | a page is refused exactly when its token is no numeral of a 64-bit number, and a number past the end gets an empty last page |
| Paging.PagesAreById | a2a-server/src/handler.rs:1366-1367 | configurations without an id come first, the others by id |
| Paging.StringLeIs | a2a-server/src/handler.rs:1367-1367 | an id comes before another if it begins it or has the lesser character where they first differ |
| Paging.PagingIsComplete | a2a-server/src/handler.rs:1360-1389 | following the tokens with any sizes visits the sorted list exactly once, in pages of 1 to 100, at most one request for each entry |
| Paging.ResolvedPageSize | a2a-server/src/pagination.rs:29-34 | the size served is the one asked for from 1 to 100, 100 for more, and 50 when none or nothing positive is asked for |
| Decimal.PrintedParses | a2a-server/src/handler.rs:1375-1383 | a printed number is parsed back exactly |
| Decimal.ParsesExactly | a2a-server/src/handler.rs:1374-1377 | what is parsed, and as what: numerals within 64 bits, with a plus sign or not, with leading zeros or not |
| Sorting.SortedIsStable | a2a-client/src/factory.rs:118-119 | what holds along the input holds along equal elements of the result |
| Sorting.SortedIs | a2a-server/src/handler.rs:1366-1366 | the sort orders and keeps the elements |

## Left out

- HTTP, gRPC, SLIMRPC, TLS, headers and wire logging: plumbing over libraries that are not part of this model.
- Delivery of push notifications: `send_push_notifications` is a step that may fail.
- serde, prost and pbjson codecs: the reading of an event's data and of a plain body is a parameter of the SSE parser.
- Mapping of errors to status codes, and the texts of errors: errors carry their code, and the driver's own failure message its text.
- Conversion of agent cards, security schemes and the remaining requests: the same pattern as tasks with more fields.
- The clock: timestamps are parameters.
- Which tasks a limit on finished ones purges, and when: a purge is a step that may come at any time after a task has ended.
- Versions of stored tasks, which the handler does not use.
- Capability, extension, authorisation and content-type checks: one branch each.
- Shaping of the answer of `send_message` (history length, waiting for an interrupted state) and `list_tasks`.
- The defaults a factory builder registers, and client interceptors.
- Scheduling: fairness and liveness of tokio, and poisoning of locks. Locks are atomic, broadcast and oneshot channels behave as documented.
- Two messages for the same task at the same time: the history theorems are for turns that run one after another.
- Driver.DriveExecution: ends before the call of `finish`, which is a step of `Cancellation` and a method of `ExecutionManagers`.
- DriverProperties.StoreFollowsEvents: is about a driver that is the store's only writer, because a cancel beside it can write between two turns.
- Cancel.CancelPublishesWhatItApplied: the folds are those of a cancel that is the store's only writer after it commits.
- Cancellation.RunKeepsInvariant: the racing system keeps of the store the state of each task only.
- Turns.TurnHistory: is about executors that send snapshots of their own task only; one that sends another task's makes the rest of the turn work on that one.
- Turns.TakeExchange: leaves out the saving of a push configuration sent along and the refusal of a task already being executed, and lets a turn end before the next begins.
- SseRoundTrip.EventsRoundTrip: does not cover data with carriage returns, which the client's line splitting reads differently from the server's printing.
- Types.CHRONO_MIN_SECONDS: the bounds of chrono's dates are written out; only that they contain protobuf's range is used.
