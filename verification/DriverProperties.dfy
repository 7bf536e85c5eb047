/** What a driven execution publishes and what it leaves in the store. */
module DriverProperties {
  import opened Wrappers
  import opened Types
  import opened TaskFold
  import opened TaskStores
  import opened ExecutionProtocol
  import opened SinglePublisher
  import opened Driver

  // ---------------------------------------------------------------------
  // The grammar of what is published
  // ---------------------------------------------------------------------

  predicate IsMessage(publication: Publication) {
    publication.outcome.Ok? && publication.outcome.value.MessageEvent?
  }

  /** Nothing follows a terminal event or an error, and a message is the only
      event there is. */
  ghost predicate WellFormed(published: seq<Publication>) {
    && (forall k :: 0 <= k < |published| - 1 ==> !EndsStream(published[k].outcome))
    && (forall j, k :: 0 <= j < |published| && 0 <= k < |published| && IsMessage(published[j]) && published[k].outcome.Ok?
          ==> j == k)
  }

  ghost predicate LoopGrammar(d: DriverState) {
    && WellFormed(d.published)
    && (forall k :: 0 <= k < |d.published| ==> d.published[k].outcome.Ok?)
    && (d.published != [] && EndsStream(d.published[|d.published| - 1].outcome) ==> d.stopped && d.failure.None?)
    && (d.failure.Some? ==> d.stopped)
    && (!d.stopped ==>
          && (d.answered ==> |d.published| == 1)
          && (!d.answered ==> forall k :: 0 <= k < |d.published| ==> !IsMessage(d.published[k]))
          && (!d.answered && !d.tracked ==> d.published == []))
  }

  lemma StoppingKeepsGrammar(d: DriverState, next: DriverState)
    requires LoopGrammar(d) && !d.stopped
    requires next.stopped && next.published == d.published
    ensures LoopGrammar(next)
  {
  }

  lemma PublishingKeepsGrammar(d: DriverState, event: StreamResponse, publication: Publication, next: DriverState)
    requires LoopGrammar(d) && !d.stopped && !BreaksGrammar(d, event)
    requires next.failure.None? && next.stopped == IsTerminalEvent(event)
    requires next.answered == event.MessageEvent? && next.tracked == (d.tracked || !event.MessageEvent?)
    requires next.published == d.published + [publication] && publication.outcome == Ok(event)
    ensures LoopGrammar(next)
  {
    var n := |d.published|;
    assert forall k :: 0 <= k < n ==> next.published[k] == d.published[k];
  }

  /** What an event leads to: a publication of it, or a failure without one. */
  lemma EventPublishesOrFails(d: DriverState, event: StreamResponse, turn: Turn)
    requires d.failure.None?
    ensures var next := AfterEvent(d, event, turn);
            || (next.stopped && next.failure.Some? && next.published == d.published)
            || (&& next.failure.None? && next.stopped == IsTerminalEvent(event)
                && next.answered == d.answered && next.tracked == d.tracked
                && |next.published| == |d.published| + 1
                && next.published == d.published + [next.published[|d.published|]]
                && next.published[|d.published|].outcome == Ok(event))
  {
  }

  lemma TurnKeepsGrammar(d: DriverState, turn: Turn)
    requires LoopGrammar(d) && !d.stopped
    ensures LoopGrammar(AfterTurn(d, turn))
  {
    var next := AfterTurn(d, turn);
    if SeesTerminal(d, turn) || turn.outcome.Err? || BreaksGrammar(d, turn.outcome.value) {
      StoppingKeepsGrammar(d, next);
    } else {
      var received := turn.outcome.value;
      var event := Backfilled(received, turn.store.now);
      var begun := d.(answered := received.MessageEvent?, tracked := d.tracked || !received.MessageEvent?);
      EventPublishesOrFails(begun, event, turn);
      if next.failure.Some? {
        StoppingKeepsGrammar(d, next);
      } else {
        PublishingKeepsGrammar(d, event, next.published[|d.published|], next);
      }
    }
  }

  lemma {:induction false} TurnsKeepGrammar(task: Task, tasks: Tasks, turns: seq<Turn>)
    ensures LoopGrammar(AfterTurns(Begun(task, tasks), turns))
  {
    if turns != [] {
      var before := turns[..|turns| - 1];
      TurnsKeepGrammar(task, tasks, before);
      var d := AfterTurns(Begun(task, tasks), before);
      if !d.stopped { TurnKeepsGrammar(d, turns[|turns| - 1]); }
    }
  }

  /** Whatever the executor yields, and whatever the store, the push and a
      cancel do meanwhile, the driver publishes either one message or task
      events only, at most one of them terminal and then the last, and at most
      one error, as the last publication, never after a terminal event. */
  lemma DriverPublishesWellFormed(task: Task, tasks: Tasks, turns: seq<Turn>, ending: Ending)
    ensures WellFormed(Driven(task, tasks, turns, ending).published)
  {
    TurnsKeepGrammar(task, tasks, turns);
  }

  // ---------------------------------------------------------------------
  // Agreement of events, snapshot and store
  // ---------------------------------------------------------------------

  predicate AnyTaskEvent(events: seq<StreamResponse>) {
    exists k :: 0 <= k < |events| && !events[k].MessageEvent?
  }

  /** The publication of the n-th applied event: the event with the task it
      leads to. */
  ghost predicate PublishedAsApplied(task: Task, d: DriverState) {
    && |d.published| <= |d.applied| <= |d.published| + 1
    && (d.failure.None? ==> |d.published| == |d.applied|)
    && forall k :: 0 <= k < |d.published| ==>
         d.published[k] == Publication(Ok(d.applied[k]), Folded(task, d.applied[..k + 1]))
  }

  /** The task in hand is the fold of the events applied, and it is the stored
      one as soon as a task event is among them; before, the store is as it was. */
  ghost predicate TaskAgrees(task: Task, tasks: Tasks, d: DriverState) {
    && d.current.Some? && d.current == Folded(task, d.applied) && IsStamped(d.current.value)
    && (if AnyTaskEvent(d.applied)
        then d.current.value.id in d.tasks && d.tasks[d.current.value.id] == d.current.value
        else d.tasks == tasks && d.current.value == task)
  }

  /** ... and the snapshot of the execution is the fold of those published. */
  ghost predicate Agrees(task: Task, tasks: Tasks, d: DriverState) {
    && TaskAgrees(task, tasks, d)
    && PublishedAsApplied(task, d)
    && d.snapshot == Folded(task, d.applied[..|d.published|])
  }

  /** What a successful application of a stamped event does to store and task. */
  lemma AppliedIsSaved(tasks: Tasks, current: Task, event: StreamResponse, env: Environment)
    requires IsStamped(current) && EventStamped(event)
    requires AppliedToStore(tasks, Some(current), event, env).1.Ok?
    ensures var (after, updated) := AppliedToStore(tasks, Some(current), event, env);
            && updated.value.Some? && updated.value == Applied(current, event) && IsStamped(updated.value.value)
            && after == (if event.MessageEvent? then tasks else tasks[updated.value.value.id := updated.value.value])
            && (event.MessageEvent? ==> updated.value.value == current)
  {
    if Applied(current, event).Some? { AppliedKeepsStamp(current, event); }
  }

  lemma ApplyKeepsTask(task: Task, tasks: Tasks, d: DriverState, event: StreamResponse, env: Environment)
    requires TaskAgrees(task, tasks, d) && EventStamped(event)
    requires AppliedToStore(d.tasks, d.current, event, env).1.Ok?
    ensures var (after, updated) := AppliedToStore(d.tasks, d.current, event, env);
            TaskAgrees(task, tasks, d.(tasks := after, current := updated.value, applied := d.applied + [event]))
  {
    AppliedIsSaved(d.tasks, d.current.value, event, env);
    FoldedSnoc(task, d.applied, event);
    AnyTaskEventSnoc(d.applied, event);
  }

  lemma PublishKeepsOrder(task: Task, d: DriverState, event: StreamResponse, updated: Option<Task>, next: DriverState)
    requires PublishedAsApplied(task, d) && d.failure.None?
    requires updated == Folded(task, d.applied + [event])
    requires next.applied == d.applied + [event]
    requires next.published == d.published + [Publication(Ok(event), updated)] || (next.published == d.published && next.failure.Some?)
    ensures PublishedAsApplied(task, next)
  {
    assert forall k :: 0 <= k <= |d.applied| ==> next.applied[..k] == d.applied[..k];
    assert next.applied[..|next.applied|] == next.applied;
  }

  lemma EventKeepsAgreement(task: Task, tasks: Tasks, d: DriverState, event: StreamResponse, turn: Turn)
    requires Agrees(task, tasks, d) && d.failure.None? && EventStamped(event)
    ensures Agrees(task, tasks, AfterEvent(d, event, turn))
  {
    var next := AfterEvent(d, event, turn);
    var (after, updated) := AppliedToStore(d.tasks, d.current, event, turn.store);
    if updated.Ok? {
      ApplyKeepsTask(task, tasks, d, event, turn.store);
      PublishKeepsOrder(task, d, event, updated.value, next);
      assert next.applied[..|d.published|] == d.applied[..|d.published|];
      assert next.applied[..|next.applied|] == next.applied;
    }
  }

  lemma AnyTaskEventSnoc(events: seq<StreamResponse>, event: StreamResponse)
    ensures AnyTaskEvent(events + [event]) <==> AnyTaskEvent(events) || !event.MessageEvent?
  {
    if AnyTaskEvent(events) {
      var k :| 0 <= k < |events| && !events[k].MessageEvent?;
      assert (events + [event])[k] == events[k];
    }
    assert (events + [event])[|events|] == event;
  }

  lemma TurnKeepsAgreement(task: Task, tasks: Tasks, d: DriverState, turn: Turn)
    requires Agrees(task, tasks, d) && d.failure.None?
    ensures Agrees(task, tasks, AfterTurn(d, turn))
    ensures !AfterTurn(d, turn).stopped ==> AfterTurn(d, turn).failure.None?
  {
    if SeesTerminal(d, turn) || turn.outcome.Err? || BreaksGrammar(d, turn.outcome.value) {
      FlagsKeepAgreement(task, tasks, d, AfterTurn(d, turn));
    } else {
      var received := turn.outcome.value;
      var event := Backfilled(received, turn.store.now);
      var begun := d.(answered := received.MessageEvent?, tracked := d.tracked || !received.MessageEvent?);
      FlagsKeepAgreement(task, tasks, d, begun);
      BackfilledIsStamped(received, turn.store.now);
      EventKeepsAgreement(task, tasks, begun, event, turn);
      EventPublishesOrFails(begun, event, turn);
    }
  }

  lemma FlagsKeepAgreement(task: Task, tasks: Tasks, d: DriverState, next: DriverState)
    requires Agrees(task, tasks, d)
    requires next.current == d.current && next.tasks == d.tasks && next.snapshot == d.snapshot
    requires next.applied == d.applied && next.published == d.published
    requires next.failure.None? ==> d.failure.None?
    ensures Agrees(task, tasks, next)
  {
  }

  lemma {:induction false} TurnsKeepAgreement(task: Task, tasks: Tasks, turns: seq<Turn>)
    requires IsStamped(task)
    ensures var d := AfterTurns(Begun(task, tasks), turns); Agrees(task, tasks, d) && (!d.stopped ==> d.failure.None?)
  {
    if turns != [] {
      var before := turns[..|turns| - 1];
      TurnsKeepAgreement(task, tasks, before);
      var d := AfterTurns(Begun(task, tasks), before);
      if !d.stopped { TurnKeepsAgreement(task, tasks, d, turns[|turns| - 1]); }
    }
  }

  /** With no cancel at work, every published event was applied first, each
      comes with the fold of the events up to it, and the stored task is the
      fold of all events applied once there is a task event among them; until
      then the store is untouched. */
  lemma StoreFollowsEvents(task: Task, tasks: Tasks, turns: seq<Turn>)
    requires IsStamped(task)
    ensures Agrees(task, tasks, AfterTurns(Begun(task, tasks), turns))
  {
    TurnsKeepAgreement(task, tasks, turns);
  }

  lemma {:induction false} MessagesChangeNothing(task: Task, events: seq<StreamResponse>)
    requires !AnyTaskEvent(events)
    ensures Folded(task, events) == Some(task)
  {
    if events != [] {
      var before := events[..|events| - 1];
      assert forall k :: 0 <= k < |before| ==> before[k] == events[k];
      assert events[|events| - 1].MessageEvent?;
      MessagesChangeNothing(task, before);
    }
  }

  /** A run of a live task that fails, with the failure path's save going
      through, leaves the stored task terminal: FAILED with everything but its
      status as the events left it, or, when it was terminal already, as it was. */
  lemma FailureLeavesTerminal(task: Task, tasks: Tasks, turns: seq<Turn>, ending: Ending)
    requires IsStamped(task) && !task.Terminal() && SavesSucceed(ending.store)
    requires AfterTurns(Begun(task, tasks), turns).failure.Some?
    ensures var d := AfterTurns(Begun(task, tasks), turns);
            var end := Driven(task, tasks, turns, ending);
            && d.current.Some?
            && d.current.value.id in end.tasks && end.tasks[d.current.value.id].Terminal()
            && (d.current.value.Terminal() ==> end.tasks == d.tasks)
            && (!d.current.value.Terminal() ==>
                  && end.tasks == d.tasks[d.current.value.id := end.tasks[d.current.value.id]]
                  && end.tasks[d.current.value.id].status.state == Failed
                  && end.tasks[d.current.value.id].(status := d.current.value.status) == d.current.value)
  {
    TurnsKeepAgreement(task, tasks, turns);
  }

  // ---------------------------------------------------------------------
  // Whose tasks are saved
  // ---------------------------------------------------------------------

  /** Every task snapshot is one of the task with this id. */
  predicate OwnSnapshots(events: seq<StreamResponse>, id: TaskId) {
    forall k :: 0 <= k < |events| && events[k].TaskEvent? ==> events[k].task.id == id
  }

  /** The executor sends snapshots of the task with this id only. */
  predicate KeepsToItsTask(turns: seq<Turn>, id: TaskId) {
    forall k :: 0 <= k < |turns| && turns[k].outcome.Ok? && turns[k].outcome.value.TaskEvent? ==>
      turns[k].outcome.value.task.id == id
  }

  /** The stores differ in this task at most. */
  ghost predicate SameElsewhere(before: Tasks, after: Tasks, id: TaskId) {
    forall other :: other != id ==>
      && (other in after <==> other in before)
      && (other in after ==> after[other] == before[other])
  }

  ghost predicate SavesOwnTask(tasks: Tasks, d: DriverState, id: TaskId) {
    && d.current.Some? && d.current.value.id == id
    && OwnSnapshots(d.applied, id)
    && SameElsewhere(tasks, d.tasks, id)
  }

  lemma EventSavesOwnTask(tasks: Tasks, d: DriverState, event: StreamResponse, turn: Turn, id: TaskId)
    requires SavesOwnTask(tasks, d, id) && (event.TaskEvent? ==> event.task.id == id)
    ensures SavesOwnTask(tasks, AfterEvent(d, event, turn), id)
  {
    ApplicationSavesOwnTask(d.tasks, d.current.value, event, turn.store);
    EventIsApplied(d, event, turn);
    SameElsewhereOnwards(tasks, d.tasks, AfterEvent(d, event, turn).tasks, id);
    OwnSnapshotsSnoc(d.applied, event, id);
  }

  lemma EventIsApplied(d: DriverState, event: StreamResponse, turn: Turn)
    ensures var (after, updated) := AppliedToStore(d.tasks, d.current, event, turn.store);
            var next := AfterEvent(d, event, turn);
            && next.tasks == after
            && next.current == (if updated.Ok? then updated.value else d.current)
            && next.applied == (if updated.Ok? then d.applied + [event] else d.applied)
  {
  }

  lemma ApplicationSavesOwnTask(tasks: Tasks, current: Task, event: StreamResponse, env: Environment)
    requires event.TaskEvent? ==> event.task.id == current.id
    ensures var (after, updated) := AppliedToStore(tasks, Some(current), event, env);
            && SameElsewhere(tasks, after, current.id)
            && (updated.Ok? ==> updated.value.Some? && updated.value.value.id == current.id)
  {
    SavesOneTask(tasks, Some(current), event, env);
  }

  lemma SameElsewhereOnwards(first: Tasks, second: Tasks, third: Tasks, id: TaskId)
    requires SameElsewhere(first, second, id) && SameElsewhere(second, third, id)
    ensures SameElsewhere(first, third, id)
  {
  }

  lemma OwnSnapshotsSnoc(events: seq<StreamResponse>, event: StreamResponse, id: TaskId)
    requires OwnSnapshots(events, id) && (event.TaskEvent? ==> event.task.id == id)
    ensures OwnSnapshots(events + [event], id)
  {
  }

  lemma TurnSavesOwnTask(tasks: Tasks, d: DriverState, turn: Turn, id: TaskId)
    requires SavesOwnTask(tasks, d, id) && KeepsToItsTask([turn], id)
    ensures SavesOwnTask(tasks, AfterTurn(d, turn), id)
  {
    assert [turn][0] == turn;
    if !SeesTerminal(d, turn) && turn.outcome.Ok? && !BreaksGrammar(d, turn.outcome.value) {
      var received := turn.outcome.value;
      EventSavesOwnTask(tasks, d.(answered := received.MessageEvent?, tracked := d.tracked || !received.MessageEvent?),
                        Backfilled(received, turn.store.now), turn, id);
    }
  }

  lemma {:induction false} TurnsSaveOwnTask(task: Task, tasks: Tasks, turns: seq<Turn>)
    requires KeepsToItsTask(turns, task.id)
    ensures SavesOwnTask(tasks, AfterTurns(Begun(task, tasks), turns), task.id)
  {
    if turns != [] {
      var before, turn := turns[..|turns| - 1], turns[|turns| - 1];
      assert forall k :: 0 <= k < |before| ==> before[k] == turns[k];
      TurnsSaveOwnTask(task, tasks, before);
      var d := AfterTurns(Begun(task, tasks), before);
      if !d.stopped { TurnSavesOwnTask(tasks, d, turn, task.id); }
    }
  }

  /** An executor that sends snapshots of its own task only makes the driver save
      that task only, its failure included: all others in the store stay as they
      were. */
  lemma OwnExecutorSavesOwnTask(task: Task, tasks: Tasks, turns: seq<Turn>, ending: Ending)
    requires KeepsToItsTask(turns, task.id)
    ensures OwnSnapshots(AfterTurns(Begun(task, tasks), turns).applied, task.id)
    ensures SameElsewhere(tasks, Driven(task, tasks, turns, ending).tasks, task.id)
  {
    TurnsSaveOwnTask(task, tasks, turns);
  }

  // ---------------------------------------------------------------------
  // What a subscriber rebuilds
  // ---------------------------------------------------------------------

  lemma {:induction false} SnapshotsAreFolds(task: Task, d: DriverState, n: nat)
    requires PublishedAsApplied(task, d) && n <= |d.published|
    ensures Folded(task, d.applied[..n]) == Some(SnapshotAt(task, d.published, n)) || Folded(task, d.applied[..n]).None?
  {
    if n > 0 { SnapshotsAreFolds(task, d, n - 1); }
  }

  /** Each event the driver publishes comes with the snapshot it leads to. */
  lemma DriverIsFaithful(task: Task, tasks: Tasks, turns: seq<Turn>, ending: Ending)
    requires IsStamped(task)
    ensures Faithful(task, Driven(task, tasks, turns, ending).published)
  {
    TurnsKeepAgreement(task, tasks, turns);
    var d := AfterTurns(Begun(task, tasks), turns);
    var published := Driven(task, tasks, turns, ending).published;
    forall n | 0 <= n < |published| && published[n].outcome.Ok?
      ensures published[n].snapshot.Some?
      ensures published[n].snapshot == Applied(SnapshotAt(task, published, n), published[n].outcome.value)
    {
      assert n < |d.published| && published[n] == d.published[n];
      PublicationIsFaithful(task, d, n);
      SnapshotOfPrefix(task, d.published, published, n);
    }
  }

  lemma PublicationIsFaithful(task: Task, d: DriverState, n: nat)
    requires PublishedAsApplied(task, d) && n < |d.published| && Folded(task, d.applied).Some?
    ensures d.published[n] == Publication(Ok(d.applied[n]), Applied(SnapshotAt(task, d.published, n), d.applied[n]))
    ensures d.published[n].snapshot.Some?
  {
    PrefixSnapshot(task, d, n);
    PrefixesFold(task, d.applied, n + 1);
    NextPrefix(d.applied, n);
    FoldedSnoc(task, d.applied[..n], d.applied[n]);
  }

  lemma PrefixSnapshot(task: Task, d: DriverState, n: nat)
    requires PublishedAsApplied(task, d) && n < |d.published| && Folded(task, d.applied).Some?
    ensures Folded(task, d.applied[..n]) == Some(SnapshotAt(task, d.published, n))
  {
    SnapshotsAreFolds(task, d, n);
    PrefixesFold(task, d.applied, n);
  }

  lemma NextPrefix(events: seq<StreamResponse>, n: nat)
    requires n < |events|
    ensures events[..n + 1] == events[..n] + [events[n]]
  {
  }

  lemma {:induction false} PrefixesFold(task: Task, events: seq<StreamResponse>, n: nat)
    requires n <= |events| && Folded(task, events).Some?
    ensures Folded(task, events[..n]).Some?
  {
    assert events == events[..n] + events[n..];
    FoldedConcat(task, events[..n], events[n..]);
  }

  lemma {:induction false} SnapshotOfPrefix(task: Task, prefix: seq<Publication>, published: seq<Publication>, n: nat)
    requires prefix <= published && n <= |prefix|
    ensures SnapshotAt(task, prefix, n) == SnapshotAt(task, published, n)
  {
    if n > 0 { SnapshotOfPrefix(task, prefix, published, n - 1); }
  }

  /** From executor to subscriber: while an execution's publications are those
      of its driver, every stream opened with a task rebuilds, from what it is
      given, the task the execution itself holds. */
  lemma SubscribersRebuildTheTask(
      task: Task, waiting: nat, actions: seq<Action>, i: nat,
      tasks: Tasks, turns: seq<Turn>, ending: Ending)
    requires IsStamped(task)
    requires IsRun(Started(task, waiting), actions) && OnlyDriverPublishes(actions)
    requires After(Started(task, waiting), actions).history <= Driven(task, tasks, turns, ending).published
    requires i < |After(Started(task, waiting), actions).subscriptions|
    requires After(Started(task, waiting), actions).subscriptions[i].opening.Some?
    requires After(Started(task, waiting), actions).subscriptions[i].snapshot.None?
    ensures var s := After(Started(task, waiting), actions);
            YieldedExactlyOnce(s, s.subscriptions[i]) && RebuildsTheTask(s, s.subscriptions[i])
  {
    DriverIsFaithful(task, tasks, turns, ending);
    var history := After(Started(task, waiting), actions).history;
    FaithfulPrefix(task, history, Driven(task, tasks, turns, ending).published);
    SnapshotPlusEvents(task, waiting, actions, i);
  }

  lemma FaithfulPrefix(task: Task, prefix: seq<Publication>, published: seq<Publication>)
    requires prefix <= published && Faithful(task, published)
    ensures Faithful(task, prefix)
  {
    forall n | 0 <= n < |prefix| && prefix[n].outcome.Ok?
      ensures prefix[n].snapshot.Some?
      ensures prefix[n].snapshot == Applied(SnapshotAt(task, prefix, n), prefix[n].outcome.value)
    {
      assert published[n] == prefix[n];
      SnapshotOfPrefix(task, prefix, published, n);
    }
  }
}
