/** The loop that drives one execution: it applies what the executor yields to
    the stored task and publishes it (`drive_execution` and `fail_task`,
    a2a-server/src/handler.rs). */
module Driver {
  import opened Wrappers
  import opened Types
  import opened TaskFold
  import opened TaskStores
  import opened ExecutionProtocol
  import opened ActiveExecutions

  /** What surrounds one turn of the loop. `observed` is what the turn finds the
      execution's snapshot to be when something else has published; None when
      it finds its own. */
  datatype Turn = Turn(
    outcome: Outcome,
    observed: Option<bool>,
    store: Environment,
    pushFault: Option<A2AError>)

  /** What surrounds the failure path, the message it makes included. */
  datatype Ending = Ending(messageId: string, store: Environment)

  datatype DriverState = DriverState(
    current: Option<Task>,
    tasks: Tasks,
    snapshot: Option<Task>,
    published: seq<Publication>,
    answered: bool,
    tracked: bool,
    failure: Option<A2AError>,
    stopped: bool,
    applied: seq<StreamResponse>)  // history variable: events applied, in order

  function Begun(task: Task, tasks: Tasks): DriverState {
    DriverState(Some(task), tasks, Some(task), [], false, false, None, false, [])
  }

  predicate SeesTerminal(d: DriverState, turn: Turn) {
    turn.observed.UnwrapOr(d.snapshot.Some? && d.snapshot.value.Terminal())
  }

  function Failing(d: DriverState, error: A2AError): DriverState {
    d.(failure := Some(error), stopped := true)
  }

  /** A response is one message, or a task and its updates, never both. */
  predicate BreaksGrammar(d: DriverState, event: StreamResponse) {
    d.answered || (event.MessageEvent? && d.tracked)
  }

  /** One turn of the loop that has not stopped. */
  function AfterTurn(d: DriverState, turn: Turn): DriverState {
    if SeesTerminal(d, turn) then d.(stopped := true)
    else
      match turn.outcome
      case Err(error) => Failing(d, error)
      case Ok(received) =>
        if BreaksGrammar(d, received) then Failing(d, Error(INVALID_AGENT_RESPONSE))
        else AfterEvent(d.(answered := received.MessageEvent?, tracked := d.tracked || !received.MessageEvent?),
                        Backfilled(received, turn.store.now), turn)
  }

  function AfterEvent(d: DriverState, event: StreamResponse, turn: Turn): DriverState {
    match AppliedToStore(d.tasks, d.current, event, turn.store)
    case (_, Err(error)) => Failing(d, error)
    case (tasks, Ok(updated)) =>
      var d := d.(tasks := tasks, current := updated, applied := d.applied + [event]);
      if turn.pushFault.Some? then Failing(d, turn.pushFault.value)
      else d.(
        published := d.published + [Publication(Ok(event), updated)],
        snapshot := if updated.Some? then updated else d.snapshot,
        stopped := IsTerminalEvent(event))
  }

  function AfterTurns(d: DriverState, turns: seq<Turn>): DriverState {
    if turns == [] then d
    else
      var before := AfterTurns(d, turns[..|turns| - 1]);
      if before.stopped then before else AfterTurn(before, turns[|turns| - 1])
  }

  /** The FAILED task of an execution that failed midway. */
  function FailedTask(task: Task, ending: Ending): Task {
    task.(status := TaskStatus(
      Failed,
      Some(Message(ending.messageId, Some(task.contextId), Some(task.id), Agent,
                   [Part(Text("Internal error"), None, None, None)], None, None, None)),
      Some(ending.store.now)))
  }

  /** The task `fail_task` saves, when there is one to fail and it can be saved. */
  function FailureSaved(d: DriverState, ending: Ending): Option<Task> {
    if d.current.Some? && !d.current.value.Terminal() && SaveError(d.tasks, d.current.value.id, ending.store).None?
    then Some(FailedTask(d.current.value, ending))
    else None
  }

  /** After the loop: a failure fails the task and is published. */
  function Finished(d: DriverState, ending: Ending): DriverState {
    if d.failure.None? then d
    else
      var failed := FailureSaved(d, ending);
      d.(tasks := if failed.Some? then d.tasks[failed.value.id := failed.value] else d.tasks,
         published := d.published + [Publication(Err(d.failure.value), failed)],
         snapshot := if failed.Some? then failed else d.snapshot)
  }

  function Driven(task: Task, tasks: Tasks, turns: seq<Turn>, ending: Ending): DriverState {
    Finished(AfterTurns(Begun(task, tasks), turns), ending)
  }

  // ---------------------------------------------------------------------
  // The loop itself
  // ---------------------------------------------------------------------

  lemma OneMoreTurn(d: DriverState, turns: seq<Turn>, n: nat)
    requires n < |turns|
    ensures AfterTurns(d, turns[..n + 1])
         == var before := AfterTurns(d, turns[..n]);
            if before.stopped then before else AfterTurn(before, turns[n])
  {
    assert turns[..n + 1][..n] == turns[..n];
  }

  lemma {:induction false} StoppedStays(d: DriverState, turns: seq<Turn>, n: nat)
    requires n <= |turns| && AfterTurns(d, turns[..n]).stopped
    ensures AfterTurns(d, turns) == AfterTurns(d, turns[..n])
    decreases |turns| - n
  {
    if n < |turns| {
      OneMoreTurn(d, turns, n);
      StoppedStays(d, turns, n + 1);
    } else {
      assert turns[..n] == turns;
    }
  }

  /** The store and the execution hold what `d` says, given what had been
      published before. */
  ghost predicate Holds(store: TaskStore, active: ActiveExecution, before: seq<Publication>, d: DriverState)
    reads store, active
  {
    && store.tasks == d.tasks
    && active.snapshotTask == d.snapshot
    && active.history == before + d.published
    && !active.closed && ExecutionProtocol.Driver !in active.pending
  }

  /** One pass through the body of the loop. */
  method TakeTurn(store: TaskStore, active: ActiveExecution, turn: Turn, d: DriverState, ghost before: seq<Publication>)
    returns (next: DriverState)
    requires Holds(store, active, before, d) && !d.stopped
    modifies store, active
    ensures next == AfterTurn(d, turn) && Holds(store, active, before, next)
  {
    if turn.observed.UnwrapOr(active.snapshotTask.Some? && active.snapshotTask.value.Terminal()) {
      return d.(stopped := true);
    }
    if turn.outcome.Err? {
      return Failing(d, turn.outcome.error);
    }
    var event := turn.outcome.value;
    var message := event.MessageEvent?;
    if d.answered || (message && d.tracked) {
      return Failing(d, Error(INVALID_AGENT_RESPONSE));
    }
    next := d.(answered := message, tracked := d.tracked || !message);
    next := TakeEvent(store, active, Backfilled(event, turn.store.now), turn, next, before);
  }

  /** The driver's own `publish`, and what it comes to for the driver. */
  method Announce(active: ActiveExecution, outcome: Outcome, snapshot: Option<Task>)
    requires !active.closed && ExecutionProtocol.Driver !in active.pending
    modifies active
    ensures !active.closed && ExecutionProtocol.Driver !in active.pending
    ensures active.snapshotTask == if snapshot.Some? then snapshot else old(active.snapshotTask)
    ensures active.history == old(active.history) + [Publication(outcome, snapshot)]
  {
    active.Publish(ExecutionProtocol.Driver, outcome, snapshot);
  }

  /** An event applied, pushed and published. */
  method TakeEvent(store: TaskStore, active: ActiveExecution, event: StreamResponse, turn: Turn, d: DriverState,
                   ghost before: seq<Publication>)
    returns (next: DriverState)
    requires Holds(store, active, before, d)
    modifies store, active
    ensures next == AfterEvent(d, event, turn) && Holds(store, active, before, next)
  {
    var updated := store.Apply(d.current, event, turn.store);
    if updated.Err? {
      return Failing(d, updated.error);
    }
    next := d.(tasks := store.tasks, current := updated.value, applied := d.applied + [event]);
    if turn.pushFault.Some? {
      return Failing(next, turn.pushFault.value);
    }
    Announce(active, Ok(event), updated.value);
    next := next.(
      published := next.published + [Publication(Ok(event), updated.value)],
      snapshot := if updated.value.Some? then updated.value else next.snapshot,
      stopped := IsTerminalEvent(event));
    assert active.history == before + next.published;
  }

  /** `fail_task`, and the error published with what it leaves. */
  method Fail(store: TaskStore, active: ActiveExecution, d: DriverState, ending: Ending, ghost before: seq<Publication>)
    returns (next: DriverState)
    requires Holds(store, active, before, d) && d.failure.Some?
    modifies store, active
    ensures next == Finished(d, ending) && Holds(store, active, before, next)
  {
    var failed := None;
    if d.current.Some? && !d.current.value.Terminal() {
      var saved := store.Save(FailedTask(d.current.value, ending), ending.store);
      if saved.Ok? { failed := Some(saved.value); }
    }
    Announce(active, Err(d.failure.value), failed);
    next := d.(tasks := store.tasks,
               published := d.published + [Publication(Err(d.failure.value), failed)],
               snapshot := if failed.Some? then failed else d.snapshot);
    assert active.history == before + next.published;
  }

  /** `drive_execution` over the executor's results. It leaves the store, the
      execution's snapshot and what it has published as `Driven` says. */
  method DriveExecution(store: TaskStore, active: ActiveExecution, turns: seq<Turn>, ending: Ending)
    returns (d: DriverState)
    requires !active.closed && ExecutionProtocol.Driver !in active.pending && active.snapshotTask.Some?
    modifies store, active
    ensures d == Driven(old(active.snapshotTask).value, old(store.tasks), turns, ending)
    ensures Holds(store, active, old(active.history), d)
  {
    ghost var before := active.history;
    d := Begun(active.snapshotTask.value, store.tasks);
    ghost var start := d;
    var n := 0;
    while n < |turns| && !d.stopped
      invariant 0 <= n <= |turns|
      invariant d == AfterTurns(start, turns[..n]) && Holds(store, active, before, d)
    {
      OneMoreTurn(start, turns, n);
      d := TakeTurn(store, active, turns[n], d, before);
      n := n + 1;
    }
    StoppedOrDone(start, turns, n);
    if d.failure.Some? {
      d := Fail(store, active, d, ending, before);
    }
  }

  lemma StoppedOrDone(d: DriverState, turns: seq<Turn>, n: nat)
    requires n <= |turns| && (AfterTurns(d, turns[..n]).stopped || n == |turns|)
    ensures AfterTurns(d, turns) == AfterTurns(d, turns[..n])
  {
    if n == |turns| { assert turns[..n] == turns; } else { StoppedStays(d, turns, n); }
  }
}
