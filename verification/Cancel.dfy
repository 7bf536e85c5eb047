/** One cancel from its first read to its answer (`cancel_task`,
    a2a-server/src/handler.rs). */
module Cancel {
  import opened Wrappers
  import opened Types
  import opened TaskFold
  import opened TaskStores
  import opened ExecutionProtocol
  import opened ActiveExecutions
  import opened ExecutionManagers
  import opened Driver
  import opened DriverProperties
  import R = RegistryProtocol

  /** What surrounds a cancel: what each use of the store meets, what others
      have made of the store between the first read and `begin_cancel`, what
      the executor yields, and the last push. */
  datatype Surroundings = Surroundings(
    first: Environment,
    meanwhile: Option<Tasks>,
    begin: Environment,
    raced: Environment,
    turns: seq<Turn>,
    last: Environment,
    lastPush: Option<A2AError>)

  /** `reported` when the failure is the executor's own, which is published. */
  datatype CancelState = CancelState(d: DriverState, reported: bool)

  datatype CancelEnd = CancelEnd(
    tasks: Tasks,
    result: Result<Task, A2AError>,
    published: seq<Publication>,
    released: Option<Task>,  // what ends the waiting subscriptions, once `begin_cancel` went through
    finished: bool)          // the executor's stream came to its end
  {
    predicate Commits() {
      released.Some?
    }
  }

  /** `load_task`. */
  function Load(tasks: Tasks, id: TaskId, env: Environment): Result<Task, A2AError> {
    match Fetched(tasks, id, env)
    case Err(error) => Err(error)
    case Ok(None) => Err(Error(TASK_NOT_FOUND))
    case Ok(Some(task)) => Ok(task)
  }

  /** One result of the executor's cancel. */
  function AfterCancelTurn(c: CancelState, turn: Turn): CancelState {
    match turn.outcome
    case Err(error) => CancelState(Failing(c.d, error), true)
    case Ok(event) => c.(d := AfterEvent(c.d, Backfilled(event, turn.store.now), turn))
  }

  function AfterCancelTurns(c: CancelState, turns: seq<Turn>): CancelState {
    if turns == [] then c
    else
      var before := AfterCancelTurns(c, turns[..|turns| - 1]);
      if before.d.stopped then before else AfterCancelTurn(before, turns[|turns| - 1])
  }

  function BegunCancel(task: Task, tasks: Tasks): CancelState {
    CancelState(Begun(task, tasks), false)
  }

  function Publications(c: CancelState): seq<Publication> {
    c.d.published + if c.reported && c.d.failure.Some? then [Publication(Err(c.d.failure.value), None)] else []
  }

  /** The answer once the executor's stream is over. */
  function Answer(c: CancelState, id: TaskId, s: Surroundings): Result<Task, A2AError> {
    if c.d.failure.Some? then Err(c.d.failure.value)
    else
      var task := Load(c.d.tasks, id, s.last);
      if task.Ok? && !c.d.stopped && s.lastPush.Some? then Err(s.lastPush.value) else task
  }

  /** The end of a cancel that `begin_cancel` let through with this task. */
  function Committed(task: Task, tasks: Tasks, s: Surroundings): CancelEnd {
    Concluded(task, AfterCancelTurns(BegunCancel(task, tasks[task.id := task]), s.turns), s)
  }

  function Concluded(task: Task, c: CancelState, s: Surroundings): CancelEnd {
    var answer := Answer(c, task.id, s);
    CancelEnd(c.d.tasks, answer, Publications(c), Some(if answer.Ok? then answer.value else task), c.d.failure.None?)
  }

  function NotCommitted(tasks: Tasks, result: Result<Task, A2AError>): CancelEnd {
    CancelEnd(tasks, result, [], None, false)
  }

  /** The outcome of a cancel. */
  function CancelOutcome(tasks: Tasks, id: TaskId, s: Surroundings): CancelEnd {
    match Load(tasks, id, s.first)
    case Err(error) => NotCommitted(tasks, Err(error))
    case Ok(task) =>
      if task.Terminal() then
        NotCommitted(tasks, if task.status.state == Canceled then Ok(task) else Err(Error(TASK_NOT_CANCELABLE)))
      else
        var now := s.meanwhile.UnwrapOr(tasks);
        match Canceling(now, id, s.begin)
        case Ok(begun) => Committed(begun, now, s)
        case Err(error) =>
          if error.code != TASK_NOT_CANCELABLE then NotCommitted(now, Err(error))
          else
            match Load(now, id, s.raced)
            case Err(raced) => NotCommitted(now, Err(raced))
            case Ok(raced) => NotCommitted(now, if raced.status.state == Canceled then Ok(raced) else Err(error))
  }

  // ---------------------------------------------------------------------
  // The handler
  // ---------------------------------------------------------------------

  /** What has been published on the task's execution, if it has one. */
  ghost function Said(active: ActiveExecution?): seq<Publication>
    reads active
  {
    if active == null then [] else active.history
  }

  ghost predicate Open(active: ActiveExecution?, p: Publisher)
    reads active
  {
    active != null ==> !active.closed && p !in active.pending
  }

  method Say(active: ActiveExecution?, p: Publisher, outcome: Outcome, snapshot: Option<Task>)
    requires Open(active, p)
    modifies active
    ensures Open(active, p)
    ensures active != null ==> Said(active) == old(Said(active)) + [Publication(outcome, snapshot)]
  {
    if active != null { active.Publish(p, outcome, snapshot); }
  }

  ghost predicate Holding(store: TaskStore, active: ActiveExecution?, p: Publisher, before: seq<Publication>, c: CancelState)
    reads store, active
  {
    && store.tasks == c.d.tasks && Open(active, p)
    && (active != null ==> active.history == before + Publications(c))
    && (c.d.failure.None? ==> !c.reported)
  }

  /** One pass through the loop over the executor's results. */
  method TakeCancelTurn(store: TaskStore, active: ActiveExecution?, p: Publisher, turn: Turn, c: CancelState,
                        ghost before: seq<Publication>)
    returns (next: CancelState)
    requires Holding(store, active, p, before, c) && !c.d.stopped && c.d.failure.None?
    modifies store, active
    ensures next == AfterCancelTurn(c, turn) && Holding(store, active, p, before, next)
    ensures next.d.failure.Some? ==> next.d.stopped
  {
    if turn.outcome.Err? {
      Say(active, p, Err(turn.outcome.error), None);
      return CancelState(Failing(c.d, turn.outcome.error), true);
    }
    var d := TakeEvent(store, active, p, Backfilled(turn.outcome.value, turn.store.now), turn, c.d);
    next := c.(d := d);
  }

  /** An event applied, pushed and published. */
  method TakeEvent(store: TaskStore, active: ActiveExecution?, p: Publisher, event: StreamResponse, turn: Turn,
                   d: DriverState)
    returns (next: DriverState)
    requires store.tasks == d.tasks && Open(active, p) && !d.stopped && d.failure.None?
    modifies store, active
    ensures next == AfterEvent(d, event, turn) && store.tasks == next.tasks && Open(active, p)
    ensures d.published <= next.published
    ensures active != null ==> active.history == old(Said(active)) + next.published[|d.published|..]
    ensures next.failure.Some? ==> next.stopped
  {
    var updated := store.Apply(d.current, event, turn.store);
    if updated.Err? {
      return Failing(d, updated.error);
    }
    next := d.(tasks := store.tasks, current := updated.value, applied := d.applied + [event]);
    if turn.pushFault.Some? {
      return Failing(next, turn.pushFault.value);
    }
    Say(active, p, Ok(event), updated.value);
    next := next.(
      published := next.published + [Publication(Ok(event), updated.value)],
      snapshot := if updated.value.Some? then updated.value else next.snapshot,
      stopped := IsTerminalEvent(event));
  }

  lemma OneMoreCancelTurn(c: CancelState, turns: seq<Turn>, n: nat)
    requires n < |turns|
    ensures AfterCancelTurns(c, turns[..n + 1])
         == var before := AfterCancelTurns(c, turns[..n]);
            if before.d.stopped then before else AfterCancelTurn(before, turns[n])
  {
    assert turns[..n + 1][..n] == turns[..n];
  }

  lemma {:induction false} StoppedCancelStays(c: CancelState, turns: seq<Turn>, n: nat)
    requires n <= |turns| && (n < |turns| ==> AfterCancelTurns(c, turns[..n]).d.stopped)
    ensures AfterCancelTurns(c, turns) == AfterCancelTurns(c, turns[..n])
    decreases |turns| - n
  {
    if n < |turns| {
      OneMoreCancelTurn(c, turns, n);
      StoppedCancelStays(c, turns, n + 1);
    } else {
      assert turns[..n] == turns;
    }
  }

  /** The executor's results, until the stream ends, fails or turns terminal. */
  method RunCancel(store: TaskStore, active: ActiveExecution?, p: Publisher, task: Task, turns: seq<Turn>)
    returns (c: CancelState)
    requires Open(active, p)
    modifies store, active
    ensures c == AfterCancelTurns(BegunCancel(task, old(store.tasks)), turns)
    ensures Holding(store, active, p, old(Said(active)), c)
  {
    ghost var before := Said(active);
    c := BegunCancel(task, store.tasks);
    ghost var start := c;
    var n := 0;
    while n < |turns| && !c.d.stopped
      invariant 0 <= n <= |turns|
      invariant c == AfterCancelTurns(start, turns[..n]) && Holding(store, active, p, before, c)
      invariant c.d.failure.Some? ==> c.d.stopped
    {
      OneMoreCancelTurn(start, turns, n);
      c := TakeCancelTurn(store, active, p, turns[n], c, before);
      n := n + 1;
    }
    StoppedCancelStays(start, turns, n);
  }

  method LoadTask(store: TaskStore, id: TaskId, env: Environment) returns (task: Result<Task, A2AError>)
    ensures task == Load(store.tasks, id, env)
  {
    var found := store.Get(id, env);
    if found.Err? { return Err(found.error); }
    return if found.value.Some? then Ok(found.value.value) else Err(Error(TASK_NOT_FOUND));
  }

  /** Up to `begin_cancel`: the committed task, or the answer without one. */
  method Begin(store: TaskStore, id: TaskId, s: Surroundings)
    returns (begun: Option<Task>, answer: Result<Task, A2AError>)
    modifies store
    ensures begun.Some? ==>
              && CancelOutcome(old(store.tasks), id, s) == Committed(begun.value, s.meanwhile.UnwrapOr(old(store.tasks)), s)
              && store.tasks == s.meanwhile.UnwrapOr(old(store.tasks))[id := begun.value]
    ensures begun.None? ==> CancelOutcome(old(store.tasks), id, s) == NotCommitted(store.tasks, answer)
  {
    answer := LoadTask(store, id, s.first);
    if answer.Err? { return None, answer; }
    if answer.value.status.state == Canceled { return None, answer; }
    if answer.value.Terminal() { return None, Err(Error(TASK_NOT_CANCELABLE)); }
    store.tasks := s.meanwhile.UnwrapOr(store.tasks);  // what others have written since
    var committed := store.BeginCancel(id, s.begin);
    if committed.Ok? { return Some(committed.value), answer; }
    if committed.error.code == TASK_NOT_CANCELABLE {
      var raced := LoadTask(store, id, s.raced);
      if raced.Err? { return None, raced; }
      if raced.value.status.state == Canceled { return None, raced; }
    }
    return None, Err(committed.error);
  }

  /** `cancel_task`. `active` is the execution the registry has for the task.
      However it ends, a cancel that committed sends every subscription waiting
      for the task the task it ends with, and one whose stream came to its end
      leaves the execution unregistered. */
  method CancelTask(store: TaskStore, manager: ExecutionManager, active: ActiveExecution?, id: TaskId, cancel: nat,
                    s: Surroundings)
    returns (end: CancelEnd)
    requires R.Invariant(manager.View()) && manager.starting.None? && Open(active, Publisher.Cancel(cancel))
    requires active == null <==> id !in manager.executions
    modifies store, manager, active
    ensures end == CancelOutcome(old(store.tasks), id, s) && store.tasks == end.tasks
    ensures active != null ==> Said(active) == old(Said(active)) + end.published
    ensures R.Invariant(manager.View()) && manager.starting.None?
    ensures manager.executions == if end.finished then old(manager.executions) - {id} else old(manager.executions)
    ensures match end.released
            case None => manager.waiting == old(manager.waiting) && manager.waiters == old(manager.waiters)
            case Some(final) =>
              && manager.waiting == old(manager.waiting) - {id}
              && var ids := R.WaitingFor(old(manager.View()), id);
                 SentUpTo(old(manager.waiters), manager.waiters, ids, |ids|, R.Released(cancel, final))
  {
    var begun, answer := Begin(store, id, s);
    if begun.None? {
      assert active != null ==> Said(active) == old(Said(active)) + [];
      return NotCommitted(store.tasks, answer);
    }
    var c := RunCancel(store, active, Publisher.Cancel(cancel), begun.value, s.turns);
    end := Conclude(store, manager, active, cancel, begun.value, c, s);
  }

  /** From the end of the executor's results to the answer: the execution is
      finished, the task read again, its end pushed and the subscriptions
      released, with the task returned or else by the guard. */
  method Conclude(store: TaskStore, manager: ExecutionManager, active: ActiveExecution?, cancel: nat,
                  begun: Task, c: CancelState, s: Surroundings)
    returns (end: CancelEnd)
    requires R.Invariant(manager.View()) && manager.starting.None?
    requires active == null <==> begun.id !in manager.executions
    requires store.tasks == c.d.tasks
    modifies manager
    ensures end == Concluded(begun, c, s)
    ensures R.Invariant(manager.View()) && manager.starting.None?
    ensures manager.executions
         == if c.d.failure.None? then old(manager.executions) - {begun.id} else old(manager.executions)
    ensures manager.waiting == old(manager.waiting) - {begun.id}
    ensures var ids := R.WaitingFor(old(manager.View()), begun.id);
            SentUpTo(old(manager.waiters), manager.waiters, ids, |ids|, R.Released(cancel, end.released.value))
  {
    var answer := FinalAnswer(store, manager, active, begun, c, s);
    var final := if answer.Ok? then answer.value else begun;
    ghost var steps := manager.Release(final, cancel);
    if answer.Ok? { ReleaseAgain(manager, begun, cancel); }
    end := CancelEnd(store.tasks, answer, Publications(c), Some(final), c.d.failure.None?);
  }

  /** The error met, or, the execution unregistered, the task read again. */
  method FinalAnswer(store: TaskStore, manager: ExecutionManager, active: ActiveExecution?, begun: Task, c: CancelState,
                     s: Surroundings)
    returns (answer: Result<Task, A2AError>)
    requires R.Invariant(manager.View()) && manager.starting.None?
    requires active == null <==> begun.id !in manager.executions
    requires store.tasks == c.d.tasks
    modifies manager`executions
    ensures answer == Answer(c, begun.id, s) && R.Invariant(manager.View())
    ensures manager.executions
         == if c.d.failure.None? then old(manager.executions) - {begun.id} else old(manager.executions)
  {
    if c.d.failure.Some? { return Err(c.d.failure.value); }
    if active != null {
      R.StepKeepsInvariant(manager.View(), R.Action.Finish(begun.id, manager.executions[begun.id]));
      manager.Finish(begun.id, manager.executions[begun.id]);
    }
    answer := LoadTask(store, begun.id, s.last);
    if answer.Ok? && !c.d.stopped && s.lastPush.Some? { answer := Err(s.lastPush.value); }
  }

  /** The guard's release when there is nothing left to release. */
  method ReleaseAgain(manager: ExecutionManager, begun: Task, cancel: nat)
    requires R.Invariant(manager.View()) && begun.id !in manager.waiting
    modifies manager`waiting, manager`waiters
    ensures manager.waiting == old(manager.waiting) && manager.waiters == old(manager.waiters)
  {
    ghost var steps := manager.Release(begun, cancel);
    assert R.WaitingFor(old(manager.View()), begun.id) == [];
  }

  // ---------------------------------------------------------------------
  // What a cancel may do
  // ---------------------------------------------------------------------

  /** Whoever else ends the task first, a cancel commits if and only if it still
      finds the task live at both looks. Otherwise it changes and publishes
      nothing: a canceled task is returned again, one that ended in any other way
      is refused. */
  lemma OnlyLiveTasksAreCanceled(tasks: Tasks, id: TaskId, s: Surroundings)
    requires s.first.getFault.None? && s.begin.updateFault.None? && s.raced.getFault.None?
    requires id in tasks && id in s.meanwhile.UnwrapOr(tasks)
    ensures var found := if tasks[id].Terminal() then tasks else s.meanwhile.UnwrapOr(tasks);
            var end := CancelOutcome(tasks, id, s);
            && (end.Commits() <==> !found[id].Terminal())
            && (!end.Commits() ==>
                  && end.tasks == found && end.published == []
                  && end.result == if found[id].status.state == Canceled then Ok(found[id])
                                   else Err(Error(TASK_NOT_CANCELABLE)))
  {
  }

  /** The in-memory store's rule for this turn: no save gives a task that has
      ended another state. */
  ghost predicate RefusesReopening(c: CancelState, turn: Turn) {
    turn.outcome.Ok? && !turn.outcome.value.MessageEvent? ==>
      var next := Proposed(c.d.tasks, c.d.current, Backfilled(turn.outcome.value, turn.store.now), turn.store);
      next.Ok? && next.value.id in c.d.tasks && c.d.tasks[next.value.id].Terminal()
      && c.d.tasks[next.value.id].status.state != next.value.status.state
      ==> turn.store.updateFault == Some(Error(INVALID_REQUEST))
  }

  ghost predicate NeverReopened(c: CancelState, turns: seq<Turn>) {
    forall n :: 0 <= n < |turns| && !AfterCancelTurns(c, turns[..n]).d.stopped ==>
      RefusesReopening(AfterCancelTurns(c, turns[..n]), turns[n])
  }

  lemma TurnKeepsCanceled(c: CancelState, turn: Turn, id: TaskId)
    requires id in c.d.tasks && c.d.tasks[id].status.state == Canceled && RefusesReopening(c, turn)
    ensures id in AfterCancelTurn(c, turn).d.tasks && AfterCancelTurn(c, turn).d.tasks[id].status.state == Canceled
  {
    if turn.outcome.Ok? {
      var event := Backfilled(turn.outcome.value, turn.store.now);
      SavesOneTask(c.d.tasks, c.d.current, event, turn.store);
      assert AfterCancelTurn(c, turn).d.tasks == AppliedToStore(c.d.tasks, c.d.current, event, turn.store).0;
    }
  }

  lemma {:induction false} TurnsKeepCanceled(c: CancelState, turns: seq<Turn>, id: TaskId)
    requires id in c.d.tasks && c.d.tasks[id].status.state == Canceled && NeverReopened(c, turns)
    ensures id in AfterCancelTurns(c, turns).d.tasks
    ensures AfterCancelTurns(c, turns).d.tasks[id].status.state == Canceled
  {
    if turns != [] {
      var before := turns[..|turns| - 1];
      assert forall n :: 0 <= n <= |before| ==> before[..n] == turns[..n];
      TurnsKeepCanceled(c, before, id);
      var earlier := AfterCancelTurns(c, before);
      if !earlier.d.stopped { TurnKeepsCanceled(earlier, turns[|turns| - 1], id); }
    }
  }

  /** Over a store that never changes the state of a task that has ended, a
      committed cancel is final: on every way out, whatever the executor yields,
      the stored task is CANCELED, and an answer without error is that task. */
  lemma CanceledIsFinal(task: Task, tasks: Tasks, s: Surroundings)
    requires task.status.state == Canceled && NeverReopened(BegunCancel(task, tasks[task.id := task]), s.turns)
    ensures var end := Committed(task, tasks, s);
            && task.id in end.tasks && end.tasks[task.id].status.state == Canceled
            && (end.result.Ok? ==> end.result.value == end.tasks[task.id])
            && end.released.Some? && end.released.value.Terminal()
  {
    TurnsKeepCanceled(BegunCancel(task, tasks[task.id := task]), s.turns, task.id);
  }

  // ---------------------------------------------------------------------
  // What a cancel publishes and leaves in the store
  // ---------------------------------------------------------------------

  ghost predicate CancelGrammar(c: CancelState) {
    && (forall k :: 0 <= k < |c.d.published| ==> c.d.published[k].outcome.Ok?)
    && (forall k :: 0 <= k < |c.d.published| - 1 ==> !EndsStream(c.d.published[k].outcome))
    && (c.d.published != [] && EndsStream(c.d.published[|c.d.published| - 1].outcome) ==>
          c.d.stopped && c.d.failure.None?)
    && (c.d.failure.Some? ==> c.d.stopped)
  }

  lemma CancelTurnKeepsGrammar(c: CancelState, turn: Turn)
    requires CancelGrammar(c) && !c.d.stopped
    ensures CancelGrammar(AfterCancelTurn(c, turn))
  {
    if turn.outcome.Ok? {
      var event := Backfilled(turn.outcome.value, turn.store.now);
      EventPublishesOrFails(c.d, event, turn);
      var next := AfterCancelTurn(c, turn);
      assert forall k :: 0 <= k < |c.d.published| ==> next.d.published[k] == c.d.published[k];
    }
  }

  lemma {:induction false} CancelTurnsAgree(task: Task, tasks: Tasks, turns: seq<Turn>)
    requires IsStamped(task)
    ensures var c := AfterCancelTurns(BegunCancel(task, tasks), turns);
            Agrees(task, tasks, c.d) && CancelGrammar(c)
  {
    if turns != [] {
      var before := turns[..|turns| - 1];
      CancelTurnsAgree(task, tasks, before);
      var c := AfterCancelTurns(BegunCancel(task, tasks), before);
      var turn := turns[|turns| - 1];
      if !c.d.stopped {
        CancelTurnKeepsGrammar(c, turn);
        if turn.outcome.Ok? {
          BackfilledIsStamped(turn.outcome.value, turn.store.now);
          EventKeepsAgreement(task, tasks, c.d, Backfilled(turn.outcome.value, turn.store.now), turn);
        }
      }
    }
  }

  /** A committed cancel publishes each event after applying it, with the fold
      of the canceled task over the events up to it, and nothing after a terminal
      event or an error. */
  lemma CancelPublishesWhatItApplied(task: Task, tasks: Tasks, s: Surroundings)
    requires IsStamped(task)
    ensures var published := Committed(task, tasks, s).published;
            var applied := AfterCancelTurns(BegunCancel(task, tasks[task.id := task]), s.turns).d.applied;
            && (forall k :: 0 <= k < |published| - 1 ==> !EndsStream(published[k].outcome))
            && (forall k :: 0 <= k < |published| && published[k].outcome.Ok? ==>
                  k < |applied| && published[k] == Publication(Ok(applied[k]), Folded(task, applied[..k + 1])))
  {
    CancelTurnsAgree(task, tasks[task.id := task], s.turns);
    PublicationsAreApplied(task, AfterCancelTurns(BegunCancel(task, tasks[task.id := task]), s.turns));
  }

  lemma PublicationsAreApplied(task: Task, c: CancelState)
    requires PublishedAsApplied(task, c.d) && CancelGrammar(c)
    ensures forall k :: 0 <= k < |Publications(c)| - 1 ==> !EndsStream(Publications(c)[k].outcome)
    ensures forall k :: 0 <= k < |Publications(c)| && Publications(c)[k].outcome.Ok? ==>
              && k < |c.d.applied|
              && Publications(c)[k] == Publication(Ok(c.d.applied[k]), Folded(task, c.d.applied[..k + 1]))
  {
    var n := |c.d.published|;
    assert |Publications(c)| > n ==> c.d.failure.Some? && Publications(c)[n].outcome.Err?;
    assert forall k :: 0 <= k < n ==> Publications(c)[k] == c.d.published[k];
  }

  /** With no other writer, the task a cancel returns is the canceled task
      folded over all the executor's events it applied. */
  lemma CancelReturnsTheFold(task: Task, tasks: Tasks, s: Surroundings)
    requires IsStamped(task)
    ensures var applied := AfterCancelTurns(BegunCancel(task, tasks[task.id := task]), s.turns).d.applied;
            var end := Committed(task, tasks, s);
            && Folded(task, applied).Some?
            && (end.result.Ok? && Folded(task, applied).value.id == task.id ==> end.result == Ok(Folded(task, applied).value))
  {
    CancelTurnsAgree(task, tasks[task.id := task], s.turns);
  }

  lemma {:induction false} CancelTurnsSaveOwnTask(task: Task, tasks: Tasks, turns: seq<Turn>)
    requires KeepsToItsTask(turns, task.id)
    ensures SavesOwnTask(tasks, AfterCancelTurns(BegunCancel(task, tasks), turns).d, task.id)
  {
    if turns != [] {
      var before, turn := turns[..|turns| - 1], turns[|turns| - 1];
      assert forall k :: 0 <= k < |before| ==> before[k] == turns[k];
      CancelTurnsSaveOwnTask(task, tasks, before);
      var c := AfterCancelTurns(BegunCancel(task, tasks), before);
      if !c.d.stopped && turn.outcome.Ok? {
        EventSavesOwnTask(tasks, c.d, Backfilled(turn.outcome.value, turn.store.now), turn, task.id);
      }
    }
  }

  /** A cancel whose executor sends snapshots of its own task only leaves all
      other tasks as they were. */
  lemma OwnCancelSavesOwnTask(task: Task, tasks: Tasks, s: Surroundings)
    requires KeepsToItsTask(s.turns, task.id)
    ensures SameElsewhere(tasks, Committed(task, tasks, s).tasks, task.id)
  {
    CancelTurnsSaveOwnTask(task, tasks[task.id := task], s.turns);
  }
}
