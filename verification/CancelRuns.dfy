/** What a cancel does, read off the stored task and the executor's results alone
    (`cancel_task`, a2a-server/src/handler.rs). */
module CancelRuns {
  import opened Wrappers
  import opened Types
  import opened TaskFold
  import opened TaskStores
  import opened ExecutionProtocol
  import opened Driver
  import opened DriverProperties
  import opened DriverRuns
  import opened Cancel

  // ---------------------------------------------------------------------
  // What is canceled
  // ---------------------------------------------------------------------

  /** The store `begin_cancel` finds. */
  function Found(tasks: Tasks, s: Surroundings): Tasks {
    s.meanwhile.UnwrapOr(tasks)
  }

  /** The canceled form of a task: its state and time, and nothing else, are new. */
  predicate CanceledForm(canceled: Task, task: Task, now: Timestamp) {
    && canceled.status.state == Canceled && canceled.status.timestamp == Some(now)
    && canceled.status.message == task.status.message
    && canceled.(status := task.status) == task
  }

  /** `begin_cancel` refuses a missing task and one that has ended, and cancels any
      other. */
  lemma BeginCancelsExactly(tasks: Tasks, id: TaskId, env: Environment)
    requires env.updateFault.None?
    ensures match Canceling(tasks, id, env)
            case Err(error) =>
              if id in tasks then tasks[id].Terminal() && error.code == TASK_NOT_CANCELABLE
              else error.code == TASK_NOT_FOUND
            case Ok(canceled) => id in tasks && !tasks[id].Terminal() && CanceledForm(canceled, tasks[id], env.now)
  {
  }

  /** The store keeps terminal states through whatever the executor yields. */
  ghost predicate StoreNeverReopens(tasks: Tasks, id: TaskId, s: Surroundings) {
    var begun := Canceling(Found(tasks, s), id, s.begin);
    begun.Ok? ==> NeverReopened(BegunCancel(begun.value, Found(tasks, s)[id := begun.value]), s.turns)
  }

  lemma OutcomeIsCommitted(tasks: Tasks, id: TaskId, s: Surroundings)
    ensures var end := CancelOutcome(tasks, id, s);
            if end.Commits() then
              && id in tasks && id in Found(tasks, s) && !tasks[id].Terminal() && !Found(tasks, s)[id].Terminal()
              && Canceling(Found(tasks, s), id, s.begin).Ok?
              && CanceledForm(Canceling(Found(tasks, s), id, s.begin).value, Found(tasks, s)[id], s.begin.now)
              && end == Committed(Canceling(Found(tasks, s), id, s.begin).value, Found(tasks, s), s)
            else
              end.published == [] && !end.finished && (end.tasks == tasks || end.tasks == Found(tasks, s))
  {
  }

  /** A cancel that commits cancels: over a store that keeps terminal states, on
      every way out, the stored task is CANCELED, an answer without error is that
      task, and the subscriptions waiting for it are released with a task that is
      CANCELED too. One that does not commit writes and publishes nothing. */
  lemma CancelCancels(tasks: Tasks, id: TaskId, s: Surroundings)
    requires StoreNeverReopens(tasks, id, s)
    ensures var end := CancelOutcome(tasks, id, s);
            if end.Commits() then
              && id in end.tasks && end.tasks[id].status.state == Canceled
              && (end.result.Ok? ==> end.result.value == end.tasks[id])
              && end.released.value.id == id && end.released.value.status.state == Canceled
            else end.published == [] && (end.tasks == tasks || end.tasks == Found(tasks, s))
  {
    OutcomeIsCommitted(tasks, id, s);
    if CancelOutcome(tasks, id, s).Commits() {
      CanceledIsFinal(Canceling(Found(tasks, s), id, s.begin).value, Found(tasks, s), s);
    }
  }

  /** With nothing from the executor and no fault, a live task is canceled, and
      nothing else about it or in the store changes. */
  lemma QuietCancelChangesTheStateOnly(tasks: Tasks, id: TaskId, s: Surroundings)
    requires id in tasks && !tasks[id].Terminal() && s.meanwhile.None? && s.turns == []
    requires s.first.getFault.None? && s.begin.updateFault.None? && s.last.getFault.None? && s.lastPush.None?
    ensures var end := CancelOutcome(tasks, id, s);
            && end.Commits() && end.finished && end.published == []
            && end.result.Ok? && CanceledForm(end.result.value, tasks[id], s.begin.now)
            && end.tasks == tasks[id := end.result.value]
            && end.released == Some(end.result.value)
  {
  }

  // ---------------------------------------------------------------------
  // What the executor's results make of it
  // ---------------------------------------------------------------------

  /** The error a result brings after the given events, if it brings one. */
  function CancelFault(task: Task, tasks: Tasks, events: seq<StreamResponse>, turn: Turn): Option<A2AError> {
    match turn.outcome
    case Err(error) => Some(error)
    case Ok(event) =>
      var failed := ApplyFault(task, tasks, events, Backfilled(event, turn.store.now), turn.store);
      if failed.Some? then failed else turn.pushFault
  }

  predicate CancelGoes(task: Task, tasks: Tasks, events: seq<StreamResponse>, turn: Turn) {
    CancelFault(task, tasks, events, turn).None? && !IsTerminalEvent(turn.outcome.value)
  }

  ghost predicate CancelGoesOn(task: Task, tasks: Tasks, turns: seq<Turn>, n: nat)
    requires n <= |turns|
  {
    forall k :: 0 <= k < n ==> CancelGoes(task, tasks, Received(turns[..k]), turns[k])
  }

  /** The cancel's state when it has gone on through these events. */
  ghost predicate CancelAfter(task: Task, tasks: Tasks, events: seq<StreamResponse>, c: CancelState) {
    && !c.reported && c.d.failure.None? && c.d.applied == events
    && c.d.current == c.d.snapshot == Folded(task, events) && c.d.current.Some? && IsStamped(c.d.current.value)
    && c.d.tasks == StoreAt(task, tasks, events)
    && c.d.published == PublishedFor(task, events)
  }

  lemma CancelTurnExactly(task: Task, tasks: Tasks, events: seq<StreamResponse>, c: CancelState, turn: Turn)
    requires CancelAfter(task, tasks, events, c) && !c.d.stopped
    ensures var next := AfterCancelTurn(c, turn);
            match CancelFault(task, tasks, events, turn)
            case Some(error) =>
              && next.d.failure == Some(error) && next.d.stopped && next.reported == turn.outcome.Err?
              && next.d.published == PublishedFor(task, events)
            case None =>
              && CancelAfter(task, tasks, events + [Backfilled(turn.outcome.value, turn.store.now)], next)
              && next.d.stopped == IsTerminalEvent(turn.outcome.value)
  {
    if turn.outcome.Ok? {
      BackfilledIsStamped(turn.outcome.value, turn.store.now);
      EventExactly(task, tasks, events, c.d, Backfilled(turn.outcome.value, turn.store.now), turn);
    }
  }

  lemma {:induction false} CancelGoingOn(task: Task, tasks: Tasks, turns: seq<Turn>, n: nat)
    requires IsStamped(task) && n <= |turns| && CancelGoesOn(task, tasks, turns, n)
    ensures var c := AfterCancelTurns(BegunCancel(task, tasks), turns[..n]);
            CancelAfter(task, tasks, Received(turns[..n]), c) && !c.d.stopped
  {
    if n == 0 {
      assert turns[..0] == [] && PublishedFor(task, []) == [];
    } else {
      CancelGoingOn(task, tasks, turns, n - 1);
      assert CancelGoes(task, tasks, Received(turns[..n - 1]), turns[n - 1]);
      OneMoreCancelTurn(BegunCancel(task, tasks), turns, n - 1);
      ReceivedSnoc(turns, n - 1);
      CancelTurnExactly(task, tasks, Received(turns[..n - 1]),
                        AfterCancelTurns(BegunCancel(task, tasks), turns[..n - 1]), turns[n - 1]);
    }
  }

  /** The stored task, if it can be read. */
  function ReadAgain(tasks: Tasks, id: TaskId, env: Environment): Result<Task, A2AError> {
    if env.getFault.Some? then Err(env.getFault.value)
    else if id !in tasks then Err(Error(TASK_NOT_FOUND))
    else Ok(tasks[id])
  }

  lemma AnswerExactly(c: CancelState, id: TaskId, s: Surroundings)
    requires c.d.failure.None?
    ensures var read := ReadAgain(c.d.tasks, id, s.last);
            Answer(c, id, s) == if read.Ok? && !c.d.stopped && s.lastPush.Some? then Err(s.lastPush.value) else read
  {
  }

  /** Exactly what a committed cancel publishes, and when it fails: at the first
      result that brings an error it fails with that error, having published the
      events before it, and the error itself if it is the executor's own; at the
      first terminal event, or with the last one, it has published all events up to
      there and does not fail for them. */
  lemma CancelEndsExactly(task: Task, tasks: Tasks, s: Surroundings, n: nat)
    requires IsStamped(task) && n <= |s.turns|
    requires CancelGoesOn(task, tasks[task.id := task], s.turns, n)
    requires n < |s.turns| ==> !CancelGoes(task, tasks[task.id := task], Received(s.turns[..n]), s.turns[n])
    ensures var end := Committed(task, tasks, s);
            var events := Received(s.turns[..n]);
            var fault := if n == |s.turns| then None else CancelFault(task, tasks[task.id := task], events, s.turns[n]);
            && (fault.Some? ==>
                  && end.result == Err(fault.value) && !end.finished
                  && end.published == PublishedFor(task, events)
                                      + if s.turns[n].outcome.Err? then [Publication(Err(fault.value), None)] else [])
            && (n == |s.turns| ==> end.finished && end.published == PublishedFor(task, events))
            && (n < |s.turns| && fault.None? ==>
                  && end.finished && end.published == PublishedFor(task, Received(s.turns[..n + 1]))
                  && end.result == ReadAgain(end.tasks, task.id, s.last))
  {
    var begun := BegunCancel(task, tasks[task.id := task]);
    CancelGoingOn(task, tasks[task.id := task], s.turns, n);
    if n == |s.turns| {
      assert s.turns[..n] == s.turns;
    } else {
      CancelTurnExactly(task, tasks[task.id := task], Received(s.turns[..n]),
                        AfterCancelTurns(begun, s.turns[..n]), s.turns[n]);
      CancelEndsAt(begun, s.turns, n);
      if s.turns[n].outcome.Ok? { ReceivedSnoc(s.turns, n); }
      var c := AfterCancelTurns(begun, s.turns);
      if c.d.failure.None? { AnswerExactly(c, task.id, s); }
    }
  }

  lemma CancelEndsAt(c: CancelState, turns: seq<Turn>, n: nat)
    requires n < |turns| && !AfterCancelTurns(c, turns[..n]).d.stopped
    requires AfterCancelTurn(AfterCancelTurns(c, turns[..n]), turns[n]).d.stopped
    ensures AfterCancelTurns(c, turns) == AfterCancelTurn(AfterCancelTurns(c, turns[..n]), turns[n])
  {
    OneMoreCancelTurn(c, turns, n);
    StoppedCancelStays(c, turns, n + 1);
  }

  /** The answer of a cancel that met no error: the stored task, unless it cannot
      be read again, or its end, which no event of the executor's told, cannot be
      pushed. */
  lemma QuietAnswerExactly(task: Task, tasks: Tasks, s: Surroundings)
    requires IsStamped(task) && CancelGoesOn(task, tasks[task.id := task], s.turns, |s.turns|)
    ensures var end := Committed(task, tasks, s);
            var read := ReadAgain(end.tasks, task.id, s.last);
            end.result == if read.Ok? && s.lastPush.Some? then Err(s.lastPush.value) else read
  {
    var c := AfterCancelTurns(BegunCancel(task, tasks[task.id := task]), s.turns);
    assert s.turns[..|s.turns|] == s.turns;
    CancelGoingOn(task, tasks[task.id := task], s.turns, |s.turns|);
    AnswerExactly(c, task.id, s);
  }
}
