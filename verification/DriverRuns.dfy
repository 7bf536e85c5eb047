/** What a driven execution does, read off the executor's results alone: which of
    them ends the run, whether it ends in failure, and what has been published and
    stored by then (`drive_execution`, a2a-server/src/handler.rs). */
module DriverRuns {
  import opened Wrappers
  import opened Types
  import opened TaskFold
  import opened TaskStores
  import opened ExecutionProtocol
  import opened Driver
  import opened DriverProperties

  // ---------------------------------------------------------------------
  // A run as its results tell it
  // ---------------------------------------------------------------------

  /** The events among the results, with their timestamps. */
  function Received(turns: seq<Turn>): seq<StreamResponse> {
    if turns == [] then []
    else
      var before, last := Received(turns[..|turns| - 1]), turns[|turns| - 1];
      if last.outcome.Ok? then before + [Backfilled(last.outcome.value, last.store.now)] else before
  }

  /** The task the events lead to. */
  function TaskAt(task: Task, events: seq<StreamResponse>): Task {
    Folded(task, events).UnwrapOr(task)
  }

  /** The store the events lead to: each but a message saves the task it leads to. */
  function StoreAt(task: Task, tasks: Tasks, events: seq<StreamResponse>): Tasks {
    if events == [] then tasks
    else
      var before := StoreAt(task, tasks, events[..|events| - 1]);
      if events[|events| - 1].MessageEvent? then before else before[TaskAt(task, events).id := TaskAt(task, events)]
  }

  /** Each event with the task it leads to. */
  function PublishedFor(task: Task, events: seq<StreamResponse>): seq<Publication> {
    seq(|events|, k requires 0 <= k < |events| => Publication(Ok(events[k]), Folded(task, events[..k + 1])))
  }

  /** Why an event cannot be applied after the others: an append to an artifact
      that is not there, or a save that fails. */
  function ApplyFault(task: Task, tasks: Tasks, events: seq<StreamResponse>, event: StreamResponse, env: Environment)
    : Option<A2AError>
  {
    if event.MessageEvent? then None
    else
      match Applied(TaskAt(task, events), event)
      case None => Some(Error(INVALID_AGENT_RESPONSE))
      case Some(next) => SaveError(StoreAt(task, tasks, events), next.id, env)
  }

  /** A response is one message alone, or a task and its updates. */
  predicate BreaksTheRule(events: seq<StreamResponse>, event: StreamResponse) {
    || (exists k :: 0 <= k < |events| && events[k].MessageEvent?)
    || (event.MessageEvent? && events != [])
  }

  /** The error a result brings after the given events, if it brings one. */
  function Fault(task: Task, tasks: Tasks, events: seq<StreamResponse>, turn: Turn): Option<A2AError> {
    match turn.outcome
    case Err(error) => Some(error)
    case Ok(event) =>
      if BreaksTheRule(events, event) then Some(Error(INVALID_AGENT_RESPONSE))
      else
        var failed := ApplyFault(task, tasks, events, Backfilled(event, turn.store.now), turn.store);
        if failed.Some? then failed else turn.pushFault
  }

  /** The execution's snapshot is terminal by the time of this result: by another
      hand, or the driver's own. */
  predicate FindsEnd(task: Task, events: seq<StreamResponse>, turn: Turn) {
    turn.observed.UnwrapOr(TaskAt(task, events).Terminal())
  }

  /** The run goes on after this result. */
  predicate Goes(task: Task, tasks: Tasks, events: seq<StreamResponse>, turn: Turn) {
    && !FindsEnd(task, events, turn) && Fault(task, tasks, events, turn).None?
    && !IsTerminalEvent(turn.outcome.value)
  }

  /** The first n results let the run go on. */
  ghost predicate GoesOn(task: Task, tasks: Tasks, turns: seq<Turn>, n: nat)
    requires n <= |turns|
  {
    forall k :: 0 <= k < n ==> Goes(task, tasks, Received(turns[..k]), turns[k])
  }

  // ---------------------------------------------------------------------
  // The driver keeps to it
  // ---------------------------------------------------------------------

  /** The driver's state when the run has gone on through these events. */
  ghost predicate After(task: Task, tasks: Tasks, events: seq<StreamResponse>, d: DriverState) {
    && d.failure.None?
    && d.applied == events
    && d.current == d.snapshot == Folded(task, events) && d.current.Some? && IsStamped(d.current.value)
    && d.tasks == StoreAt(task, tasks, events)
    && d.published == PublishedFor(task, events)
    && (d.answered ==> exists k :: 0 <= k < |events| && events[k].MessageEvent?)
    && ((exists k :: 0 <= k < |events| && events[k].MessageEvent?) ==> d.answered)
    && (d.tracked || d.answered <==> events != [])
  }

  lemma PublishedSnoc(task: Task, events: seq<StreamResponse>, event: StreamResponse)
    ensures PublishedFor(task, events + [event])
         == PublishedFor(task, events) + [Publication(Ok(event), Folded(task, events + [event]))]
  {
    var all := events + [event];
    assert all[..|events| + 1] == all;
    forall k | 0 <= k < |events| ensures PublishedFor(task, all)[k] == PublishedFor(task, events)[k] {
      assert all[..k + 1] == events[..k + 1];
    }
  }

  lemma StoreSnoc(task: Task, tasks: Tasks, events: seq<StreamResponse>, event: StreamResponse)
    ensures StoreAt(task, tasks, events + [event])
         == if event.MessageEvent? then StoreAt(task, tasks, events)
            else StoreAt(task, tasks, events)[TaskAt(task, events + [event]).id := TaskAt(task, events + [event])]
  {
    assert (events + [event])[..|events|] == events;
  }

  /** Applying an event fails with its fault and changes nothing, or leads to the
      next task and store. */
  lemma AppliesExactly(task: Task, tasks: Tasks, events: seq<StreamResponse>, event: StreamResponse, env: Environment)
    requires Folded(task, events).Some? && IsStamped(Folded(task, events).value) && EventStamped(event)
    ensures var (after, updated) :=
              AppliedToStore(StoreAt(task, tasks, events), Folded(task, events), event, env);
            match ApplyFault(task, tasks, events, event, env)
            case Some(error) => updated == Err(error) && after == StoreAt(task, tasks, events)
            case None =>
              && updated == Ok(Folded(task, events + [event]))
              && Folded(task, events + [event]).Some? && IsStamped(Folded(task, events + [event]).value)
              && after == StoreAt(task, tasks, events + [event])
  {
    FoldedSnoc(task, events, event);
    StoreSnoc(task, tasks, events, event);
    if Applied(TaskAt(task, events), event).Some? { AppliedKeepsStamp(TaskAt(task, events), event); }
  }

  /** An event: its fault or that of its push, or its publication. */
  lemma EventExactly(task: Task, tasks: Tasks, events: seq<StreamResponse>, d: DriverState, event: StreamResponse, turn: Turn)
    requires d.failure.None? && d.applied == events && EventStamped(event)
    requires d.current == d.snapshot == Folded(task, events) && d.current.Some? && IsStamped(d.current.value)
    requires d.tasks == StoreAt(task, tasks, events) && d.published == PublishedFor(task, events)
    ensures var next := AfterEvent(d, event, turn);
            var failed := ApplyFault(task, tasks, events, event, turn.store);
            && next.answered == d.answered && next.tracked == d.tracked
            && (failed.Some? ==>
                  && next.failure == failed && next.stopped && next.applied == events
                  && next.current == d.current && next.tasks == d.tasks && next.published == d.published)
            && (failed.None? ==>
                  && next.applied == events + [event] && next.current == Folded(task, events + [event])
                  && next.current.Some? && IsStamped(next.current.value)
                  && next.tasks == StoreAt(task, tasks, events + [event]))
            && (failed.None? && turn.pushFault.Some? ==>
                  next.failure == turn.pushFault && next.stopped && next.published == d.published)
            && (failed.None? && turn.pushFault.None? ==>
                  && next.failure.None? && next.stopped == IsTerminalEvent(event)
                  && next.snapshot == next.current && next.published == PublishedFor(task, events + [event]))
  {
    AppliesExactly(task, tasks, events, event, turn.store);
    PublishedSnoc(task, events, event);
  }

  lemma RuleIsGrammar(task: Task, tasks: Tasks, events: seq<StreamResponse>, d: DriverState, event: StreamResponse)
    requires After(task, tasks, events, d)
    ensures BreaksGrammar(d, event) <==> BreaksTheRule(events, event)
  {
  }

  /** An event that keeps the rule, in a run that has gone on so far. */
  lemma LawfulTurnExactly(task: Task, tasks: Tasks, events: seq<StreamResponse>, d: DriverState, turn: Turn)
    requires After(task, tasks, events, d) && !d.stopped && !FindsEnd(task, events, turn)
    requires turn.outcome.Ok? && !BreaksTheRule(events, turn.outcome.value)
    ensures var next := AfterTurn(d, turn);
            && (Fault(task, tasks, events, turn).Some? ==>
                  && next.failure == Fault(task, tasks, events, turn) && next.stopped
                  && next.published == PublishedFor(task, events))
            && (Fault(task, tasks, events, turn).None? ==>
                  && After(task, tasks, events + [Backfilled(turn.outcome.value, turn.store.now)], next)
                  && next.stopped == IsTerminalEvent(turn.outcome.value))
  {
    var received := turn.outcome.value;
    var event := Backfilled(received, turn.store.now);
    var begun := d.(answered := received.MessageEvent?, tracked := d.tracked || !received.MessageEvent?);
    RuleIsGrammar(task, tasks, events, d, received);
    BackfilledIsStamped(received, turn.store.now);
    EventExactly(task, tasks, events, begun, event, turn);
    assert AfterTurn(d, turn) == AfterEvent(begun, event, turn);
    LastIsMessage(events, event);
  }

  lemma LastIsMessage(events: seq<StreamResponse>, event: StreamResponse)
    requires forall k :: 0 <= k < |events| ==> !events[k].MessageEvent?
    ensures (exists k :: 0 <= k < |events + [event]| && (events + [event])[k].MessageEvent?) <==> event.MessageEvent?
  {
    assert (events + [event])[|events|] == event;
  }

  /** One result of a run that has gone on so far. */
  lemma TurnExactly(task: Task, tasks: Tasks, events: seq<StreamResponse>, d: DriverState, turn: Turn)
    requires After(task, tasks, events, d) && !d.stopped
    ensures var next := AfterTurn(d, turn);
            && (FindsEnd(task, events, turn) ==> next == d.(stopped := true))
            && (!FindsEnd(task, events, turn) && Fault(task, tasks, events, turn).Some? ==>
                  && next.failure == Fault(task, tasks, events, turn) && next.stopped
                  && next.published == PublishedFor(task, events))
            && (!FindsEnd(task, events, turn) && Fault(task, tasks, events, turn).None? ==>
                  && After(task, tasks, events + [Backfilled(turn.outcome.value, turn.store.now)], next)
                  && next.stopped == IsTerminalEvent(turn.outcome.value))
  {
    if FindsEnd(task, events, turn) {
      assert SeesTerminal(d, turn);
    } else if turn.outcome.Err? {
      assert !SeesTerminal(d, turn);
    } else if BreaksTheRule(events, turn.outcome.value) {
      RuleIsGrammar(task, tasks, events, d, turn.outcome.value);
    } else {
      LawfulTurnExactly(task, tasks, events, d, turn);
    }
  }

  lemma ReceivedSnoc(turns: seq<Turn>, n: nat)
    requires n < |turns| && turns[n].outcome.Ok?
    ensures Received(turns[..n + 1]) == Received(turns[..n]) + [Backfilled(turns[n].outcome.value, turns[n].store.now)]
  {
    assert turns[..n + 1][..n] == turns[..n];
  }

  lemma {:induction false} GoingOn(task: Task, tasks: Tasks, turns: seq<Turn>, n: nat)
    requires IsStamped(task) && n <= |turns| && GoesOn(task, tasks, turns, n)
    ensures var d := AfterTurns(Begun(task, tasks), turns[..n]);
            After(task, tasks, Received(turns[..n]), d) && !d.stopped
  {
    if n == 0 {
      assert turns[..0] == [] && PublishedFor(task, []) == [];
    } else {
      GoingOn(task, tasks, turns, n - 1);
      assert Goes(task, tasks, Received(turns[..n - 1]), turns[n - 1]);
      OneMoreTurn(Begun(task, tasks), turns, n - 1);
      ReceivedSnoc(turns, n - 1);
      TurnExactly(task, tasks, Received(turns[..n - 1]), AfterTurns(Begun(task, tasks), turns[..n - 1]), turns[n - 1]);
    }
  }

  /** Exactly how a run ends: at the first result that does not let it go on, or
      with the last one. */
  lemma EndsExactly(task: Task, tasks: Tasks, turns: seq<Turn>, n: nat)
    requires IsStamped(task) && n <= |turns| && GoesOn(task, tasks, turns, n)
    requires n < |turns| ==> !Goes(task, tasks, Received(turns[..n]), turns[n])
    ensures var d := AfterTurns(Begun(task, tasks), turns);
            var events := Received(turns[..n]);
            && (n == |turns| || FindsEnd(task, events, turns[n]) ==>
                  d.failure.None? && d.applied == events && d.published == PublishedFor(task, events))
            && (n < |turns| && !FindsEnd(task, events, turns[n]) && Fault(task, tasks, events, turns[n]).Some? ==>
                  && d.failure == Fault(task, tasks, events, turns[n])
                  && d.published == PublishedFor(task, events))
            && (n < |turns| && !FindsEnd(task, events, turns[n]) && Fault(task, tasks, events, turns[n]).None? ==>
                  && d.failure.None?
                  && d.applied == Received(turns[..n + 1]) && d.published == PublishedFor(task, Received(turns[..n + 1])))
  {
    GoingOn(task, tasks, turns, n);
    if n == |turns| {
      assert turns[..n] == turns;
    } else {
      TurnExactly(task, tasks, Received(turns[..n]), AfterTurns(Begun(task, tasks), turns[..n]), turns[n]);
      EndsAt(Begun(task, tasks), turns, n);
      if turns[n].outcome.Ok? { ReceivedSnoc(turns, n); }
    }
  }

  lemma EndsAt(d: DriverState, turns: seq<Turn>, n: nat)
    requires n < |turns| && !AfterTurns(d, turns[..n]).stopped && AfterTurn(AfterTurns(d, turns[..n]), turns[n]).stopped
    ensures AfterTurns(d, turns) == AfterTurn(AfterTurns(d, turns[..n]), turns[n])
  {
    OneMoreTurn(d, turns, n);
    StoppedStays(d, turns, n + 1);
  }

  lemma {:induction false} FirstFailing(p: nat -> bool, m: nat) returns (n: nat)
    ensures n <= m && (forall k :: 0 <= k < n ==> p(k)) && (n < m ==> !p(n))
  {
    if m == 0 { return 0; }
    n := FirstFailing(p, m - 1);
    if n == m - 1 && p(n) { n := m; }
  }

  /** Where a run ends. */
  lemma FirstHalt(task: Task, tasks: Tasks, turns: seq<Turn>) returns (n: nat)
    ensures n <= |turns| && GoesOn(task, tasks, turns, n)
    ensures n < |turns| ==> !Goes(task, tasks, Received(turns[..n]), turns[n])
  {
    var p := (k: nat) => k < |turns| && Goes(task, tasks, Received(turns[..k]), turns[k]);
    n := FirstFailing(p, |turns|);
    forall k | 0 <= k < n ensures Goes(task, tasks, Received(turns[..k]), turns[k]) { assert p(k); }
  }

  /** The run reaches result n with the task live, and it brings this error. */
  ghost predicate FailsAt(task: Task, tasks: Tasks, turns: seq<Turn>, n: nat, error: A2AError) {
    && n < |turns| && GoesOn(task, tasks, turns, n)
    && !FindsEnd(task, Received(turns[..n]), turns[n])
    && Fault(task, tasks, Received(turns[..n]), turns[n]) == Some(error)
  }

  /** A run fails with an error if and only if it reaches, with the snapshot not
      terminal, a result that brings the error: the executor's own, an event that
      breaks the rule, one that cannot be applied, or one that cannot be pushed. */
  lemma FailsExactly(task: Task, tasks: Tasks, turns: seq<Turn>, error: A2AError)
    requires IsStamped(task)
    ensures AfterTurns(Begun(task, tasks), turns).failure == Some(error)
            <==> exists n :: FailsAt(task, tasks, turns, n, error)
  {
    var n := FirstHalt(task, tasks, turns);
    EndsExactly(task, tasks, turns, n);
    if AfterTurns(Begun(task, tasks), turns).failure == Some(error) { assert FailsAt(task, tasks, turns, n, error); }
    forall m | FailsAt(task, tasks, turns, m, error)
      ensures AfterTurns(Begun(task, tasks), turns).failure == Some(error)
    {
      EndsExactly(task, tasks, turns, m);
    }
  }

  /** Such a run publishes the events before the failure and then the error, last;
      and if the failure path's save goes through, the stored task has ended:
      FAILED with an agent's message about it, everything else as the events left
      it, unless they had ended it already. */
  lemma FailureIsPublished(task: Task, tasks: Tasks, turns: seq<Turn>, ending: Ending, n: nat, error: A2AError)
    requires IsStamped(task) && !task.Terminal() && FailsAt(task, tasks, turns, n, error)
    ensures var end := Driven(task, tasks, turns, ending);
            var current := AfterTurns(Begun(task, tasks), turns).current;
            && |end.published| == n + 1
            && end.published[..n] == PublishedFor(task, Received(turns[..n]))
            && end.published[n].outcome == Err(error)
            && (SavesSucceed(ending.store) ==>
                  && current.Some? && current.value.id in end.tasks && end.tasks[current.value.id].Terminal()
                  && (!current.value.Terminal() ==>
                        && FailedWith(end.tasks[current.value.id], current.value, ending)
                        && end.published[n].snapshot == Some(end.tasks[current.value.id])))
  {
    EndsExactly(task, tasks, turns, n);
    ReceivedAll(task, tasks, turns, n);
    if SavesSucceed(ending.store) { FailureLeavesTerminal(task, tasks, turns, ending); }
  }

  /** The failed task: what it was, and the failure told by the agent. */
  predicate FailedWith(failed: Task, task: Task, ending: Ending) {
    && failed.(status := task.status) == task
    && failed.status.state == Failed && failed.status.timestamp == Some(ending.store.now)
    && failed.status.message.Some?
    && var message := failed.status.message.value;
       && message.role == Agent && message.messageId == ending.messageId
       && message.taskId == Some(task.id) && message.contextId == Some(task.contextId)
       && |message.parts| == 1 && message.parts[0].content.Text?
  }

  lemma {:induction false} ReceivedAll(task: Task, tasks: Tasks, turns: seq<Turn>, n: nat)
    requires n <= |turns| && GoesOn(task, tasks, turns, n)
    ensures |Received(turns[..n])| == n
  {
    if n == 0 {
      assert turns[..0] == [];
    } else {
      assert Goes(task, tasks, Received(turns[..n - 1]), turns[n - 1]);
      ReceivedAll(task, tasks, turns, n - 1);
      ReceivedSnoc(turns, n - 1);
    }
  }

  /** An error of the executor's that comes while the task is live always ends in
      that error published. */
  lemma ExecutorErrorIsPublished(task: Task, tasks: Tasks, turns: seq<Turn>, ending: Ending, n: nat, error: A2AError)
    requires IsStamped(task) && !task.Terminal()
    requires n < |turns| && GoesOn(task, tasks, turns, n) && turns[n].outcome == Err(error)
    requires !FindsEnd(task, Received(turns[..n]), turns[n])
    ensures var published := Driven(task, tasks, turns, ending).published;
            |published| == n + 1 && published[n].outcome == Err(error)
  {
    FailureIsPublished(task, tasks, turns, ending, n, error);
  }
}
