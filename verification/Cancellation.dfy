/** Cancels, drivers and subscriptions racing over one registry and one store:
    `cancel_task`, `subscribe_to_task` and the life of a driven execution, each
    cut into the steps that other tasks can come in between
    (a2a-server/src/handler.rs). */
module Cancellation {
  import opened Wrappers
  import opened Types
  import R = RegistryProtocol

  /** How far a `subscribe_to_task` that found no execution has come. */
  datatype Reading =
    | Loaded(live: bool)  // the store has been read: there is a task, not terminal
    | Following           // the stream has been returned to the client

  /** A `cancel_task` past `begin_cancel`, which gave it `begun`. `exiting` once
      its release guard has emptied the waiting list for good. */
  datatype Cancel = Cancel(begun: Task, found: Option<R.ExecutionId>, exiting: bool)

  /** What a store does with a task that has ended: lets any save change it, keeps
      it for good, or keeps it until it purges it. */
  datatype Store = Overwriting | Keeping | Purging

  datatype System = System(
    registry: R.Registry,
    tasks: map<TaskId, TaskState>,  // the states of the stored tasks
    store: Store,
    drivers: map<R.ExecutionId, TaskId>,
    cancels: map<R.CancelId, Cancel>,
    readings: map<nat, Reading>)

  function Initial(store: Store): System {
    System(R.EMPTY, map[], store, map[], map[], map[])
  }

  /** A save names the task it writes: that of the writer, or any other that the
      executor sends a snapshot of. */
  datatype Action =
    | CreateTask(task: TaskId)
    | Purge(task: TaskId)
    | Start(step: R.Action)                       // a step of `start`
    | Deliver(w: nat)
    | DriverSave(e: R.ExecutionId, task: TaskId, state: TaskState)
    | DriverEnd(e: R.ExecutionId)
    | Subscribe(task: TaskId)
    | Load(w: nat)
    | Decide(w: nat)
    | CloseReceiver(w: nat)
    | Sweep(w: nat)
    | Commit(c: R.CancelId, begun: Task)          // `begin_cancel`
    | Find(c: R.CancelId)
    | CancelSave(c: R.CancelId, task: TaskId, state: TaskState)
    | CancelFinish(c: R.CancelId)
    | Release(c: R.CancelId, final: Task)         // before returning the task
    | Exit(c: R.CancelId)                         // `ReleaseOnDrop`, on every way out
    | End(c: R.CancelId)

  predicate Terminal(s: System, task: TaskId) {
    task in s.tasks && IsTerminal(s.tasks[task])
  }

  predicate Live(s: System, task: TaskId) {
    task in s.tasks && !IsTerminal(s.tasks[task])
  }

  /** A save of a task in the given state. */
  function Saved(s: System, task: TaskId, state: TaskState): System {
    if s.store != Overwriting && Terminal(s, task) then s else s.(tasks := s.tasks[task := state])
  }

  function Lift(s: System, a: R.Action): System
    requires R.Enabled(s.registry, a)
  {
    s.(registry := R.Next(s.registry, a))
  }

  predicate IsSent(s: System, w: nat) {
    w < |s.registry.waiters| && s.registry.waiters[w].sender.Sent?
  }

  /** The cancel has taken the subscription and not sent it the task yet. */
  predicate HeldBy(waiter: R.Waiter, c: R.CancelId) {
    waiter.sender.Taken? && waiter.sender.resolution.Released? && waiter.sender.resolution.cancel == c
  }

  predicate Enabled(s: System, a: Action) {
    match a
    case CreateTask(task) => task !in s.tasks
    case Purge(task) => s.store == Purging && Terminal(s, task)
    case Start(step) => (step.StartInsert? || step.StartTake? || step.StartDone?) && R.Enabled(s.registry, step)
    case Deliver(w) => R.Enabled(s.registry, R.Deliver(w))
    case DriverSave(e, _, _) => e in s.drivers
    case DriverEnd(e) => e in s.drivers && s.registry.starting.None?
    case Subscribe(task) => R.Enabled(s.registry, R.Subscribe(task))
    case Load(w) =>
      w < |s.registry.waiters| && w !in s.readings && s.registry.waiters[w].receiver == R.Alive
    case Decide(w) =>
      && w < |s.registry.waiters| && s.registry.waiters[w].receiver == R.Alive
      && (w in s.readings ==> s.readings[w].Loaded?)
      && (w in s.readings || IsSent(s, w))
    case CloseReceiver(w) => R.Enabled(s.registry, R.CloseReceiver(w))
    case Sweep(w) => R.Enabled(s.registry, R.Sweep(w))
    case Commit(c, begun) => c !in s.cancels && Live(s, begun.id) && begun.status.state == Canceled
    case Find(c) => c in s.cancels && !s.cancels[c].exiting && s.registry.starting.None?
    case CancelSave(c, _, _) => c in s.cancels && !s.cancels[c].exiting
    case CancelFinish(c) =>
      c in s.cancels && !s.cancels[c].exiting && s.cancels[c].found.Some? && s.registry.starting.None?
    case Release(c, final) => c in s.cancels && !s.cancels[c].exiting && final.id == s.cancels[c].begun.id
    case Exit(c) => c in s.cancels && !s.cancels[c].exiting
    case End(c) =>
      && c in s.cancels && s.cancels[c].exiting
      && forall w :: 0 <= w < |s.registry.waiters| ==> !HeldBy(s.registry.waiters[w], c)
  }

  function Next(s: System, a: Action): System
    requires Enabled(s, a)
  {
    match a
    case CreateTask(task) => s.(tasks := s.tasks[task := Submitted])
    case Purge(task) => s.(tasks := s.tasks - {task})
    case Start(step) =>
      // The executor is spawned in the step that ends `start`.
      var t := Lift(s, step);
      if step.StartDone? then
        t.(drivers := s.drivers[s.registry.starting.value.execution := s.registry.starting.value.task])
      else t
    case Deliver(w) => Lift(s, R.Deliver(w))
    case DriverSave(_, task, state) => Saved(s, task, state)
    case DriverEnd(e) => Lift(s, R.Finish(s.drivers[e], e)).(drivers := s.drivers - {e})
    case Subscribe(task) => Lift(s, R.Subscribe(task))
    case Load(w) => s.(readings := s.readings[w := Loaded(Live(s, s.registry.waiters[w].task))])
    case Decide(w) =>
      if IsSent(s, w) || (w in s.readings && s.readings[w].live) then s.(readings := s.readings[w := Following])
      else Lift(s, R.CloseReceiver(w))  // refused: the waiter is dropped
    case CloseReceiver(w) => Lift(s, R.CloseReceiver(w))
    case Sweep(w) => Lift(s, R.Sweep(w))
    case Commit(c, begun) =>
      s.(tasks := s.tasks[begun.id := Canceled], cancels := s.cancels[c := Cancel(begun, None, false)])
    case Find(c) =>
      var cancel := s.cancels[c];
      s.(cancels := s.cancels[c := cancel.(
           found := if cancel.begun.id in s.registry.executions
                    then Some(s.registry.executions[cancel.begun.id]) else None)])
    case CancelSave(_, task, state) => Saved(s, task, state)
    case CancelFinish(c) => Lift(s, R.Finish(s.cancels[c].begun.id, s.cancels[c].found.value))
    case Release(c, final) => Lift(s, R.ReleaseTake(final, c))
    case Exit(c) =>
      Lift(s, R.ReleaseTake(s.cancels[c].begun, c)).(cancels := s.cancels[c := s.cancels[c].(exiting := true)])
    case End(c) => s.(cancels := s.cancels - {c})
  }

  ghost predicate IsRun(s: System, actions: seq<Action>)
    decreases |actions|, 0
  {
    actions == []
    || (var before := actions[..|actions| - 1];
        IsRun(s, before) && Enabled(After(s, before), actions[|actions| - 1]))
  }

  ghost function After(s: System, actions: seq<Action>): System
    requires IsRun(s, actions)
    decreases |actions|, 1
  {
    if actions == [] then s
    else Next(After(s, actions[..|actions| - 1]), actions[|actions| - 1])
  }

  /** The registry's own step in a step of the system, if there is one. */
  function RegistryStep(s: System, a: Action): Option<R.Action>
    requires Enabled(s, a)
  {
    match a
    case Start(step) => Some(step)
    case Deliver(w) => Some(R.Deliver(w))
    case DriverEnd(e) => Some(R.Finish(s.drivers[e], e))
    case Subscribe(task) => Some(R.Subscribe(task))
    case Decide(w) =>
      if IsSent(s, w) || (w in s.readings && s.readings[w].live) then None else Some(R.CloseReceiver(w))
    case CloseReceiver(w) => Some(R.CloseReceiver(w))
    case Sweep(w) => Some(R.Sweep(w))
    case CancelFinish(c) => Some(R.Finish(s.cancels[c].begun.id, s.cancels[c].found.value))
    case Release(c, final) => Some(R.ReleaseTake(final, c))
    case Exit(c) => Some(R.ReleaseTake(s.cancels[c].begun, c))
    case _ => None
  }

  lemma StepsTheRegistry(s: System, a: Action)
    requires Enabled(s, a)
    ensures match RegistryStep(s, a)
            case None => Next(s, a).registry == s.registry
            case Some(step) => R.Enabled(s.registry, step) && Next(s, a).registry == R.Next(s.registry, step)
  {
  }

  // ---------------------------------------------------------------------
  // No subscription is stranded by a cancel
  // ---------------------------------------------------------------------

  /** The cancel will still release the subscription, or the subscription has
      left the waiting table. */
  ghost predicate WillBeReleased(s: System, c: R.CancelId, w: nat) {
    && w < |s.registry.waiters|
    && (s.registry.waiters[w].sender != R.Queued
        || (c in s.cancels && !s.cancels[c].exiting && s.cancels[c].begun.id == s.registry.waiters[w].task))
  }

  lemma StepKeepsWaiter(s: System, a: Action, w: nat)
    requires R.Invariant(s.registry) && Enabled(s, a) && w < |s.registry.waiters|
    ensures w < |Next(s, a).registry.waiters| && R.Later(s.registry.waiters[w], Next(s, a).registry.waiters[w])
    ensures s.registry.waiters[w].sender != R.Queued ==> Next(s, a).registry.waiters[w].sender != R.Queued
  {
    StepsTheRegistry(s, a);
    if RegistryStep(s, a).Some? {
      R.StepIsLater(s.registry, RegistryStep(s, a).value, w);
    }
  }

  /** A cancel under way stays so until its guard has run. */
  lemma CancelStays(s: System, a: Action, c: R.CancelId)
    requires Enabled(s, a) && c in s.cancels && !s.cancels[c].exiting
    ensures a == Exit(c) ||
            (c in Next(s, a).cancels && !Next(s, a).cancels[c].exiting && Next(s, a).cancels[c].begun == s.cancels[c].begun)
  {
  }

  lemma StepKeepsReleasing(s: System, a: Action, c: R.CancelId, w: nat)
    requires R.Invariant(s.registry) && Enabled(s, a) && WillBeReleased(s, c, w)
    ensures WillBeReleased(Next(s, a), c, w)
  {
    StepKeepsWaiter(s, a, w);
    if s.registry.waiters[w].sender == R.Queued {
      CancelStays(s, a, c);
      if a == Exit(c) { ExitReleases(s, c, w); }
    }
  }

  lemma ExitReleases(s: System, c: R.CancelId, w: nat)
    requires R.Invariant(s.registry) && Enabled(s, Exit(c)) && w < |s.registry.waiters|
    requires s.cancels[c].begun.id == s.registry.waiters[w].task
    ensures Next(s, Exit(c)).registry.waiters[w].sender != R.Queued
  {
    R.TakenWereQueued(s.registry, s.cancels[c].begun.id, R.Released(c, s.cancels[c].begun));
  }

  /** What a cancel has taken, a cancel still under way has in hand. */
  ghost predicate HeldByCancels(s: System) {
    forall w, c :: 0 <= w < |s.registry.waiters| && HeldBy(s.registry.waiters[w], c) ==> c in s.cancels
  }

  /** Only the two releases of a cancel take for it. */
  lemma TakenByCancel(r: R.Registry, step: R.Action, w: nat, c: R.CancelId)
    requires R.Invariant(r) && R.Enabled(r, step)
    requires w < |R.Next(r, step).waiters| && HeldBy(R.Next(r, step).waiters[w], c)
    ensures (w < |r.waiters| && HeldBy(r.waiters[w], c)) || (step.ReleaseTake? && step.cancel == c)
  {
    match step
    case StartTake => R.TakenWereQueued(r, r.starting.value.task, R.Attached(r.starting.value.execution));
    case ReleaseTake(final, cancel) => R.TakenWereQueued(r, final.id, R.Released(cancel, final));
    case Sweep(i) => R.SweepKeepsTable(r, i);
    case _ =>
  }

  lemma CancelsStayUntilEnd(s: System, a: Action, c: R.CancelId)
    requires Enabled(s, a) && c in s.cancels
    ensures c in Next(s, a).cancels || a == End(c)
  {
  }

  lemma StepKeepsHeld(s: System, a: Action)
    requires R.Invariant(s.registry) && Enabled(s, a) && HeldByCancels(s)
    ensures HeldByCancels(Next(s, a))
  {
    var t := Next(s, a);
    StepsTheRegistry(s, a);
    forall w, c | 0 <= w < |t.registry.waiters| && HeldBy(t.registry.waiters[w], c) ensures c in t.cancels {
      if RegistryStep(s, a).Some? { TakenByCancel(s.registry, RegistryStep(s, a).value, w, c); }
      ReleaserIsUnderWay(s, a);
      CancelsStayUntilEnd(s, a, c);
    }
  }

  lemma ReleaserIsUnderWay(s: System, a: Action)
    requires Enabled(s, a)
    ensures RegistryStep(s, a).Some? && RegistryStep(s, a).value.ReleaseTake? ==>
              RegistryStep(s, a).value.cancel in s.cancels && !a.End?
    ensures a.End? ==> RegistryStep(s, a).None?
  {
  }

  /** A driver runs once its `start` is over. */
  ghost predicate DriversStarted(s: System) {
    forall e :: e in s.drivers ==>
      e < s.registry.created && (s.registry.starting.Some? ==> s.registry.starting.value.execution != e)
  }

  lemma StepKeepsStarted(s: System, a: Action)
    requires R.Invariant(s.registry) && Enabled(s, a) && DriversStarted(s)
    ensures DriversStarted(Next(s, a))
  {
    if !a.Start? && !a.DriverEnd? { OthersKeepStarted(s, a); }
  }

  lemma OthersKeepStarted(s: System, a: Action)
    requires Enabled(s, a) && !a.Start? && !a.DriverEnd?
    ensures var t := Next(s, a);
            t.drivers == s.drivers && t.registry.created == s.registry.created && t.registry.starting == s.registry.starting
  {
  }

  lemma {:induction false} RunKeepsRegistry(store: Store, actions: seq<Action>)
    requires IsRun(Initial(store), actions)
    ensures R.Invariant(After(Initial(store), actions).registry)
    ensures HeldByCancels(After(Initial(store), actions)) && DriversStarted(After(Initial(store), actions))
    ensures After(Initial(store), actions).store == store
  {
    if actions != [] {
      var before := actions[..|actions| - 1];
      RunKeepsRegistry(store, before);
      StepKeepsRegistry(After(Initial(store), before), actions[|actions| - 1]);
    }
  }

  lemma StepKeepsRegistry(s: System, a: Action)
    requires R.Invariant(s.registry) && HeldByCancels(s) && DriversStarted(s) && Enabled(s, a)
    ensures R.Invariant(Next(s, a).registry) && HeldByCancels(Next(s, a)) && DriversStarted(Next(s, a))
    ensures Next(s, a).store == s.store
  {
    StepKeepsStarted(s, a);
    StepsTheRegistry(s, a);
    StepKeepsHeld(s, a);
    if RegistryStep(s, a).Some? { R.StepKeepsInvariant(s.registry, RegistryStep(s, a).value); }
  }

  lemma RunSplit(s: System, first: seq<Action>, last: Action)
    requires IsRun(s, first + [last])
    ensures IsRun(s, first) && Enabled(After(s, first), last)
    ensures After(s, first + [last]) == Next(After(s, first), last)
  {
    assert (first + [last])[..|first|] == first;
  }

  lemma {:induction false} RunKeepsReleasing(
      store: Store, first: seq<Action>, more: seq<Action>, c: R.CancelId, w: nat)
    requires IsRun(Initial(store), first + more)
    requires IsRun(Initial(store), first) && WillBeReleased(After(Initial(store), first), c, w)
    ensures WillBeReleased(After(Initial(store), first + more), c, w)
  {
    if more == [] {
      assert first + more == first;
    } else {
      var init := more[..|more| - 1];
      var last := more[|more| - 1];
      assert first + more == (first + init) + [last];
      RunSplit(Initial(store), first + init, last);
      RunKeepsReleasing(store, first, init, c, w);
      RunKeepsRegistry(store, first + init);
      StepKeepsReleasing(After(Initial(store), first + init), last, c, w);
    }
  }

  /** Attached, or about to be: taken by a cancel still under way, or by a `start`
      of its task that has yet to send it the execution. */
  ghost predicate AttachedOrInHand(s: System, w: nat)
    requires w < |s.registry.waiters|
  {
    match s.registry.waiters[w].sender
    case Sent(_) => true
    case Taken(Released(c, _)) => c in s.cancels
    case Taken(Attached(e)) => s.registry.starting == Some(R.Starting(s.registry.waiters[w].task, e, true))
    case _ => false
  }

  /** Whatever the store does and whichever way a cancel ends, a subscription to
      its task that registered before the cancel's guard ran is attached once the
      cancel has ended, if its stream is still there; all that may keep it is
      another cancel or a `start` in the midst of attaching it. */
  lemma CancelLeavesNoneWaiting(
      store: Store, first: seq<Action>, more: seq<Action>, c: R.CancelId, w: nat)
    requires IsRun(Initial(store), first) && IsRun(Initial(store), first + more)
    requires var s := After(Initial(store), first);
             && c in s.cancels && !s.cancels[c].exiting
             && w < |s.registry.waiters| && s.registry.waiters[w].task == s.cancels[c].begun.id
    requires c !in After(Initial(store), first + more).cancels
    ensures var t := After(Initial(store), first + more);
            && w < |t.registry.waiters|
            && t.registry.waiters[w].sender != R.Queued && !HeldBy(t.registry.waiters[w], c)
            && (t.registry.waiters[w].receiver == R.Alive ==>
                  && AttachedOrInHand(t, w)
                  && (t.cancels == map[] && t.registry.starting.None? ==> t.registry.waiters[w].sender.Sent?))
  {
    RunKeepsReleasing(store, first, more, c, w);
    RunKeepsRegistry(store, first + more);
  }

  // ---------------------------------------------------------------------
  // Every subscription is attached before its execution is driven
  // ---------------------------------------------------------------------

  lemma {:induction false} WaiterIsLater(store: Store, first: seq<Action>, more: seq<Action>, w: nat)
    requires IsRun(Initial(store), first + more) && IsRun(Initial(store), first)
    requires w < |After(Initial(store), first).registry.waiters|
    ensures w < |After(Initial(store), first + more).registry.waiters|
    ensures R.Later(After(Initial(store), first).registry.waiters[w],
                    After(Initial(store), first + more).registry.waiters[w])
  {
    if more == [] {
      assert first + more == first;
    } else {
      var init := more[..|more| - 1];
      var last := more[|more| - 1];
      assert first + more == (first + init) + [last];
      RunSplit(Initial(store), first + init, last);
      WaiterIsLater(store, first, init, w);
      var s := After(Initial(store), first + init);
      RunKeepsRegistry(store, first + init);
      StepKeepsWaiter(s, last, w);
      R.LaterOnwards(After(Initial(store), first).registry.waiters[w], s.registry.waiters[w],
                     Next(s, last).registry.waiters[w]);
    }
  }

  /** A subscription that waits for its task when `start` empties the list has,
      if its stream is still there, been sent the new execution by the time that
      execution is driven: it is among those subscribed before anything is
      published. */
  lemma AttachedBeforeDriven(store: Store, first: seq<Action>, more: seq<Action>, w: nat)
    requires IsRun(Initial(store), first) && After(Initial(store), first).registry.starting.Some?
    requires IsRun(Initial(store), first + [Start(R.StartTake)])
    requires IsRun(Initial(store), first + [Start(R.StartTake)] + more)
    requires var r := After(Initial(store), first).registry;
             && w < |r.waiters| && r.waiters[w].sender == R.Queued && r.waiters[w].task == r.starting.value.task
    requires After(Initial(store), first).registry.starting.value.execution
             in After(Initial(store), first + [Start(R.StartTake)] + more).drivers
    ensures var e := After(Initial(store), first).registry.starting.value.execution;
            var t := After(Initial(store), first + [Start(R.StartTake)] + more);
            && w < |t.registry.waiters|
            && (t.registry.waiters[w].receiver == R.Alive ==> t.registry.waiters[w].sender == R.Sent(R.Attached(e)))
  {
    var r := After(Initial(store), first).registry;
    var upTo := first + [Start(R.StartTake)];
    RunSplit(Initial(store), first, Start(R.StartTake));
    RunKeepsRegistry(store, first);
    R.TakenWereQueued(r, r.starting.value.task, R.Attached(r.starting.value.execution));
    WaiterIsLater(store, upTo, more, w);
    RunKeepsRegistry(store, upTo + more);
  }

  // ---------------------------------------------------------------------
  // No subscription follows a task that has ended
  // ---------------------------------------------------------------------

  /** Waiting for an execution after having read a live task. */
  predicate WaitsForNext(s: System, w: nat) {
    && w < |s.registry.waiters|
    && s.registry.waiters[w].receiver == R.Alive && s.registry.waiters[w].sender == R.Queued
    && w in s.readings && (s.readings[w].Loaded? ==> s.readings[w].live)
  }

  /** A cancel under way will release it. */
  ghost predicate CancelPending(s: System, task: TaskId) {
    exists c :: c in s.cancels && !s.cancels[c].exiting && s.cancels[c].begun.id == task
  }

  /** Waiting on a task that has ended, with no cancel to release it. */
  ghost predicate Stranded(s: System, w: nat) {
    && WaitsForNext(s, w)
    && Terminal(s, s.registry.waiters[w].task)
    && !CancelPending(s, s.registry.waiters[w].task)
  }

  /** A save by the driver or a cancel of another task. */
  predicate ForeignSave(s: System, a: Action)
    requires Enabled(s, a)
  {
    match a
    case DriverSave(e, task, _) => task != s.drivers[e]
    case CancelSave(c, task, _) => task != s.cancels[c].begun.id
    case _ => false
  }

  /** The step is such a save and ends the live task that w waits on. */
  predicate EndsFromOutside(s: System, a: Action, w: nat)
    requires Enabled(s, a)
  {
    && WaitsForNext(s, w) && Live(s, s.registry.waiters[w].task)
    && ForeignSave(s, a) && a.task == s.registry.waiters[w].task && IsTerminal(a.state)
  }

  ghost predicate DriversRegistered(s: System) {
    && (forall e :: e in s.drivers ==>
          || Terminal(s, s.drivers[e])
          || (s.drivers[e] in s.registry.executions && s.registry.executions[s.drivers[e]] == e))
    && DriversStarted(s)
  }

  ghost predicate CancelsCommitted(s: System) {
    forall c :: c in s.cancels ==> Terminal(s, s.cancels[c].begun.id)
  }

  /** Who has read a live task has read a stored one. */
  ghost predicate ReadingsExact(s: System) {
    && (forall w :: w in s.readings ==> w < |s.registry.waiters|)
    && (forall w: nat :: WaitsForNext(s, w) ==> s.registry.waiters[w].task in s.tasks)
  }

  ghost predicate Invariant(s: System) {
    s.store == Keeping && R.Invariant(s.registry) && DriversRegistered(s) && CancelsCommitted(s) && ReadingsExact(s)
  }

  lemma StepKeepsCommitted(s: System, a: Action)
    requires s.store == Keeping && Enabled(s, a) && CancelsCommitted(s)
    ensures CancelsCommitted(Next(s, a))
  {
    forall c | c in Next(s, a).cancels ensures Terminal(Next(s, a), Next(s, a).cancels[c].begun.id) {
      BegunBefore(s, a, c);
      if !a.Commit? || a.c != c { StoredStays(s, a, s.cancels[c].begun.id); }
    }
  }

  lemma BegunBefore(s: System, a: Action, c: R.CancelId)
    requires Enabled(s, a) && c in Next(s, a).cancels
    ensures if a.Commit? && a.c == c then Terminal(Next(s, a), Next(s, a).cancels[c].begun.id)
            else c in s.cancels && s.cancels[c].begun == Next(s, a).cancels[c].begun
  {
  }

  /** What a finish can unregister is no live task's driver. */
  lemma FinishKeepsDrivers(s: System, task: TaskId, e: R.ExecutionId)
    requires R.Invariant(s.registry) && DriversRegistered(s) && s.registry.starting.None?
    requires Terminal(s, task) || e in s.drivers
    ensures forall d :: d in s.drivers && d != e ==>
              || Terminal(s, s.drivers[d])
              || (var after := R.Next(s.registry, R.Finish(task, e)).executions;
                  s.drivers[d] in after && after[s.drivers[d]] == d)
  {
  }

  lemma StartKeepsDrivers(s: System, step: R.Action)
    requires R.Invariant(s.registry) && Enabled(s, Start(step)) && DriversRegistered(s)
    ensures DriversRegistered(Next(s, Start(step)))
  {
  }

  lemma FinishingKeepsDrivers(s: System, a: Action)
    requires R.Invariant(s.registry) && Enabled(s, a) && DriversRegistered(s) && CancelsCommitted(s)
    requires a.DriverEnd? || a.CancelFinish?
    ensures DriversRegistered(Next(s, a))
  {
    match a
    case DriverEnd(e) =>
      FinishKeepsDrivers(s, s.drivers[e], e);
      assert Next(s, a) == s.(registry := R.Next(s.registry, R.Finish(s.drivers[e], e)), drivers := s.drivers - {e});
    case CancelFinish(c) => FinishKeepsDrivers(s, s.cancels[c].begun.id, s.cancels[c].found.value);
  }

  lemma SavingKeepsDrivers(s: System, a: Action)
    requires s.store == Keeping && Enabled(s, a) && DriversRegistered(s)
    requires a.DriverSave? || a.CancelSave? || a.Commit? || a.CreateTask?
    ensures DriversRegistered(Next(s, a))
  {
  }

  lemma StepKeepsDrivers(s: System, a: Action)
    requires s.store == Keeping && R.Invariant(s.registry) && Enabled(s, a) && DriversRegistered(s) && CancelsCommitted(s)
    ensures DriversRegistered(Next(s, a))
  {
    if a.Start? { StartKeepsDrivers(s, a.step); }
    else if a.DriverEnd? || a.CancelFinish? { FinishingKeepsDrivers(s, a); }
    else if a.DriverSave? || a.CancelSave? || a.Commit? || a.CreateTask? { SavingKeepsDrivers(s, a); }
    else { ElsewhereKeepsDrivers(s, a); }
  }

  lemma ElsewhereKeepsDrivers(s: System, a: Action)
    requires s.store == Keeping && Enabled(s, a) && DriversRegistered(s)
    requires !a.Start? && !a.DriverEnd? && !a.CancelFinish?
    requires !a.DriverSave? && !a.CancelSave? && !a.Commit? && !a.CreateTask?
    ensures DriversRegistered(Next(s, a))
  {
    var t := Next(s, a);
    assert t.registry.executions == s.registry.executions && t.registry.created == s.registry.created;
    assert t.registry.starting == s.registry.starting && t.drivers == s.drivers && t.tasks == s.tasks;
  }

  /** While a driver can still end a live task, no subscription waits for it. */
  lemma DrivenTaskHasNoWaiters(s: System, e: R.ExecutionId, w: nat)
    requires R.Invariant(s.registry) && DriversRegistered(s) && e in s.drivers && w < |s.registry.waiters|
    requires s.registry.waiters[w].task == s.drivers[e] && s.registry.waiters[w].sender == R.Queued
    ensures Terminal(s, s.drivers[e])
  {
  }

  /** What waits after a step waited before, or has just read a live task. */
  lemma WaitedBefore(s: System, a: Action, w: nat)
    requires R.Invariant(s.registry) && Enabled(s, a) && WaitsForNext(Next(s, a), w)
    requires forall w :: w in s.readings ==> w < |s.registry.waiters|
    ensures w < |s.registry.waiters| && s.registry.waiters[w].task == Next(s, a).registry.waiters[w].task
    ensures WaitsForNext(s, w) || (a == Load(w) && Live(s, s.registry.waiters[w].task))
    ensures s.registry.waiters[w].sender == R.Queued
  {
    ReadingBefore(s, a, w);
    if w < |s.registry.waiters| { StepKeepsWaiter(s, a, w); }
  }

  /** A step reads only for the subscription it is for, and answers only one
      that was sent its execution or read a live task. */
  lemma ReadingBefore(s: System, a: Action, w: nat)
    requires Enabled(s, a) && w in Next(s, a).readings
    ensures w in s.readings || a == Load(w) || a == Decide(w)
    ensures a != Load(w) && a != Decide(w) ==> Next(s, a).readings[w] == s.readings[w]
    ensures a == Load(w) ==> w < |s.registry.waiters| && Next(s, a).readings[w] == Loaded(Live(s, s.registry.waiters[w].task))
    ensures a == Decide(w) && Next(s, a).registry == s.registry ==> IsSent(s, w) || (w in s.readings && s.readings[w].live)
    ensures a == Decide(w) && Next(s, a).registry != s.registry ==>
              && w < |s.registry.waiters| && w < |Next(s, a).registry.waiters|
              && Next(s, a).registry.waiters[w].receiver != R.Alive
  {
    if !a.Load? && !a.Decide? { ReadingsElsewhere(s, a); }
    else if a == Decide(w) { DecisionOf(s, w); }
  }

  lemma ReadingsElsewhere(s: System, a: Action)
    requires Enabled(s, a) && !a.Load? && !a.Decide?
    ensures Next(s, a).readings == s.readings
  {
  }

  lemma DecisionOf(s: System, w: nat)
    requires Enabled(s, Decide(w))
    ensures var t := Next(s, Decide(w));
            if IsSent(s, w) || (w in s.readings && s.readings[w].live) then t.registry == s.registry
            else |t.registry.waiters| == |s.registry.waiters| && t.registry.waiters[w].receiver != R.Alive
  {
  }

  lemma ReadingsBounded(s: System, a: Action)
    requires R.Invariant(s.registry) && Enabled(s, a) && forall w :: w in s.readings ==> w < |s.registry.waiters|
    ensures forall w :: w in Next(s, a).readings ==> w < |Next(s, a).registry.waiters|
  {
    forall w | w in Next(s, a).readings ensures w < |Next(s, a).registry.waiters| {
      ReadingBefore(s, a, w);
      StepKeepsWaiter(s, a, w);
    }
  }

  lemma StepKeepsReadings(s: System, a: Action)
    requires Invariant(s) && Enabled(s, a)
    ensures ReadingsExact(Next(s, a))
  {
    var t := Next(s, a);
    ReadingsBounded(s, a);
    forall w: nat | WaitsForNext(t, w) ensures t.registry.waiters[w].task in t.tasks {
      WaitedBefore(s, a, w);
      StoredStays(s, a, s.registry.waiters[w].task);
    }
  }

  lemma StoredStays(s: System, a: Action, task: TaskId)
    requires Enabled(s, a) && task in s.tasks
    ensures task in Next(s, a).tasks <==> a != Purge(task)
    ensures s.store != Overwriting && Terminal(s, task) && a != Purge(task) ==> Next(s, a).tasks[task] == s.tasks[task]
  {
  }

  lemma {:induction false} RunKeepsInvariant(actions: seq<Action>)
    requires IsRun(Initial(Keeping), actions)
    ensures Invariant(After(Initial(Keeping), actions))
  {
    if actions != [] {
      var before := actions[..|actions| - 1];
      var a := actions[|actions| - 1];
      RunKeepsInvariant(before);
      RunKeepsRegistry(Keeping, actions);
      var s := After(Initial(Keeping), before);
      StepKeepsDrivers(s, a);
      StepKeepsCommitted(s, a);
      StepKeepsReadings(s, a);
    }
  }

  /** A pending cancel stays pending until it exits. */
  lemma PendingStays(s: System, a: Action, task: TaskId)
    requires Enabled(s, a) && CancelPending(s, task)
    ensures CancelPending(Next(s, a), task) || (a.Exit? && s.cancels[a.c].begun.id == task)
  {
    var c :| c in s.cancels && !s.cancels[c].exiting && s.cancels[c].begun.id == task;
    CancelStays(s, a, c);
  }

  /** What is pending was, or has just committed. */
  lemma PendingBefore(s: System, a: Action, task: TaskId)
    requires Enabled(s, a) && CancelPending(Next(s, a), task)
    ensures CancelPending(s, task) || (a.Commit? && a.begun.id == task)
  {
    var t := Next(s, a);
    var c :| c in t.cancels && !t.cancels[c].exiting && t.cancels[c].begun.id == task;
    CancelBefore(s, a, c);
  }

  lemma CancelBefore(s: System, a: Action, c: R.CancelId)
    requires Enabled(s, a) && c in Next(s, a).cancels && !Next(s, a).cancels[c].exiting
    ensures (a.Commit? && a.c == c && a.begun == Next(s, a).cancels[c].begun)
            || (c in s.cancels && !s.cancels[c].exiting && s.cancels[c].begun == Next(s, a).cancels[c].begun)
  {
  }

  lemma CommitIsPending(s: System, c: R.CancelId, begun: Task)
    requires Enabled(s, Commit(c, begun))
    ensures CancelPending(Next(s, Commit(c, begun)), begun.id)
  {
    assert Next(s, Commit(c, begun)).cancels[c] == Cancel(begun, None, false);
  }

  /** Only saves and `begin_cancel` end a live task. */
  lemma EndedBySaveOrCancel(s: System, a: Action, task: TaskId)
    requires Enabled(s, a) && Live(s, task) && Terminal(Next(s, a), task)
    ensures ((a.DriverSave? || a.CancelSave?) && a.task == task && IsTerminal(a.state))
            || (a.Commit? && a.begun.id == task)
  {
  }

  lemma OutsideEndStrands(s: System, a: Action, w: nat)
    requires Invariant(s) && Enabled(s, a) && EndsFromOutside(s, a, w)
    ensures Stranded(Next(s, a), w)
  {
    var task := s.registry.waiters[w].task;
    assert Next(s, a) == s.(tasks := s.tasks[task := a.state]);
    if CancelPending(Next(s, a), task) { PendingBefore(s, a, task); }
  }

  /** A live task with a waiting reader is ended, and no cancel is under way to
      release the reader, only by a save from outside. */
  lemma LiveTaskStrandsFromOutside(s: System, a: Action, w: nat)
    requires Invariant(s) && Enabled(s, a) && WaitsForNext(s, w) && Live(s, s.registry.waiters[w].task)
    requires WaitsForNext(Next(s, a), w) && Next(s, a).registry.waiters[w].task == s.registry.waiters[w].task
    requires Stranded(Next(s, a), w)
    ensures EndsFromOutside(s, a, w)
  {
    var task := s.registry.waiters[w].task;
    EndedBySaveOrCancel(s, a, task);
    if a.Commit? { CommitIsPending(s, a.c, a.begun); }
    if a.DriverSave? && s.drivers[a.e] == task { DrivenTaskHasNoWaiters(s, a.e, w); }
  }

  lemma EndedTaskStrandsNobody(s: System, a: Action, w: nat)
    requires Invariant(s) && Enabled(s, a) && WaitsForNext(s, w) && Terminal(s, s.registry.waiters[w].task)
    requires CancelPending(s, s.registry.waiters[w].task)
    ensures !Stranded(Next(s, a), w)
  {
    var task := s.registry.waiters[w].task;
    StepKeepsWaiter(s, a, w);
    PendingStays(s, a, task);
    if a.Exit? && s.cancels[a.c].begun.id == task { ExitReleases(s, a.c, w); }
  }

  /** Exactly which steps strand a subscription, over a store that keeps terminal
      states: those by which the driver or a cancel of another task saves the
      task it waits on, live until then, as ended. */
  lemma StrandsExactly(s: System, a: Action, w: nat)
    requires Invariant(s) && Enabled(s, a)
    ensures !Stranded(s, w) && Stranded(Next(s, a), w) <==> EndsFromOutside(s, a, w)
  {
    if EndsFromOutside(s, a, w) {
      OutsideEndStrands(s, a, w);
    } else if !Stranded(s, w) && Stranded(Next(s, a), w) {
      WaitedBefore(s, a, w);
      if a != Load(w) {
        if Live(s, s.registry.waiters[w].task) { LiveTaskStrandsFromOutside(s, a, w); }
        else { EndedTaskStrandsNobody(s, a, w); }
      }
    }
  }

  /** A stranded subscription stays stranded while it waits. */
  lemma StrandedStays(s: System, a: Action, w: nat)
    requires Invariant(s) && Enabled(s, a) && Stranded(s, w) && WaitsForNext(Next(s, a), w)
    ensures Stranded(Next(s, a), w)
  {
    var task := s.registry.waiters[w].task;
    StepKeepsWaiter(s, a, w);
    StoredStays(s, a, task);
    if CancelPending(Next(s, a), task) { PendingBefore(s, a, task); }
  }

  /** Some step of the run ended from outside the task that w waits on. */
  ghost predicate EndedFromOutside(actions: seq<Action>, w: nat)
    requires IsRun(Initial(Keeping), actions)
  {
    actions != []
    && var before, last := actions[..|actions| - 1], actions[|actions| - 1];
       EndedFromOutside(before, w) || EndsFromOutside(After(Initial(Keeping), before), last, w)
  }

  lemma {:induction false} EndedHasRead(actions: seq<Action>, w: nat)
    requires IsRun(Initial(Keeping), actions) && EndedFromOutside(actions, w)
    ensures w in After(Initial(Keeping), actions).readings
  {
    var before, last := actions[..|actions| - 1], actions[|actions| - 1];
    if EndedFromOutside(before, w) { EndedHasRead(before, w); }
    ReadStays(After(Initial(Keeping), before), last, w);
  }

  lemma ReadStays(s: System, a: Action, w: nat)
    requires Enabled(s, a)
    ensures w in s.readings ==> w in Next(s, a).readings
  {
  }

  /** Over a store that keeps terminal states, however drivers, cancels and
      subscriptions interleave: a subscription that waits is stranded if and only
      if another task's driver or cancel has ended the task it waits on. */
  lemma {:induction false} StrandedExactly(actions: seq<Action>, w: nat)
    requires IsRun(Initial(Keeping), actions) && WaitsForNext(After(Initial(Keeping), actions), w)
    ensures Stranded(After(Initial(Keeping), actions), w) <==> EndedFromOutside(actions, w)
  {
    if actions != [] {
      var before, last := actions[..|actions| - 1], actions[|actions| - 1];
      var s := After(Initial(Keeping), before);
      RunKeepsInvariant(before);
      WaitedBefore(s, last, w);
      StrandsExactly(s, last, w);
      if WaitsForNext(s, w) {
        StrandedExactly(before, w);
        if Stranded(s, w) { StrandedStays(s, last, w); }
      } else if EndedFromOutside(before, w) {
        EndedHasRead(before, w);
      }
    }
  }

  /** Drivers and cancels save their own tasks only: no executor sends a snapshot
      of another task. */
  ghost predicate OwnSaves(actions: seq<Action>)
    requires IsRun(Initial(Keeping), actions)
  {
    actions != [] ==>
      var before, last := actions[..|actions| - 1], actions[|actions| - 1];
      OwnSaves(before) && !ForeignSave(After(Initial(Keeping), before), last)
  }

  lemma {:induction false} OwnSavesEndNothingElse(actions: seq<Action>, w: nat)
    requires IsRun(Initial(Keeping), actions) && OwnSaves(actions)
    ensures !EndedFromOutside(actions, w)
  {
    if actions != [] { OwnSavesEndNothingElse(actions[..|actions| - 1], w); }
  }

  /** While executors send snapshots of their own tasks only, at every moment of
      every run, a subscription that has read its task live and waits for the
      next execution has a live task still, or a cancel under way that will
      release it. */
  lemma NobodyWaitsOnAnEndedTask(actions: seq<Action>, w: nat)
    requires IsRun(Initial(Keeping), actions) && OwnSaves(actions)
    requires WaitsForNext(After(Initial(Keeping), actions), w)
    ensures var s := After(Initial(Keeping), actions);
            Live(s, s.registry.waiters[w].task) || CancelPending(s, s.registry.waiters[w].task)
  {
    RunKeepsInvariant(actions);
    StrandedExactly(actions, w);
    OwnSavesEndNothingElse(actions, w);
  }

  lemma {:induction false} EndedKeepsState(store: Store, first: seq<Action>, more: seq<Action>, task: TaskId)
    requires store != Overwriting && IsRun(Initial(store), first + more) && IsRun(Initial(store), first)
    requires Terminal(After(Initial(store), first), task) && Purge(task) !in more
    ensures var s, t := After(Initial(store), first), After(Initial(store), first + more);
            task in t.tasks && t.tasks[task] == s.tasks[task]
  {
    if more == [] {
      assert first + more == first;
    } else {
      var init := more[..|more| - 1];
      var last := more[|more| - 1];
      assert more == init + [last];
      assert first + more == (first + init) + [last];
      RunSplit(Initial(store), first + init, last);
      EndedKeepsState(store, first, init, task);
      RunKeepsRegistry(store, first + init);
      StoredStays(After(Initial(store), first + init), last, task);
    }
  }

  /** With a store that keeps terminal states, a committed cancel is final until
      the task is purged: whatever drivers and other cancels save from then on, the
      task stays CANCELED, and no other cancel of it gets past `begin_cancel`. */
  lemma CommittedStaysCanceled(store: Store, first: seq<Action>, more: seq<Action>, c: R.CancelId, begun: Task)
    requires store != Overwriting && Purge(begun.id) !in more
    requires IsRun(Initial(store), first + [Commit(c, begun)])
    requires IsRun(Initial(store), first + [Commit(c, begun)] + more)
    ensures var t := After(Initial(store), first + [Commit(c, begun)] + more);
            && begun.id in t.tasks && t.tasks[begun.id] == Canceled
            && forall d, again: Task :: again.id == begun.id ==> !Enabled(t, Commit(d, again))
  {
    RunSplit(Initial(store), first, Commit(c, begun));
    EndedKeepsState(store, first + [Commit(c, begun)], more, begun.id);
  }

  /** A store that does not purge never does. */
  lemma {:induction false} KeepingNeverPurges(actions: seq<Action>, task: TaskId)
    requires IsRun(Initial(Keeping), actions)
    ensures Purge(task) !in actions
  {
    if actions != [] {
      var before, last := actions[..|actions| - 1], actions[|actions| - 1];
      assert actions == before + [last];
      KeepingNeverPurges(before, task);
      RunKeepsRegistry(Keeping, before);
    }
  }

  // ---------------------------------------------------------------------
  // Runs that strand a subscription
  // ---------------------------------------------------------------------

  lemma RunExtends(s: System, actions: seq<Action>, a: Action) returns (more: seq<Action>)
    requires IsRun(s, actions) && Enabled(After(s, actions), a)
    ensures more == actions + [a] && IsRun(s, more) && After(s, more) == Next(After(s, actions), a)
  {
    more := actions + [a];
    assert more[..|actions|] == actions;
  }

  /** One task, no subscription, driven by execution 0. */
  function Driving(store: Store, task: TaskId, registered: bool, state: TaskState, cancels: map<R.CancelId, Cancel>)
    : System
  {
    System(R.Registry(if registered then map[task := 0] else map[], None, map[], [], 1),
           map[task := state], store, map[0 := task], cancels, map[])
  }

  /** A task being started, nothing else. */
  function Beginning(store: Store, task: TaskId, taken: bool): System {
    System(R.Registry(map[task := 0], Some(R.Starting(task, 0, taken)), map[], [], 1),
           map[task := Submitted], store, map[], map[], map[])
  }

  lemma TaskBegun(store: Store, task: TaskId) returns (actions: seq<Action>)
    ensures IsRun(Initial(store), actions) && After(Initial(store), actions) == Beginning(store, task, false)
  {
    var s := Initial(store);
    actions := RunExtends(s, [], CreateTask(task));
    assert After(s, actions) == s.(tasks := map[task := Submitted]);
    actions := RunExtends(s, actions, Start(R.StartInsert(task)));
  }

  lemma TaskDriven(store: Store, task: TaskId) returns (actions: seq<Action>)
    ensures IsRun(Initial(store), actions)
    ensures After(Initial(store), actions) == Driving(store, task, true, Submitted, map[])
  {
    var s := Initial(store);
    actions := TaskBegun(store, task);
    NobodyToTake(store, task);
    actions := RunExtends(s, actions, Start(R.StartTake));
    actions := RunExtends(s, actions, Start(R.StartDone));
  }

  lemma NobodyToTake(store: Store, task: TaskId)
    ensures Enabled(Beginning(store, task, false), Start(R.StartTake))
    ensures Next(Beginning(store, task, false), Start(R.StartTake)) == Beginning(store, task, true)
  {
    var r := Beginning(store, task, false).registry;
    assert R.TakeAll(r, task, R.Attached(0)).waiting == map[];
    assert R.TakeAll(r, task, R.Attached(0)).waiters == [];
  }

  /** A task driven by execution 0, another one followed by subscription 0. */
  function OtherFollowed(driven: TaskId, followed: TaskId, state: TaskState, readings: map<nat, Reading>): System {
    System(R.Registry(map[driven := 0], None, map[followed := [0]], [R.Waiter(followed, R.Queued, R.Alive)], 1),
           map[driven := Submitted, followed := state], Keeping, map[0 := driven], map[], readings)
  }

  lemma OtherTaskIsFollowed(driven: TaskId, followed: TaskId) returns (actions: seq<Action>)
    requires driven != followed
    ensures IsRun(Initial(Keeping), actions)
    ensures After(Initial(Keeping), actions) == OtherFollowed(driven, followed, Submitted, map[])
  {
    var s := Initial(Keeping);
    actions := TaskDriven(Keeping, driven);
    actions := RunExtends(s, actions, CreateTask(followed));
    actions := RunExtends(s, actions, Subscribe(followed));
    assert [] + [0] == [0] && [] + [R.Waiter(followed, R.Queued, R.Alive)] == [R.Waiter(followed, R.Queued, R.Alive)];
    assert map[driven := Submitted][followed := Submitted] == map[driven := Submitted, followed := Submitted];
  }

  /** An executor that sends a snapshot of another task, ended, strands whoever
      waits on that one, even over a store that keeps terminal states: the
      snapshot is saved under its own id, and nothing checks whose it is. */
  lemma ForeignSaveStrands(driven: TaskId, followed: TaskId) returns (actions: seq<Action>)
    requires driven != followed
    ensures IsRun(Initial(Keeping), actions)
    ensures var s := After(Initial(Keeping), actions);
            Stranded(s, 0) && s.readings[0] == Following && s.registry.waiters[0].task == followed
  {
    var s := Initial(Keeping);
    actions := OtherTaskIsFollowed(driven, followed);
    actions := RunExtends(s, actions, Load(0));
    assert After(s, actions) == OtherFollowed(driven, followed, Submitted, map[0 := Loaded(true)]);
    actions := RunExtends(s, actions, Decide(0));
    actions := RunExtends(s, actions, DriverSave(0, followed, Completed));
  }

  lemma CancelFinds(store: Store, begun: Task) returns (actions: seq<Action>)
    requires begun.status.state == Canceled
    ensures IsRun(Initial(store), actions)
    ensures After(Initial(store), actions)
         == Driving(store, begun.id, true, Canceled, map[0 := Cancel(begun, Some(0), false)])
  {
    actions := TaskDriven(store, begun.id);
    actions := RunExtends(Initial(store), actions, Commit(0, begun));
    assert After(Initial(store), actions)
        == Driving(store, begun.id, true, Canceled, map[0 := Cancel(begun, None, false)]);
    actions := RunExtends(Initial(store), actions, Find(0));
  }

  lemma CancelFinishes(store: Store, begun: Task) returns (actions: seq<Action>)
    requires begun.status.state == Canceled
    ensures IsRun(Initial(store), actions)
    ensures After(Initial(store), actions)
         == Driving(store, begun.id, false, Canceled, map[0 := Cancel(begun, Some(0), false)])
  {
    actions := CancelFinds(store, begun);
    actions := RunExtends(Initial(store), actions, CancelFinish(0));
  }

  /** A task canceled while its driver still runs. */
  lemma CanceledUnderway(store: Store, begun: Task) returns (actions: seq<Action>)
    requires begun.status.state == Canceled
    ensures IsRun(Initial(store), actions)
    ensures After(Initial(store), actions) == Driving(store, begun.id, false, Canceled, map[])
  {
    actions := CancelFinishes(store, begun);
    actions := RunExtends(Initial(store), actions, Exit(0));
    assert After(Initial(store), actions)
        == Driving(store, begun.id, false, Canceled, map[0 := Cancel(begun, Some(0), true)]);
    actions := RunExtends(Initial(store), actions, End(0));
  }

  /** Over a store that purges, a canceled task can come back to life: purged
      while its driver still runs, it is created again by the driver's next save. */
  lemma PurgedTaskComesBack(begun: Task) returns (actions: seq<Action>)
    requires begun.status.state == Canceled
    ensures IsRun(Initial(Purging), actions)
    ensures |actions| >= 2 && actions[|actions| - 2] == Purge(begun.id)
    ensures Live(After(Initial(Purging), actions), begun.id)
  {
    actions := CanceledUnderway(Purging, begun);
    actions := RunExtends(Initial(Purging), actions, Purge(begun.id));
    actions := RunExtends(Initial(Purging), actions, DriverSave(0, begun.id, Working));
  }

  /** The task live again, one subscription in the waiting table. */
  function Followed(task: TaskId, readings: map<nat, Reading>): System {
    System(R.Registry(map[], None, map[task := [0]], [R.Waiter(task, R.Queued, R.Alive)], 1),
           map[task := Working], Overwriting, map[0 := task], map[], readings)
  }

  /** ... whose driver's next save makes it live again, and a subscription made
      then. */
  lemma SubscribedAgain(begun: Task) returns (actions: seq<Action>)
    requires begun.status.state == Canceled
    ensures IsRun(Initial(Overwriting), actions)
    ensures After(Initial(Overwriting), actions) == Followed(begun.id, map[])
  {
    var s := Initial(Overwriting);
    actions := CanceledUnderway(Overwriting, begun);
    actions := RunExtends(s, actions, DriverSave(0, begun.id, Working));
    assert After(s, actions) == Driving(Overwriting, begun.id, false, Working, map[]);
    actions := RunExtends(s, actions, Subscribe(begun.id));
    assert [] + [0] == [0] && [] + [R.Waiter(begun.id, R.Queued, R.Alive)] == [R.Waiter(begun.id, R.Queued, R.Alive)];
  }

  lemma FollowedAgain(begun: Task) returns (actions: seq<Action>)
    requires begun.status.state == Canceled
    ensures IsRun(Initial(Overwriting), actions)
    ensures After(Initial(Overwriting), actions) == Followed(begun.id, map[0 := Following])
  {
    var s := Initial(Overwriting);
    actions := SubscribedAgain(begun);
    actions := RunExtends(s, actions, Load(0));
    assert After(s, actions) == Followed(begun.id, map[0 := Loaded(true)]);
    actions := RunExtends(s, actions, Decide(0));
  }

  /** If the store lets a terminal state be overwritten, the state does not stay
      terminal while a driver and a cancel overlap, and a subscription can be left
      waiting on a task that has ended, with nothing under way to release it. */
  lemma OverwritingStoreStrands(begun: Task) returns (actions: seq<Action>)
    requires begun.status.state == Canceled
    ensures IsRun(Initial(Overwriting), actions)
    ensures var s := After(Initial(Overwriting), actions);
            && Stranded(s, 0) && s.readings[0] == Following && s.registry.waiters[0].task == begun.id
            && s.cancels == map[] && s.drivers == map[]
  {
    var s := Initial(Overwriting);
    actions := FollowedAgain(begun);
    actions := RunExtends(s, actions, DriverSave(0, begun.id, Completed));
    actions := RunExtends(s, actions, DriverEnd(0));
  }
}
