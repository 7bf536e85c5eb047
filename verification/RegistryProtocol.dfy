/** The registry of running executions and the table of subscriptions waiting
    for one, as a transition system whose steps are the regions the code runs
    under its locks (`ExecutionManager` and `Waiter`, a2a-server/src/handler.rs). */
module RegistryProtocol {
  import opened Wrappers
  import opened Types

  type ExecutionId = nat
  type CancelId = nat

  /** What a waiting subscription is given: an execution's channel, or the final
      task of a cancel. */
  datatype Resolution = Attached(execution: ExecutionId) | Released(cancel: CancelId, final: Task)

  /** Where the sending half of a subscription's oneshot channel is. */
  datatype Sender =
    | Queued                      // in the waiting table
    | Taken(resolution: Resolution) // out of the table, not used yet
    | Sent(resolution: Resolution)
    | Spent                       // dropped, or used on a closed receiver

  datatype Receiver =
    | Alive
    | Closing  // closed by a drop that has not swept the table yet
    | Gone

  datatype Waiter = Waiter(task: TaskId, sender: Sender, receiver: Receiver)

  /** A `start` that holds the registry lock: `taken` once it has emptied the
      task's waiting list. */
  datatype Starting = Starting(task: TaskId, execution: ExecutionId, taken: bool)

  datatype Registry = Registry(
    executions: map<TaskId, ExecutionId>,
    starting: Option<Starting>,
    waiting: map<TaskId, seq<nat>>,  // positions in `waiters`
    waiters: seq<Waiter>,
    created: nat)

  const EMPTY := Registry(map[], None, map[], [], 0)

  datatype Action =
    | StartInsert(task: TaskId)
    | StartTake
    | StartDone
    | Deliver(w: nat)
    | Subscribe(task: TaskId)
    | ReleaseTake(final: Task, cancel: CancelId)
    | Finish(task: TaskId, execution: ExecutionId)
    | CloseReceiver(w: nat)
    | Sweep(w: nat)

  // ---------------------------------------------------------------------
  // Steps
  // ---------------------------------------------------------------------

  function WaitingFor(r: Registry, task: TaskId): seq<nat> {
    if task in r.waiting then r.waiting[task] else []
  }

  /** `waiting().remove(task)`, the senders in hand. */
  function TakeAll(r: Registry, task: TaskId, resolution: Resolution): Registry {
    var ids := WaitingFor(r, task);
    r.(waiting := r.waiting - {task},
       waiters := seq(|r.waiters|, i requires 0 <= i < |r.waiters| =>
                    if i in ids then r.waiters[i].(sender := Taken(resolution)) else r.waiters[i]))
  }

  /** The ids of those whose receiver is not closed. */
  function OpenOnes(waiters: seq<Waiter>, ids: seq<nat>): seq<nat> {
    if ids == [] then []
    else
      var last := ids[|ids| - 1];
      OpenOnes(waiters, ids[..|ids| - 1])
      + if last < |waiters| && waiters[last].receiver == Alive then [last] else []
  }

  /** `Waiter::drop` under the table's lock: closed senders go, and an empty
      list with them. */
  function Swept(r: Registry, task: TaskId): Registry {
    var ids := WaitingFor(r, task);
    var open := OpenOnes(r.waiters, ids);
    r.(waiting := if open == [] then r.waiting - {task} else r.waiting[task := open],
       waiters := seq(|r.waiters|, i requires 0 <= i < |r.waiters| =>
                    if i in ids && i !in open then r.waiters[i].(sender := Spent) else r.waiters[i]))
  }

  predicate Enabled(r: Registry, a: Action) {
    match a
    case StartInsert(task) => r.starting.None? && task !in r.executions
    case StartTake => r.starting.Some? && !r.starting.value.taken
    case StartDone =>
      && r.starting.Some? && r.starting.value.taken
      && forall i :: 0 <= i < |r.waiters| ==> r.waiters[i].sender != Taken(Attached(r.starting.value.execution))
    case Deliver(w) => w < |r.waiters| && r.waiters[w].sender.Taken?
    case Subscribe(_) => r.starting.None?
    case ReleaseTake(_, _) => true
    case Finish(_, _) => r.starting.None?
    case CloseReceiver(w) => w < |r.waiters| && r.waiters[w].receiver == Alive
    case Sweep(w) => w < |r.waiters| && r.waiters[w].receiver == Closing
  }

  function Next(r: Registry, a: Action): Registry
    requires Enabled(r, a)
  {
    match a
    case StartInsert(task) =>
      r.(executions := r.executions[task := r.created],
         starting := Some(Starting(task, r.created, false)),
         created := r.created + 1)
    case StartTake =>
      var s := r.starting.value;
      TakeAll(r, s.task, Attached(s.execution)).(starting := Some(s.(taken := true)))
    case StartDone => r.(starting := None)
    case Deliver(w) =>
      var waiter := r.waiters[w];
      r.(waiters := r.waiters[w := waiter.(
           sender := if waiter.receiver == Alive then Sent(waiter.sender.resolution) else Spent)])
    case Subscribe(task) =>
      if task in r.executions then
        r.(waiters := r.waiters + [Waiter(task, Sent(Attached(r.executions[task])), Alive)])
      else
        r.(waiters := r.waiters + [Waiter(task, Queued, Alive)],
           waiting := r.waiting[task := WaitingFor(r, task) + [|r.waiters|]])
    case ReleaseTake(final, cancel) => TakeAll(r, final.id, Released(cancel, final))
    case Finish(task, execution) =>
      if task in r.executions && r.executions[task] == execution
      then r.(executions := r.executions - {task}) else r
    case CloseReceiver(w) => r.(waiters := r.waiters[w := r.waiters[w].(receiver := Closing)])
    case Sweep(w) =>
      Swept(r.(waiters := r.waiters[w := r.waiters[w].(receiver := Gone)]), r.waiters[w].task)
  }

  // ---------------------------------------------------------------------
  // Invariant
  // ---------------------------------------------------------------------

  /** The waiting table holds exactly the senders not resolved yet, each once,
      under its own task; no list is empty; no receiver in it is gone. */
  ghost predicate TableExact(r: Registry) {
    && (forall task :: task in r.waiting ==> r.waiting[task] != [])
    && (forall task, k :: task in r.waiting && 0 <= k < |r.waiting[task]| ==>
          && r.waiting[task][k] < |r.waiters|
          && r.waiters[r.waiting[task][k]].task == task
          && r.waiters[r.waiting[task][k]].sender == Queued)
    && (forall task, j, k :: task in r.waiting && 0 <= j < k < |r.waiting[task]| ==>
          r.waiting[task][j] != r.waiting[task][k])
    && (forall w :: 0 <= w < |r.waiters| && r.waiters[w].sender == Queued ==>
          && r.waiters[w].task in r.waiting && w in r.waiting[r.waiters[w].task]
          && r.waiters[w].receiver != Gone)
  }

  /** A live subscription is waiting, about to be resolved, or resolved. */
  ghost predicate NoneLost(r: Registry) {
    forall w :: 0 <= w < |r.waiters| && r.waiters[w].sender == Spent ==> r.waiters[w].receiver != Alive
  }

  /** Executions have identities of their own, and a `start` holds the lock
      until it has resolved what it took. */
  ghost predicate RegistryExact(r: Registry) {
    && (forall task :: task in r.executions ==> r.executions[task] < r.created)
    && (forall s, t :: s in r.executions && t in r.executions && s != t ==> r.executions[s] != r.executions[t])
    && (r.starting.Some? ==>
          && r.starting.value.task in r.executions
          && r.executions[r.starting.value.task] == r.starting.value.execution)
    && (forall w, e :: 0 <= w < |r.waiters| && r.waiters[w].sender == Taken(Attached(e)) ==>
          r.starting == Some(Starting(r.waiters[w].task, e, true)))
  }

  /** No task is both registered and waited for, but for a `start` between its
      insertion and its taking. */
  ghost predicate Disjoint(r: Registry) {
    forall task :: task in r.executions && task in r.waiting ==>
      r.starting.Some? && !r.starting.value.taken && r.starting.value.task == task
  }

  ghost predicate Invariant(r: Registry) {
    TableExact(r) && NoneLost(r) && RegistryExact(r) && Disjoint(r)
  }

  lemma {:induction false} OpenOnesAre(waiters: seq<Waiter>, ids: seq<nat>)
    requires forall k :: 0 <= k < |ids| ==> ids[k] < |waiters|
    requires forall j, k :: 0 <= j < k < |ids| ==> ids[j] != ids[k]
    ensures forall i :: i in OpenOnes(waiters, ids) <==> i in ids && waiters[i].receiver == Alive
    ensures forall j, k :: 0 <= j < k < |OpenOnes(waiters, ids)| ==> OpenOnes(waiters, ids)[j] != OpenOnes(waiters, ids)[k]
  {
    if ids != [] {
      var before := ids[..|ids| - 1];
      OpenOnesAre(waiters, before);
      assert ids == before + [ids[|ids| - 1]];
      assert ids[|ids| - 1] !in before;
    }
  }

  lemma TakeKeepsTable(r: Registry, task: TaskId, resolution: Resolution)
    requires TableExact(r)
    ensures TableExact(TakeAll(r, task, resolution))
  {
    var t := TakeAll(r, task, resolution);
    forall other, k | other in t.waiting && 0 <= k < |t.waiting[other]|
      ensures t.waiting[other][k] < |t.waiters| && t.waiters[t.waiting[other][k]] == r.waiters[r.waiting[other][k]]
    {
      assert r.waiters[r.waiting[other][k]].task == other;
    }
    forall w | 0 <= w < |t.waiters| && t.waiters[w].sender == Queued
      ensures t.waiters[w] == r.waiters[w] && t.waiters[w].task != task
    {
      assert w !in WaitingFor(r, task);
    }
  }

  /** Taking resolves queued senders of the task, and only those. */
  lemma TakenWereQueued(r: Registry, task: TaskId, resolution: Resolution)
    requires TableExact(r)
    ensures var t := TakeAll(r, task, resolution);
            forall w :: 0 <= w < |r.waiters| ==>
              && t.waiters[w].task == r.waiters[w].task && t.waiters[w].receiver == r.waiters[w].receiver
              && t.waiters[w].sender == if r.waiters[w].task == task && r.waiters[w].sender == Queued
                                        then Taken(resolution) else r.waiters[w].sender
  {
    var t := TakeAll(r, task, resolution);
    forall w | 0 <= w < |r.waiters|
      ensures w in WaitingFor(r, task) <==> r.waiters[w].task == task && r.waiters[w].sender == Queued
    {
    }
  }

  /** Sweeping drops senders in the table whose receiver is closed, and only those. */
  lemma SweptWereClosed(r: Registry, task: TaskId)
    requires forall k :: 0 <= k < |WaitingFor(r, task)| ==>
               && WaitingFor(r, task)[k] < |r.waiters|
               && r.waiters[WaitingFor(r, task)[k]].sender == Queued
               && r.waiters[WaitingFor(r, task)[k]].task == task
    requires forall j, k :: 0 <= j < k < |WaitingFor(r, task)| ==> WaitingFor(r, task)[j] != WaitingFor(r, task)[k]
    requires forall w :: 0 <= w < |r.waiters| && r.waiters[w].sender == Queued && r.waiters[w].task == task ==>
               w in WaitingFor(r, task)
    ensures var t := Swept(r, task);
            && |t.waiters| == |r.waiters|
            && (forall w :: 0 <= w < |r.waiters| ==>
                  && t.waiters[w].task == r.waiters[w].task && t.waiters[w].receiver == r.waiters[w].receiver
                  && t.waiters[w].sender
                     == if r.waiters[w].task == task && r.waiters[w].sender == Queued && r.waiters[w].receiver != Alive
                        then Spent else r.waiters[w].sender)
            && (forall i :: i in WaitingFor(t, task) <==> i in WaitingFor(r, task) && r.waiters[i].receiver == Alive)
            && (forall j, k :: 0 <= j < k < |WaitingFor(t, task)| ==> WaitingFor(t, task)[j] != WaitingFor(t, task)[k])
            && (task in t.waiting ==> t.waiting[task] != [])
            && (forall other :: other != task ==> (other in t.waiting <==> other in r.waiting))
            && (forall other :: other != task && other in r.waiting ==> t.waiting[other] == r.waiting[other])
  {
    OpenOnesAre(r.waiters, WaitingFor(r, task));
    assert WaitingFor(Swept(r, task), task) == OpenOnes(r.waiters, WaitingFor(r, task));
  }

  lemma QueuedStayInTable(r: Registry, w: nat)
    requires TableExact(r) && Enabled(r, Sweep(w))
    ensures var t := Next(r, Sweep(w));
            forall i :: 0 <= i < |t.waiters| && t.waiters[i].sender == Queued ==>
              t.waiters[i].task in t.waiting && i in t.waiting[t.waiters[i].task] && t.waiters[i].receiver != Gone
  {
    var task := r.waiters[w].task;
    var mid := r.(waiters := r.waiters[w := r.waiters[w].(receiver := Gone)]);
    var t := Next(r, Sweep(w));
    SweptWereClosed(mid, task);
    forall i | 0 <= i < |t.waiters| && t.waiters[i].sender == Queued
      ensures t.waiters[i].task in t.waiting && i in t.waiting[t.waiters[i].task] && t.waiters[i].receiver != Gone
    {
      assert mid.waiters[i].sender == Queued && r.waiters[i].sender == Queued;
      if r.waiters[i].task == task { assert i in WaitingFor(t, task); }
    }
  }

  lemma TableStaysQueued(r: Registry, w: nat)
    requires TableExact(r) && Enabled(r, Sweep(w))
    ensures var t := Next(r, Sweep(w));
            forall other, k :: other in t.waiting && 0 <= k < |t.waiting[other]| ==>
              && t.waiting[other][k] < |t.waiters|
              && t.waiters[t.waiting[other][k]].task == other
              && t.waiters[t.waiting[other][k]].sender == Queued
  {
    var task := r.waiters[w].task;
    var t := Next(r, Sweep(w));
    SweptWereClosed(r.(waiters := r.waiters[w := r.waiters[w].(receiver := Gone)]), task);
    forall other, k | other in t.waiting && 0 <= k < |t.waiting[other]|
      ensures && t.waiting[other][k] < |t.waiters|
              && t.waiters[t.waiting[other][k]].task == other
              && t.waiters[t.waiting[other][k]].sender == Queued
    {
      if other == task {
        assert t.waiting[task][k] in WaitingFor(t, task);
        assert t.waiting[task][k] in WaitingFor(r, task);
      } else {
        assert t.waiting[other][k] == r.waiting[other][k];
      }
    }
  }

  lemma SweepKeepsTable(r: Registry, w: nat)
    requires TableExact(r) && Enabled(r, Sweep(w))
    ensures TableExact(Next(r, Sweep(w)))
    ensures forall i :: 0 <= i < |r.waiters| ==>
              || Next(r, Sweep(w)).waiters[i].sender == r.waiters[i].sender
              || (Next(r, Sweep(w)).waiters[i].sender == Spent && Next(r, Sweep(w)).waiters[i].receiver != Alive)
  {
    var task := r.waiters[w].task;
    var mid := r.(waiters := r.waiters[w := r.waiters[w].(receiver := Gone)]);
    var t := Next(r, Sweep(w));
    SweptWereClosed(mid, task);
    QueuedStayInTable(r, w);
    TableStaysQueued(r, w);
  }

  lemma SweepKeepsInvariant(r: Registry, w: nat)
    requires Invariant(r) && Enabled(r, Sweep(w))
    ensures Invariant(Next(r, Sweep(w)))
  {
    SweepKeepsTable(r, w);
    SweepOnlyShrinks(r, w);
  }

  lemma SweepOnlyShrinks(r: Registry, w: nat)
    requires Enabled(r, Sweep(w))
    ensures var t := Next(r, Sweep(w));
            && t.executions == r.executions && t.starting == r.starting && t.created == r.created
            && |t.waiters| == |r.waiters|
            && (forall task :: task in t.waiting ==> task in r.waiting)
            && (forall i :: 0 <= i < |r.waiters| ==> t.waiters[i].task == r.waiters[i].task)
  {
    assert OpenOnes(r.waiters, []) == [];
  }

  lemma TakeKeepsInvariant(r: Registry, task: TaskId, resolution: Resolution)
    requires Invariant(r) && resolution.Released?
    ensures Invariant(TakeAll(r, task, resolution))
  {
    TakeKeepsTable(r, task, resolution);
    TakenWereQueued(r, task, resolution);
  }

  lemma StartTakeKeepsInvariant(r: Registry)
    requires Invariant(r) && Enabled(r, StartTake)
    ensures Invariant(Next(r, StartTake))
  {
    var s := r.starting.value;
    TakeKeepsTable(r, s.task, Attached(s.execution));
    TakenWereQueued(r, s.task, Attached(s.execution));
    assert TableExact(TakeAll(r, s.task, Attached(s.execution)));
  }

  lemma StartInsertKeepsInvariant(r: Registry, task: TaskId)
    requires Invariant(r) && Enabled(r, StartInsert(task))
    ensures Invariant(Next(r, StartInsert(task)))
  {
  }

  lemma FinishKeepsInvariant(r: Registry, task: TaskId, execution: ExecutionId)
    requires Invariant(r) && Enabled(r, Finish(task, execution))
    ensures Invariant(Next(r, Finish(task, execution)))
  {
  }

  lemma DeliverKeepsInvariant(r: Registry, w: nat)
    requires Invariant(r) && Enabled(r, Deliver(w))
    ensures Invariant(Next(r, Deliver(w)))
  {
    var t := Next(r, Deliver(w));
    assert forall i :: 0 <= i < |r.waiters| && i != w ==> t.waiters[i] == r.waiters[i];
  }

  lemma CloseKeepsInvariant(r: Registry, w: nat)
    requires Invariant(r) && Enabled(r, CloseReceiver(w))
    ensures Invariant(Next(r, CloseReceiver(w)))
  {
    var t := Next(r, CloseReceiver(w));
    assert forall i :: 0 <= i < |r.waiters| && i != w ==> t.waiters[i] == r.waiters[i];
  }

  lemma QueueKeepsTable(r: Registry, task: TaskId)
    requires TableExact(r) && Enabled(r, Subscribe(task)) && task !in r.executions
    ensures TableExact(Next(r, Subscribe(task)))
  {
    var t := Next(r, Subscribe(task));
    var ids := WaitingFor(r, task);
    assert t.waiting[task] == ids + [|r.waiters|];
    forall other, k | other in t.waiting && 0 <= k < |t.waiting[other]|
      ensures && t.waiting[other][k] < |t.waiters|
              && t.waiters[t.waiting[other][k]].task == other
              && t.waiters[t.waiting[other][k]].sender == Queued
    {
      if other == task && k < |ids| { assert t.waiting[other][k] == r.waiting[other][k]; }
    }
    forall i | 0 <= i < |t.waiters| && t.waiters[i].sender == Queued
      ensures t.waiters[i].task in t.waiting && i in t.waiting[t.waiters[i].task] && t.waiters[i].receiver != Gone
    {
      if i == |r.waiters| { assert t.waiting[task][|ids|] == i; }
      else { assert i in r.waiting[r.waiters[i].task]; }
    }
  }

  lemma SubscribeKeepsInvariant(r: Registry, task: TaskId)
    requires Invariant(r) && Enabled(r, Subscribe(task))
    ensures Invariant(Next(r, Subscribe(task)))
  {
    if task !in r.executions { QueueKeepsTable(r, task); }
  }

  lemma StepKeepsInvariant(r: Registry, a: Action)
    requires Invariant(r) && Enabled(r, a)
    ensures Invariant(Next(r, a))
  {
    match a
    case StartInsert(task) => StartInsertKeepsInvariant(r, task);
    case StartTake => StartTakeKeepsInvariant(r);
    case StartDone =>
    case Deliver(w) => DeliverKeepsInvariant(r, w);
    case Subscribe(task) => SubscribeKeepsInvariant(r, task);
    case ReleaseTake(final, cancel) => TakeKeepsInvariant(r, final.id, Released(cancel, final));
    case Finish(task, execution) => FinishKeepsInvariant(r, task, execution);
    case CloseReceiver(w) => CloseKeepsInvariant(r, w);
    case Sweep(w) => SweepKeepsInvariant(r, w);
  }

  // ---------------------------------------------------------------------
  // Runs
  // ---------------------------------------------------------------------

  ghost predicate IsRun(r: Registry, actions: seq<Action>)
    decreases |actions|, 0
  {
    actions == []
    || (var before := actions[..|actions| - 1];
        IsRun(r, before) && Enabled(After(r, before), actions[|actions| - 1]))
  }

  ghost function After(r: Registry, actions: seq<Action>): Registry
    requires IsRun(r, actions)
    decreases |actions|, 1
  {
    if actions == [] then r
    else Next(After(r, actions[..|actions| - 1]), actions[|actions| - 1])
  }

  /** Every run keeps the waiting table exact: it holds precisely the senders
      not resolved yet, under tasks that have no registered execution; a live
      subscription is never lost. */
  lemma {:induction false} RunKeepsInvariant(actions: seq<Action>)
    requires IsRun(EMPTY, actions)
    ensures Invariant(After(EMPTY, actions))
  {
    if actions != [] {
      var before := actions[..|actions| - 1];
      RunKeepsInvariant(before);
      StepKeepsInvariant(After(EMPTY, before), actions[|actions| - 1]);
    }
  }

  /** What may become of a subscription: out of the table once, then sent what
      it was taken for, or dropped. */
  predicate Later(waiter: Waiter, next: Waiter) {
    && next.task == waiter.task
    && (next.receiver == Alive ==> waiter.receiver == Alive)
    && match waiter.sender
       case Queued => true
       case Taken(resolution) => next.sender in {Taken(resolution), Sent(resolution), Spent}
       case Sent(resolution) => next.sender == Sent(resolution)
       case Spent => next.sender == Spent
  }

  lemma StepIsLater(r: Registry, a: Action, w: nat)
    requires Invariant(r) && Enabled(r, a) && w < |r.waiters|
    ensures w < |Next(r, a).waiters| && Later(r.waiters[w], Next(r, a).waiters[w])
  {
    match a
    case StartTake => TakenWereQueued(r, r.starting.value.task, Attached(r.starting.value.execution));
    case ReleaseTake(final, cancel) => TakenWereQueued(r, final.id, Released(cancel, final));
    case Sweep(i) => SweepKeepsTable(r, i);
      SweptWereClosed(r.(waiters := r.waiters[i := r.waiters[i].(receiver := Gone)]), r.waiters[i].task);
    case _ =>
  }

  /** The execution is registered for the task, or, once finished, for none. */
  ghost predicate Registered(r: Registry, task: TaskId, e: ExecutionId, finished: bool) {
    && e < r.created
    && if finished then forall t :: t in r.executions ==> r.executions[t] != e
       else task in r.executions && r.executions[task] == e
  }

  lemma StepKeepsRegistered(r: Registry, a: Action, task: TaskId, e: ExecutionId, finished: bool)
    requires Invariant(r) && Enabled(r, a) && Registered(r, task, e, finished)
    ensures Registered(Next(r, a), task, e, finished || a == Finish(task, e))
  {
  }

  lemma RunSplit(r: Registry, first: seq<Action>, last: Action)
    requires IsRun(r, first + [last])
    ensures IsRun(r, first) && Enabled(After(r, first), last)
    ensures After(r, first + [last]) == Next(After(r, first), last)
  {
    assert (first + [last])[..|first|] == first;
  }

  lemma {:induction false} RunKeepsInvariantFrom(r: Registry, actions: seq<Action>)
    requires Invariant(r) && IsRun(r, actions)
    ensures Invariant(After(r, actions))
  {
    if actions != [] {
      var before := actions[..|actions| - 1];
      RunKeepsInvariantFrom(r, before);
      StepKeepsInvariant(After(r, before), actions[|actions| - 1]);
    }
  }

  ghost predicate LaterAt(r: Registry, waiter: Waiter, w: nat) {
    w < |r.waiters| && Later(waiter, r.waiters[w])
  }

  /** One step more. */
  lemma LastStaysLater(r: Registry, actions: seq<Action>, last: Action, waiter: Waiter, w: nat)
    requires Invariant(r) && IsRun(r, actions) && IsRun(r, actions + [last])
    requires LaterAt(After(r, actions), waiter, w)
    ensures LaterAt(After(r, actions + [last]), waiter, w)
  {
    RunSplit(r, actions, last);
    RunKeepsInvariantFrom(r, actions);
    StepIsLater(After(r, actions), last, w);
    LaterOnwards(waiter, After(r, actions).waiters[w], Next(After(r, actions), last).waiters[w]);
  }

  lemma RunBegins(r: Registry, actions: seq<Action>, last: Action)
    requires IsRun(r, actions + [last])
    ensures IsRun(r, actions)
  {
    RunSplit(r, actions, last);
  }

  lemma {:induction false} RunStaysLater(r: Registry, first: seq<Action>, more: seq<Action>, waiter: Waiter, w: nat)
    requires Invariant(r) && IsRun(r, first) && LaterAt(After(r, first), waiter, w) && IsRun(r, first + more)
    ensures LaterAt(After(r, first + more), waiter, w)
    decreases |more|
  {
    if more == [] {
      assert first + more == first;
    } else {
      var init, last := more[..|more| - 1], more[|more| - 1];
      assert first + more == (first + init) + [last];
      RunBegins(r, first + init, last);
      RunStaysLater(r, first, init, waiter, w);
      LastStaysLater(r, first + init, last, waiter, w);
    }
  }

  /** A subscription is resolved at most once: over any run its sender leaves
      the table once, and what it has been sent it keeps. */
  lemma ResolvedOnce(first: seq<Action>, more: seq<Action>, w: nat)
    requires IsRun(EMPTY, first + more)
    requires IsRun(EMPTY, first) && w < |After(EMPTY, first).waiters|
    ensures w < |After(EMPTY, first + more).waiters|
    ensures Later(After(EMPTY, first).waiters[w], After(EMPTY, first + more).waiters[w])
  {
    RunStaysLater(EMPTY, first, more, After(EMPTY, first).waiters[w], w);
  }

  lemma LaterOnwards(first: Waiter, second: Waiter, third: Waiter)
    requires Later(first, second) && Later(second, third)
    ensures Later(first, third)
  {
  }

  /** From the `start` that registers it until its own first `finish`, an
      execution stays registered, whatever else happens: in particular the late
      `finish` of an older execution of the task does not unregister it. Once
      it has finished it is never registered again. */
  lemma {:induction false} RegisteredUntilFinished(first: seq<Action>, more: seq<Action>, task: TaskId)
    requires IsRun(EMPTY, first + more)
    requires IsRun(EMPTY, first) && task in After(EMPTY, first).executions
    ensures var e := After(EMPTY, first).executions[task];
            Registered(After(EMPTY, first + more), task, e, Finish(task, e) in more)
  {
    var e := After(EMPTY, first).executions[task];
    if more == [] {
      assert first + more == first;
      RunKeepsInvariant(first);
    } else {
      var init := more[..|more| - 1];
      var last := more[|more| - 1];
      assert more == init + [last];
      assert first + more == (first + init) + [last];
      RunSplit(EMPTY, first + init, last);
      RegisteredUntilFinished(first, init, task);
      RunKeepsInvariant(first + init);
      StepKeepsRegistered(After(EMPTY, first + init), last, task, e, Finish(task, e) in init);
    }
  }

  // ---------------------------------------------------------------------
  // Whose channel a subscription is given
  // ---------------------------------------------------------------------

  /** The tasks executions were created for, in order: execution e is the one the
      e-th `start` that was not refused made. */
  function Started(actions: seq<Action>): seq<TaskId> {
    if actions == [] then []
    else
      var before, last := Started(actions[..|actions| - 1]), actions[|actions| - 1];
      if last.StartInsert? then before + [last.task] else before
  }

  /** What a subscription is given belongs to its own task. */
  ghost predicate Belongs(started: seq<TaskId>, waiter: Waiter) {
    waiter.sender.Taken? || waiter.sender.Sent? ==>
      match waiter.sender.resolution
      case Attached(e) => e < |started| && started[e] == waiter.task
      case Released(_, final) => final.id == waiter.task
  }

  /** Executions are registered for the tasks they were created for, and so are
      those that subscriptions are given. */
  ghost predicate OwnExecutions(r: Registry, started: seq<TaskId>) {
    && |started| == r.created
    && (forall task :: task in r.executions ==> r.executions[task] < r.created && started[r.executions[task]] == task)
    && (forall w :: 0 <= w < |r.waiters| ==> Belongs(started, r.waiters[w]))
  }

  lemma TakingBelongs(r: Registry, started: seq<TaskId>, task: TaskId, resolution: Resolution)
    requires TableExact(r) && OwnExecutions(r, started)
    requires match resolution
             case Attached(e) => e < |started| && started[e] == task
             case Released(_, final) => final.id == task
    ensures OwnExecutions(TakeAll(r, task, resolution), started)
  {
    TakenWereQueued(r, task, resolution);
  }

  lemma SweepingBelongs(r: Registry, started: seq<TaskId>, w: nat)
    requires Invariant(r) && Enabled(r, Sweep(w)) && OwnExecutions(r, started)
    ensures OwnExecutions(Next(r, Sweep(w)), started)
  {
    SweepKeepsTable(r, w);
    SweepOnlyShrinks(r, w);
  }

  lemma StepKeepsOwn(r: Registry, a: Action, started: seq<TaskId>)
    requires Invariant(r) && Enabled(r, a) && OwnExecutions(r, started)
    ensures OwnExecutions(Next(r, a), if a.StartInsert? then started + [a.task] else started)
  {
    match a
    case StartTake => TakingBelongs(r, started, r.starting.value.task, Attached(r.starting.value.execution));
    case ReleaseTake(final, cancel) => TakingBelongs(r, started, final.id, Released(cancel, final));
    case Sweep(w) => SweepingBelongs(r, started, w);
    case _ =>
  }

  /** In every run an execution is registered for the task it was created for and
      no other, and whatever channel or final task a subscription is given or about
      to be given is that of its own task. */
  lemma {:induction false} GivenItsOwn(actions: seq<Action>)
    requires IsRun(EMPTY, actions)
    ensures OwnExecutions(After(EMPTY, actions), Started(actions))
  {
    if actions != [] {
      var before := actions[..|actions| - 1];
      GivenItsOwn(before);
      RunKeepsInvariant(before);
      StepKeepsOwn(After(EMPTY, before), actions[|actions| - 1], Started(before));
    }
  }
}
