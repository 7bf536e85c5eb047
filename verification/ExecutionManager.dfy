/** The registry object in the form the server has it: two maps that its methods
    update. Run without interruption, each method is a run of the steps of
    `RegistryProtocol` (`ExecutionManager`, a2a-server/src/handler.rs). */
module ExecutionManagers {
  import opened Wrappers
  import opened Types
  import opened RegistryProtocol

  lemma RunExtends(r: Registry, actions: seq<Action>, a: Action) returns (more: seq<Action>)
    requires IsRun(r, actions) && Enabled(After(r, actions), a)
    ensures more == actions + [a] && IsRun(r, more) && After(r, more) == Next(After(r, actions), a)
  {
    more := actions + [a];
    assert more[..|actions|] == actions;
  }

  /** The waiters after those in `ids` before position n have been sent `resolution`. */
  ghost predicate SentUpTo(was: seq<Waiter>, now: seq<Waiter>, ids: seq<nat>, n: nat, resolution: Resolution)
    requires n <= |ids|
  {
    && |now| == |was|
    && forall w :: 0 <= w < |was| ==>
         now[w] == if w in ids[..n]
                   then was[w].(sender := if was[w].receiver == Alive then Sent(resolution) else Spent)
                   else if w in ids then was[w].(sender := Taken(resolution)) else was[w]
  }

  class ExecutionManager {
    var executions: map<TaskId, ExecutionId>
    var starting: Option<Starting>
    var waiting: map<TaskId, seq<nat>>
    var waiters: seq<Waiter>
    var created: nat

    function View(): Registry
      reads this
    {
      Registry.Registry(executions, starting, waiting, waiters, created)
    }

    constructor ()
      ensures View() == EMPTY
    {
      executions, starting, waiting, waiters, created := map[], None, map[], [], 0;
    }

    /** Takes the task's senders out of the table, and marks them taken. */
    method TakeWaiting(task: TaskId, resolution: Resolution) returns (ids: seq<nat>)
      requires TableExact(View())
      modifies this`waiting, this`waiters
      ensures View() == TakeAll(old(View()), task, resolution)
      ensures ids == WaitingFor(old(View()), task)
      ensures SentUpTo(old(waiters), waiters, ids, 0, resolution)
    {
      ids := if task in waiting then waiting[task] else [];
      waiting := waiting - {task};
      var was := waiters;
      waiters := seq(|was|, i requires 0 <= i < |was| =>
                       if i in ids then was[i].(sender := Taken(resolution)) else was[i]);
    }

    /** Sends each taken sender its resolution, after the steps up to here. */
    method Resolve(ids: seq<nat>, resolution: Resolution, ghost began: Registry, ghost before: seq<Action>)
      returns (ghost steps: seq<Action>)
      requires IsRun(began, before) && View() == After(began, before)
      requires SentUpTo(began.waiters, waiters, ids, 0, resolution)
      requires forall k :: 0 <= k < |ids| ==> ids[k] < |waiters|
      requires forall j, k :: 0 <= j < k < |ids| ==> ids[j] != ids[k]
      modifies this`waiters
      ensures SentUpTo(began.waiters, waiters, ids, |ids|, resolution)
      ensures IsRun(began, steps) && View() == After(began, steps)
      ensures View() == old(View()).(waiters := waiters)
    {
      steps := SendAll(ids, resolution, began.waiters);
      steps := RunsJoin(began, before, steps);
    }

    /** Sends each taken sender its resolution; a closed receiver refuses it. */
    method SendAll(ids: seq<nat>, resolution: Resolution, ghost was: seq<Waiter>)
      returns (ghost steps: seq<Action>)
      requires SentUpTo(was, waiters, ids, 0, resolution)
      requires forall k :: 0 <= k < |ids| ==> ids[k] < |waiters|
      requires forall j, k :: 0 <= j < k < |ids| ==> ids[j] != ids[k]
      modifies this`waiters
      ensures SentUpTo(was, waiters, ids, |ids|, resolution)
      ensures IsRun(old(View()), steps) && View() == After(old(View()), steps)
    {
      steps := [];
      var n := 0;
      while n < |ids|
        invariant 0 <= n <= |ids|
        invariant SentUpTo(was, waiters, ids, n, resolution)
        invariant IsRun(old(View()), steps) && View() == After(old(View()), steps)
      {
        var w := ids[n];
        assert w !in ids[..n];
        steps := RunExtends(old(View()), steps, Deliver(w));
        waiters := waiters[w := waiters[w].(
          sender := if waiters[w].receiver == Alive then Sent(resolution) else Spent)];
        assert ids[..n + 1] == ids[..n] + [w];
        n := n + 1;
      }
      assert ids[..n] == ids;
    }

    /** `start`: refuses a task that has an execution; otherwise registers a new
        one and resolves every subscription waiting for it. */
    method Start(task: TaskId) returns (started: Result<ExecutionId, A2AError>, ghost steps: seq<Action>)
      requires Invariant(View()) && starting.None?
      modifies this
      ensures IsRun(old(View()), steps) && View() == After(old(View()), steps)
      ensures Invariant(View()) && starting.None?
      ensures task in old(executions) ==> started == Err(Error(INVALID_REQUEST)) && View() == old(View())
      ensures task !in old(executions) ==>
                && started == Ok(old(created))
                && executions == old(executions)[task := old(created)]
                && waiting == old(waiting) - {task}
                && SentUpTo(old(waiters), waiters, WaitingFor(old(View()), task),
                            |WaitingFor(old(View()), task)|, Attached(old(created)))
    {
      steps := [];
      if task in executions {
        return Err(Error(INVALID_REQUEST)), steps;
      }
      ghost var was := View();
      var e := created;
      steps := RunExtends(was, steps, StartInsert(task));
      StepKeepsInvariant(View(), StartInsert(task));
      executions := executions[task := e];
      starting, created := Some(Starting(task, e, false)), created + 1;
      steps := RunExtends(was, steps, StartTake);
      var ids := TakeWaiting(task, Attached(e));
      starting := Some(Starting(task, e, true));
      steps := Resolve(ids, Attached(e), was, steps);
      NoneTaken(was.waiters, waiters, ids, Attached(e), was);
      steps := RunExtends(was, steps, StartDone);
      starting := None;
      RunKeepsInvariantFrom(was, steps);
      return Ok(e), steps;
    }

    /** `subscribe`: attached at once, or put in the table. */
    method Subscribe(task: TaskId) returns (w: nat)
      requires starting.None?
      modifies this`waiting, this`waiters
      ensures w == |old(waiters)| && View() == Next(old(View()), Action.Subscribe(task))
      ensures task in executions ==>
                && waiters == old(waiters) + [Waiter(task, Sent(Attached(executions[task])), Alive)]
                && waiting == old(waiting)
      ensures task !in executions ==>
                && waiters == old(waiters) + [Waiter(task, Queued, Alive)]
                && task in waiting && w in waiting[task]
    {
      w := |waiters|;
      if task in executions {
        waiters := waiters + [Waiter(task, Sent(Attached(executions[task])), Alive)];
      } else {
        waiting := waiting[task := (if task in waiting then waiting[task] else []) + [w]];
        waiters := waiters + [Waiter(task, Queued, Alive)];
      }
    }

    /** `release`: everything waiting for the task is sent its final snapshot. */
    method Release(final: Task, cancel: CancelId) returns (ghost steps: seq<Action>)
      requires Invariant(View())
      modifies this`waiting, this`waiters
      ensures IsRun(old(View()), steps) && View() == After(old(View()), steps) && Invariant(View())
      ensures waiting == old(waiting) - {final.id}
      ensures SentUpTo(old(waiters), waiters, WaitingFor(old(View()), final.id),
                       |WaitingFor(old(View()), final.id)|, Released(cancel, final))
    {
      ghost var was := View();
      steps := RunExtends(was, [], ReleaseTake(final, cancel));
      var ids := TakeWaiting(final.id, Released(cancel, final));
      steps := Resolve(ids, Released(cancel, final), was, steps);
      RunKeepsInvariantFrom(was, steps);
    }

    /** `finish`: unregisters this execution and no other. */
    method Finish(task: TaskId, execution: ExecutionId)
      requires starting.None?
      modifies this`executions
      ensures View() == Next(old(View()), Action.Finish(task, execution))
    {
      if task in executions && executions[task] == execution {
        executions := executions - {task};
      }
    }

    /** The senders among these whose receiver is not closed. */
    method Retained(ids: seq<nat>) returns (kept: seq<nat>)
      ensures kept == OpenOnes(waiters, ids)
    {
      kept := [];
      var n := 0;
      while n < |ids|
        invariant 0 <= n <= |ids|
        invariant kept == OpenOnes(waiters, ids[..n])
      {
        assert ids[..n + 1][..n] == ids[..n];
        if ids[n] < |waiters| && waiters[ids[n]].receiver == Alive {
          kept := kept + [ids[n]];
        }
        n := n + 1;
      }
      assert ids[..n] == ids;
    }

    /** `Waiter::drop`: closes the receiver, then drops every closed sender of
        the task from the table. */
    method DropWaiter(w: nat)
      requires w < |waiters| && waiters[w].receiver == Alive
      modifies this`waiting, this`waiters
      ensures View() == Next(Next(old(View()), CloseReceiver(w)), Sweep(w))
    {
      var task := waiters[w].task;
      waiters := waiters[w := waiters[w].(receiver := Closing)];
      ghost var closed := View();
      waiters := waiters[w := waiters[w].(receiver := Gone)];
      ghost var mid := View();
      var ids := if task in waiting then waiting[task] else [];
      var kept := Retained(ids);
      waiting := if kept == [] then waiting - {task} else waiting[task := kept];
      var was := waiters;
      waiters := seq(|was|, i requires 0 <= i < |was| =>
                       if i in ids && i !in kept then was[i].(sender := Spent) else was[i]);
      assert View() == Swept(mid, task);
    }
  }

  lemma {:induction false} RunsJoin(r: Registry, first: seq<Action>, second: seq<Action>) returns (both: seq<Action>)
    requires IsRun(r, first) && IsRun(After(r, first), second)
    ensures both == first + second && IsRun(r, both) && After(r, both) == After(After(r, first), second)
    decreases |second|
  {
    if second == [] {
      both := first;
      assert both == first + second;
    } else {
      var before, last := second[..|second| - 1], second[|second| - 1];
      assert second == before + [last];
      RunSplit(After(r, first), before, last);
      var init := RunsJoin(r, first, before);
      both := RunExtends(r, init, last);
      assert both == first + second;
    }
  }

  lemma NoneTaken(was: seq<Waiter>, now: seq<Waiter>, ids: seq<nat>, resolution: Resolution, r: Registry)
    requires SentUpTo(was, now, ids, |ids|, resolution) && r.waiters == was
    requires Invariant(r) && r.starting.None? && resolution.Attached?
    ensures forall w :: 0 <= w < |now| ==> now[w].sender != Taken(resolution)
  {
    assert ids[..|ids|] == ids;
  }
}
