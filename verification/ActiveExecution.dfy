/** The object behind one execution, in the form the server has it: fields that
    its methods update. Run without interruption, each method is a run of the
    steps of `ExecutionProtocol`, where other callers may come in between. */
module ActiveExecutions {
  import opened Wrappers
  import opened Types
  import opened ExecutionProtocol
  import opened SinglePublisher

  /** What polling a stream gives: an item, its end, or nothing yet. */
  datatype Polled = Ready(item: Item) | End | Wait

  function Repeat(a: Action, n: nat): (actions: seq<Action>)
    ensures |actions| == n
  {
    if n == 0 then [] else Repeat(a, n - 1) + [a]
  }

  class ActiveExecution {
    const initial: Task
    var sequence: nat
    var snapshotTask: Option<Task>
    var pending: map<Publisher, Pending>
    var log: seq<Event>
    var subscriptions: seq<Subscription>
    var closed: bool
    ghost var history: seq<Publication>

    ghost function View(): Execution
      reads this
    {
      Execution(initial, sequence, snapshotTask, pending, log, subscriptions, closed, history)
    }

    constructor (task: Task)
      ensures View() == Started(task, 0)
    {
      initial := task;
      sequence, snapshotTask := 0, Some(task);
      pending, log, subscriptions, closed, history := map[], [], [], false, [];
    }

    /** The whole of `publish`: state and sequence under the lock, then the
        receiver count, then the send. */
    method Publish(p: Publisher, outcome: Outcome, snapshot: Option<Task>)
      requires !closed && p !in pending
      modifies this
      ensures View()
           == var bumped := Next(old(View()), Bump(p, Publication(outcome, snapshot)));
              var counted := Next(bumped, Count(p));
              if p in counted.pending then Next(counted, Send(p)) else counted
      ensures pending == old(pending) && closed == old(closed) && sequence == old(sequence) + 1
      ensures snapshotTask == if snapshot.Some? then snapshot else old(snapshotTask)
      ensures history == old(history) + [Publication(outcome, snapshot)]
      ensures log == if HasReceiver(old(View())) then old(log) + [Event(sequence, outcome)] else old(log)
    {
      if snapshot.Some? {
        snapshotTask := snapshot;
      }
      sequence := sequence + 1;
      history := history + [Publication(outcome, snapshot)];
      if !exists i :: 0 <= i < |subscriptions| && subscriptions[i].Live() {
        assert old(pending)[p := Pending(Event(sequence, outcome), false)] - {p} == old(pending);
        return;
      }
      log := log + [Event(sequence, outcome)];
      assert old(pending)[p := Pending(Event(sequence, outcome), false)]
                         [p := Pending(Event(sequence, outcome), true)] - {p} == old(pending);
    }

    /** `resubscribe`: join the channel first, read the state second. */
    method Resubscribe() returns (i: nat)
      requires !closed
      modifies this`subscriptions
      ensures i == |old(subscriptions)|
      ensures View() == Next(Next(old(View()), Join), Read(i))
    {
      var stream := NewStream(|log|, SettledFor(pending, sequence), None, 0).(phase := Joining);
      subscriptions := subscriptions + [stream];
      i := |subscriptions| - 1;
      subscriptions := subscriptions[i := NewStream(stream.cursor, stream.settled, snapshotTask, sequence)];
    }

    /** One poll of a stream: skips what the opening snapshot covers and returns
        the first item, if there is one. */
    method NextItem(i: nat) returns (polled: Polled, ghost steps: nat)
      requires i < |subscriptions| && subscriptions[i].phase == Streaming
      modifies this`subscriptions
      ensures IsRun(old(View()), Repeat(Advance(i), steps))
      ensures View() == After(old(View()), Repeat(Advance(i), steps))
      ensures i < |subscriptions| && YieldedBy(old(subscriptions[i]), subscriptions[i], polled)
      ensures polled == Wait ==> !CanAdvance(View(), subscriptions[i])
    {
      steps := 0;
      if subscriptions[i].done {
        EndStream(i);
        steps := Stepped(old(View()), i, steps, View());
        return End, steps;
      }
      if subscriptions[i].snapshot.Some? {
        polled := Open(i);
        steps := Stepped(old(View()), i, steps, View());
        return;
      }
      while subscriptions[i].cursor < |log|
        invariant i < |subscriptions| && subscriptions[i].phase == Streaming
        invariant !subscriptions[i].done && subscriptions[i].snapshot.None?
        invariant subscriptions[i].yielded == old(subscriptions[i].yielded)
        invariant IsRun(old(View()), Repeat(Advance(i), steps))
        invariant View() == After(old(View()), Repeat(Advance(i), steps))
        decreases |log| - subscriptions[i].cursor
      {
        polled := Receive(i);
        steps := Stepped(old(View()), i, steps, View());
        if polled != Wait { return; }
      }
      if closed {
        EndStream(i);
        steps := Stepped(old(View()), i, steps, View());
        return End, steps;
      }
      return Wait, steps;
    }

    /** The stream is over. */
    method EndStream(i: nat)
      requires i < |subscriptions| && CanAdvance(View(), subscriptions[i])
      requires subscriptions[i].done || (subscriptions[i].snapshot.None? && subscriptions[i].cursor >= |log|)
      modifies this`subscriptions
      ensures View() == Next(old(View()), Advance(i))
      ensures i < |subscriptions| && YieldedBy(old(subscriptions[i]), subscriptions[i], End)
    {
      subscriptions := subscriptions[i := subscriptions[i].(phase := Ended)];
    }

    /** The opening snapshot, which comes first. */
    method Open(i: nat) returns (polled: Polled)
      requires i < |subscriptions| && CanAdvance(View(), subscriptions[i])
      requires !subscriptions[i].done && subscriptions[i].snapshot.Some?
      modifies this`subscriptions
      ensures View() == Next(old(View()), Advance(i))
      ensures i < |subscriptions| && polled != Wait && YieldedBy(old(subscriptions[i]), subscriptions[i], polled)
    {
      var task := subscriptions[i].snapshot.value;
      subscriptions := subscriptions[i :=
        Yield(subscriptions[i], Opening(task)).(snapshot := None, done := task.Terminal())];
      return Ready(Opening(task));
    }

    /** One receive: an item, or Wait when the event is covered already. */
    method Receive(i: nat) returns (polled: Polled)
      requires i < |subscriptions| && subscriptions[i].phase == Streaming && subscriptions[i].cursor < |log|
      requires !subscriptions[i].done && subscriptions[i].snapshot.None?
      modifies this`subscriptions
      ensures View() == Next(old(View()), Advance(i))
      ensures i < |subscriptions| && YieldedBy(old(subscriptions[i]), subscriptions[i], polled)
      ensures polled == Wait ==>
                subscriptions[i] == old(subscriptions[i]).(cursor := old(subscriptions[i].cursor) + 1)
    {
      var stream := subscriptions[i];
      if |log| - stream.cursor > EXECUTION_BUFFER_CAPACITY {
        subscriptions := subscriptions[i := Yield(stream, FellBehind).(done := true)];
        return Ready(FellBehind);
      }
      var event := log[stream.cursor];
      if event.sequence <= stream.minSequence {
        subscriptions := subscriptions[i := stream.(cursor := stream.cursor + 1)];
        return Wait;
      }
      subscriptions := subscriptions[i := Yield(stream, Delivered(event)).(
        cursor := stream.cursor + 1, minSequence := event.sequence, done := EndsStream(event.outcome))];
      return Ready(Delivered(event));
    }
  }

  /** What a poll makes of a stream: the item it returns is the one yielded. */
  ghost predicate YieldedBy(was: Subscription, now: Subscription, polled: Polled) {
    match polled
    case Ready(item) => now.yielded == was.yielded + [item]
    case End => now.phase == Ended && now.yielded == was.yielded
    case Wait => now.yielded == was.yielded
  }

  lemma Stepped(s: Execution, i: nat, n: nat, t: Execution) returns (m: nat)
    requires IsRun(s, Repeat(Advance(i), n)) && Enabled(After(s, Repeat(Advance(i), n)), Advance(i))
    requires t == Next(After(s, Repeat(Advance(i), n)), Advance(i))
    ensures m == n + 1 && IsRun(s, Repeat(Advance(i), m)) && t == After(s, Repeat(Advance(i), m))
  {
    m := n + 1;
    var more := RunExtends(s, Repeat(Advance(i), n), Advance(i));
  }
}
