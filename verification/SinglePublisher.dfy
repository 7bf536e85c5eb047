/** Streams of an execution only its driver publishes to: nothing is missed,
    nothing repeated, and what is yielded rebuilds the execution's own task.
    And how a second publisher breaks that. */
module SinglePublisher {
  import opened Wrappers
  import opened Types
  import opened TaskFold
  import opened ExecutionProtocol

  ghost predicate OnlyDriverPublishes(actions: seq<Action>) {
    forall k :: 0 <= k < |actions| && actions[k].Bump? ==> actions[k].publisher == Driver
  }

  /** The publications with sequences a+1 to b, as events. */
  function Events(history: seq<Publication>, a: nat, b: nat): (events: seq<Event>)
    requires a <= b <= |history|
    ensures |events| == b - a
    ensures forall k :: 0 <= k < b - a ==> events[k] == Event(a + k + 1, history[a + k].outcome)
  {
    seq(b - a, k requires 0 <= k < b - a => Event(a + k + 1, history[a + k].outcome))
  }

  function Max(a: nat, b: nat): nat {
    if a < b then b else a
  }

  /** The last sequence a stream will not yield: the one it opened at, or a
      later one given up before it joined. */
  function First(sub: Subscription): nat {
    Max(sub.openedAt, sub.settled)
  }

  /** The last sequence a stream has accounted for. */
  function Reached(sub: Subscription): nat
    requires sub.start <= sub.cursor
  {
    Max(First(sub), sub.settled + sub.cursor - sub.start)
  }

  // ---------------------------------------------------------------------
  // Invariant
  // ---------------------------------------------------------------------

  /** From where a stream joined on, the log is the publications from what was
      settled then on, in order and without a gap. */
  ghost predicate Aligned(log: seq<Event>, history: seq<Publication>, sub: Subscription, end: nat) {
    && sub.start <= end <= |log|
    && sub.settled + (end - sub.start) <= |history|
    && forall k :: sub.start <= k < end ==>
         log[k] == Event(sub.settled + (k - sub.start) + 1, history[sub.settled + (k - sub.start)].outcome)
  }

  ghost predicate SoloSubscription(s: Execution, sub: Subscription) {
    && sub.openedAt <= s.sequence
    && sub.settled <= Settled(s)
    && sub.start <= sub.cursor <= |s.log|
    && (sub.phase == Joining ==> sub.opening.None? && sub.cursor == sub.start)
    && (sub.opening.Some? ==> sub.settled <= sub.openedAt)
    && Aligned(s.log, s.history, sub, sub.cursor)
    && (sub.Live() ==> Aligned(s.log, s.history, sub, |s.log|) && sub.settled + |s.log| - sub.start == Settled(s))
    && (sub.phase == Ended && !sub.done ==> s.closed && sub.settled + sub.cursor - sub.start == s.sequence)
  }

  ghost predicate SoloInvariant(s: Execution) {
    && |s.history| == s.sequence
    && (forall p :: p in s.pending ==> p == Driver)
    && (Driver in s.pending ==>
          && s.pending[Driver].event.sequence == s.sequence > 0
          && s.pending[Driver].event.outcome == s.history[s.sequence - 1].outcome)
    && (s.closed ==> s.pending == map[])
    && forall i :: 0 <= i < |s.subscriptions| ==> SoloSubscription(s, s.subscriptions[i])
  }

  lemma BumpKeepsSolo(s: Execution, a: Action)
    requires SoloInvariant(s) && Enabled(s, a) && a.Bump? && a.publisher == Driver
    ensures SoloInvariant(Next(s, a))
  {
    var t := Next(s, a);
    forall i | 0 <= i < |t.subscriptions| ensures SoloSubscription(t, t.subscriptions[i]) {
      assert SoloSubscription(s, s.subscriptions[i]);
    }
  }

  lemma CountKeepsSolo(s: Execution)
    requires SoloInvariant(s) && Enabled(s, Count(Driver))
    ensures SoloInvariant(Next(s, Count(Driver)))
  {
    var t := Next(s, Count(Driver));
    forall i | 0 <= i < |t.subscriptions| ensures SoloSubscription(t, t.subscriptions[i]) {
      assert SoloSubscription(s, s.subscriptions[i]);
    }
  }

  lemma SendKeepsSolo(s: Execution)
    requires SoloInvariant(s) && Enabled(s, Send(Driver))
    ensures SoloInvariant(Next(s, Send(Driver)))
  {
    var t := Next(s, Send(Driver));
    forall i | 0 <= i < |t.subscriptions| ensures SoloSubscription(t, t.subscriptions[i]) {
      assert SoloSubscription(s, s.subscriptions[i]);
    }
  }

  /** Replacing or adding one stream leaves the others where they are. */
  lemma SubscriptionsKeepSolo(s: Execution, subscriptions: seq<Subscription>)
    requires SoloInvariant(s)
    requires forall i :: 0 <= i < |subscriptions| ==>
               SoloSubscription(s, subscriptions[i]) || (i < |s.subscriptions| && subscriptions[i] == s.subscriptions[i])
    ensures SoloInvariant(s.(subscriptions := subscriptions))
  {
    var t := s.(subscriptions := subscriptions);
    forall i | 0 <= i < |subscriptions| ensures SoloSubscription(t, subscriptions[i]) {
      assert SoloSubscription(s, subscriptions[i]);
    }
  }

  lemma AdvanceKeepsSolo(s: Execution, i: nat)
    requires SoloInvariant(s) && Enabled(s, Advance(i))
    ensures SoloInvariant(Next(s, Advance(i)))
  {
    assert SoloSubscription(s, s.subscriptions[i]);
    assert SoloSubscription(s, Advanced(s, s.subscriptions[i]));
    SubscriptionsKeepSolo(s, Next(s, Advance(i)).subscriptions);
  }

  lemma JoinKeepsSolo(s: Execution, a: Action)
    requires SoloInvariant(s) && Enabled(s, a) && (a.Join? || a.Attach?)
    ensures SoloInvariant(Next(s, a))
  {
    var sub := NewStream(|s.log|, Settled(s), None, 0);
    assert SoloSubscription(s, sub) && SoloSubscription(s, sub.(phase := Joining));
    SubscriptionsKeepSolo(s, Next(s, a).subscriptions);
  }

  lemma ReadKeepsSolo(s: Execution, i: nat)
    requires SoloInvariant(s) && Enabled(s, Read(i))
    ensures SoloInvariant(Next(s, Read(i)))
  {
    assert SoloSubscription(s, s.subscriptions[i]);
    assert SoloSubscription(s, Next(s, Read(i)).subscriptions[i]);
    SubscriptionsKeepSolo(s, Next(s, Read(i)).subscriptions);
  }

  lemma DropKeepsSolo(s: Execution, i: nat)
    requires SoloInvariant(s) && Enabled(s, Drop(i))
    ensures SoloInvariant(Next(s, Drop(i)))
  {
    assert SoloSubscription(s, s.subscriptions[i]);
    assert SoloSubscription(s, Next(s, Drop(i)).subscriptions[i]);
    SubscriptionsKeepSolo(s, Next(s, Drop(i)).subscriptions);
  }

  lemma CloseKeepsSolo(s: Execution)
    requires SoloInvariant(s) && Enabled(s, Close)
    ensures SoloInvariant(Next(s, Close))
  {
    var t := Next(s, Close);
    forall i | 0 <= i < |t.subscriptions| ensures SoloSubscription(t, t.subscriptions[i]) {
      assert SoloSubscription(s, s.subscriptions[i]);
    }
  }

  lemma StepKeepsSolo(s: Execution, a: Action)
    requires SoloInvariant(s) && Enabled(s, a) && (a.Bump? ==> a.publisher == Driver)
    ensures SoloInvariant(Next(s, a))
  {
    match a
    case Bump(_, _) => BumpKeepsSolo(s, a);
    case Count(_) => CountKeepsSolo(s);
    case Send(_) => SendKeepsSolo(s);
    case Advance(i) => AdvanceKeepsSolo(s, i);
    case Join => JoinKeepsSolo(s, a);
    case Attach => JoinKeepsSolo(s, a);
    case Read(i) => ReadKeepsSolo(s, i);
    case Drop(i) => DropKeepsSolo(s, i);
    case Close => CloseKeepsSolo(s);
  }

  lemma {:induction false} RunKeepsSolo(task: Task, waiting: nat, actions: seq<Action>)
    requires IsRun(Started(task, waiting), actions) && OnlyDriverPublishes(actions)
    ensures SoloInvariant(After(Started(task, waiting), actions))
  {
    if actions != [] {
      var before := actions[..|actions| - 1];
      RunKeepsSolo(task, waiting, before);
      StepKeepsSolo(After(Started(task, waiting), before), actions[|actions| - 1]);
    }
  }

  // ---------------------------------------------------------------------
  // Exactly once
  // ---------------------------------------------------------------------

  /** Of consecutive events, those let through are the ones above the minimum. */
  lemma {:induction false} RecordsOfConsecutive(min: nat, log: seq<Event>, history: seq<Publication>, from: nat)
    requires from + |log| <= |history|
    requires forall k :: 0 <= k < |log| ==> log[k] == Event(from + k + 1, history[from + k].outcome)
    ensures var first := Max(min, from);
            var end := Max(first, from + |log|);
            && (end <= |history| || log == [] || from + |log| <= min)
            && (from + |log| > first ==> Records(min, log) == Events(history, first, end))
            && (from + |log| <= first ==> Records(min, log) == [])
            && Highest(min, log) == if log == [] then min else Max(min, from + |log|)
  {
    if log != [] {
      var before := log[..|log| - 1];
      RecordsOfConsecutive(min, before, history, from);
    }
  }

  /** The stream has yielded its opening task, then exactly the events after
      `First` up to some sequence n, in order, and possibly the report of falling
      behind. Once it waits with nothing being published, and once it ends
      without a terminal event or an error, n is the last sequence there is.
      Opened with a task, it starts right after that snapshot. */
  ghost predicate YieldedExactlyOnce(s: Execution, sub: Subscription) {
    && sub.start <= sub.cursor
    && First(sub) <= Reached(sub) <= |s.history| == s.sequence
    && YieldsAre(sub, Events(s.history, First(sub), Reached(sub)))
    && (sub.opening.Some? ==> First(sub) == sub.openedAt)
    && (sub.phase == Streaming && !CanAdvance(s, sub) && s.pending == map[] ==> Reached(sub) == s.sequence)
    && (sub.phase == Ended && !sub.done ==> Reached(sub) == s.sequence)
  }

  lemma InvariantsGiveExactlyOnce(s: Execution, sub: Subscription)
    requires SubscriptionInvariant(s.initial, s.log, s.history, sub) && SoloSubscription(s, sub)
    requires |s.history| == s.sequence && (s.closed ==> s.pending == map[])
    requires forall p :: p in s.pending ==> p == Driver && s.pending[p].event.sequence == s.sequence > 0
    ensures YieldedExactlyOnce(s, sub)
  {
    RecordsOfConsecutive(sub.openedAt, s.log[sub.start..sub.cursor], s.history, sub.settled);
    var events := Records(sub.openedAt, s.log[sub.start..sub.cursor]);
    assert events == Events(s.history, First(sub), Reached(sub));
  }

  /** In a run only the driver publishes in, every stream yields each event
      after its opening exactly once. */
  lemma ExactlyOnce(task: Task, waiting: nat, actions: seq<Action>, i: nat)
    requires IsRun(Started(task, waiting), actions) && OnlyDriverPublishes(actions)
    requires i < |After(Started(task, waiting), actions).subscriptions|
    ensures var s := After(Started(task, waiting), actions); YieldedExactlyOnce(s, s.subscriptions[i])
  {
    RunKeepsInvariant(task, waiting, actions);
    RunKeepsSolo(task, waiting, actions);
    var s := After(Started(task, waiting), actions);
    assert SoloSubscription(s, s.subscriptions[i]);
    assert SubscriptionInvariant(s.initial, s.log, s.history, s.subscriptions[i]);
    InvariantsGiveExactlyOnce(s, s.subscriptions[i]);
  }

  /** Where and with what a stream opened, no step changes. */
  lemma OpeningStays(s: Execution, a: Action, i: nat)
    requires Enabled(s, a) && i < |s.subscriptions| && s.subscriptions[i].phase != Joining
    ensures i < |Next(s, a).subscriptions| && Next(s, a).subscriptions[i].phase != Joining
    ensures var was, now := s.subscriptions[i], Next(s, a).subscriptions[i];
            && now.opening == was.opening && now.openedAt == was.openedAt
            && now.settled == was.settled && now.start == was.start
  {
  }

  lemma {:induction false} WaitingStaysFirst(task: Task, waiting: nat, actions: seq<Action>, i: nat)
    requires IsRun(Started(task, waiting), actions) && i < waiting
    ensures var s := After(Started(task, waiting), actions);
            && i < |s.subscriptions|
            && s.subscriptions[i].phase != Joining
            && s.subscriptions[i].opening == Some(task)
            && s.subscriptions[i].openedAt == s.subscriptions[i].settled == s.subscriptions[i].start == 0
  {
    if actions != [] {
      var before := actions[..|actions| - 1];
      WaitingStaysFirst(task, waiting, before, i);
      OpeningStays(After(Started(task, waiting), before), actions[|actions| - 1], i);
    }
  }

  /** The stream has yielded its task and then every event from the first on,
      one per entry it has received. */
  ghost predicate YieldedFromTheStart(s: Execution, sub: Subscription) {
    && sub.cursor <= |s.history| == s.sequence
    && (|s.log| - sub.cursor <= EXECUTION_BUFFER_CAPACITY ==>
          sub.yielded == OpeningItems(sub) + Deliveries(Events(s.history, 0, sub.cursor)))
    && (sub.phase == Streaming && !CanAdvance(s, sub) && s.pending == map[] ==> sub.cursor == s.sequence)
    && (sub.phase == Ended && !sub.done ==> sub.cursor == s.sequence)
  }

  lemma ExactlyOnceFromTheStart(s: Execution, sub: Subscription)
    requires YieldedExactlyOnce(s, sub) && LagIsReal(s.log, sub)
    requires sub.openedAt == sub.settled == sub.start == 0
    ensures YieldedFromTheStart(s, sub)
  {
    var items := OpeningItems(sub) + Deliveries(Events(s.history, 0, sub.cursor));
    assert (items + [FellBehind])[|items|] == FellBehind;
  }

  /** A subscription made between turns, attached when the next execution
      starts, yields every event of that execution from the first one on,
      however late it is polled, unless it is more than the buffer behind. */
  lemma WaitingSubscriptionMissesNothing(task: Task, waiting: nat, actions: seq<Action>, i: nat)
    requires IsRun(Started(task, waiting), actions) && OnlyDriverPublishes(actions) && i < waiting
    ensures var s := After(Started(task, waiting), actions);
            && i < |s.subscriptions|
            && s.subscriptions[i].opening == Some(task)
            && YieldedFromTheStart(s, s.subscriptions[i])
  {
    WaitingStaysFirst(task, waiting, actions, i);
    ExactlyOnce(task, waiting, actions, i);
    RunKeepsInvariant(task, waiting, actions);
    var s := After(Started(task, waiting), actions);
    assert SubscriptionInvariant(s.initial, s.log, s.history, s.subscriptions[i]);
    ExactlyOnceFromTheStart(s, s.subscriptions[i]);
  }

  lemma RunSplit(s: Execution, first: seq<Action>, last: Action)
    requires IsRun(s, first + [last])
    ensures IsRun(s, first) && Enabled(After(s, first), last)
    ensures After(s, first + [last]) == Next(After(s, first), last)
  {
    assert (first + [last])[..|first|] == first;
  }

  /** The stream was attached with nothing published. */
  ghost predicate OpenedFirst(s: Execution, i: nat) {
    && i < |s.subscriptions|
    && s.subscriptions[i].phase != Joining
    && s.subscriptions[i].opening.None?
    && s.subscriptions[i].openedAt == s.subscriptions[i].settled == s.subscriptions[i].start == 0
  }

  lemma {:induction false} AttachedStaysFirst(s: Execution, first: seq<Action>, more: seq<Action>, i: nat)
    requires IsRun(s, first) && OpenedFirst(After(s, first), i) && IsRun(s, first + more)
    ensures OpenedFirst(After(s, first + more), i)
    decreases |more|
  {
    if more == [] {
      assert first + more == first;
    } else {
      var init, last := more[..|more| - 1], more[|more| - 1];
      assert first + more == (first + init) + [last];
      RunSplit(s, first + init, last);
      AttachedStaysFirst(s, first, init, i);
      OpeningStays(After(s, first + init), last, i);
    }
  }

  lemma {:induction false} RunBegins(s: Execution, first: seq<Action>, more: seq<Action>)
    requires IsRun(s, first + more)
    ensures IsRun(s, first)
    decreases |more|
  {
    if more == [] {
      assert first + more == first;
    } else {
      var init, last := more[..|more| - 1], more[|more| - 1];
      assert first + more == (first + init) + [last];
      RunSplit(s, first + init, last);
      RunBegins(s, first, init);
    }
  }

  /** With nothing published there is nothing under way and nothing in the log. */
  lemma NothingYet(task: Task, waiting: nat, actions: seq<Action>)
    requires IsRun(Started(task, waiting), actions) && After(Started(task, waiting), actions).history == []
    ensures var s := After(Started(task, waiting), actions); s.pending == map[] && s.log == [] && Settled(s) == 0
  {
    RunKeepsInvariant(task, waiting, actions);
    var s := After(Started(task, waiting), actions);
    assert forall p :: p in s.pending ==> FromHistory(s.history, s.pending[p].event);
    assert |s.log| > 0 ==> FromHistory(s.history, s.log[0]);
  }

  /** The stream returned to the sender of a message, attached before its
      execution is driven, yields every event from the first one on, however late
      it is polled, unless it is more than the buffer behind. */
  lemma SenderMissesNothing(task: Task, waiting: nat, first: seq<Action>, more: seq<Action>)
    requires IsRun(Started(task, waiting), first) && After(Started(task, waiting), first).history == []
    requires IsRun(Started(task, waiting), first + [Attach] + more) && OnlyDriverPublishes(first + [Attach] + more)
    ensures var i := |After(Started(task, waiting), first).subscriptions|;
            var s := After(Started(task, waiting), first + [Attach] + more);
            && i < |s.subscriptions|
            && s.subscriptions[i].opening.None?
            && YieldedFromTheStart(s, s.subscriptions[i])
  {
    var actions := first + [Attach] + more;
    var i := |After(Started(task, waiting), first).subscriptions|;
    RunBegins(Started(task, waiting), first + [Attach], more);
    RunSplit(Started(task, waiting), first, Attach);
    NothingYet(task, waiting, first);
    AttachedStaysFirst(Started(task, waiting), first + [Attach], more, i);
    ExactlyOnce(task, waiting, actions, i);
    RunKeepsInvariant(task, waiting, actions);
    var s := After(Started(task, waiting), actions);
    assert SubscriptionInvariant(s.initial, s.log, s.history, s.subscriptions[i]);
    ExactlyOnceFromTheStart(s, s.subscriptions[i]);
  }

  // ---------------------------------------------------------------------
  // Snapshot plus events
  // ---------------------------------------------------------------------

  /** Each published event comes with the snapshot it leads to. */
  ghost predicate Faithful(initial: Task, history: seq<Publication>) {
    forall n :: 0 <= n < |history| && history[n].outcome.Ok? ==>
      && history[n].snapshot.Some?
      && history[n].snapshot == Applied(SnapshotAt(initial, history, n), history[n].outcome.value)
  }

  /** The task a consumer holds that applies each event it is given. */
  function Replayed(items: seq<Item>): Option<Task> {
    if items == [] then None
    else
      var before := Replayed(items[..|items| - 1]);
      match items[|items| - 1]
      case Opening(task) => Some(task)
      case Delivered(Event(_, Ok(event))) => if before.None? then None else Applied(before.value, event)
      case _ => before
  }

  lemma ReplayedSnoc(items: seq<Item>, last: Item)
    ensures Replayed(items + [last])
         == match last
            case Opening(task) => Some(task)
            case Delivered(Event(_, Ok(event))) =>
              if Replayed(items).None? then None else Applied(Replayed(items).value, event)
            case _ => Replayed(items)
  {
    assert (items + [last])[..|items|] == items;
  }

  /** What a stream opened at sequence a has yielded up to b. */
  function Opened(initial: Task, history: seq<Publication>, a: nat, b: nat): seq<Item>
    requires a <= b <= |history|
  {
    [Opening(SnapshotAt(initial, history, a))] + Deliveries(Events(history, a, b))
  }

  lemma OpenedSnoc(initial: Task, history: seq<Publication>, a: nat, b: nat)
    requires a < b <= |history|
    ensures Opened(initial, history, a, b)
         == Opened(initial, history, a, b - 1) + [Delivered(Event(b, history[b - 1].outcome))]
  {
    assert Deliveries(Events(history, a, b))
        == Deliveries(Events(history, a, b - 1)) + [Delivered(Event(b, history[b - 1].outcome))];
  }

  lemma OpenedFirstItem(initial: Task, history: seq<Publication>, a: nat)
    requires a <= |history|
    ensures Replayed(Opened(initial, history, a, a)) == Some(SnapshotAt(initial, history, a))
  {
    assert Opened(initial, history, a, a) == [] + [Opening(SnapshotAt(initial, history, a))];
    ReplayedSnoc([], Opening(SnapshotAt(initial, history, a)));
  }

  /** One event more leads from one snapshot to the next; an error changes nothing. */
  lemma ReplayedStep(initial: Task, history: seq<Publication>, items: seq<Item>, b: nat)
    requires 0 < b <= |history| && Faithful(initial, history)
    requires Replayed(items) == Some(SnapshotAt(initial, history, b - 1))
    ensures Replayed(items + [Delivered(Event(b, history[b - 1].outcome))])
         == Some(SnapshotAt(initial, history, if history[b - 1].outcome.Err? then b - 1 else b))
  {
    ReplayedSnoc(items, Delivered(Event(b, history[b - 1].outcome)));
  }

  lemma {:induction false} ReplayOfEvents(initial: Task, history: seq<Publication>, a: nat, b: nat)
    requires a <= b <= |history| && Faithful(initial, history)
    requires forall n :: a <= n < b ==> history[n].outcome.Ok?
    ensures Replayed(Opened(initial, history, a, b)) == Some(SnapshotAt(initial, history, b))
  {
    if a == b {
      OpenedFirstItem(initial, history, a);
    } else {
      ReplayOfEvents(initial, history, a, b - 1);
      OpenedSnoc(initial, history, a, b);
      ReplayedStep(initial, history, Opened(initial, history, a, b - 1), b);
    }
  }

  lemma ReplayFollowsHistory(initial: Task, history: seq<Publication>, a: nat, b: nat)
    requires a <= b <= |history| && Faithful(initial, history)
    requires forall n :: a <= n < b - 1 ==> history[n].outcome.Ok?
    ensures var failed := a < b && history[b - 1].outcome.Err?;
            Replayed(Opened(initial, history, a, b)) == Some(SnapshotAt(initial, history, if failed then b - 1 else b))
  {
    if a == b || history[b - 1].outcome.Ok? {
      ReplayOfEvents(initial, history, a, b);
    } else {
      ReplayOfEvents(initial, history, a, b - 1);
      OpenedSnoc(initial, history, a, b);
      ReplayedStep(initial, history, Opened(initial, history, a, b - 1), b);
    }
  }

  lemma YieldedEventsAreOk(sub: Subscription, history: seq<Publication>, a: nat, b: nat)
    requires a <= b <= |history| && YieldsAre(sub, Events(history, a, b)) && StopsAtEnd(sub)
    ensures forall n :: a <= n < b - 1 ==> history[n].outcome.Ok?
  {
    var events := Events(history, a, b);
    var items := OpeningItems(sub) + Deliveries(events);
    forall n | a <= n < b - 1 ensures history[n].outcome.Ok? {
      var j := |OpeningItems(sub)| + (n - a);
      assert items[j] == Delivered(events[n - a]);
      assert sub.yielded[j] == items[j] && !Ending(items[j]);
    }
  }

  /** Applying what the stream has yielded to the task it opened with gives the
      execution's own task as of the last event yielded; once the stream waits
      with nothing being published, the task the execution holds. */
  ghost predicate RebuildsTheTask(s: Execution, sub: Subscription)
    requires YieldedExactlyOnce(s, sub)
  {
    var failed := First(sub) < Reached(sub) && s.history[Reached(sub) - 1].outcome.Err?;
    && Replayed(sub.yielded) == Some(SnapshotAt(s.initial, s.history, Reached(sub) - if failed then 1 else 0))
    && (sub.phase == Streaming && !CanAdvance(s, sub) && s.pending == map[] ==> Replayed(sub.yielded) == s.snapshot)
  }

  lemma ReplayedUpToLag(sub: Subscription, events: seq<Event>, task: Task)
    requires YieldsAre(sub, events) && sub.opening == Some(task) && sub.snapshot.None?
    ensures Replayed(sub.yielded) == Replayed([Opening(task)] + Deliveries(events))
  {
    var items := [Opening(task)] + Deliveries(events);
    assert OpeningItems(sub) == [Opening(task)];
    assert (items + [FellBehind])[..|items|] == items;
  }

  lemma LastErrorEnds(sub: Subscription, history: seq<Publication>, a: nat, b: nat)
    requires a < b <= |history| && YieldsAre(sub, Events(history, a, b)) && StopsAtEnd(sub)
    requires history[b - 1].outcome.Err?
    ensures sub.done
  {
    DeliveredItems(sub, Events(history, a, b));
    var j := |OpeningItems(sub)| + (b - 1 - a);
    assert sub.yielded[j] == Delivered(Events(history, a, b)[b - 1 - a]);
  }

  lemma ExactlyOnceRebuilds(s: Execution, sub: Subscription)
    requires YieldedExactlyOnce(s, sub) && Faithful(s.initial, s.history) && StopsAtEnd(sub)
    requires s.snapshot == Some(SnapshotAt(s.initial, s.history, s.sequence))
    requires sub.snapshot.None? && sub.opening == Some(SnapshotAt(s.initial, s.history, First(sub)))
    ensures RebuildsTheTask(s, sub)
  {
    var a, b := First(sub), Reached(sub);
    YieldsRebuild(s.initial, s.history, sub, a, b);
    if a < b && s.history[b - 1].outcome.Err? { LastErrorEnds(sub, s.history, a, b); }
  }

  lemma YieldsRebuild(initial: Task, history: seq<Publication>, sub: Subscription, a: nat, b: nat)
    requires a <= b <= |history| && Faithful(initial, history) && StopsAtEnd(sub)
    requires YieldsAre(sub, Events(history, a, b))
    requires sub.snapshot.None? && sub.opening == Some(SnapshotAt(initial, history, a))
    ensures var failed := a < b && history[b - 1].outcome.Err?;
            Replayed(sub.yielded) == Some(SnapshotAt(initial, history, if failed then b - 1 else b))
  {
    YieldedEventsAreOk(sub, history, a, b);
    ReplayFollowsHistory(initial, history, a, b);
    ReplayedUpToLag(sub, Events(history, a, b), sub.opening.value);
  }

  /** In a run only the driver publishes in, faithfully, every stream opened with
      a task rebuilds the execution's own task. */
  lemma SnapshotPlusEvents(task: Task, waiting: nat, actions: seq<Action>, i: nat)
    requires IsRun(Started(task, waiting), actions) && OnlyDriverPublishes(actions)
    requires Faithful(task, After(Started(task, waiting), actions).history)
    requires i < |After(Started(task, waiting), actions).subscriptions|
    requires After(Started(task, waiting), actions).subscriptions[i].opening.Some?
    requires After(Started(task, waiting), actions).subscriptions[i].snapshot.None?
    ensures var s := After(Started(task, waiting), actions);
            s.initial == task && YieldedExactlyOnce(s, s.subscriptions[i]) && RebuildsTheTask(s, s.subscriptions[i])
  {
    RunKeepsInvariant(task, waiting, actions);
    ExactlyOnce(task, waiting, actions, i);
    InitialStays(task, waiting, actions);
    var s := After(Started(task, waiting), actions);
    var sub := s.subscriptions[i];
    assert SubscriptionInvariant(s.initial, s.log, s.history, sub);
    assert sub.opening == Some(SnapshotAt(s.initial, s.history, First(sub)));
    ExactlyOnceRebuilds(s, sub);
  }

  lemma {:induction false} InitialStays(task: Task, waiting: nat, actions: seq<Action>)
    requires IsRun(Started(task, waiting), actions)
    ensures After(Started(task, waiting), actions).initial == task
  {
    if actions != [] { InitialStays(task, waiting, actions[..|actions| - 1]); }
  }

  // ---------------------------------------------------------------------
  // Two publishers
  // ---------------------------------------------------------------------

  lemma RunExtends(s: Execution, actions: seq<Action>, a: Action) returns (more: seq<Action>)
    requires IsRun(s, actions) && Enabled(After(s, actions), a)
    ensures more == actions + [a] && IsRun(s, more) && After(s, more) == Next(After(s, actions), a)
  {
    more := actions + [a];
    assert more[..|actions|] == actions;
  }

  /** Both publishers have their sequence, neither has sent. */
  function BothBumped(task: Task, a: StreamResponse, b: StreamResponse): Execution {
    Started(task, 1).(
      sequence := 2,
      pending := map[Driver := Pending(Event(1, Ok(a)), false), Cancel(0) := Pending(Event(2, Ok(b)), false)],
      history := [Publication(Ok(a), None), Publication(Ok(b), None)])
  }

  lemma BothBump(task: Task, a: StreamResponse, b: StreamResponse) returns (actions: seq<Action>)
    ensures IsRun(Started(task, 1), actions) && After(Started(task, 1), actions) == BothBumped(task, a, b)
  {
    actions := RunExtends(Started(task, 1), [], Bump(Driver, Publication(Ok(a), None)));
    actions := RunExtends(Started(task, 1), actions, Bump(Cancel(0), Publication(Ok(b), None)));
  }

  /** ... and both have sent, the later sequence first. */
  function BothSent(task: Task, a: StreamResponse, b: StreamResponse): Execution {
    BothBumped(task, a, b).(pending := map[], log := [Event(2, Ok(b)), Event(1, Ok(a))])
  }

  lemma BothSend(task: Task, a: StreamResponse, b: StreamResponse) returns (actions: seq<Action>)
    ensures IsRun(Started(task, 1), actions) && After(Started(task, 1), actions) == BothSent(task, a, b)
  {
    actions := BothBump(task, a, b);
    var s := Started(task, 1);
    assert s.subscriptions[0].Live();
    actions := RunExtends(s, actions, Count(Driver));
    assert After(s, actions).subscriptions[0].Live();
    actions := RunExtends(s, actions, Count(Cancel(0)));
    assert After(s, actions).subscriptions[0].Live();
    actions := RunExtends(s, actions, Send(Cancel(0)));
    assert After(s, actions).subscriptions[0].Live();
    actions := RunExtends(s, actions, Send(Driver));
  }

  /** With a cancel publishing beside the driver a stream can skip an event for
      good: the driver takes sequence 1, the cancel sequence 2, the cancel sends
      first. */
  lemma TwoPublishersCanSkip(task: Task, a: StreamResponse, b: StreamResponse) returns (actions: seq<Action>)
    requires !task.Terminal() && !IsTerminalEvent(b)
    ensures IsRun(Started(task, 1), actions)
    ensures var s := After(Started(task, 1), actions);
            && |s.subscriptions| == 1 && s.pending == map[] && s.sequence == 2
            && !CanAdvance(s, s.subscriptions[0])
            && s.subscriptions[0].yielded == [Opening(task), Delivered(Event(2, Ok(b)))]
  {
    actions := BothSend(task, a, b);
    actions := RunExtends(Started(task, 1), actions, Advance(0));
    actions := RunExtends(Started(task, 1), actions, Advance(0));
    actions := RunExtends(Started(task, 1), actions, Advance(0));
  }
}
