/** One active execution and the streams that follow it, as a transition system
    whose steps are the regions the code runs under one lock or in one channel
    operation (`ActiveExecution` and `subscription_stream`,
    a2a-server/src/handler.rs). */
module ExecutionProtocol {
  import opened Wrappers
  import opened Types

  /** Events the broadcast channel keeps for a receiver that is behind. */
  const EXECUTION_BUFFER_CAPACITY := 32

  datatype Event = Event(sequence: nat, outcome: Outcome)

  /** What one call of `publish` is given. */
  datatype Publication = Publication(outcome: Outcome, snapshot: Option<Task>)

  /** Who publishes: the execution's driver, or a cancel request. */
  datatype Publisher = Driver | Cancel(request: nat)

  /** A `publish` between its two halves; `counted` once it has found the
      channel to have a receiver. */
  datatype Pending = Pending(event: Event, counted: bool)

  /** What a stream yields: the task it opens with, an event, or the report
      that it fell behind. */
  datatype Item = Opening(task: Task) | Delivered(event: Event) | FellBehind

  datatype Phase =
    | Joining    // has a receiver, has not read the execution's state yet
    | Streaming
    | Ended      // the stream returned None
    | Dropped    // the consumer went away first

  datatype Subscription = Subscription(
    phase: Phase,
    cursor: nat,             // the next entry of the log to receive
    snapshot: Option<Task>,  // still to be yielded first
    minSequence: nat,
    done: bool,
    // History variables, which no step reads.
    start: nat,              // the cursor on joining
    settled: nat,            // the driver's publications over and done with on joining
    openedAt: nat,           // minSequence on opening
    opening: Option<Task>,   // snapshot on opening
    yielded: seq<Item>)
  {
    predicate Live() {
      phase == Joining || phase == Streaming
    }
  }

  datatype Execution = Execution(
    initial: Task,
    sequence: nat,
    snapshot: Option<Task>,
    pending: map<Publisher, Pending>,
    log: seq<Event>,                  // all the channel ever carried
    subscriptions: seq<Subscription>,
    closed: bool,                     // every sender is gone
    history: seq<Publication>)        // history variable: publications by sequence

  datatype Action =
    | Bump(publisher: Publisher, publication: Publication)
    | Count(publisher: Publisher)
    | Send(publisher: Publisher)
    | Join
    | Read(i: nat)
    | Attach
    | Advance(i: nat)
    | Drop(i: nat)
    | Close

  // ---------------------------------------------------------------------
  // Steps
  // ---------------------------------------------------------------------

  function NewStream(cursor: nat, settled: nat, snapshot: Option<Task>, sequence: nat): Subscription {
    Subscription(Streaming, cursor, snapshot, sequence, false, cursor, settled, sequence, snapshot, [])
  }

  /** `start` attaches the subscriptions waiting for the task, before anything
      can be published. */
  function Started(task: Task, waiting: nat): Execution {
    Execution(task, 0, Some(task), map[], [], seq(waiting, _ => NewStream(0, 0, Some(task), 0)), false, [])
  }

  /** The driver's publications that are sent or given up. */
  function Settled(s: Execution): nat {
    SettledFor(s.pending, s.sequence)
  }

  function SettledFor(pending: map<Publisher, Pending>, sequence: nat): nat {
    if Driver in pending && pending[Driver].event.sequence > 0 then pending[Driver].event.sequence - 1
    else sequence
  }

  predicate HasReceiver(s: Execution) {
    exists i :: 0 <= i < |s.subscriptions| && s.subscriptions[i].Live()
  }

  /** A stream polled with nothing to receive waits. */
  predicate CanAdvance(s: Execution, sub: Subscription) {
    sub.phase == Streaming && (sub.done || sub.snapshot.Some? || sub.cursor < |s.log| || s.closed)
  }

  function Yield(sub: Subscription, item: Item): Subscription {
    sub.(yielded := sub.yielded + [item])
  }

  /** One turn of the stream: the opening snapshot, or one receive. */
  function Advanced(s: Execution, sub: Subscription): Subscription
    requires CanAdvance(s, sub)
  {
    if sub.done then sub.(phase := Ended)
    else if sub.snapshot.Some? then
      Yield(sub, Opening(sub.snapshot.value)).(snapshot := None, done := sub.snapshot.value.Terminal())
    else if sub.cursor < |s.log| then
      if |s.log| - sub.cursor > EXECUTION_BUFFER_CAPACITY then
        Yield(sub, FellBehind).(done := true)
      else
        var event := s.log[sub.cursor];
        if event.sequence <= sub.minSequence then sub.(cursor := sub.cursor + 1)
        else
          Yield(sub, Delivered(event)).(
            cursor := sub.cursor + 1, minSequence := event.sequence, done := EndsStream(event.outcome))
    else sub.(phase := Ended)
  }

  predicate Enabled(s: Execution, a: Action) {
    match a
    case Bump(p, _) => !s.closed && p !in s.pending
    case Count(p) => p in s.pending && !s.pending[p].counted
    case Send(p) => p in s.pending && s.pending[p].counted
    case Join => !s.closed
    case Read(i) => i < |s.subscriptions| && s.subscriptions[i].phase == Joining
    case Attach => !s.closed
    case Advance(i) => i < |s.subscriptions| && CanAdvance(s, s.subscriptions[i])
    case Drop(i) => i < |s.subscriptions| && s.subscriptions[i].Live()
    case Close =>
      && !s.closed && s.pending == map[]
      && forall i :: 0 <= i < |s.subscriptions| ==> s.subscriptions[i].phase != Joining
  }

  function Next(s: Execution, a: Action): Execution
    requires Enabled(s, a)
  {
    match a
    case Bump(p, publication) =>
      s.(sequence := s.sequence + 1,
         snapshot := if publication.snapshot.Some? then publication.snapshot else s.snapshot,
         pending := s.pending[p := Pending(Event(s.sequence + 1, publication.outcome), false)],
         history := s.history + [publication])
    case Count(p) =>
      if HasReceiver(s) then s.(pending := s.pending[p := s.pending[p].(counted := true)])
      else s.(pending := s.pending - {p})
    case Send(p) =>
      s.(pending := s.pending - {p},
         log := if HasReceiver(s) then s.log + [s.pending[p].event] else s.log)
    case Join =>
      s.(subscriptions := s.subscriptions
           + [NewStream(|s.log|, Settled(s), None, 0).(phase := Joining)])
    case Read(i) =>
      var sub := s.subscriptions[i];
      s.(subscriptions := s.subscriptions[i := NewStream(sub.cursor, sub.settled, s.snapshot, s.sequence)])
    case Attach =>
      s.(subscriptions := s.subscriptions + [NewStream(|s.log|, Settled(s), None, 0)])
    case Advance(i) =>
      s.(subscriptions := s.subscriptions[i := Advanced(s, s.subscriptions[i])])
    case Drop(i) =>
      s.(subscriptions := s.subscriptions[i := s.subscriptions[i].(phase := Dropped)])
    case Close => s.(closed := true)
  }

  // ---------------------------------------------------------------------
  // Runs
  // ---------------------------------------------------------------------

  ghost predicate IsRun(s: Execution, actions: seq<Action>)
    decreases |actions|, 0
  {
    actions == []
    || (var before := actions[..|actions| - 1];
        IsRun(s, before) && Enabled(After(s, before), actions[|actions| - 1]))
  }

  ghost function After(s: Execution, actions: seq<Action>): Execution
    requires IsRun(s, actions)
    decreases |actions|, 1
  {
    if actions == [] then s
    else Next(After(s, actions[..|actions| - 1]), actions[|actions| - 1])
  }

  // ---------------------------------------------------------------------
  // What every run keeps, however many publish
  // ---------------------------------------------------------------------

  /** The snapshot the execution holds after its first n publications. */
  function SnapshotAt(initial: Task, history: seq<Publication>, n: nat): Task
    requires n <= |history|
  {
    if n == 0 then initial else history[n - 1].snapshot.UnwrapOr(SnapshotAt(initial, history, n - 1))
  }

  /** The events of the log that exceed all before them: what a stream opened
      at `min` can let through. */
  function Records(min: nat, log: seq<Event>): seq<Event> {
    if log == [] then []
    else
      var before := log[..|log| - 1];
      var event := log[|log| - 1];
      Records(min, before) + if event.sequence > Highest(min, before) then [event] else []
  }

  function Highest(min: nat, log: seq<Event>): (h: nat)
    ensures min <= h
    ensures forall i :: 0 <= i < |log| ==> log[i].sequence <= h
  {
    if log == [] then min
    else
      var h := Highest(min, log[..|log| - 1]);
      var last := log[|log| - 1].sequence;
      if last > h then last else h
  }

  function Deliveries(events: seq<Event>): seq<Item> {
    seq(|events|, i requires 0 <= i < |events| => Delivered(events[i]))
  }

  predicate Ending(item: Item) {
    match item
    case Opening(task) => task.Terminal()
    case Delivered(event) => EndsStream(event.outcome)
    case FellBehind => true
  }

  /** Only the last item may end the stream, and the stream is done once it does. */
  ghost predicate StopsAtEnd(sub: Subscription) {
    && (forall j :: 0 <= j < |sub.yielded| - 1 ==> !Ending(sub.yielded[j]))
    && (sub.done <==> sub.yielded != [] && Ending(sub.yielded[|sub.yielded| - 1]))
  }

  function OpeningItems(sub: Subscription): seq<Item> {
    if sub.opening.Some? && sub.snapshot.None? then [Opening(sub.opening.value)] else []
  }

  ghost predicate YieldsAre(sub: Subscription, events: seq<Event>) {
    var items := OpeningItems(sub) + Deliveries(events);
    sub.yielded == items || sub.yielded == items + [FellBehind]
  }

  /** A stream that reports falling behind has lost events to the buffer. */
  ghost predicate LagIsReal(log: seq<Event>, sub: Subscription) {
    sub.yielded != [] && sub.yielded[|sub.yielded| - 1] == FellBehind ==>
      |log| - sub.cursor > EXECUTION_BUFFER_CAPACITY
  }

  ghost predicate SubscriptionInvariant(initial: Task, log: seq<Event>, history: seq<Publication>, sub: Subscription) {
    && sub.start <= sub.cursor <= |log|
    && sub.openedAt <= |history|
    && (sub.phase == Joining || sub.snapshot.Some? ==> sub.cursor == sub.start && sub.yielded == [])
    && (sub.snapshot.Some? ==> sub.snapshot == sub.opening)
    && (sub.opening.Some? ==> sub.opening.value == SnapshotAt(initial, history, sub.openedAt))
    && sub.minSequence == Highest(sub.openedAt, log[sub.start..sub.cursor])
    && YieldsAre(sub, Records(sub.openedAt, log[sub.start..sub.cursor]))
    && StopsAtEnd(sub)
    && LagIsReal(log, sub)
  }

  ghost predicate FromHistory(history: seq<Publication>, event: Event) {
    1 <= event.sequence <= |history| && history[event.sequence - 1].outcome == event.outcome
  }

  /** The state under the lock is that of the last publication, and each event
      under way or in the log is the publication of its sequence, once. */
  ghost predicate ChannelInvariant(s: Execution) {
    && |s.history| == s.sequence
    && s.snapshot == Some(SnapshotAt(s.initial, s.history, s.sequence))
    && (forall i :: 0 <= i < |s.log| ==> FromHistory(s.history, s.log[i]))
    && (forall i, j :: 0 <= i < j < |s.log| ==> s.log[i].sequence != s.log[j].sequence)
    && (forall p :: p in s.pending ==> FromHistory(s.history, s.pending[p].event))
    && (forall p, i :: p in s.pending && 0 <= i < |s.log| ==> s.pending[p].event.sequence != s.log[i].sequence)
    && (forall p, q :: p in s.pending && q in s.pending && p != q ==>
          s.pending[p].event.sequence != s.pending[q].event.sequence)
  }

  ghost predicate Invariant(s: Execution) {
    && ChannelInvariant(s)
    && (forall i :: 0 <= i < |s.subscriptions| ==>
          SubscriptionInvariant(s.initial, s.log, s.history, s.subscriptions[i]))
  }

  lemma SnapshotAtExtends(initial: Task, history: seq<Publication>, publication: Publication, n: nat)
    requires n <= |history|
    ensures SnapshotAt(initial, history + [publication], n) == SnapshotAt(initial, history, n)
  {
  }

  /** Longer logs and histories change nothing for a stream. */
  lemma SubscriptionFrame(initial: Task, log: seq<Event>, more: seq<Event>, history: seq<Publication>,
                          later: seq<Publication>, sub: Subscription)
    requires SubscriptionInvariant(initial, log, history, sub)
    requires log <= more && |later| <= 1
    ensures SubscriptionInvariant(initial, more, history + later, sub)
  {
    assert more[sub.start..sub.cursor] == log[sub.start..sub.cursor];
    if later != [] {
      assert later == [later[0]];
      SnapshotAtExtends(initial, history, later[0], sub.openedAt);
    } else {
      assert history + later == history;
    }
  }

  lemma PhaseKeepsInvariant(s: Execution, sub: Subscription, phase: Phase)
    requires SubscriptionInvariant(s.initial, s.log, s.history, sub) && phase != Joining
    ensures SubscriptionInvariant(s.initial, s.log, s.history, sub.(phase := phase))
  {
    assert OpeningItems(sub) == OpeningItems(sub.(phase := phase));
  }

  lemma OpeningKeepsInvariant(s: Execution, sub: Subscription)
    requires SubscriptionInvariant(s.initial, s.log, s.history, sub)
    requires CanAdvance(s, sub) && !sub.done && sub.snapshot.Some?
    ensures SubscriptionInvariant(s.initial, s.log, s.history, Advanced(s, sub))
  {
    var next := Advanced(s, sub);
    assert s.log[sub.start..sub.cursor] == [];
    assert next.yielded == [Opening(sub.snapshot.value)] == OpeningItems(next) + Deliveries([]);
  }

  lemma NotDoneYieldsAre(sub: Subscription, events: seq<Event>)
    requires YieldsAre(sub, events) && StopsAtEnd(sub) && !sub.done
    ensures sub.yielded == OpeningItems(sub) + Deliveries(events)
  {
    var items := OpeningItems(sub) + Deliveries(events);
    assert (items + [FellBehind])[|items|] == FellBehind;
  }

  lemma YieldStops(sub: Subscription, item: Item, next: Subscription)
    requires StopsAtEnd(sub) && !sub.done
    requires next.yielded == sub.yielded + [item] && next.done == Ending(item)
    ensures StopsAtEnd(next)
  {
  }

  lemma DeliveryYieldsAre(sub: Subscription, events: seq<Event>, event: Event, next: Subscription)
    requires sub.yielded == OpeningItems(sub) + Deliveries(events)
    requires next.yielded == sub.yielded + [Delivered(event)]
    requires next.opening == sub.opening && next.snapshot == sub.snapshot
    ensures YieldsAre(next, events + [event])
  {
    assert Deliveries(events + [event]) == Deliveries(events) + [Delivered(event)];
    assert OpeningItems(next) + Deliveries(events + [event])
        == OpeningItems(sub) + Deliveries(events) + [Delivered(event)];
  }

  lemma SeenExtends(log: seq<Event>, start: nat, cursor: nat, min: nat)
    requires start <= cursor < |log|
    ensures var event := log[cursor];
            var seen := log[start..cursor];
            && Records(min, log[start..cursor + 1])
               == Records(min, seen) + (if event.sequence > Highest(min, seen) then [event] else [])
            && Highest(min, log[start..cursor + 1])
               == (if event.sequence > Highest(min, seen) then event.sequence else Highest(min, seen))
  {
    var more := log[start..cursor + 1];
    assert more[..|more| - 1] == log[start..cursor];
  }

  lemma LaggingKeepsInvariant(s: Execution, sub: Subscription)
    requires SubscriptionInvariant(s.initial, s.log, s.history, sub) && !sub.done && sub.snapshot.None?
    requires sub.phase == Streaming && |s.log| - sub.cursor > EXECUTION_BUFFER_CAPACITY
    ensures SubscriptionInvariant(s.initial, s.log, s.history, Yield(sub, FellBehind).(done := true))
  {
    var next := Yield(sub, FellBehind).(done := true);
    NotDoneYieldsAre(sub, Records(sub.openedAt, s.log[sub.start..sub.cursor]));
    YieldStops(sub, FellBehind, next);
    assert OpeningItems(next) == OpeningItems(sub);
  }

  /** An event that is no record leaves records and highest sequence as they are. */
  lemma SkippedIsNoRecord(log: seq<Event>, start: nat, cursor: nat, min: nat)
    requires start <= cursor < |log| && log[cursor].sequence <= Highest(min, log[start..cursor])
    ensures Records(min, log[start..cursor + 1]) == Records(min, log[start..cursor])
    ensures Highest(min, log[start..cursor + 1]) == Highest(min, log[start..cursor])
  {
    SeenExtends(log, start, cursor, min);
    assert Records(min, log[start..cursor]) + [] == Records(min, log[start..cursor]);
  }

  lemma SkippingKeepsYields(sub: Subscription, events: seq<Event>)
    requires YieldsAre(sub, events) && StopsAtEnd(sub) && !sub.done
    ensures YieldsAre(sub.(cursor := sub.cursor + 1), events) && StopsAtEnd(sub.(cursor := sub.cursor + 1))
    ensures sub.yielded == [] || sub.yielded[|sub.yielded| - 1] != FellBehind
  {
    assert OpeningItems(sub.(cursor := sub.cursor + 1)) == OpeningItems(sub);
  }

  lemma SkippingKeepsRecords(log: seq<Event>, sub: Subscription)
    requires sub.start <= sub.cursor < |log| && log[sub.cursor].sequence <= sub.minSequence && !sub.done
    requires sub.minSequence == Highest(sub.openedAt, log[sub.start..sub.cursor])
    requires YieldsAre(sub, Records(sub.openedAt, log[sub.start..sub.cursor])) && StopsAtEnd(sub)
    ensures sub.minSequence == Highest(sub.openedAt, log[sub.start..sub.cursor + 1])
    ensures YieldsAre(sub.(cursor := sub.cursor + 1), Records(sub.openedAt, log[sub.start..sub.cursor + 1]))
  {
    SkippedIsNoRecord(log, sub.start, sub.cursor, sub.openedAt);
    SkippingKeepsYields(sub, Records(sub.openedAt, log[sub.start..sub.cursor]));
  }

  lemma SkippingKeepsInvariant(s: Execution, sub: Subscription)
    requires SubscriptionInvariant(s.initial, s.log, s.history, sub) && !sub.done && sub.snapshot.None?
    requires sub.phase == Streaming && sub.cursor < |s.log| && s.log[sub.cursor].sequence <= sub.minSequence
    ensures SubscriptionInvariant(s.initial, s.log, s.history, sub.(cursor := sub.cursor + 1))
  {
    SkippingKeepsRecords(s.log, sub);
    NotDoneYieldsAre(sub, Records(sub.openedAt, s.log[sub.start..sub.cursor]));
    assert StopsAtEnd(sub.(cursor := sub.cursor + 1));
  }

  lemma DeliveringKeepsInvariant(s: Execution, sub: Subscription, event: Event)
    requires SubscriptionInvariant(s.initial, s.log, s.history, sub) && !sub.done && sub.snapshot.None?
    requires sub.phase == Streaming && sub.cursor < |s.log| && s.log[sub.cursor] == event
    requires event.sequence > sub.minSequence
    ensures SubscriptionInvariant(s.initial, s.log, s.history,
              Yield(sub, Delivered(event)).(
                cursor := sub.cursor + 1, minSequence := event.sequence, done := EndsStream(event.outcome)))
  {
    var next := Yield(sub, Delivered(event)).(
      cursor := sub.cursor + 1, minSequence := event.sequence, done := EndsStream(event.outcome));
    var events := Records(sub.openedAt, s.log[sub.start..sub.cursor]);
    DeliveringKeepsRecords(s.log, sub);
    NotDoneYieldsAre(sub, events);
    YieldStops(sub, Delivered(event), next);
    DeliveryYieldsAre(sub, events, event, next);
  }

  lemma DeliveringKeepsRecords(log: seq<Event>, sub: Subscription)
    requires sub.start <= sub.cursor < |log| && log[sub.cursor].sequence > sub.minSequence
    requires sub.minSequence == Highest(sub.openedAt, log[sub.start..sub.cursor])
    ensures Highest(sub.openedAt, log[sub.start..sub.cursor + 1]) == log[sub.cursor].sequence
    ensures Records(sub.openedAt, log[sub.start..sub.cursor + 1])
         == Records(sub.openedAt, log[sub.start..sub.cursor]) + [log[sub.cursor]]
  {
    SeenExtends(log, sub.start, sub.cursor, sub.openedAt);
  }

  lemma AdvanceKeepsInvariant(s: Execution, sub: Subscription)
    requires SubscriptionInvariant(s.initial, s.log, s.history, sub) && CanAdvance(s, sub)
    ensures SubscriptionInvariant(s.initial, s.log, s.history, Advanced(s, sub))
  {
    if sub.done || (sub.snapshot.None? && sub.cursor == |s.log|) {
      PhaseKeepsInvariant(s, sub, Ended);
    } else if sub.snapshot.Some? {
      OpeningKeepsInvariant(s, sub);
    } else if |s.log| - sub.cursor > EXECUTION_BUFFER_CAPACITY {
      LaggingKeepsInvariant(s, sub);
    } else if s.log[sub.cursor].sequence <= sub.minSequence {
      SkippingKeepsInvariant(s, sub);
    } else {
      DeliveringKeepsInvariant(s, sub, s.log[sub.cursor]);
    }
  }

  lemma BumpKeepsChannel(s: Execution, p: Publisher, publication: Publication)
    requires ChannelInvariant(s) && Enabled(s, Bump(p, publication))
    ensures ChannelInvariant(Next(s, Bump(p, publication)))
  {
    var t := Next(s, Bump(p, publication));
    SnapshotAtExtends(s.initial, s.history, publication, s.sequence);
    assert forall event :: FromHistory(s.history, event) ==> FromHistory(t.history, event);
  }

  lemma SendKeepsChannel(s: Execution, p: Publisher)
    requires ChannelInvariant(s) && Enabled(s, Send(p))
    ensures ChannelInvariant(Next(s, Send(p)))
  {
    var t := Next(s, Send(p));
    forall i, j | 0 <= i < j < |t.log| ensures t.log[i].sequence != t.log[j].sequence {
      assert j < |s.log| ==> t.log[j] == s.log[j];
    }
  }

  lemma StepKeepsChannel(s: Execution, a: Action)
    requires ChannelInvariant(s) && Enabled(s, a)
    ensures ChannelInvariant(Next(s, a))
  {
    match a
    case Bump(p, publication) => BumpKeepsChannel(s, p, publication);
    case Send(p) => SendKeepsChannel(s, p);
    case Count(p) =>
    case _ =>
  }

  lemma NewStreamInvariant(s: Execution, settled: nat, snapshot: Option<Task>, sequence: nat, start: nat)
    requires start <= |s.log| && sequence <= |s.history|
    requires snapshot.Some? ==> snapshot.value == SnapshotAt(s.initial, s.history, sequence)
    ensures SubscriptionInvariant(s.initial, s.log, s.history, NewStream(start, settled, snapshot, sequence))
    ensures SubscriptionInvariant(s.initial, s.log, s.history,
                                  NewStream(start, settled, snapshot, sequence).(phase := Joining))
  {
    var sub := NewStream(start, settled, snapshot, sequence);
    assert s.log[start..start] == [];
    assert OpeningItems(sub) == OpeningItems(sub.(phase := Joining)) == [];
    assert [] + Deliveries([]) == [];
  }

  /** The subscription in place k steps to one that keeps the invariant for the
      channel it sees. */
  lemma StepKeepsSubscription(s: Execution, a: Action, k: nat)
    requires Invariant(s) && Enabled(s, a) && k < |Next(s, a).subscriptions|
    ensures SubscriptionInvariant(s.initial, s.log, s.history, Next(s, a).subscriptions[k])
  {
    match a
    case Advance(i) => AdvanceKeepsInvariant(s, s.subscriptions[i]);
    case Read(i) =>
      NewStreamInvariant(s, s.subscriptions[i].settled, s.snapshot, s.sequence, s.subscriptions[i].cursor);
    case Drop(i) => PhaseKeepsInvariant(s, s.subscriptions[i], Dropped);
    case Join => NewStreamInvariant(s, Settled(s), None, 0, |s.log|);
    case Attach => NewStreamInvariant(s, Settled(s), None, 0, |s.log|);
    case _ =>
  }

  lemma StepKeepsInvariant(s: Execution, a: Action)
    requires Invariant(s) && Enabled(s, a)
    ensures Invariant(Next(s, a))
  {
    StepKeepsChannel(s, a);
    var t := Next(s, a);
    var later := t.history[|s.history|..];
    assert t.history == s.history + later;
    forall k: nat | k < |t.subscriptions|
      ensures SubscriptionInvariant(t.initial, t.log, t.history, t.subscriptions[k])
    {
      StepKeepsSubscription(s, a, k);
      SubscriptionFrame(s.initial, s.log, t.log, s.history, later, t.subscriptions[k]);
    }
  }

  lemma {:induction false} RunKeepsInvariant(task: Task, waiting: nat, actions: seq<Action>)
    requires IsRun(Started(task, waiting), actions)
    ensures Invariant(After(Started(task, waiting), actions))
  {
    if actions != [] {
      var before := actions[..|actions| - 1];
      RunKeepsInvariant(task, waiting, before);
      StepKeepsInvariant(After(Started(task, waiting), before), actions[|actions| - 1]);
    }
  }

  // ---------------------------------------------------------------------
  // Streams under any number of publishers
  // ---------------------------------------------------------------------

  lemma {:induction false} RecordsIncrease(min: nat, log: seq<Event>)
    ensures forall i :: 0 <= i < |Records(min, log)| ==> min < Records(min, log)[i].sequence <= Highest(min, log)
    ensures forall i, j :: 0 <= i < j < |Records(min, log)| ==>
              Records(min, log)[i].sequence < Records(min, log)[j].sequence
  {
    if log != [] { RecordsIncrease(min, log[..|log| - 1]); }
  }

  lemma {:induction false} HighestIsReached(min: nat, log: seq<Event>)
    ensures Highest(min, log) == min || exists k :: 0 <= k < |log| && log[k].sequence == Highest(min, log)
  {
    if log != [] {
      var before := log[..|log| - 1];
      HighestIsReached(min, before);
      if Highest(min, log) != min && Highest(min, log) == Highest(min, before) {
        var k :| 0 <= k < |before| && before[k].sequence == Highest(min, log);
        assert log[k].sequence == Highest(min, log);
      }
    }
  }

  lemma {:induction false} RecordsAreLogged(min: nat, log: seq<Event>)
    ensures forall i :: 0 <= i < |Records(min, log)| ==> Records(min, log)[i] in log
  {
    if log != [] { RecordsAreLogged(min, log[..|log| - 1]); }
  }

  /** An entry of the log is let through exactly when it exceeds the opening
      sequence and every entry before it. */
  lemma {:induction false} RecordsAreUnovertaken(min: nat, log: seq<Event>, j: nat)
    requires j < |log|
    requires forall i, k :: 0 <= i < k < |log| ==> log[i].sequence != log[k].sequence
    ensures log[j] in Records(min, log) <==>
              log[j].sequence > min && forall k :: 0 <= k < j ==> log[k].sequence < log[j].sequence
  {
    var before, last := log[..|log| - 1], log[|log| - 1];
    assert Records(min, log)
        == Records(min, before) + if last.sequence > Highest(min, before) then [last] else [];
    if j < |before| {
      assert before[j] == log[j] && last != log[j];
      RecordsAreUnovertaken(min, before, j);
    } else {
      assert forall k :: 0 <= k < j ==> before[k] == log[k];
      HighestIsReached(min, before);
      RecordsAreLogged(min, before);
      assert log[j] !in before;
      assert log[j] !in Records(min, before);
    }
  }

  /** Where the events of a stream stand among the items it yielded. */
  lemma DeliveredItems(sub: Subscription, events: seq<Event>)
    requires YieldsAre(sub, events)
    ensures forall j :: 0 <= j < |events| ==>
              |OpeningItems(sub)| + j < |sub.yielded| && sub.yielded[|OpeningItems(sub)| + j] == Delivered(events[j])
    ensures forall j :: 0 <= j < |sub.yielded| && sub.yielded[j].Delivered? ==>
              && |OpeningItems(sub)| <= j < |OpeningItems(sub)| + |events|
              && sub.yielded[j] == Delivered(events[j - |OpeningItems(sub)|])
    ensures forall j :: 0 < j < |sub.yielded| ==> !sub.yielded[j].Opening?
    ensures forall event :: Delivered(event) in sub.yielded <==> event in events
  {
    var k := |OpeningItems(sub)|;
    forall event | event in events ensures Delivered(event) in sub.yielded {
      var n :| 0 <= n < |events| && events[n] == event;
      assert sub.yielded[k + n] == Delivered(event);
    }
  }

  lemma RecordsAreOrdered(sub: Subscription, events: seq<Event>, history: seq<Publication>)
    requires YieldsAre(sub, events)
    requires forall j, k :: 0 <= j < k < |events| ==> events[j].sequence < events[k].sequence
    requires forall event :: event in events ==> event.sequence > sub.openedAt && FromHistory(history, event)
    ensures forall j :: 0 <= j < |sub.yielded| && sub.yielded[j].Delivered? ==>
              sub.yielded[j].event.sequence > sub.openedAt && FromHistory(history, sub.yielded[j].event)
    ensures forall j, k :: 0 <= j < k < |sub.yielded| && sub.yielded[j].Delivered? && sub.yielded[k].Delivered? ==>
              sub.yielded[j].event.sequence < sub.yielded[k].event.sequence
    ensures forall j :: 0 < j < |sub.yielded| ==> !sub.yielded[j].Opening?
  {
    DeliveredItems(sub, events);
  }

  lemma RecordsAreFromHistory(s: Execution, min: nat, seen: seq<Event>)
    requires ChannelInvariant(s) && forall event :: event in seen ==> event in s.log
    ensures forall event :: event in Records(min, seen) ==> event.sequence > min && FromHistory(s.history, event)
  {
    RecordsAreLogged(min, seen);
  }

  /** Whoever publishes and however they interleave, a stream yields strictly
      increasing sequences above the one it opened at, each the publication of
      that sequence, an opening task only first, and nothing after its first
      terminal event, error or report of falling behind. */
  lemma StreamsAreOrdered(task: Task, waiting: nat, actions: seq<Action>, i: nat)
    requires IsRun(Started(task, waiting), actions)
    requires i < |After(Started(task, waiting), actions).subscriptions|
    ensures var s := After(Started(task, waiting), actions);
            var sub := s.subscriptions[i];
            && (forall j :: 0 <= j < |sub.yielded| && sub.yielded[j].Delivered? ==>
                  && sub.yielded[j].event.sequence > sub.openedAt
                  && FromHistory(s.history, sub.yielded[j].event))
            && (forall j, k :: 0 <= j < k < |sub.yielded| && sub.yielded[j].Delivered? && sub.yielded[k].Delivered? ==>
                  sub.yielded[j].event.sequence < sub.yielded[k].event.sequence)
            && (forall j :: 0 < j < |sub.yielded| ==> !sub.yielded[j].Opening?)
            && (forall j :: 0 <= j < |sub.yielded| - 1 ==> !Ending(sub.yielded[j]))
  {
    RunKeepsInvariant(task, waiting, actions);
    var s := After(Started(task, waiting), actions);
    var sub := s.subscriptions[i];
    assert SubscriptionInvariant(s.initial, s.log, s.history, sub);
    var seen := s.log[sub.start..sub.cursor];
    RecordsIncrease(sub.openedAt, seen);
    RecordsAreFromHistory(s, sub.openedAt, seen);
    RecordsAreOrdered(sub, Records(sub.openedAt, seen), s.history);
  }

  lemma SliceIsUnovertaken(min: nat, log: seq<Event>, start: nat, cursor: nat, j: nat)
    requires start <= j < cursor <= |log|
    requires forall i, k :: 0 <= i < k < |log| ==> log[i].sequence != log[k].sequence
    ensures log[j] in Records(min, log[start..cursor]) <==>
              log[j].sequence > min && forall k :: start <= k < j ==> log[k].sequence < log[j].sequence
  {
    var seen := log[start..cursor];
    RecordsAreUnovertaken(min, seen, j - start);
    assert seen[j - start] == log[j];
    if forall k :: start <= k < j ==> log[k].sequence < log[j].sequence {
      assert forall m :: 0 <= m < j - start ==> seen[m] == log[start + m];
    }
    if forall m :: 0 <= m < j - start ==> seen[m].sequence < log[j].sequence {
      assert forall k :: start <= k < j ==> log[k] == seen[k - start];
    }
  }

  /** Exactly which events a stream misses: of those the channel carried while
      it was reading, it yields one newer than its opening if and only if no
      event sent before it, since the stream joined, has a higher sequence. */
  lemma YieldedUnlessOvertaken(task: Task, waiting: nat, actions: seq<Action>, i: nat, j: nat)
    requires IsRun(Started(task, waiting), actions)
    requires i < |After(Started(task, waiting), actions).subscriptions|
    requires var sub := After(Started(task, waiting), actions).subscriptions[i]; sub.start <= j < sub.cursor
    ensures var s := After(Started(task, waiting), actions);
            var sub := s.subscriptions[i];
            && j < |s.log|
            && (Delivered(s.log[j]) in sub.yielded <==>
                  && s.log[j].sequence > sub.openedAt
                  && forall k :: sub.start <= k < j ==> s.log[k].sequence < s.log[j].sequence)
  {
    RunKeepsInvariant(task, waiting, actions);
    var s := After(Started(task, waiting), actions);
    var sub := s.subscriptions[i];
    assert SubscriptionInvariant(s.initial, s.log, s.history, sub);
    SliceIsUnovertaken(sub.openedAt, s.log, sub.start, sub.cursor, j);
    DeliveredItems(sub, Records(sub.openedAt, s.log[sub.start..sub.cursor]));
  }

  // ---------------------------------------------------------------------
  // A released subscription
  // ---------------------------------------------------------------------

  /** What `release` hands a subscription: the final task, and a channel whose
      sender is gone. */
  function ReleasedStream(final: Task): Execution {
    Started(final, 1).(closed := true)
  }

  /** However it is polled, a released stream yields the final task once and
      ends; it never waits. */
  lemma {:induction false} ReleasedStreamEnds(final: Task, actions: seq<Action>)
    requires IsRun(ReleasedStream(final), actions)
    ensures var s := After(ReleasedStream(final), actions);
            && s.closed && s.pending == map[] && s.log == [] && |s.subscriptions| == 1
            && var sub := s.subscriptions[0];
               && sub.phase != Joining && sub.cursor == 0
               && (sub.snapshot.Some? ==> sub.snapshot == Some(final) && sub.yielded == [] && !sub.done)
               && (sub.snapshot.None? ==> sub.yielded == [Opening(final)])
               && (sub.phase == Ended ==> sub.yielded == [Opening(final)])
               && (sub.phase == Streaming ==> CanAdvance(s, sub))
  {
    if actions != [] { ReleasedStreamEnds(final, actions[..|actions| - 1]); }
  }

  // ---------------------------------------------------------------------
  // What a receive yields
  // ---------------------------------------------------------------------

  /** Exactly what a stream's next step makes of what the channel holds for it: it
      ends when it is done, or when the sender is gone and nothing is left; its
      opening task comes first; an event still in the buffer is yielded if it is
      newer than all before it and passed over if not; and once more than the
      capacity has been sent past it, the stream says so and is done. */
  lemma ReceivesExactly(s: Execution, sub: Subscription)
    requires CanAdvance(s, sub)
    ensures var next := Advanced(s, sub);
            var behind := |s.log| - sub.cursor;
            && (next.phase == Ended <==> sub.done || (sub.snapshot.None? && behind <= 0))
            && (next.phase == Ended ==> next.yielded == sub.yielded && (sub.done || s.closed))
            && (!sub.done && sub.snapshot.Some? ==>
                  next.yielded == sub.yielded + [Opening(sub.snapshot.value)] && next.cursor == sub.cursor)
            && (!sub.done && sub.snapshot.None? && behind > 32 ==>
                  next.yielded == sub.yielded + [FellBehind] && next.done)
            && (!sub.done && sub.snapshot.None? && 0 < behind <= 32 ==>
                  && next.cursor == sub.cursor + 1
                  && next.yielded == sub.yielded + (if s.log[sub.cursor].sequence > sub.minSequence
                                                    then [Delivered(s.log[sub.cursor])] else []))
  {
    assert sub.yielded + [] == sub.yielded;
  }
}
