/** Turns of a conversation: how a message continues a stored task, and what the
    stored history holds after any number of turns
    (`prepare_task_for_execution`, a2a-server/src/handler.rs). */
module Turns {
  import opened Wrappers
  import opened Types
  import opened TaskFold
  import opened TaskStores
  import opened ActiveExecutions
  import opened Driver
  import opened DriverProperties

  datatype Prepared = Prepared(task: Task, stored: Option<Task>, contextId: string)

  function HistoryOf(task: Task): seq<Message> {
    task.history.UnwrapOr([])
  }

  predicate Seen(history: seq<Message>, messageId: string) {
    exists k :: 0 <= k < |history| && history[k].messageId == messageId
  }

  /** The agent's last word, unless the history has it already. */
  function Asked(task: Task): seq<Message> {
    if task.status.message.Some? && !Seen(HistoryOf(task), task.status.message.value.messageId)
    then [task.status.message.value]
    else []
  }

  /** The task a further message continues. */
  function Continued(task: Task, message: Message): Task {
    task.(history := Some(HistoryOf(task) + Asked(task) + [message]))
  }

  function Created(id: TaskId, contextId: string, message: Message, now: Timestamp): Task {
    Task(id, contextId, TaskStatus(Submitted, None, Some(now)), None, Some([message]), None)
  }

  /** Why a message is refused, if it is. */
  function Refusal(tasks: Tasks, message: Message, newId: TaskId, env: Environment): Option<A2AError> {
    var id := message.taskId.UnwrapOr(newId);
    match Fetched(tasks, id, env)
    case Err(error) => Some(error)
    case Ok(None) =>
      if message.taskId.Some? then Some(Error(TASK_NOT_FOUND)) else CreateError(tasks, id, env)
    case Ok(Some(task)) =>
      if task.Terminal() then Some(Error(UNSUPPORTED_OPERATION))
      else if message.contextId.Some? && message.contextId.value != task.contextId then Some(Error(INVALID_PARAMS))
      else None
  }

  /** The task a message sets to work and the store it finds, or why it is
      refused. A continued task is not saved here: the store keeps the one it
      had until the turn's first event. */
  function Readied(tasks: Tasks, message: Message, newId: TaskId, newContextId: string, env: Environment)
    : Result<(Task, Tasks), A2AError>
  {
    var id := message.taskId.UnwrapOr(newId);
    match Refusal(tasks, message, newId, env)
    case Some(error) => Err(error)
    case None =>
      if id in tasks then Ok((Continued(tasks[id], message), tasks))
      else
        var task := Created(id, message.contextId.UnwrapOr(newContextId), message, env.now);
        Ok((task, tasks[id := task]))
  }

  /** `prepare_task_for_execution`. */
  method Prepare(store: TaskStore, message: Message, newId: TaskId, newContextId: string, env: Environment)
    returns (prepared: Result<Prepared, A2AError>)
    modifies store
    ensures match Readied(old(store.tasks), message, newId, newContextId, env)
            case Err(error) => prepared == Err(error) && store.tasks == old(store.tasks)
            case Ok((task, tasks)) =>
              var id := message.taskId.UnwrapOr(newId);
              && prepared == Ok(Prepared(
                   task, if id in old(store.tasks) then Some(old(store.tasks)[id]) else None, task.contextId))
              && store.tasks == tasks
  {
    var id := message.taskId.UnwrapOr(newId);
    var found := store.Get(id, env);
    if found.Err? { return Err(found.error); }
    var stored := found.value;
    if stored.None? && message.taskId.Some? { return Err(Error(TASK_NOT_FOUND)); }
    if stored.Some? && stored.value.Terminal() { return Err(Error(UNSUPPORTED_OPERATION)); }
    var contextId := message.contextId.UnwrapOr(newContextId);
    if stored.Some? {
      if message.contextId.Some? && message.contextId.value != stored.value.contextId {
        return Err(Error(INVALID_PARAMS));
      }
      contextId := stored.value.contextId;
      var history := stored.value.history.UnwrapOr([]);
      var asked := stored.value.status.message;
      if asked.Some? && !exists k :: 0 <= k < |history| && history[k].messageId == asked.value.messageId {
        history := history + [asked.value];
      }
      history := history + [message];
      assert Asked(stored.value) == [] ==> HistoryOf(stored.value) + [] == HistoryOf(stored.value);
      return Ok(Prepared(stored.value.(history := Some(history)), stored, contextId));
    }
    var task := Created(id, contextId, message, env.now);
    var failed := store.Create(task, env);
    if failed.Some? { return Err(failed.value); }
    return Ok(Prepared(task, None, contextId));
  }

  // ---------------------------------------------------------------------
  // One turn
  // ---------------------------------------------------------------------

  /** The executor sends no snapshot of the task. */
  predicate NoSnapshots(events: seq<StreamResponse>) {
    forall k :: 0 <= k < |events| ==> !events[k].TaskEvent?
  }

  /** The last snapshot sent, which replaces the task, its history included. */
  function LastSnapshot(events: seq<StreamResponse>): (snapshot: Option<Task>)
    ensures snapshot.None? <==> NoSnapshots(events)
  {
    if events == [] then None
    else
      match events[|events| - 1]
      case TaskEvent(task) => Some(task)
      case _ => LastSnapshot(events[..|events| - 1])
  }

  /** The message of the last status sent, `before` when there is none. */
  function LastStatusMessage(events: seq<StreamResponse>, before: Option<Message>): Option<Message> {
    if events == [] then before
    else
      match events[|events| - 1]
      case StatusEvent(update) => update.status.message
      case TaskEvent(task) => task.status.message
      case _ => LastStatusMessage(events[..|events| - 1], before)
  }

  lemma {:induction false} FoldedHistory(task: Task, events: seq<StreamResponse>)
    requires OwnSnapshots(events, task.id) && Folded(task, events).Some?
    ensures var after := Folded(task, events).value;
            && after.id == task.id
            && after.history == (if NoSnapshots(events) then task.history else LastSnapshot(events).value.history)
            && after.status.message == LastStatusMessage(events, task.status.message)
            && (NoSnapshots(events) ==> after.contextId == task.contextId)
  {
    if events != [] { FoldedHistory(task, events[..|events| - 1]); }
  }

  /** A turn: the user's message with the ids it would be given, and what the
      executor and its surroundings do. */
  datatype Exchange = Exchange(
    message: Message,
    newId: TaskId,
    newContextId: string,
    arrival: Environment,
    turns: seq<Turn>,
    ending: Ending)
  {
    /** The task the message is for. */
    function Target(): TaskId {
      message.taskId.UnwrapOr(newId)
    }
  }

  function ReadiedBy(tasks: Tasks, exchange: Exchange): Result<(Task, Tasks), A2AError> {
    Readied(tasks, exchange.message, exchange.newId, exchange.newContextId, exchange.arrival)
  }

  predicate Accepted(tasks: Tasks, exchange: Exchange) {
    ReadiedBy(tasks, exchange).Ok?
  }

  function Loop(tasks: Tasks, exchange: Exchange): DriverState
    requires Accepted(tasks, exchange)
  {
    var (task, begun) := ReadiedBy(tasks, exchange).value;
    AfterTurns(Begun(task, begun), exchange.turns)
  }

  /** The store after a turn: prepared, then driven to its end. */
  function AfterExchange(tasks: Tasks, exchange: Exchange): Tasks {
    match ReadiedBy(tasks, exchange)
    case Err(_) => tasks
    case Ok((task, begun)) => Driven(task, begun, exchange.turns, exchange.ending).tasks
  }

  /** A whole turn, with no other on the task at work. */
  method TakeExchange(store: TaskStore, exchange: Exchange) returns (refused: Option<A2AError>)
    modifies store
    ensures store.tasks == AfterExchange(old(store.tasks), exchange)
    ensures refused.None? <==> Accepted(old(store.tasks), exchange)
  {
    var prepared := Prepare(store, exchange.message, exchange.newId, exchange.newContextId, exchange.arrival);
    if prepared.Err? { return Some(prepared.error); }
    var active := new ActiveExecution(prepared.value.task);
    var d := DriveExecution(store, active, exchange.turns, exchange.ending);
    return None;
  }

  /** Whether anything of the turn reaches the store. */
  predicate Saves(d: DriverState, ending: Ending) {
    AnyTaskEvent(d.applied) || (d.failure.Some? && FailureSaved(d, ending).Some?)
  }

  /** Whether the turn leaves anything in the store: it creates the task, or
      saves something of the one it continues. */
  predicate Keeps(tasks: Tasks, exchange: Exchange) {
    Accepted(tasks, exchange) && (exchange.Target() !in tasks || Saves(Loop(tasks, exchange), exchange.ending))
  }

  function HistoryAt(tasks: Tasks, id: TaskId): seq<Message> {
    if id in tasks then HistoryOf(tasks[id]) else []
  }

  function AskedAt(tasks: Tasks, id: TaskId): seq<Message> {
    if id in tasks then Asked(tasks[id]) else []
  }

  /** The last snapshot the turn's executor sent of the task. */
  function SnapshotSent(tasks: Tasks, exchange: Exchange): Option<Task> {
    if Accepted(tasks, exchange) then LastSnapshot(Loop(tasks, exchange).applied) else None
  }

  /** What a turn adds to the stored history when its executor sends no snapshot. */
  function Added(tasks: Tasks, exchange: Exchange): seq<Message> {
    if Keeps(tasks, exchange) then AskedAt(tasks, exchange.Target()) + [exchange.message] else []
  }

  /** What a turn makes of the stored history. */
  function Turned(history: seq<Message>, tasks: Tasks, exchange: Exchange): seq<Message> {
    if SnapshotSent(tasks, exchange).Some? then HistoryOf(SnapshotSent(tasks, exchange).value)
    else history + Added(tasks, exchange)
  }

  /** The turn's task is stamped, and the executor sends snapshots of no other. */
  ghost predicate Plain(tasks: Tasks, exchange: Exchange) {
    && (exchange.Target() in tasks ==> IsStamped(tasks[exchange.Target()]))
    && (Accepted(tasks, exchange) ==> OwnSnapshots(Loop(tasks, exchange).applied, exchange.Target()))
  }

  lemma OwnExecutorIsPlain(tasks: Tasks, exchange: Exchange)
    requires exchange.Target() in tasks ==> IsStamped(tasks[exchange.Target()])
    requires KeepsToItsTask(exchange.turns, exchange.Target())
    ensures Plain(tasks, exchange)
  {
    if Accepted(tasks, exchange) {
      var (task, begun) := ReadiedBy(tasks, exchange).value;
      OwnExecutorSavesOwnTask(task, begun, exchange.turns, exchange.ending);
    }
  }

  lemma ReadiedHistory(tasks: Tasks, exchange: Exchange)
    requires Plain(tasks, exchange) && Accepted(tasks, exchange)
    ensures var (task, begun) := ReadiedBy(tasks, exchange).value;
            && task.id == exchange.Target() && IsStamped(task) && !task.Terminal()
            && HistoryOf(task) == HistoryAt(tasks, task.id) + (AskedAt(tasks, task.id) + [exchange.message])
            && begun == if task.id in tasks then tasks else tasks[task.id := task]
  {
    var id := exchange.Target();
    if id in tasks {
      assert HistoryOf(tasks[id]) + Asked(tasks[id]) + [exchange.message]
          == HistoryOf(tasks[id]) + (Asked(tasks[id]) + [exchange.message]);
    }
  }

  /** The stored task once the loop is over, and after the failure path. */
  lemma DrivenHistory(task: Task, begun: Tasks, turns: seq<Turn>, ending: Ending)
    requires IsStamped(task) && !task.Terminal()
    requires OwnSnapshots(AfterTurns(Begun(task, begun), turns).applied, task.id)
    ensures var d := AfterTurns(Begun(task, begun), turns);
            var after := Driven(task, begun, turns, ending).tasks;
            && (!Saves(d, ending) ==> after == begun && NoSnapshots(d.applied))
            && (Saves(d, ending) ==>
                  && task.id in after && IsStamped(after[task.id])
                  && after[task.id].history
                     == (if NoSnapshots(d.applied) then task.history else LastSnapshot(d.applied).value.history)
                  && (NoSnapshots(d.applied) ==> after[task.id].contextId == task.contextId))
            && (AnyTaskEvent(d.applied) && d.failure.None? ==>
                  after[task.id].status.message == LastStatusMessage(d.applied, task.status.message))
  {
    var d := AfterTurns(Begun(task, begun), turns);
    TurnsKeepAgreement(task, begun, turns);
    FoldedHistory(task, d.applied);
  }

  /** Exactly what a turn does to the stored history, whatever the executor sends
      of its own task. If it sends a snapshot, the history is the last one's.
      Otherwise it is extended by the agent's last word and the user's message if
      and only if the turn creates the task or saves a status, an artifact or its
      failure. A turn that keeps nothing leaves the store as it was. */
  lemma TurnHistory(tasks: Tasks, exchange: Exchange)
    requires Plain(tasks, exchange)
    ensures var id := exchange.Target();
            var after := AfterExchange(tasks, exchange);
            && HistoryAt(after, id) == Turned(HistoryAt(tasks, id), tasks, exchange)
            && (id in after <==> id in tasks || Accepted(tasks, exchange))
            && (id in after ==> IsStamped(after[id]))
            && (id in tasks && SnapshotSent(tasks, exchange).None? ==> after[id].contextId == tasks[id].contextId)
            && (!Keeps(tasks, exchange) ==> after == tasks && SnapshotSent(tasks, exchange).None?)
  {
    if Accepted(tasks, exchange) {
      var (task, begun) := ReadiedBy(tasks, exchange).value;
      ReadiedHistory(tasks, exchange);
      DrivenHistory(task, begun, exchange.turns, exchange.ending);
    }
    assert HistoryAt(tasks, exchange.Target()) + [] == HistoryAt(tasks, exchange.Target());
  }

  /** Exactly when a user's message, not there before, reaches the stored
      history: when the turn keeps anything, and the executor sent no snapshot or
      the last one holds the message. */
  lemma MessageIsStoredExactly(tasks: Tasks, exchange: Exchange)
    requires Plain(tasks, exchange) && exchange.message !in HistoryAt(tasks, exchange.Target())
    ensures exchange.message in HistoryAt(AfterExchange(tasks, exchange), exchange.Target())
            <==> && Keeps(tasks, exchange)
                 && (SnapshotSent(tasks, exchange).Some? ==>
                       exchange.message in HistoryOf(SnapshotSent(tasks, exchange).value))
  {
    TurnHistory(tasks, exchange);
    var added := AskedAt(tasks, exchange.Target()) + [exchange.message];
    assert added[|added| - 1] == exchange.message;
  }

  /** The ordinary way to lose a message: the agent answers a message that
      continues a task with one message. The answer is published, and neither
      the user's message nor what the agent had asked reaches the store. */
  lemma AnsweredMessageIsLost(tasks: Tasks, exchange: Exchange, answer: Message, env: Environment)
    requires Accepted(tasks, exchange) && exchange.Target() in tasks
    requires exchange.turns == [Turn(Ok(MessageEvent(answer)), None, env, None)]
    ensures var d := Loop(tasks, exchange);
            && d.applied == [MessageEvent(answer)] && d.failure.None? && |d.published| == 1
            && AfterExchange(tasks, exchange) == tasks && Added(tasks, exchange) == []
            && tasks[exchange.Target()].history.UnwrapOr([]) != HistoryOf(ReadiedBy(tasks, exchange).value.0)
  {
    var (task, begun) := ReadiedBy(tasks, exchange).value;
    var turn := exchange.turns[0];
    assert exchange.turns[..0] == [];
    assert AfterTurns(Begun(task, begun), exchange.turns[..0]) == Begun(task, begun);
    assert Loop(tasks, exchange) == AfterTurn(Begun(task, begun), turn);
    assert Loop(tasks, exchange).applied == [MessageEvent(answer)];
    assert |HistoryOf(task)| > |HistoryOf(tasks[exchange.Target()])|;
  }

  /** Another way to lose it, and all that came before: the agent reports that it
      is working and ends with a snapshot of the task that carries no history. */
  lemma SnapshotForgetsTheHistory(
      tasks: Tasks, exchange: Exchange, working: StatusUpdate, snapshot: Task, first: Environment, second: Environment)
    requires Plain(tasks, exchange) && Accepted(tasks, exchange)
    requires exchange.turns
          == [Turn(Ok(StatusEvent(working)), None, first, None), Turn(Ok(TaskEvent(snapshot)), None, second, None)]
    requires SavesSucceed(first) && SavesSucceed(second) && !IsTerminal(working.status.state)
    requires snapshot.id == exchange.Target() && snapshot.history.None?
    ensures Keeps(tasks, exchange) && HistoryAt(AfterExchange(tasks, exchange), exchange.Target()) == []
  {
    var (task, begun) := ReadiedBy(tasks, exchange).value;
    var turns := exchange.turns;
    OneMoreTurn(Begun(task, begun), turns, 0);
    OneMoreTurn(Begun(task, begun), turns, 1);
    assert turns[..0] == [] && turns[..2] == turns;
    SaveSucceeds(begun, task.id, first);
    var d := AfterTurn(Begun(task, begun), turns[0]);
    assert AfterTurns(Begun(task, begun), turns[..1]) == d;
    assert d.applied == [Backfilled(StatusEvent(working), first.now)] && !d.stopped;
    SaveSucceeds(d.tasks, task.id, second);
    assert Loop(tasks, exchange) == AfterTurn(d, turns[1]);
    assert Loop(tasks, exchange).applied == d.applied + [Backfilled(TaskEvent(snapshot), second.now)];
    assert !Loop(tasks, exchange).applied[0].MessageEvent?;
    TurnHistory(tasks, exchange);
  }

  // ---------------------------------------------------------------------
  // Any number of turns
  // ---------------------------------------------------------------------

  function AfterExchanges(tasks: Tasks, exchanges: seq<Exchange>): Tasks {
    if exchanges == [] then tasks
    else AfterExchange(AfterExchanges(tasks, exchanges[..|exchanges| - 1]), exchanges[|exchanges| - 1])
  }

  /** Turns on one task, run one after another, from before it exists or from a
      stored one; whether each is accepted, succeeds and saves is left open. */
  ghost predicate Conversation(tasks: Tasks, id: TaskId, exchanges: seq<Exchange>) {
    if exchanges == [] then id in tasks ==> IsStamped(tasks[id])
    else
      var earlier, last := exchanges[..|exchanges| - 1], exchanges[|exchanges| - 1];
      && Conversation(tasks, id, earlier)
      && last.Target() == id
      && Plain(AfterExchanges(tasks, earlier), last)
  }

  /** What the turns make of the history: each extends it, or starts it afresh
      from its executor's last snapshot. */
  function Grown(history: seq<Message>, tasks: Tasks, exchanges: seq<Exchange>): seq<Message> {
    if exchanges == [] then history
    else
      var earlier := exchanges[..|exchanges| - 1];
      Turned(Grown(history, tasks, earlier), AfterExchanges(tasks, earlier), exchanges[|exchanges| - 1])
  }

  /** All that the turns add, in order. */
  function AllAdded(tasks: Tasks, exchanges: seq<Exchange>): seq<Message> {
    if exchanges == [] then []
    else
      var earlier := exchanges[..|exchanges| - 1];
      AllAdded(tasks, earlier) + Added(AfterExchanges(tasks, earlier), exchanges[|exchanges| - 1])
  }

  /** No executor of these turns sends a snapshot. */
  ghost predicate NoneSent(tasks: Tasks, exchanges: seq<Exchange>) {
    exchanges != [] ==>
      var earlier := exchanges[..|exchanges| - 1];
      && NoneSent(tasks, earlier)
      && SnapshotSent(AfterExchanges(tasks, earlier), exchanges[|exchanges| - 1]).None?
  }

  /** Over any number of turns, the first of which may create the task, the
      stored history is the first one as the turns have made it grow. While no
      snapshot is sent, that is the first one and, for each turn that keeps
      anything, the agent's last status message of the turn before, unless a
      message of that id is there already, and the user's message. */
  lemma {:induction false} HistoryAccumulates(tasks: Tasks, id: TaskId, exchanges: seq<Exchange>)
    requires Conversation(tasks, id, exchanges)
    ensures var after := AfterExchanges(tasks, exchanges);
            && HistoryAt(after, id) == Grown(HistoryAt(tasks, id), tasks, exchanges)
            && (NoneSent(tasks, exchanges) ==> HistoryAt(after, id) == HistoryAt(tasks, id) + AllAdded(tasks, exchanges))
            && (id in after ==> IsStamped(after[id]))
  {
    if exchanges == [] {
      assert HistoryAt(tasks, id) + [] == HistoryAt(tasks, id);
    } else {
      var earlier, last := exchanges[..|exchanges| - 1], exchanges[|exchanges| - 1];
      var before := AfterExchanges(tasks, earlier);
      HistoryAccumulates(tasks, id, earlier);
      TurnHistory(before, last);
      Regrouped(HistoryAt(tasks, id), AllAdded(tasks, earlier), Added(before, last));
    }
  }

  lemma Regrouped(a: seq<Message>, b: seq<Message>, c: seq<Message>)
    ensures a + (b + c) == (a + b) + c
  {
  }

  /** After a turn that keeps anything and whose executor sends no snapshot, the
      agent's last word before it stands in the history before the user's message,
      under its id. Whatever it sends, a turn that saves and ends without failure
      leaves the message of the last status it sent as the next last word. */
  lemma LastWordIsKept(tasks: Tasks, id: TaskId, exchanges: seq<Exchange>, exchange: Exchange)
    requires Conversation(tasks, id, exchanges + [exchange])
    ensures var before := AfterExchanges(tasks, exchanges);
            var after := AfterExchanges(tasks, exchanges + [exchange]);
            && (Keeps(before, exchange) && SnapshotSent(before, exchange).None? ==>
                  var history := HistoryAt(after, id);
                  && history != [] && history[|history| - 1] == exchange.message
                  && (id in before && before[id].status.message.Some? ==>
                        Seen(history[..|history| - 1], before[id].status.message.value.messageId)))
            && (Accepted(before, exchange) ==>
                  var d := Loop(before, exchange);
                  AnyTaskEvent(d.applied) && d.failure.None? ==>
                    && id in after
                    && after[id].status.message
                       == LastStatusMessage(d.applied, ReadiedBy(before, exchange).value.0.status.message))
  {
    assert (exchanges + [exchange])[..|exchanges|] == exchanges;
    var before := AfterExchanges(tasks, exchanges);
    TurnHistory(before, exchange);
    if Accepted(before, exchange) {
      var (task, begun) := ReadiedBy(before, exchange).value;
      ReadiedHistory(before, exchange);
      DrivenHistory(task, begun, exchange.turns, exchange.ending);
      if Keeps(before, exchange) && SnapshotSent(before, exchange).None? { AddedEndsInMessage(before, exchange); }
    }
  }

  lemma AddedEndsInMessage(tasks: Tasks, exchange: Exchange)
    requires Keeps(tasks, exchange)
    ensures var id := exchange.Target();
            var history := HistoryAt(tasks, id) + Added(tasks, exchange);
            && history != [] && history[|history| - 1] == exchange.message
            && (id in tasks && tasks[id].status.message.Some? ==>
                  Seen(history[..|history| - 1], tasks[id].status.message.value.messageId))
  {
    var id := exchange.Target();
    var history := HistoryAt(tasks, id) + Added(tasks, exchange);
    assert history == (HistoryAt(tasks, id) + AskedAt(tasks, id)) + [exchange.message];
    assert history[..|history| - 1] == HistoryAt(tasks, id) + AskedAt(tasks, id);
    if id in tasks && tasks[id].status.message.Some? { AskedIsSeen(tasks[id]); }
  }

  lemma AskedIsSeen(task: Task)
    requires task.status.message.Some?
    ensures Seen(HistoryOf(task) + Asked(task), task.status.message.value.messageId)
  {
    var known := HistoryOf(task) + Asked(task);
    if Asked(task) == [] {
      var k :| 0 <= k < |HistoryOf(task)| && HistoryOf(task)[k].messageId == task.status.message.value.messageId;
      assert known[k] == HistoryOf(task)[k];
    } else {
      assert known[|HistoryOf(task)|] == task.status.message.value;
    }
  }

  /** The history a turn is prepared with: the stored one, the agent's last word
      and the user's message. */
  function Prior(tasks: Tasks, exchange: Exchange): seq<Message> {
    HistoryAt(tasks, exchange.Target()) + (AskedAt(tasks, exchange.Target()) + [exchange.message])
  }

  /** The executor's last snapshot, if it sends any, carries on the history it was
      given. */
  predicate Remembers(tasks: Tasks, exchange: Exchange) {
    SnapshotSent(tasks, exchange).Some? ==> Prior(tasks, exchange) <= HistoryOf(SnapshotSent(tasks, exchange).value)
  }

  /** A turn drops nothing of the history if and only if its snapshots do not;
      and while they do not, what it keeps includes the user's message. */
  lemma TurnRemembers(tasks: Tasks, exchange: Exchange)
    requires Plain(tasks, exchange)
    ensures var history := HistoryAt(AfterExchange(tasks, exchange), exchange.Target());
            && (Remembers(tasks, exchange) ==> HistoryAt(tasks, exchange.Target()) <= history)
            && (Keeps(tasks, exchange) ==> (Prior(tasks, exchange) <= history <==> Remembers(tasks, exchange)))
  {
    TurnHistory(tasks, exchange);
  }

  /** After the first turns, each of the others remembers. */
  ghost predicate RememberAfter(tasks: Tasks, first: seq<Exchange>, more: seq<Exchange>)
    decreases |more|
  {
    more != [] ==>
      var init := more[..|more| - 1];
      && RememberAfter(tasks, first, init)
      && Remembers(AfterExchanges(tasks, first + init), more[|more| - 1])
  }

  lemma {:induction false} ConversationBegins(tasks: Tasks, id: TaskId, first: seq<Exchange>, more: seq<Exchange>)
    requires Conversation(tasks, id, first + more)
    ensures Conversation(tasks, id, first)
    decreases |more|
  {
    if more == [] {
      assert first + more == first;
    } else {
      assert (first + more)[..|first + more| - 1] == first + more[..|more| - 1];
      ConversationBegins(tasks, id, first, more[..|more| - 1]);
    }
  }

  lemma {:induction false} HistoryOnlyGrows(tasks: Tasks, id: TaskId, first: seq<Exchange>, more: seq<Exchange>)
    requires Conversation(tasks, id, first + more) && RememberAfter(tasks, first, more)
    ensures HistoryAt(AfterExchanges(tasks, first), id) <= HistoryAt(AfterExchanges(tasks, first + more), id)
    decreases |more|
  {
    if more == [] {
      assert first + more == first;
    } else {
      var init, last := more[..|more| - 1], more[|more| - 1];
      assert (first + more)[..|first + more| - 1] == first + init;
      HistoryOnlyGrows(tasks, id, first, init);
      TurnRemembers(AfterExchanges(tasks, first + init), last);
    }
  }

  /** Every user message stays in the stored history, in the order sent, through
      all turns that keep anything and whose executors' snapshots, if they send
      any, carry the history on: it ends the history the turn was prepared with,
      which begins the history after that turn and every later one. */
  lemma UserMessagesStayInOrder(
      tasks: Tasks, id: TaskId, exchanges: seq<Exchange>, exchange: Exchange, more: seq<Exchange>)
    requires Conversation(tasks, id, exchanges + [exchange] + more)
    requires Remembers(AfterExchanges(tasks, exchanges), exchange)
    requires RememberAfter(tasks, exchanges + [exchange], more)
    ensures var before := AfterExchanges(tasks, exchanges);
            var after := HistoryAt(AfterExchanges(tasks, exchanges + [exchange]), id);
            && HistoryAt(before, id) <= after <= HistoryAt(AfterExchanges(tasks, exchanges + [exchange] + more), id)
            && (Keeps(before, exchange) ==> Prior(before, exchange) <= after)
  {
    ConversationBegins(tasks, id, exchanges + [exchange], more);
    assert (exchanges + [exchange])[..|exchanges|] == exchanges;
    TurnRemembers(AfterExchanges(tasks, exchanges), exchange);
    HistoryOnlyGrows(tasks, id, exchanges + [exchange], more);
  }

  // ---------------------------------------------------------------------
  // Conversations exist
  // ---------------------------------------------------------------------

  /** The message opens the task when there is none, and otherwise names it and
      no other context; and no store operation fails. */
  ghost predicate Welcome(tasks: Tasks, exchange: Exchange) {
    var id := exchange.Target();
    && exchange.arrival.getFault.None? && exchange.arrival.createFault.None?
    && (id !in tasks ==> exchange.message.taskId.None?)
    && (id in tasks ==>
          && !tasks[id].Terminal()
          && (exchange.message.contextId.None? || exchange.message.contextId == Some(tasks[id].contextId)))
  }

  /** The agent answers with one status that does not end the task. */
  ghost predicate AnsweredWith(exchange: Exchange, update: StatusUpdate, env: Environment) {
    && exchange.turns == [Turn(Ok(StatusEvent(update)), None, env, None)]
    && SavesSucceed(env) && !IsTerminal(update.status.state)
  }

  lemma AnswerIsApplied(tasks: Tasks, exchange: Exchange, update: StatusUpdate, env: Environment)
    requires Accepted(tasks, exchange) && AnsweredWith(exchange, update, env)
    requires exchange.Target() in tasks ==> IsStamped(tasks[exchange.Target()])
    ensures var d := Loop(tasks, exchange);
            && NoSnapshots(d.applied) && AnyTaskEvent(d.applied) && d.failure.None?
            && exchange.Target() in d.tasks && d.tasks[exchange.Target()].status.state == update.status.state
  {
    var (task, begun) := ReadiedBy(tasks, exchange).value;
    var turn := exchange.turns[0];
    assert exchange.turns[..0] == [];
    assert AfterTurns(Begun(task, begun), exchange.turns[..0]) == Begun(task, begun);
    assert Loop(tasks, exchange) == AfterTurn(Begun(task, begun), turn);
    SaveSucceeds(begun, task.id, env);
    assert Loop(tasks, exchange).applied[0].StatusEvent?;
  }

  /** A conversation whose task has not ended, or does not exist yet, can go on:
      a welcome message answered with a status that does not end the task makes a
      longer one, keeps the message, and leaves the task live. */
  lemma ConversationContinues(
      tasks: Tasks, id: TaskId, exchanges: seq<Exchange>, exchange: Exchange, update: StatusUpdate, env: Environment)
    requires Conversation(tasks, id, exchanges) && exchange.Target() == id
    requires Welcome(AfterExchanges(tasks, exchanges), exchange) && AnsweredWith(exchange, update, env)
    ensures Conversation(tasks, id, exchanges + [exchange]) && Keeps(AfterExchanges(tasks, exchanges), exchange)
    ensures var after := AfterExchanges(tasks, exchanges + [exchange]);
            id in after && !after[id].Terminal()
  {
    assert (exchanges + [exchange])[..|exchanges|] == exchanges;
    var before := AfterExchanges(tasks, exchanges);
    HistoryAccumulates(tasks, id, exchanges);
    assert Accepted(before, exchange);
    AnswerIsApplied(before, exchange, update, env);
  }

  // ---------------------------------------------------------------------
  // What is accepted, and what a turn starts from
  // ---------------------------------------------------------------------

  /** With no store fault, a message that names a task is accepted exactly when the
      task is stored, has not ended and is of the context the message names, if it
      names one; one that names no task is accepted when its new id is free or,
      again, stands for such a task. */
  lemma AcceptedExactly(tasks: Tasks, exchange: Exchange)
    requires exchange.arrival.getFault.None? && exchange.arrival.createFault.None?
    ensures var id := exchange.Target();
            Accepted(tasks, exchange)
            <==> if id in tasks then
                   && tasks[id].status.state !in {Completed, Failed, Canceled, Rejected}
                   && (exchange.message.contextId.Some? ==> exchange.message.contextId == Some(tasks[id].contextId))
                 else exchange.message.taskId.None?
  {
  }

  /** A refused message changes nothing, and is told why. */
  lemma RefusalTellsWhy(tasks: Tasks, exchange: Exchange)
    requires exchange.arrival.getFault.None? && exchange.arrival.createFault.None? && !Accepted(tasks, exchange)
    ensures AfterExchange(tasks, exchange) == tasks
    ensures var id := exchange.Target();
            ReadiedBy(tasks, exchange).error.code
            == if id !in tasks then TASK_NOT_FOUND
               else if tasks[id].Terminal() then UNSUPPORTED_OPERATION else INVALID_PARAMS
  {
  }

  /** A new task is SUBMITTED, in the message's context or a new one, and holds the
      message alone; a continued one is as stored but for its history. */
  lemma ReadiedExactly(tasks: Tasks, exchange: Exchange)
    requires Accepted(tasks, exchange)
    ensures var id := exchange.Target();
            var (task, begun) := ReadiedBy(tasks, exchange).value;
            if id in tasks then
              begun == tasks && task.(history := tasks[id].history) == tasks[id] && task.history == Some(Prior(tasks, exchange))
            else
              && begun == tasks[id := task]
              && task.id == id && task.status.state == Submitted && task.status.message.None?
              && task.contextId == exchange.message.contextId.UnwrapOr(exchange.newContextId)
              && task.history == Some([exchange.message]) && task.artifacts.None? && task.metadata.None?
  {
    var id := exchange.Target();
    if id in tasks {
      assert HistoryOf(tasks[id]) + Asked(tasks[id]) + [exchange.message]
          == HistoryOf(tasks[id]) + (Asked(tasks[id]) + [exchange.message]);
    }
  }

  /** No two messages of the history have one id. */
  ghost predicate DistinctIds(history: seq<Message>) {
    forall i, j :: 0 <= i < j < |history| ==> history[i].messageId != history[j].messageId
  }

  /** The agent's last word is not added a second time: with a user's message of a
      new id, ids that are distinct in the stored history are distinct in the one
      the turn is prepared with. */
  lemma PreparedIdsAreDistinct(tasks: Tasks, exchange: Exchange)
    requires DistinctIds(HistoryAt(tasks, exchange.Target()))
    requires !Seen(HistoryAt(tasks, exchange.Target()), exchange.message.messageId)
    requires exchange.Target() in tasks && tasks[exchange.Target()].status.message.Some? ==>
               exchange.message.messageId != tasks[exchange.Target()].status.message.value.messageId
    ensures DistinctIds(Prior(tasks, exchange))
  {
    var history, asked := HistoryAt(tasks, exchange.Target()), AskedAt(tasks, exchange.Target());
    var prior := Prior(tasks, exchange);
    assert forall k :: 0 <= k < |history| ==> prior[k] == history[k];
    assert |asked| <= 1 && prior[|prior| - 1] == exchange.message;
    assert asked != [] ==> prior[|history|] == asked[0];
  }
}
