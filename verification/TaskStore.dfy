/** The task store as the handler uses it. Whether an operation fails is the
    caller's parameter, so that what is proved holds for every store whose
    update either writes the task or reports an error
    (a2a-server/src/task_store/store.rs). */
module TaskStores {
  import opened Wrappers
  import opened Types
  import opened TaskFold

  /** A store keeps each task under its own id. */
  type Tasks = tasks: map<TaskId, Task> | forall id :: id in tasks ==> tasks[id].id == id

  /** What the store and the clock answer while one event is applied. */
  datatype Environment = Environment(
    now: Timestamp,
    getFault: Option<A2AError>,
    updateFault: Option<A2AError>,
    createFault: Option<A2AError>)

  predicate SavesSucceed(env: Environment) {
    env.updateFault.None? && env.createFault.None?
  }

  function Fetched(tasks: Tasks, id: TaskId, env: Environment): Result<Option<Task>, A2AError> {
    if env.getFault.Some? then Err(env.getFault.value)
    else Ok(if id in tasks then Some(tasks[id]) else None)
  }

  function UpdateError(tasks: Tasks, id: TaskId, env: Environment): Option<A2AError> {
    if env.updateFault.Some? then env.updateFault
    else if id !in tasks then Some(Error(TASK_NOT_FOUND))
    else None
  }

  function CreateError(tasks: Tasks, id: TaskId, env: Environment): Option<A2AError> {
    if env.createFault.Some? then env.createFault
    else if id in tasks then Some(Error(INTERNAL_ERROR))
    else None
  }

  /** The error of `save_task`: an update that finds no task creates it instead. */
  function SaveError(tasks: Tasks, id: TaskId, env: Environment): Option<A2AError> {
    var failed := UpdateError(tasks, id, env);
    if failed.Some? && failed.value.code == TASK_NOT_FOUND then CreateError(tasks, id, env) else failed
  }

  /** A save that meets no fault stores the task whether or not it was there. */
  lemma SaveSucceeds(tasks: Tasks, id: TaskId, env: Environment)
    ensures SavesSucceed(env) ==> SaveError(tasks, id, env).None?
  {
  }

  /** The task as `begin_cancel` leaves it, or why it refuses. */
  function Canceling(tasks: Tasks, id: TaskId, env: Environment): Result<Task, A2AError> {
    if env.updateFault.Some? then Err(env.updateFault.value)
    else if id !in tasks then Err(Error(TASK_NOT_FOUND))
    else if tasks[id].Terminal() then Err(Error(TASK_NOT_CANCELABLE))
    else Ok(tasks[id].(status := tasks[id].status.(state := Canceled, timestamp := Some(env.now))))
  }

  class TaskStore {
    var tasks: Tasks

    constructor ()
      ensures tasks == map[]
    {
      tasks := map[];
    }

    method Create(task: Task, env: Environment) returns (failed: Option<A2AError>)
      modifies this
      ensures failed == CreateError(old(tasks), task.id, env)
      ensures tasks == if failed.None? then old(tasks)[task.id := task] else old(tasks)
    {
      if env.createFault.Some? { return env.createFault; }
      if task.id in tasks { return Some(Error(INTERNAL_ERROR)); }
      tasks := tasks[task.id := task];
      return None;
    }

    method Update(task: Task, env: Environment) returns (failed: Option<A2AError>)
      modifies this
      ensures failed == UpdateError(old(tasks), task.id, env)
      ensures tasks == if failed.None? then old(tasks)[task.id := task] else old(tasks)
    {
      if env.updateFault.Some? { return env.updateFault; }
      if task.id !in tasks { return Some(Error(TASK_NOT_FOUND)); }
      tasks := tasks[task.id := task];
      return None;
    }

    method Get(id: TaskId, env: Environment) returns (found: Result<Option<Task>, A2AError>)
      ensures found == Fetched(tasks, id, env)
    {
      if env.getFault.Some? { return Err(env.getFault.value); }
      return Ok(if id in tasks then Some(tasks[id]) else None);
    }

    /** `begin_cancel`: check and transition in one step. */
    method BeginCancel(id: TaskId, env: Environment) returns (begun: Result<Task, A2AError>)
      modifies this
      ensures begun == Canceling(old(tasks), id, env)
      ensures tasks == if begun.Ok? then old(tasks)[id := begun.value] else old(tasks)
    {
      if env.updateFault.Some? { return Err(env.updateFault.value); }
      if id !in tasks { return Err(Error(TASK_NOT_FOUND)); }
      var task := tasks[id];
      if task.Terminal() { return Err(Error(TASK_NOT_CANCELABLE)); }
      task := task.(status := task.status.(state := Canceled, timestamp := Some(env.now)));
      tasks := tasks[id := task];
      return Ok(task);
    }

    /** `save_task`: stamps the status, updates, and creates what is not there. */
    method Save(task: Task, env: Environment) returns (saved: Result<Task, A2AError>)
      modifies this
      ensures match SaveError(old(tasks), task.id, env)
              case Some(error) => saved == Err(error) && tasks == old(tasks)
              case None => saved == Ok(Stamped(task, env.now)) && tasks == old(tasks)[task.id := Stamped(task, env.now)]
    {
      var stamped := task;
      if stamped.status.timestamp.None? {
        stamped := stamped.(status := stamped.status.(timestamp := Some(env.now)));
      }
      var failed := Update(stamped, env);
      if failed.Some? {
        if failed.value.code != TASK_NOT_FOUND { return Err(failed.value); }
        failed := Create(stamped, env);
        if failed.Some? { return Err(failed.value); }
      }
      return Ok(stamped);
    }

    /** `apply_event_to_task`: the given task, or the stored one, after one event. */
    method Apply(current: Option<Task>, event: StreamResponse, env: Environment)
      returns (applied: Result<Option<Task>, A2AError>)
      modifies this
      ensures (tasks, applied) == AppliedToStore(old(tasks), current, event, env)
    {
      match event
      case TaskEvent(task) =>
        var saved := Save(task, env);
        return if saved.Ok? then Ok(Some(saved.value)) else Err(saved.error);
      case StatusEvent(update) =>
        var base := Base(current, update.taskId, env);
        if base.Err? { return Err(base.error); }
        var task := base.value;
        task := task.(status := update.status);
        var saved := Save(task, env);
        return if saved.Ok? then Ok(Some(saved.value)) else Err(saved.error);
      case ArtifactEvent(update) =>
        var base := Base(current, update.taskId, env);
        if base.Err? { return Err(base.error); }
        var artifacts := base.value.artifacts.UnwrapOr([]);
        var i := 0;
        while i < |artifacts| && artifacts[i].artifactId != update.artifact.artifactId
          invariant 0 <= i <= |artifacts|
          invariant forall j :: 0 <= j < i ==> artifacts[j].artifactId != update.artifact.artifactId
        {
          i := i + 1;
        }
        assert i == IndexOf(artifacts, update.artifact.artifactId);
        if update.append.UnwrapOr(false) {
          if i == |artifacts| { return Err(Error(INVALID_AGENT_RESPONSE)); }
          artifacts := artifacts[i := Extended(artifacts[i], update.artifact)];
        } else if i < |artifacts| {
          artifacts := artifacts[i := update.artifact];
        } else {
          artifacts := artifacts + [update.artifact];
        }
        var saved := Save(base.value.(artifacts := Some(artifacts)), env);
        return if saved.Ok? then Ok(Some(saved.value)) else Err(saved.error);
      case MessageEvent(_) =>
        return Ok(current);
    }

    method Base(current: Option<Task>, id: TaskId, env: Environment) returns (base: Result<Task, A2AError>)
      ensures base == BaseTask(tasks, current, id, env)
    {
      if current.Some? { return Ok(current.value); }
      var found := Get(id, env);
      if found.Err? { return Err(found.error); }
      return if found.value.Some? then Ok(found.value.value) else Err(Error(TASK_NOT_FOUND));
    }
  }

  /** The task an update starts from: the one in hand, else the stored one. */
  function BaseTask(tasks: Tasks, current: Option<Task>, id: TaskId, env: Environment): Result<Task, A2AError> {
    if current.Some? then Ok(current.value)
    else
      match Fetched(tasks, id, env)
      case Err(error) => Err(error)
      case Ok(None) => Err(Error(TASK_NOT_FOUND))
      case Ok(Some(task)) => Ok(task)
  }

  /** The task an event makes of its base task, to be saved. */
  function Proposed(tasks: Tasks, current: Option<Task>, event: StreamResponse, env: Environment): Result<Task, A2AError>
    requires !event.MessageEvent?
  {
    var base :=
      match event
      case TaskEvent(task) => Ok(task)
      case StatusEvent(update) => BaseTask(tasks, current, update.taskId, env)
      case ArtifactEvent(update) => BaseTask(tasks, current, update.taskId, env);
    if base.Err? then base
    else if Applied(base.value, event).None? then Err(Error(INVALID_AGENT_RESPONSE))
    else Ok(Applied(base.value, event).value)
  }

  /** Store and outcome after one event: the event applied by `TaskFold` to the
      base task, stamped and saved; on any error the store is as it was. */
  function AppliedToStore(tasks: Tasks, current: Option<Task>, event: StreamResponse, env: Environment)
    : (Tasks, Result<Option<Task>, A2AError>)
  {
    if event.MessageEvent? then (tasks, Ok(current))
    else
      match Proposed(tasks, current, event, env)
      case Err(error) => (tasks, Err(error))
      case Ok(next) =>
        match SaveError(tasks, next.id, env)
        case Some(error) => (tasks, Err(error))
        case None =>
          var saved := Stamped(next, env.now);
          (tasks[saved.id := saved], Ok(Some(saved)))
  }

  /** Applying an event writes the task proposed, stamped, or nothing. */
  lemma SavesOneTask(tasks: Tasks, current: Option<Task>, event: StreamResponse, env: Environment)
    ensures var after := AppliedToStore(tasks, current, event, env).0;
            after == tasks
            || (&& !event.MessageEvent?
                && var proposed := Proposed(tasks, current, event, env);
                   && proposed.Ok? && SaveError(tasks, proposed.value.id, env).None?
                   && after == tasks[proposed.value.id := Stamped(proposed.value, env.now)])
  {
  }

  /** Exactly when a save fails, and how: with the fault of the update, unless that
      is that there is no such task, which also a task that is not stored is; then
      the task is created, and the save fails with the fault of the creation, or
      because the task is there after all. */
  lemma SaveFailsExactly(tasks: Tasks, id: TaskId, env: Environment)
    ensures var refused := env.updateFault.Some? && env.updateFault.value.code != TASK_NOT_FOUND;
            var missing := id !in tasks || env.updateFault.Some?;
            && (refused ==> SaveError(tasks, id, env) == env.updateFault)
            && (!refused && missing && env.createFault.Some? ==> SaveError(tasks, id, env) == env.createFault)
            && (!refused && missing && env.createFault.None? ==> (SaveError(tasks, id, env).None? <==> id !in tasks))
            && (!refused && !missing ==> SaveError(tasks, id, env).None?)
  {
  }
}
