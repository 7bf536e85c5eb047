/** The protocol's own values: tasks, messages, artifacts and streamed events
    (a2a/src/types.rs, a2a/src/event.rs, a2a/src/errors.rs). */
module Types {
  import opened Wrappers

  type TaskId = string
  type ArtifactId = string

  newtype Byte = b: int | 0 <= b < 256

  // ---------------------------------------------------------------------
  // Errors
  // ---------------------------------------------------------------------

  const TASK_NOT_FOUND := -32001
  const TASK_NOT_CANCELABLE := -32002
  const UNSUPPORTED_OPERATION := -32004
  const INVALID_AGENT_RESPONSE := -32006
  const INVALID_REQUEST := -32600
  const INVALID_PARAMS := -32602
  const INTERNAL_ERROR := -32603

  datatype A2AError = A2AError(code: int, message: string)

  function Error(code: int): A2AError {
    A2AError(code, "")
  }

  // ---------------------------------------------------------------------
  // JSON values
  // ---------------------------------------------------------------------

  /** An IEEE 754 binary64 value; finite values other than -0.0 are held as the
      real number they denote. */
  datatype Double = Finite(v: real) | NegativeZero | Infinity(negative: bool) | NaN

  /** A JSON number holds no infinity and no NaN. */
  type FiniteDouble = d: Double | d.Finite? || d.NegativeZero? witness NegativeZero

  /** Integers a JSON number can hold: i64 and u64 together. */
  type JsonInt = n: int | -0x8000_0000_0000_0000 <= n < 0x1_0000_0000_0000_0000

  datatype Number = Int(n: JsonInt) | Float(d: FiniteDouble)

  datatype Json =
    | Null
    | Bool(b: bool)
    | Number(number: Number)
    | Str(s: string)
    | Array(items: seq<Json>)
    | Object(fields: map<string, Json>)

  type Metadata = map<string, Json>

  // ---------------------------------------------------------------------
  // Timestamps
  // ---------------------------------------------------------------------

  // The range of chrono's `DateTime<Utc>`. Only that it contains protobuf's range matters here.
  const CHRONO_MIN_SECONDS := -8_334_601_228_800
  const CHRONO_MAX_SECONDS := 8_210_266_876_799

  /** Whether chrono has an instant with these fields; a second in excess of
      the nanoseconds of one stands for a leap second. */
  predicate IsInstant(seconds: int, nanos: int) {
    && CHRONO_MIN_SECONDS <= seconds <= CHRONO_MAX_SECONDS
    && 0 <= nanos < 2_000_000_000
    && (nanos >= 1_000_000_000 ==> seconds % 60 == 59)
  }

  datatype Instant = Instant(seconds: int, nanos: int)

  type Timestamp = t: Instant | IsInstant(t.seconds, t.nanos) witness Instant(0, 0)

  // ---------------------------------------------------------------------
  // Messages, artifacts, tasks
  // ---------------------------------------------------------------------

  datatype Role = RoleUnspecified | User | Agent

  datatype TaskState =
    | StateUnspecified
    | Submitted
    | Working
    | Completed
    | Failed
    | Canceled
    | InputRequired
    | Rejected
    | AuthRequired

  predicate IsTerminal(state: TaskState) {
    state in {Completed, Failed, Canceled, Rejected}
  }

  datatype PartContent = Text(text: string) | Raw(raw: seq<Byte>) | Url(url: string) | Data(data: Json)

  datatype Part = Part(
    content: PartContent,
    filename: Option<string>,
    mediaType: Option<string>,
    metadata: Option<Metadata>)

  datatype Message = Message(
    messageId: string,
    contextId: Option<string>,
    taskId: Option<TaskId>,
    role: Role,
    parts: seq<Part>,
    metadata: Option<Metadata>,
    extensions: Option<seq<string>>,
    referenceTaskIds: Option<seq<TaskId>>)

  datatype TaskStatus = TaskStatus(state: TaskState, message: Option<Message>, timestamp: Option<Timestamp>)

  datatype Artifact = Artifact(
    artifactId: ArtifactId,
    name: Option<string>,
    description: Option<string>,
    parts: seq<Part>,
    metadata: Option<Metadata>,
    extensions: Option<seq<string>>)

  datatype Task = Task(
    id: TaskId,
    contextId: string,
    status: TaskStatus,
    artifacts: Option<seq<Artifact>>,
    history: Option<seq<Message>>,
    metadata: Option<Metadata>)
  {
    predicate Terminal() {
      IsTerminal(status.state)
    }
  }

  // ---------------------------------------------------------------------
  // Streamed events
  // ---------------------------------------------------------------------

  datatype StatusUpdate = StatusUpdate(
    taskId: TaskId, contextId: string, status: TaskStatus, metadata: Option<Metadata>)

  datatype ArtifactUpdate = ArtifactUpdate(
    taskId: TaskId,
    contextId: string,
    artifact: Artifact,
    append: Option<bool>,
    lastChunk: Option<bool>,
    metadata: Option<Metadata>)

  datatype StreamResponse =
    | TaskEvent(task: Task)
    | MessageEvent(message: Message)
    | StatusEvent(status: StatusUpdate)
    | ArtifactEvent(artifact: ArtifactUpdate)

  predicate IsTerminalEvent(event: StreamResponse) {
    match event
    case TaskEvent(task) => task.Terminal()
    case StatusEvent(update) => IsTerminal(update.status.state)
    case _ => false
  }

  type Outcome = Result<StreamResponse, A2AError>

  /** What ends a subscription: an error or a terminal event. */
  predicate EndsStream(outcome: Outcome) {
    outcome.Err? || IsTerminalEvent(outcome.value)
  }
}
