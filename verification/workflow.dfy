/** The data shared by the engine, its stores and the node handlers: definitions, tasks, audit
    records, durable snapshots, handler results and the host's answers during one command. */
module Workflow {

  /** Text that is only ever compared with other text: identities, kinds and outcomes. */
  type Name = string

  const EMPTY: Name := ""

  type ActorID = Name
  type InstanceID = Name
  type TaskID = Name
  type NodeID = Name
  type Outcome = Name
  /** Nanoseconds since the zero time; the order of timestamps is never relied upon. */
  type Time = int

  const ZERO_TIME: Time := 0
  const UNIX_EPOCH: Time := 62_135_596_800_000_000_000
  /** Dates with a text form: from the first day of year 0 to the last of year 9999. */
  const DAY: Time := 86_400_000_000_000
  const FIRST_DATE: Time := -366 * DAY
  const END_OF_DATES: Time := 3_652_059 * DAY

  predicate Dateable(at: Time) { FIRST_DATE <= at < END_OF_DATES }

  const MAX_UINT64 := 0xFFFF_FFFF_FFFF_FFFF

  const RESERVED_COMMAND := "transferred"
  const TASK_ACTION_PREFIX := "task."

  /** Stable audit actions; handler commands keep their own name. */
  datatype Action =
    | InstanceStarted | NodeEntered | NodeRejected
    | InstanceCompleted | InstanceRejected | InstanceWithdrawn | InstanceReturned
    | TaskTransferred | TaskCommand(name: string)

  /** The text persisted for an action. */
  function ActionText(action: Action): string {
    match action
    case InstanceStarted => "instance.started"
    case NodeEntered => "node.entered"
    case NodeRejected => "node.rejected"
    case InstanceCompleted => "instance.completed"
    case InstanceRejected => "instance.rejected"
    case InstanceWithdrawn => "instance.withdrawn"
    case InstanceReturned => "instance.returned"
    case TaskTransferred => "task.transferred"
    case TaskCommand(name) => TASK_ACTION_PREFIX + name
  }

  /** A handler command's text gives its name back, and is one of the built-in texts only for the reserved name. */
  lemma CommandTexts(name: string, other: Action)
    ensures other.TaskCommand? && ActionText(other) == ActionText(TaskCommand(name)) ==> other.name == name
    ensures !other.TaskCommand? ==>
              (ActionText(other) == ActionText(TaskCommand(name))
               <==> other.TaskTransferred? && name == RESERVED_COMMAND)
  {
    var text := ActionText(TaskCommand(name));
    var prefix := |TASK_ACTION_PREFIX|;
    assert text[prefix..] == name;
    assert text[0] == 't' && text[4] == '.';
    if other.TaskCommand? {
      assert ActionText(other)[prefix..] == other.name;
    } else if other.TaskTransferred? {
      assert ActionText(other) == TASK_ACTION_PREFIX + RESERVED_COMMAND;
      assert ActionText(other)[prefix..] == RESERVED_COMMAND;
    } else {
      assert ActionText(other)[0] == 'i' || ActionText(other)[0] == 'n';
    }
  }

  /** A position and a character that no other built-in text has there. */
  function Mark(action: Action): (nat, char) {
    match action
    case InstanceStarted => (9, 's')
    case NodeEntered => (5, 'e')
    case NodeRejected => (5, 'r')
    case InstanceCompleted => (9, 'c')
    case InstanceRejected => (11, 'j')
    case InstanceWithdrawn => (9, 'w')
    case InstanceReturned => (11, 't')
    case _ => (0, 't')
  }

  /** The eight built-in texts are pairwise different. */
  lemma FixedTexts(a: Action, b: Action)
    requires !a.TaskCommand? && !b.TaskCommand? && ActionText(a) == ActionText(b)
    ensures a == b
  {
    assert Marked(a) && Marked(b);
  }

  predicate Marked(action: Action) {
    Mark(action).0 < |ActionText(action)| && ActionText(action)[Mark(action).0] == Mark(action).1
  }

  /** Persisted action texts identify actions exactly because one handler command name is reserved. */
  lemma ActionTextCollides(a: Action, b: Action)
    ensures a != b && ActionText(a) == ActionText(b) <==>
            || (a.TaskTransferred? && b == TaskCommand(RESERVED_COMMAND))
            || (b.TaskTransferred? && a == TaskCommand(RESERVED_COMMAND))
  {
    hide ActionText;
    if a.TaskCommand? {
      CommandTexts(a.name, b);
    } else if b.TaskCommand? {
      CommandTexts(b.name, a);
    } else if ActionText(a) == ActionText(b) {
      FixedTexts(a, b);
    }
  }

  /** Opaque bytes together with what JSON makes of them: one unambiguous value, a value by syntax alone that the
      strict boundary refuses (repeated member names, unpaired surrogates), or no value at all. */
  datatype RawMessage = Absent | Json(text: string) | Ambiguous(text: string) | Malformed(text: string)

  /** The strict boundary for business data, payloads and node state. */
  predicate ValidJson(raw: RawMessage) { raw.Absent? || raw.Json? }

  /** The plain syntax check on node configurations. */
  predicate JsonSyntax(raw: RawMessage) { !raw.Malformed? }

  datatype Error =
    | InvalidDefinition | RouteNotFound | HandlerNotFound
    | InvalidStartRequest | InvalidCommand | InvalidWithdrawRequest
    | InvalidReturnRequest | InvalidReturnTarget | InvalidTransferRequest
    | InstanceNotRunning | TaskNotTransferable | InvalidNodeResult
    | HandlerFailed | PolicyDenied | EntropyFailed
    | InvalidStoreInput | InstanceNotFound | InstanceExists | VersionConflict | VersionOverflow
    | StatementRefused | InvalidProjectionQuery | EncodingFailed

  datatype Option<+T> = None | Some(value: T)

  datatype Result<+T> = Success(value: T) | Failure(error: Error) {
    predicate IsFailure() { Failure? }
    function PropagateFailure<U>(): Result<U>
      requires Failure?
    {
      Failure(error)
    }
    function Extract(): T
      requires Success?
    {
      value
    }
  }

  /** Turns a checked condition into a result, so that specifications read like the guards they model. */
  function Need(condition: bool, error: Error): Result<()> {
    if condition then Success(()) else Failure(error)
  }

  /** Node kinds: the empty text, the two control kinds and the registry keys of business handlers. */
  datatype Kind = NoKind | Start | End | Registered(key: KindName)

  /** A registry key: any text but the empty one and the two control kinds. */
  type KindName = text: string | text !in {"", "start", "end"} witness "approval"

  datatype NodeDefinition = NodeDefinition(id: NodeID, kind: Kind, config: RawMessage)

  datatype Edge = Edge(source: NodeID, target: NodeID, outcome: Outcome)

  datatype Definition = Definition(id: Name, version: nat, nodes: seq<NodeDefinition>, edges: seq<Edge>)

  datatype InstanceStatus = Running | Completed | Rejected | Withdrawn

  /** Status text is open: a handler may propose any string, so the unsupported ones are values too. */
  datatype TaskStatus = UnknownStatus | Active | Done | Closed | Unsupported(text: StatusName)

  /** Any text that none of the known statuses has. */
  type StatusName = text: string | text !in {"", "active", "completed", "closed"} witness "paused"

  /** The text of a task status; different statuses have different texts. */
  function StatusText(status: TaskStatus): string {
    match status
    case UnknownStatus => ""
    case Active => "active"
    case Done => "completed"
    case Closed => "closed"
    case Unsupported(text) => text
  }

  lemma StatusTexts(a: TaskStatus, b: TaskStatus)
    ensures StatusText(a) == StatusText(b) ==> a == b
    ensures StatusText(a) == "" <==> a.UnknownStatus?
  {
    assert |StatusText(Active)| == 6 && |StatusText(Done)| == 9 && StatusText(Active)[0] == 'a'
        && StatusText(Closed)[0] == 'c';
  }

  datatype Task = Task(id: TaskID, nodeID: NodeID, assignee: ActorID, status: TaskStatus, outcome: Outcome)

  datatype AuditRecord = AuditRecord(
    action: Action,
    nameonly instanceID: InstanceID := EMPTY,
    nameonly nodeID: NodeID := EMPTY,
    nameonly targetNodeID: NodeID := EMPTY,
    nameonly taskID: TaskID := EMPTY,
    nameonly actorID: ActorID := EMPTY,
    nameonly previousAssignee: ActorID := EMPTY,
    nameonly newAssignee: ActorID := EMPTY,
    nameonly reason: string := "",
    nameonly nodeState: RawMessage := Absent,
    nameonly at: Time := ZERO_TIME)

  /** A detached copy of one workflow execution: the value that crosses the store boundary. */
  datatype Snapshot = Snapshot(
    id: InstanceID,
    definition: Definition,
    status: InstanceStatus,
    initiator: ActorID,
    currentNodeID: NodeID,
    data: RawMessage,
    nodeState: RawMessage,
    tasks: seq<Task>,
    audit: seq<AuditRecord>,
    version: nat)

  datatype Disposition =
    | UnknownDisposition | Waiting | Continue | Reject
    | UnsupportedDisposition(text: DispositionName)

  type DispositionName = text: string | text !in {"", "waiting", "continue", "reject"} witness "later"

  datatype NodeResult = NodeResult(disposition: Disposition, outcome: Outcome, state: RawMessage, tasks: seq<Task>)

  datatype StartRequest = StartRequest(id: InstanceID, initiator: ActorID, data: RawMessage)

  datatype Command = Command(instanceID: InstanceID, taskID: TaskID, actorID: ActorID, name: string,
                             payload: RawMessage)

  /** The four commands that load and conditionally save one existing instance. */
  datatype Request =
    | Handle(command: Command)
    | Withdraw(instanceID: InstanceID, actorID: ActorID)
    | Return(instanceID: InstanceID, actorID: ActorID, targetNodeID: NodeID, reason: string)
    | Transfer(instanceID: InstanceID, taskID: TaskID, actorID: ActorID, newAssignee: ActorID, reason: string)

  /** What the registry answers for a node kind and its configuration. */
  datatype Preparation = NoHandler | BadConfig | Prepared

  /** Every answer that code outside the engine gives while one command runs.

      A command activates each node at most once, calls at most one handler command and asks at most
      one policy, so an answer per node, one handler answer and one verdict describe arbitrary and
      stateful hosts. Task identities are drawn from the front of `ids`; running out of them is an
      entropy failure. The record appended at audit position k is stamped with `clock(k)`. */
  datatype Host = Host(
    prepare: (Kind, RawMessage) -> Preparation,
    activate: NodeID -> Result<NodeResult>,
    handle: Result<NodeResult>,
    authorized: bool,
    ids: seq<TaskID>,
    clock: nat -> Time)

  /** White space in the sense of Unicode, as trimmed from a reason before it is judged blank. */
  predicate IsSpace(c: char) {
    c in {' ', '\t', '\n', '\r', '\U{000B}', '\U{000C}', '\U{0085}', '\U{00A0}', '\U{1680}',
          '\U{2028}', '\U{2029}', '\U{202F}', '\U{205F}', '\U{3000}'}
    || '\U{2000}' <= c <= '\U{200A}'
  }

  predicate Blank(text: string) { forall c | c in text :: IsSpace(c) }
}
