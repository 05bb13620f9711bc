/** What each command does to a snapshot, as functions of the snapshot, the request and the host's answers. */
module Transitions {
  import opened Workflow
  import opened Graphs
  import opened Compiler

  /* Facts */

  function Append(s: Snapshot, record: AuditRecord, host: Host): Snapshot {
    s.(audit := s.audit + [record.(at := host.clock(|s.audit|))])
  }

  function EnterNode(s: Snapshot, id: NodeID, host: Host): Snapshot {
    Append(s.(currentNodeID := id, nodeState := Absent), AuditRecord(NodeEntered, nodeID := id), host)
  }

  function Complete(s: Snapshot, host: Host): Snapshot {
    Append(s.(status := Completed), AuditRecord(InstanceCompleted, nodeID := s.currentNodeID), host)
  }

  function RejectNode(s: Snapshot, host: Host): Snapshot {
    Append(s, AuditRecord(NodeRejected, nodeID := s.currentNodeID), host)
  }

  function RejectInstance(s: Snapshot, host: Host): Snapshot {
    Append(s.(status := Rejected), AuditRecord(InstanceRejected, nodeID := s.currentNodeID), host)
  }

  function CloseTask(t: Task): Task { if t.status.Active? then t.(status := Closed) else t }

  function CloseActive(tasks: seq<Task>): (r: seq<Task>)
    ensures |r| == |tasks| && forall i :: 0 <= i < |r| ==> r[i] == CloseTask(tasks[i])
  {
    seq(|tasks|, i requires 0 <= i < |tasks| => CloseTask(tasks[i]))
  }

  function CloseActiveAt(tasks: seq<Task>, nodeID: NodeID): (r: seq<Task>)
    ensures |r| == |tasks|
    ensures forall i :: 0 <= i < |r| ==> r[i] == if tasks[i].nodeID == nodeID then CloseTask(tasks[i]) else tasks[i]
  {
    seq(|tasks|, i requires 0 <= i < |tasks| => if tasks[i].nodeID == nodeID then CloseTask(tasks[i]) else tasks[i])
  }

  function Bind(draft: Task, nodeID: NodeID, id: TaskID): Task { draft.(id := id, nodeID := nodeID) }

  /** One new task per draft, after all earlier ones, each with the next identity the generator yields. */
  function ActivateTasks(tasks: seq<Task>, nodeID: NodeID, drafts: seq<Task>, ids: seq<TaskID>): (r: Result<seq<Task>>)
    ensures r.Success? <==> |drafts| <= |ids|
    ensures r.Failure? ==> r.error == EntropyFailed
    ensures r.Success? ==> |r.value| == |tasks| + |drafts| && tasks <= r.value
    ensures r.Success? ==> forall i :: 0 <= i < |drafts| ==> r.value[|tasks| + i] == Bind(drafts[i], nodeID, ids[i])
  {
    if |ids| < |drafts| then Failure(EntropyFailed)
    else Success(tasks + seq(|drafts|, i requires 0 <= i < |drafts| => Bind(drafts[i], nodeID, ids[i])))
  }

  /** The first task with the identity, if any. */
  function FindTask(tasks: seq<Task>, id: TaskID): (r: Option<nat>)
    ensures r.Some? ==> r.value < |tasks| && tasks[r.value].id == id
    ensures r.Some? ==> forall i :: 0 <= i < r.value ==> tasks[i].id != id
    ensures r.None? ==> forall i :: 0 <= i < |tasks| ==> tasks[i].id != id
  {
    if tasks == [] then None
    else
      var earlier := FindTask(tasks[..|tasks| - 1], id);
      if earlier.Some? then earlier
      else if tasks[|tasks| - 1].id == id then Some(|tasks| - 1) else None
  }

  function TransferTask(tasks: seq<Task>, at: nat, newAssignee: ActorID, id: TaskID): seq<Task>
    requires at < |tasks|
  {
    tasks[at := tasks[at].(status := Closed)] + [Task(id, tasks[at].nodeID, newAssignee, Active, EMPTY)]
  }

  function NodeTasks(tasks: seq<Task>, nodeID: NodeID): (r: seq<Task>)
    ensures forall t :: t in r <==> t in tasks && t.nodeID == nodeID
  {
    if tasks == [] then []
    else
      var last := tasks[|tasks| - 1];
      NodeTasks(tasks[..|tasks| - 1], nodeID) + (if last.nodeID == nodeID then [last] else [])
  }

  /* Handler results */

  predicate FieldsAllowed(nodeID: NodeID, result: NodeResult) {
    && nodeID != EMPTY
    && ValidJson(result.state)
    && (result.disposition.Waiting? || result.disposition.Continue? || result.disposition.Reject?)
    && (result.disposition.Waiting? ==> result.outcome == EMPTY)
  }

  predicate DraftAllowed(t: Task) {
    t.id == EMPTY && t.assignee != EMPTY && t.status.Active? && t.outcome == EMPTY
  }

  predicate DraftsAllowed(tasks: seq<Task>) {
    forall i :: 0 <= i < |tasks| ==> DraftAllowed(tasks[i])
  }

  /** Waiting brings actionable drafts, routing brings none. */
  predicate ActivationAllowed(nodeID: NodeID, result: NodeResult) {
    && FieldsAllowed(nodeID, result)
    && (result.disposition.Waiting? <==> result.tasks != [])
    && DraftsAllowed(result.tasks)
  }

  predicate ReturnAllowed(nodeID: NodeID, result: NodeResult) {
    && FieldsAllowed(nodeID, result)
    && result.disposition.Waiting? && result.tasks != []
    && DraftsAllowed(result.tasks)
  }

  /** The last proposal for an identity wins. */
  function LastProposal(proposals: seq<Task>, id: TaskID): (r: Option<Task>)
    ensures r.Some? ==> r.value in proposals && r.value.id == id
    ensures r.None? <==> forall p :: p in proposals ==> p.id != id
  {
    if proposals == [] then None
    else if proposals[|proposals| - 1].id == id then Some(proposals[|proposals| - 1])
    else
      assert forall p :: p in proposals <==> p in proposals[..|proposals| - 1] || p == proposals[|proposals| - 1];
      LastProposal(proposals[..|proposals| - 1], id)
  }

  /** A historical task stays as it is; an active one keeps its identity and owner and only moves forward. */
  predicate LegalAdvance(current: Task, updated: Task) {
    && updated.id == current.id && updated.nodeID == current.nodeID && updated.assignee == current.assignee
    && (!current.status.Active? ==> updated == current)
    && (current.status.Active? ==>
          match updated.status
          case Active => updated.outcome == current.outcome
          case Done => updated.outcome != EMPTY
          case Closed => updated.outcome == current.outcome
          case _ => false)
  }

  ghost predicate Proposed(proposals: seq<Task>, t: Task) {
    LastProposal(proposals, t.id).Some? && LegalAdvance(t, LastProposal(proposals, t.id).value)
  }

  ghost predicate TaskAt(tasks: seq<Task>, nodeID: NodeID, id: TaskID) {
    exists t :: t in tasks && t.nodeID == nodeID && t.id == id
  }

  ghost predicate SameNodeTask(tasks: seq<Task>, nodeID: NodeID, i: nat, j: nat)
    requires i < |tasks| && j < |tasks|
  {
    tasks[i].nodeID == nodeID && tasks[j].nodeID == nodeID && tasks[i].id == tasks[j].id
  }

  /** A complete view of the node's tasks: every proposal names one of them, and the last proposal
      for each is a legal advance. A node holding one identity twice has no acceptable view. */
  ghost predicate ViewAllowed(tasks: seq<Task>, nodeID: NodeID, proposals: seq<Task>) {
    && (forall p :: p in proposals ==> p.id != EMPTY && p.nodeID == nodeID)
    && (forall p {:trigger TaskAt(tasks, nodeID, p.id)} :: p in proposals ==> TaskAt(tasks, nodeID, p.id))
    && (forall i :: 0 <= i < |tasks| && tasks[i].nodeID == nodeID ==> Proposed(proposals, tasks[i]))
    && (forall i: nat, j: nat {:trigger SameNodeTask(tasks, nodeID, i, j)} ::
          i < j < |tasks| ==> !SameNodeTask(tasks, nodeID, i, j))
  }

  function ReplaceTask(t: Task, nodeID: NodeID, proposals: seq<Task>): Task {
    if t.nodeID == nodeID && LastProposal(proposals, t.id).Some? then LastProposal(proposals, t.id).value else t
  }

  function ReplaceNodeTasks(tasks: seq<Task>, nodeID: NodeID, proposals: seq<Task>): (r: seq<Task>)
    ensures |r| == |tasks|
    ensures forall i :: 0 <= i < |r| ==> r[i] == ReplaceTask(tasks[i], nodeID, proposals)
  {
    seq(|tasks|, i requires 0 <= i < |tasks| => ReplaceTask(tasks[i], nodeID, proposals))
  }

  predicate ActiveAt(tasks: seq<Task>, nodeID: NodeID) {
    exists i :: 0 <= i < |tasks| && tasks[i].nodeID == nodeID && tasks[i].status.Active?
  }

  /** The result's fields are sound, its task view is complete and legal, and it waits exactly when work remains. */
  ghost predicate CommandAllowed(tasks: seq<Task>, nodeID: NodeID, result: NodeResult) {
    && FieldsAllowed(nodeID, result)
    && ViewAllowed(tasks, nodeID, result.tasks)
    && (result.disposition.Waiting? <==> ActiveAt(ReplaceNodeTasks(tasks, nodeID, result.tasks), nodeID))
  }

  /* Navigation */

  ghost function Below(d: Definition, id: NodeID): set<NodeID> {
    set x | x in NodeIDs(d) && Reaches(d.edges, id, x)
  }

  /** Following an edge of an accepted definition leaves strictly fewer nodes ahead. */
  lemma EdgeDescends(d: Definition, a: NodeID, b: NodeID)
    requires ValidGraph(d) && HasEdge(d.edges, a, b)
    ensures Below(d, b) < Below(d, a)
  {
    EdgeEnds(d, a, b);
    ReachesSelf(d.edges, a);
    NoWayBack(d.edges, a, b);
    forall x | x in Below(d, b) ensures x in Below(d, a) { StepReaches(d.edges, a, b, x); }
    assert a in Below(d, a) && a !in Below(d, b);
  }

  /** Follows routes from the current node until a node waits, an End completes or a node rejects. */
  ghost function Advance(d: Definition, s: Snapshot, outcome: Outcome, host: Host): Result<Snapshot>
    requires ValidGraph(d)
    decreases Below(d, s.currentNodeID)
  {
    var route := Route(d, s.currentNodeID, outcome);
    if route.None? then Failure(RouteNotFound) else
    var found := FindNode(d, route.value);
    if found.None? then Failure(InvalidDefinition) else
    var target := route.value;
    var entered := EnterNode(s, target, host);
    if found.value.kind == End then Success(Complete(entered, host)) else
    if found.value.kind == Start then Failure(HandlerNotFound) else
    var result :- host.activate(target);
    var _ :- Need(ActivationAllowed(target, result), InvalidNodeResult);
    var tasks :- ActivateTasks(entered.tasks, target, result.tasks, host.ids);
    var applied := entered.(tasks := tasks, nodeState := result.state);
    EdgeDescends(d, s.currentNodeID, target);
    if result.disposition.Waiting? then Success(applied)
    else if result.disposition.Continue? then Advance(d, applied, result.outcome, host)
    else if result.outcome != EMPTY then Advance(d, RejectNode(applied, host), result.outcome, host)
    else Success(RejectInstance(applied, host))
  }

  /* Commands */

  function TransferRecord(s: Snapshot, t: Task, actorID: ActorID, newAssignee: ActorID, reason: string): AuditRecord {
    AuditRecord(TaskTransferred, instanceID := s.id, nodeID := t.nodeID, taskID := t.id, actorID := actorID,
                previousAssignee := t.assignee, newAssignee := newAssignee, reason := reason)
  }

  function ReturnRecord(s: Snapshot, target: NodeID, actorID: ActorID, reason: string): AuditRecord {
    AuditRecord(InstanceReturned, nodeID := s.currentNodeID, targetNodeID := target, actorID := actorID,
                reason := reason, nodeState := s.nodeState)
  }

  function CommandRecord(s: Snapshot, command: Command): AuditRecord {
    AuditRecord(TaskCommand(command.name), nodeID := s.currentNodeID, taskID := command.taskID,
                actorID := command.actorID)
  }

  predicate HasEntered(audit: seq<AuditRecord>, id: NodeID) {
    exists i :: 0 <= i < |audit| && audit[i].action == NodeEntered && audit[i].nodeID == id
  }

  predicate OwnsActiveTask(tasks: seq<Task>, command: Command) {
    match FindTask(tasks, command.taskID)
    case None => false
    case Some(i) => tasks[i].status.Active? && tasks[i].assignee == command.actorID
  }

  ghost function HandleCommand(s: Snapshot, command: Command, host: Host): Result<Snapshot> {
    var _ :- Need(OwnsActiveTask(NodeTasks(s.tasks, s.currentNodeID), command), InvalidCommand);
    if !Compilable(s.definition, host.prepare) then Failure(InvalidDefinition) else
    if s.currentNodeID !in NodeIDs(s.definition) then Failure(InvalidDefinition) else
    if !IsBusiness(s.definition, s.currentNodeID) then Failure(HandlerNotFound) else
    var result :- host.handle;
    var _ :- Need(CommandAllowed(s.tasks, s.currentNodeID, result), InvalidNodeResult);
    var recorded := Append(s, CommandRecord(s, command), host);
    var applied := recorded.(tasks := ReplaceNodeTasks(s.tasks, s.currentNodeID, result.tasks),
                             nodeState := result.state);
    if result.disposition.Waiting? then Success(applied)
    else if result.disposition.Continue? then Advance(s.definition, applied, result.outcome, host)
    else if result.outcome != EMPTY then Advance(s.definition, RejectNode(applied, host), result.outcome, host)
    else Success(RejectInstance(applied, host))
  }

  function WithdrawInstance(s: Snapshot, actorID: ActorID, host: Host): Result<Snapshot> {
    var _ :- Need(host.authorized, PolicyDenied);
    var recorded := Append(s, AuditRecord(InstanceWithdrawn, nodeID := s.currentNodeID, actorID := actorID), host);
    Success(recorded.(status := Withdrawn, tasks := CloseActive(s.tasks)))
  }

  ghost predicate ReturnTarget(s: Snapshot, target: NodeID) {
    IsBusiness(s.definition, target) && target != s.currentNodeID && HasEntered(s.audit, target)
  }

  ghost function ReturnInstance(s: Snapshot, actorID: ActorID, target: NodeID, reason: string,
                                host: Host): Result<Snapshot> {
    if !Compilable(s.definition, host.prepare) then Failure(InvalidDefinition) else
    if !ReturnTarget(s, target) then Failure(InvalidReturnTarget) else
    var _ :- Need(host.authorized, PolicyDenied);
    var result :- host.activate(target);
    var _ :- Need(ReturnAllowed(target, result), InvalidReturnTarget);
    var recorded := Append(s, ReturnRecord(s, target, actorID, reason), host);
    var entered := EnterNode(recorded.(tasks := CloseActiveAt(s.tasks, s.currentNodeID)), target, host);
    var tasks :- ActivateTasks(entered.tasks, target, result.tasks, host.ids);
    Success(entered.(tasks := tasks, nodeState := result.state))
  }

  function TransferInstance(s: Snapshot, taskID: TaskID, actorID: ActorID, newAssignee: ActorID, reason: string,
                            host: Host): Result<Snapshot>
  {
    match FindTask(s.tasks, taskID)
    case None => Failure(TaskNotTransferable)
    case Some(i) =>
      var t := s.tasks[i];
      if t.nodeID != s.currentNodeID || !t.status.Active? then Failure(TaskNotTransferable) else
      if !host.authorized then Failure(PolicyDenied) else
      if host.ids == [] then Failure(EntropyFailed) else
      var recorded := Append(s, TransferRecord(s, t, actorID, newAssignee, reason), host);
      Success(recorded.(tasks := TransferTask(s.tasks, i, newAssignee, host.ids[0])))
  }

  function InstanceOf(request: Request): InstanceID {
    if request.Handle? then request.command.instanceID else request.instanceID
  }

  /** The checks made on a request before anything is loaded. */
  function Boundary(request: Request): Result<()> {
    match request
    case Handle(c) =>
      Need(c.instanceID != EMPTY && c.taskID != EMPTY && c.actorID != EMPTY && c.name != ""
           && c.name != RESERVED_COMMAND
           && ValidJson(c.payload), InvalidCommand)
    case Withdraw(id, actor) => Need(id != EMPTY && actor != EMPTY, InvalidWithdrawRequest)
    case Return(id, actor, target, reason) =>
      Need(id != EMPTY && actor != EMPTY && target != EMPTY && !Blank(reason), InvalidReturnRequest)
    case Transfer(id, task, actor, assignee, reason) =>
      Need(id != EMPTY && task != EMPTY && actor != EMPTY && assignee != EMPTY
           && !Blank(reason), InvalidTransferRequest)
  }

  ghost function Transition(s: Snapshot, request: Request, host: Host): Result<Snapshot> {
    match request
    case Handle(c) => HandleCommand(s, c, host)
    case Withdraw(_, actor) => WithdrawInstance(s, actor, host)
    case Return(_, actor, target, reason) => ReturnInstance(s, actor, target, reason, host)
    case Transfer(_, task, actor, assignee, reason) => TransferInstance(s, task, actor, assignee, reason, host)
  }

  function AdvanceVersion(s: Snapshot): Result<Snapshot> {
    if s.version == MAX_UINT64 then Failure(VersionOverflow) else Success(s.(version := s.version + 1))
  }

  /** One command between its Load and its Save. */
  ghost function Execute(s: Snapshot, request: Request, host: Host): Result<Snapshot> {
    var _ :- Need(s.status.Running?, if request.Handle? then InvalidCommand else InstanceNotRunning);
    var next :- Transition(s, request, host);
    AdvanceVersion(next)
  }

  function StartSnapshot(d: Definition, request: StartRequest, startID: NodeID, host: Host): Snapshot {
    Append(Snapshot(request.id, d, Running, request.initiator, startID, request.data, Absent, [], [], 1),
           AuditRecord(InstanceStarted, nodeID := startID, actorID := request.initiator), host)
  }

  ghost function StartInstance(d: Definition, request: StartRequest, host: Host): Result<Snapshot> {
    if request.id == EMPTY || request.initiator == EMPTY || !ValidJson(request.data) then Failure(InvalidStartRequest)
    else if !Compilable(d, host.prepare) then Failure(InvalidDefinition)
    else Advance(d, StartSnapshot(d, request, StartID(d), host), EMPTY, host)
  }
}
