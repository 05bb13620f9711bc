/** What holds of every instance the engine writes, and what every command keeps. */
module Invariants {
  import opened Workflow
  import opened Graphs
  import opened Compiler
  import opened Transitions

  /* The audit as an event log */

  /** Where a log leaves its instance. */
  datatype Standing = NotStarted | At(status: InstanceStatus, nodeID: NodeID)

  function Effect(standing: Standing, r: AuditRecord): Standing {
    if r.action.InstanceStarted? then At(Running, r.nodeID)
    else if standing.NotStarted? then NotStarted
    else match r.action
      case NodeEntered => standing.(nodeID := r.nodeID)
      case InstanceCompleted => standing.(status := Completed)
      case InstanceRejected => standing.(status := Rejected)
      case InstanceWithdrawn => standing.(status := Withdrawn)
      case _ => standing
  }

  function Replay(audit: seq<AuditRecord>): Standing {
    if audit == [] then NotStarted
    else Effect(Replay(audit[..|audit| - 1]), audit[|audit| - 1])
  }

  /** The log ends with an explicit return from the current node to one entered earlier. */
  ghost predicate ReturnedTo(audit: seq<AuditRecord>, from: NodeID, target: NodeID) {
    && audit != []
    && var last := audit[|audit| - 1];
       && last.action.InstanceReturned?
       && last.nodeID == from && last.targetNodeID == target
       && HasEntered(audit[..|audit| - 1], target)
  }

  /** The record may follow the log: nothing follows a terminal fact, and a node is entered along an edge or by
      return. */
  ghost predicate Lawful(d: Definition, audit: seq<AuditRecord>, r: AuditRecord)
    requires OneStart(d.nodes)
  {
    match Replay(audit)
    case NotStarted => audit == [] && r.action.InstanceStarted? && r.nodeID == StartID(d)
    case At(status, nodeID) =>
      && status.Running?
      && !r.action.InstanceStarted?
      && (r.action.NodeEntered? ==> HasEdge(d.edges, nodeID, r.nodeID) || ReturnedTo(audit, nodeID, r.nodeID))
  }

  ghost predicate LawfulLog(d: Definition, audit: seq<AuditRecord>)
    requires OneStart(d.nodes)
  {
    forall k {:trigger Lawful(d, audit[..k], audit[k])} ::
      0 <= k < |audit| ==> Lawful(d, audit[..k], audit[k])
  }

  lemma LogMore(d: Definition, audit: seq<AuditRecord>, r: AuditRecord)
    requires OneStart(d.nodes) && LawfulLog(d, audit) && Lawful(d, audit, r)
    ensures LawfulLog(d, audit + [r])
    ensures Replay(audit + [r]) == Effect(Replay(audit), r)
  {
    var longer := audit + [r];
    assert longer[..|audit|] == audit;
    forall k | 0 <= k < |longer| ensures Lawful(d, longer[..k], longer[k]) {
      assert longer[..k] == audit[..k];
      if k < |audit| { assert Lawful(d, audit[..k], audit[k]); } else { assert longer[..k] == audit; }
    }
  }

  /* Tasks */

  ghost predicate TaskSound(t: Task) {
    && t.id != EMPTY && t.nodeID != EMPTY
    && (t.status.Active? || t.status.Done? || t.status.Closed?)
    && (t.outcome != EMPTY <==> t.status.Done?)
  }

  ghost predicate SameTaskID(tasks: seq<Task>, i: nat, j: nat)
    requires i < |tasks| && j < |tasks|
  {
    tasks[i].id == tasks[j].id
  }

  ghost predicate UniqueTasks(tasks: seq<Task>) {
    forall i: nat, j: nat {:trigger SameTaskID(tasks, i, j)} :: i < j < |tasks| ==> !SameTaskID(tasks, i, j)
  }

  ghost predicate TasksSound(tasks: seq<Task>) {
    && UniqueTasks(tasks)
    && forall i :: 0 <= i < |tasks| ==> TaskSound(tasks[i])
  }

  /** Identities from the generator are concrete, pairwise different and unused. */
  ghost predicate Fresh(ids: seq<TaskID>, tasks: seq<Task>) {
    && Distinct(ids)
    && (forall i :: 0 <= i < |ids| ==> ids[i] != EMPTY)
    && (forall i, k :: 0 <= i < |ids| && 0 <= k < |tasks| ==> ids[i] != tasks[k].id)
  }

  /** All active work belongs to the current node of a running instance. */
  ghost predicate WorkConfined(s: Snapshot) {
    forall i :: 0 <= i < |s.tasks| && s.tasks[i].status.Active? ==>
      s.status.Running? && s.tasks[i].nodeID == s.currentNodeID
  }

  ghost predicate NoWork(tasks: seq<Task>) {
    forall i :: 0 <= i < |tasks| ==> !tasks[i].status.Active?
  }

  /** A running instance waits at a business node with something to do; a completed one stands at an End. */
  ghost predicate Placed(s: Snapshot) {
    && (s.status.Running? ==> ActiveAt(s.tasks, s.currentNodeID))
    && (if s.status.Completed? then IsEnd(s.definition, s.currentNodeID) else IsBusiness(s.definition, s.currentNodeID))
  }

  ghost predicate LogSound(s: Snapshot)
    requires OneStart(s.definition.nodes)
  {
    LawfulLog(s.definition, s.audit) && Replay(s.audit) == At(s.status, s.currentNodeID)
  }

  /** The invariant of every instance in a store written by the engine. */
  ghost predicate Sound(s: Snapshot) {
    && ValidGraph(s.definition)
    && 1 <= s.version <= MAX_UINT64
    && TasksSound(s.tasks)
    && WorkConfined(s)
    && Placed(s)
    && LogSound(s)
  }

  /* How an instance may change over its life */

  ghost predicate TaskEvolves(t: Task, u: Task) {
    && u.id == t.id && u.nodeID == t.nodeID && u.assignee == t.assignee
    && (!t.status.Active? || u.status.Active? ==> u == t)
  }

  ghost predicate TasksEvolve(before: seq<Task>, after: seq<Task>) {
    |before| <= |after| && forall i :: 0 <= i < |before| ==> TaskEvolves(before[i], after[i])
  }

  /** History only grows, task identity is permanent, decided tasks are frozen and terminal states absorb. */
  ghost predicate Evolves(before: Snapshot, after: Snapshot) {
    && after.id == before.id && after.definition == before.definition
    && after.initiator == before.initiator && after.data == before.data
    && before.audit <= after.audit
    && TasksEvolve(before.tasks, after.tasks)
    && (!before.status.Running? ==> after == before)
  }

  lemma EvolvesTransitive(a: Snapshot, b: Snapshot, c: Snapshot)
    requires Evolves(a, b) && Evolves(b, c)
    ensures Evolves(a, c)
  {
    forall i | 0 <= i < |a.tasks| ensures TaskEvolves(a.tasks[i], c.tasks[i]) {
      assert TaskEvolves(a.tasks[i], b.tasks[i]) && TaskEvolves(b.tasks[i], c.tasks[i]);
    }
  }

  /* Task steps */

  lemma ActivationKeeps(tasks: seq<Task>, nodeID: NodeID, drafts: seq<Task>, ids: seq<TaskID>)
    requires TasksSound(tasks) && NoWork(tasks) && DraftsAllowed(drafts) && Fresh(ids, tasks) && |drafts| <= |ids|
    requires nodeID != EMPTY
    ensures var r := ActivateTasks(tasks, nodeID, drafts, ids).value;
            && TasksSound(r) && TasksEvolve(tasks, r)
            && (forall i :: 0 <= i < |r| && r[i].status.Active? ==> r[i].nodeID == nodeID)
            && (drafts != [] ==> ActiveAt(r, nodeID))
            && (drafts == [] ==> r == tasks)
  {
    var r := ActivateTasks(tasks, nodeID, drafts, ids).value;
    forall i | 0 <= i < |r| ensures TaskSound(r[i]) && (r[i].status.Active? ==> r[i].nodeID == nodeID) {
      if i >= |tasks| { assert r[i] == Bind(drafts[i - |tasks|], nodeID, ids[i - |tasks|]); }
    }
    forall i: nat, j: nat | i < j < |r| ensures !SameTaskID(r, i, j) {
      if j < |tasks| { assert !SameTaskID(tasks, i, j); }
      else { assert r[j].id == ids[j - |tasks|]; if i >= |tasks| { assert r[i].id == ids[i - |tasks|]; } }
    }
    if drafts != [] {
      assert r[|tasks|] == Bind(drafts[0], nodeID, ids[0]);
    } else {
      assert r == tasks;
    }
  }

  lemma CloseKeeps(before: seq<Task>, after: seq<Task>)
    requires TasksSound(before) && |after| == |before|
    requires forall i :: 0 <= i < |before| ==> after[i] == before[i] || after[i] == CloseTask(before[i])
    ensures TasksSound(after) && TasksEvolve(before, after)
  {
    forall i: nat, j: nat | i < j < |after| ensures !SameTaskID(after, i, j) { assert !SameTaskID(before, i, j); }
  }

  lemma ReplaceKeeps(tasks: seq<Task>, nodeID: NodeID, proposals: seq<Task>)
    requires TasksSound(tasks) && ViewAllowed(tasks, nodeID, proposals)
    ensures var r := ReplaceNodeTasks(tasks, nodeID, proposals); TasksSound(r) && TasksEvolve(tasks, r)
    ensures var r := ReplaceNodeTasks(tasks, nodeID, proposals);
            forall i :: 0 <= i < |r| && r[i].status.Active? ==>
                tasks[i].status.Active? && r[i].nodeID == tasks[i].nodeID
  {
    var r := ReplaceNodeTasks(tasks, nodeID, proposals);
    forall i | 0 <= i < |tasks| ensures TaskSound(r[i]) && TaskEvolves(tasks[i], r[i]) {
      assert tasks[i].nodeID == nodeID ==> Proposed(proposals, tasks[i]);
    }
    forall i: nat, j: nat | i < j < |r| ensures !SameTaskID(r, i, j) {
      assert !SameTaskID(tasks, i, j) && TaskEvolves(tasks[i], r[i]) && TaskEvolves(tasks[j], r[j]);
    }
  }

  lemma TransferKeeps(tasks: seq<Task>, at: nat, newAssignee: ActorID, ids: seq<TaskID>)
    requires TasksSound(tasks) && at < |tasks| && tasks[at].status.Active? && Fresh(ids, tasks) && ids != []
    ensures var r := TransferTask(tasks, at, newAssignee, ids[0]);
            && TasksSound(r) && TasksEvolve(tasks, r) && ActiveAt(r, tasks[at].nodeID)
            && forall i :: 0 <= i < |r| && r[i].status.Active? ==>
                 if i < |tasks| then tasks[i] == r[i] else r[i].nodeID == tasks[at].nodeID
  {
    var closed := tasks[at := tasks[at].(status := Closed)];
    CloseKeeps(tasks, closed);
    var r := TransferTask(tasks, at, newAssignee, ids[0]);
    forall i: nat, j: nat | i < j < |r| ensures !SameTaskID(r, i, j) {
      if j < |tasks| { assert !SameTaskID(closed, i, j); }
    }
    assert r[|tasks|].nodeID == tasks[at].nodeID && r[|tasks|].status.Active?;
  }

  /* Log steps */

  /** A running instance with no work left, on its way to the next node. */
  ghost predicate Travelling(s: Snapshot) {
    && ValidGraph(s.definition)
    && s.status.Running?
    && TasksSound(s.tasks) && NoWork(s.tasks)
    && LogSound(s)
  }

  lemma RecordKeeps(s: Snapshot, r: AuditRecord, host: Host)
    requires OneStart(s.definition.nodes) && LogSound(s) && s.status.Running?
    requires !r.action.InstanceStarted? && !r.action.NodeEntered?
    ensures LawfulLog(s.definition, Append(s, r, host).audit)
    ensures Replay(Append(s, r, host).audit) == Effect(Replay(s.audit), r)
  {
    LogMore(s.definition, s.audit, r.(at := host.clock(|s.audit|)));
  }

  lemma EnterKeeps(s: Snapshot, target: NodeID, host: Host)
    requires OneStart(s.definition.nodes) && LogSound(s) && s.status.Running?
    requires HasEdge(s.definition.edges, s.currentNodeID, target) || ReturnedTo(s.audit, s.currentNodeID, target)
    ensures LogSound(EnterNode(s, target, host))
  {
    LogMore(s.definition, s.audit, AuditRecord(NodeEntered, nodeID := target, at := host.clock(|s.audit|)));
  }

  /* Whole commands */

  ghost predicate Arrived(before: Snapshot, after: Snapshot)
    requires OneStart(before.definition.nodes)
  {
    && after.definition == before.definition
    && TasksSound(after.tasks) && WorkConfined(after) && Placed(after) && LogSound(after)
    && Evolves(before, after)
    && after.version == before.version
    && |before.audit| < |after.audit|
  }

  lemma WaitingArrives(s: Snapshot, id: NodeID, result: NodeResult, host: Host)
    requires Travelling(s) && s.currentNodeID == id && IsBusiness(s.definition, id)
    requires DraftsAllowed(result.tasks) && result.tasks != [] && Fresh(host.ids, s.tasks)
    requires |result.tasks| <= |host.ids|
    ensures var after := s.(tasks := ActivateTasks(s.tasks, id, result.tasks, host.ids).value,
                            nodeState := result.state);
            && TasksSound(after.tasks) && WorkConfined(after) && Placed(after) && LogSound(after)
            && Evolves(s, after)
  {
    ActivationKeeps(s.tasks, id, result.tasks, host.ids);
  }

  lemma RejectingArrives(s: Snapshot, host: Host)
    requires Travelling(s) && IsBusiness(s.definition, s.currentNodeID)
    ensures Arrived(s, RejectInstance(s, host))
  {
    RecordKeeps(s, AuditRecord(InstanceRejected, nodeID := s.currentNodeID), host);
  }

  lemma CompletingArrives(s: Snapshot, host: Host)
    requires Travelling(s) && IsEnd(s.definition, s.currentNodeID)
    ensures Arrived(s, Complete(s, host))
  {
    RecordKeeps(s, AuditRecord(InstanceCompleted, nodeID := s.currentNodeID), host);
  }

  lemma EnteringTravels(s: Snapshot, target: NodeID, host: Host)
    requires Travelling(s) && HasEdge(s.definition.edges, s.currentNodeID, target)
    ensures Travelling(EnterNode(s, target, host)) && Evolves(s, EnterNode(s, target, host))
  {
    EnterKeeps(s, target, host);
  }

  lemma RejectedTravels(s: Snapshot, host: Host)
    requires Travelling(s)
    ensures Travelling(RejectNode(s, host)) && Evolves(s, RejectNode(s, host))
  {
    RecordKeeps(s, AuditRecord(NodeRejected, nodeID := s.currentNodeID), host);
  }

  /** Whatever the handlers answer, an advance that succeeds ends where an instance may be stored. */
  lemma {:induction false} AdvanceSound(d: Definition, s: Snapshot, outcome: Outcome, host: Host)
    requires Travelling(s) && s.definition == d && Fresh(host.ids, s.tasks)
    requires Advance(d, s, outcome, host).Success?
    ensures Arrived(s, Advance(d, s, outcome, host).value)
    decreases Below(d, s.currentNodeID)
  {
    hide TasksSound, LogSound, Sound, Evolves, ValidGraph, Fresh, NoWork, Placed, WorkConfined;
    var r := Advance(d, s, outcome, host).value;
    assert ValidGraph(d);
    var target := Route(d, s.currentNodeID, outcome).value;
    var node := FindNode(d, target).value;
    var entered := EnterNode(s, target, host);
    EnteringTravels(s, target, host);
    if node.kind == End {
      CompletingArrives(entered, host);
      EvolvesTransitive(s, entered, r);
    } else {
      assert IsBusiness(d, target);
      var result := host.activate(target).value;
      var applied := entered.(tasks := ActivateTasks(entered.tasks, target, result.tasks, host.ids).value,
                              nodeState := result.state);
      if result.disposition.Waiting? {
        WaitingArrives(entered, target, result, host);
        EvolvesTransitive(s, entered, r);
      } else {
        assert applied == entered.(nodeState := result.state) by { assert applied.tasks == entered.tasks; }
        StateTravels(entered, result.state);
        EvolvesTransitive(s, entered, applied);
        EdgeDescends(d, s.currentNodeID, target);
        if result.disposition.Continue? {
          AdvanceSound(d, applied, result.outcome, host);
          EvolvesTransitive(s, applied, r);
        } else if result.outcome != EMPTY {
          var rejected := RejectNode(applied, host);
          RejectedTravels(applied, host);
          EvolvesTransitive(s, applied, rejected);
          AdvanceSound(d, rejected, result.outcome, host);
          EvolvesTransitive(s, rejected, r);
        } else {
          RejectingArrives(applied, host);
          EvolvesTransitive(s, applied, r);
        }
      }
    }
  }

  lemma StateTravels(s: Snapshot, state: RawMessage)
    requires Travelling(s)
    ensures Travelling(s.(nodeState := state)) && Evolves(s, s.(nodeState := state))
  {
  }

  /** Every instance that starts is sound at version one. */
  lemma StartSound(d: Definition, request: StartRequest, host: Host)
    requires Fresh(host.ids, []) && StartInstance(d, request, host).Success?
    ensures var r := StartInstance(d, request, host).value;
            Sound(r) && r.version == 1 && r.id == request.id && r.definition == d && r.id != EMPTY
  {
    var s := StartSnapshot(d, request, StartID(d), host);
    assert s.audit[..0] == [];
    assert Lawful(d, s.audit[..0], s.audit[0]);
    assert Replay(s.audit) == Effect(Replay(s.audit[..0]), s.audit[0]);
    AdvanceSound(d, s, EMPTY, host);
  }

  lemma FreshKeeps(ids: seq<TaskID>, before: seq<Task>, after: seq<Task>)
    requires Fresh(ids, before) && TasksEvolve(before, after) && |after| == |before|
    ensures Fresh(ids, after)
  {
    forall i, k | 0 <= i < |ids| && 0 <= k < |after| ensures ids[i] != after[k].id {
      assert TaskEvolves(before[k], after[k]);
    }
  }

  /** The accepted view, once written: either work remains at the current node, or none remains anywhere. */
  lemma ViewApplied(s: Snapshot, command: Command, result: NodeResult, host: Host)
    requires Sound(s) && s.status.Running? && CommandAllowed(s.tasks, s.currentNodeID, result)
    requires Fresh(host.ids, s.tasks)
    ensures var recorded := Append(s, CommandRecord(s, command), host);
            var applied := recorded.(tasks := ReplaceNodeTasks(s.tasks, s.currentNodeID, result.tasks),
                                     nodeState := result.state);
            && Evolves(s, applied) && Fresh(host.ids, applied.tasks) && |s.audit| < |applied.audit|
            && TasksSound(applied.tasks) && WorkConfined(applied) && LogSound(applied)
            && (result.disposition.Waiting? ==> Placed(applied))
            && (!result.disposition.Waiting? ==> Travelling(applied))
  {
    hide Acyclic, EdgesAllowed, AllReachable, AllReachEnd, UniqueIDs, LawfulLog, Proposed, TaskAt, ReplaceTask,
         LastProposal;
    RecordKeeps(s, CommandRecord(s, command), host);
    ReplaceKeeps(s.tasks, s.currentNodeID, result.tasks);
    FreshKeeps(host.ids, s.tasks, ReplaceNodeTasks(s.tasks, s.currentNodeID, result.tasks));
  }

  lemma HandleArrives(s: Snapshot, command: Command, host: Host)
    requires Sound(s) && s.status.Running? && Fresh(host.ids, s.tasks)
    requires HandleCommand(s, command, host).Success?
    ensures Arrived(s, HandleCommand(s, command, host).value)
  {
    hide TasksSound, LogSound, Evolves, ValidGraph, Fresh, NoWork, Placed, WorkConfined, CommandAllowed;
    var result := host.handle.value;
    ViewApplied(s, command, result, host);
    var recorded := Append(s, CommandRecord(s, command), host);
    var applied := recorded.(tasks := ReplaceNodeTasks(s.tasks, s.currentNodeID, result.tasks),
                             nodeState := result.state);
    var r := HandleCommand(s, command, host).value;
    if result.disposition.Continue? {
      AdvanceSound(s.definition, applied, result.outcome, host);
      EvolvesTransitive(s, applied, r);
    } else if !result.disposition.Waiting? && result.outcome != EMPTY {
      var rejected := RejectNode(applied, host);
      RejectedTravels(applied, host);
      EvolvesTransitive(s, applied, rejected);
      AdvanceSound(s.definition, rejected, result.outcome, host);
      EvolvesTransitive(s, rejected, r);
    } else if !result.disposition.Waiting? {
      RejectingArrives(applied, host);
      EvolvesTransitive(s, applied, r);
    }
  }

  lemma WithdrawArrives(s: Snapshot, actorID: ActorID, host: Host)
    requires Sound(s) && s.status.Running? && WithdrawInstance(s, actorID, host).Success?
    ensures Arrived(s, WithdrawInstance(s, actorID, host).value)
  {
    RecordKeeps(s, AuditRecord(InstanceWithdrawn, nodeID := s.currentNodeID, actorID := actorID), host);
    CloseKeeps(s.tasks, CloseActive(s.tasks));
  }

  /** Closing the source node's active tasks closes all of them, because work is confined to the current node. */
  lemma ClosedAtSource(s: Snapshot)
    requires WorkConfined(s)
    ensures NoWork(CloseActiveAt(s.tasks, s.currentNodeID))
  {
  }

  lemma ReturnArrives(s: Snapshot, actorID: ActorID, target: NodeID, reason: string, host: Host)
    requires Sound(s) && s.status.Running? && Fresh(host.ids, s.tasks)
    requires ReturnInstance(s, actorID, target, reason, host).Success?
    ensures Arrived(s, ReturnInstance(s, actorID, target, reason, host).value)
  {
    hide Acyclic, EdgesAllowed, ReturnTarget, AllReachable, AllReachEnd, UniqueIDs, LawfulLog, TasksSound, Fresh,
         ReturnedTo;
    var result := host.activate(target).value;
    var closed := CloseActiveAt(s.tasks, s.currentNodeID);
    var recorded := Append(s, ReturnRecord(s, target, actorID, reason), host);
    RecordKeeps(s, ReturnRecord(s, target, actorID, reason), host);
    CloseKeeps(s.tasks, closed);
    ClosedAtSource(s);
    FreshKeeps(host.ids, s.tasks, closed);
    var leaving := recorded.(tasks := closed);
    ReturnLogged(s, target, actorID, reason, host);
    EnterKeeps(leaving, target, host);
    var entered := EnterNode(leaving, target, host);
    WaitingArrives(entered, target, result, host) by { ReturnTargetIsBusiness(s, target); }
    EvolvesTransitive(s, entered, ReturnInstance(s, actorID, target, reason, host).value);
  }

  lemma ReturnTargetIsBusiness(s: Snapshot, target: NodeID)
    requires ReturnTarget(s, target)
    ensures IsBusiness(s.definition, target)
  {
  }

  lemma ReturnLogged(s: Snapshot, target: NodeID, actorID: ActorID, reason: string, host: Host)
    requires ReturnTarget(s, target)
    ensures ReturnedTo(Append(s, ReturnRecord(s, target, actorID, reason), host).audit, s.currentNodeID, target)
  {
    var audit := Append(s, ReturnRecord(s, target, actorID, reason), host).audit;
    assert audit[..|audit| - 1] == s.audit;
  }

  lemma TransferArrives(s: Snapshot, taskID: TaskID, actorID: ActorID, newAssignee: ActorID, reason: string, host: Host)
    requires Sound(s) && s.status.Running? && Fresh(host.ids, s.tasks)
    requires TransferInstance(s, taskID, actorID, newAssignee, reason, host).Success?
    ensures Arrived(s, TransferInstance(s, taskID, actorID, newAssignee, reason, host).value)
  {
    hide TasksSound, Fresh, Acyclic, EdgesAllowed, AllReachable, AllReachEnd, UniqueIDs, LawfulLog, IsEnd, IsBusiness;
    var at := FindTask(s.tasks, taskID).value;
    RecordKeeps(s, TransferRecord(s, s.tasks[at], actorID, newAssignee, reason), host);
    TransferKeeps(s.tasks, at, newAssignee, host.ids);
  }

  /** Every successful command keeps the invariant, moves the version by one, lengthens the log and rewrites no
      history. */
  lemma ExecuteSound(s: Snapshot, request: Request, host: Host)
    requires Sound(s) && Fresh(host.ids, s.tasks) && Execute(s, request, host).Success?
    ensures var r := Execute(s, request, host).value;
            Sound(r) && r.version == s.version + 1 && Evolves(s, r) && |s.audit| < |r.audit|
  {
    hide TasksSound, LogSound, Evolves, Fresh, Placed, WorkConfined, Acyclic, EdgesAllowed, OneStart;
    hide HandleCommand, WithdrawInstance, ReturnInstance, TransferInstance;
    var next := Transition(s, request, host).value;
    match request {
      case Handle(c) => HandleArrives(s, c, host);
      case Withdraw(_, actor) => WithdrawArrives(s, actor, host);
      case Return(_, actor, target, reason) => ReturnArrives(s, actor, target, reason, host);
      case Transfer(_, task, actor, assignee, reason) => TransferArrives(s, task, actor, assignee, reason, host);
    }
    assert Arrived(s, next);
    SameButVersion(s, next, next.version + 1);
  }

  lemma SameButVersion(s: Snapshot, next: Snapshot, version: nat)
    requires ValidGraph(s.definition) && next.definition == s.definition && Arrived(s, next)
    requires s.status.Running? && 1 <= version <= MAX_UINT64
    ensures Sound(next.(version := version)) && Evolves(s, next.(version := version))
  {
  }
}
