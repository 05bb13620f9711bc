/** Every accepted command leaves exactly one record of itself, so versions can be recounted from the audit. */
module Accounting {
  import opened Workflow
  import opened Graphs
  import opened Compiler
  import opened Transitions
  import opened Invariants
  import opened Stores
  import opened Engines
  import opened Concurrency

  /** Records of what somebody asked for, as opposed to what the engine did in consequence. */
  predicate IsCommand(action: Action) {
    action.InstanceStarted? || action.TaskCommand? || action.InstanceWithdrawn? || action.InstanceReturned?
        || action.TaskTransferred?
  }

  function Commands(audit: seq<AuditRecord>): nat {
    if audit == [] then 0
    else Commands(audit[..|audit| - 1]) + (if IsCommand(audit[|audit| - 1].action) then 1 else 0)
  }

  lemma CommandsMore(s: Snapshot, r: AuditRecord, host: Host)
    ensures Commands(Append(s, r, host).audit) == Commands(s.audit) + (if IsCommand(r.action) then 1 else 0)
    ensures s.audit < Append(s, r, host).audit && Append(s, r, host).audit[|s.audit|] == r.(at := host.clock(|s.audit|))
  {
    var audit := Append(s, r, host).audit;
    assert audit[..|audit| - 1] == s.audit;
  }

  /** Navigation adds records, none of them a command. */
  lemma {:induction false} AdvanceRecords(d: Definition, s: Snapshot, outcome: Outcome, host: Host)
    requires ValidGraph(d) && Advance(d, s, outcome, host).Success?
    ensures var r := Advance(d, s, outcome, host).value;
            Commands(r.audit) == Commands(s.audit) && s.audit <= r.audit && r.version == s.version
    decreases Below(d, s.currentNodeID)
  {
    hide ValidGraph, ActivationAllowed, Commands;
    var target := Route(d, s.currentNodeID, outcome).value;
    var entered := EnterNode(s, target, host);
    CommandsMore(s.(currentNodeID := target, nodeState := Absent), AuditRecord(NodeEntered, nodeID := target), host);
    if FindNode(d, target).value.kind == End {
      CommandsMore(entered.(status := Completed), AuditRecord(InstanceCompleted, nodeID := target), host);
    } else {
      var result := host.activate(target).value;
      var applied := entered.(tasks := ActivateTasks(entered.tasks, target, result.tasks, host.ids).value,
                              nodeState := result.state);
      EdgeDescends(d, s.currentNodeID, target);
      if result.disposition.Continue? {
        AdvanceRecords(d, applied, result.outcome, host);
      } else if !result.disposition.Waiting? {
        RejectionRecords(d, applied, result.outcome, host);
        if result.outcome != EMPTY { AdvanceRecords(d, RejectNode(applied, host), result.outcome, host); }
      }
    }
  }

  lemma RejectionRecords(d: Definition, s: Snapshot, outcome: Outcome, host: Host)
    ensures Commands(RejectNode(s, host).audit) == Commands(s.audit) && s.audit <= RejectNode(s, host).audit
    ensures Commands(RejectInstance(s, host).audit) == Commands(s.audit) && s.audit <= RejectInstance(s, host).audit
  {
    CommandsMore(s, AuditRecord(NodeRejected, nodeID := s.currentNodeID), host);
    CommandsMore(s.(status := Rejected), AuditRecord(InstanceRejected, nodeID := s.currentNodeID), host);
  }

  /** The record says who asked for what, and what it was asked of. */
  predicate Names(r: AuditRecord, s: Snapshot, request: Request) {
    match request
    case Handle(c) =>
      r.action == TaskCommand(c.name) && r.taskID == c.taskID && r.actorID == c.actorID && r.nodeID == s.currentNodeID
    case Withdraw(_, actor) => r.action.InstanceWithdrawn? && r.actorID == actor && r.nodeID == s.currentNodeID
    case Return(_, actor, target, reason) =>
      && r.action.InstanceReturned? && r.actorID == actor && r.reason == reason
      && r.nodeID == s.currentNodeID && r.targetNodeID == target && r.nodeState == s.nodeState
    case Transfer(_, taskID, actor, newAssignee, reason) =>
      && r.action.TaskTransferred? && r.actorID == actor && r.reason == reason && r.taskID == taskID
      && r.newAssignee == newAssignee && r.instanceID == s.id
      && exists i :: 0 <= i < |s.tasks| && s.tasks[i].id == taskID && s.tasks[i].assignee == r.previousAssignee
                     && s.tasks[i].nodeID == r.nodeID == s.currentNodeID
  }

  /** The first new record names the command; everything after it is consequence. */
  ghost predicate Records(s: Snapshot, r: Snapshot, request: Request) {
    && s.audit < r.audit
    && Names(r.audit[|s.audit|], s, request)
    && Commands(r.audit) == Commands(s.audit) + 1
  }

  lemma HandleRecords(s: Snapshot, command: Command, host: Host)
    requires ValidGraph(s.definition) && HandleCommand(s, command, host).Success?
    ensures Records(s, HandleCommand(s, command, host).value, Handle(command))
  {
    hide ValidGraph, CommandAllowed, Advance, Commands;
    var result := host.handle.value;
    var recorded := Append(s, CommandRecord(s, command), host);
    var applied := recorded.(tasks := ReplaceNodeTasks(s.tasks, s.currentNodeID, result.tasks),
                             nodeState := result.state);
    CommandsMore(s, CommandRecord(s, command), host);
    if result.disposition.Continue? {
      AdvanceRecords(s.definition, applied, result.outcome, host);
    } else if !result.disposition.Waiting? {
      RejectionRecords(s.definition, applied, result.outcome, host);
      if result.outcome != EMPTY { AdvanceRecords(s.definition, RejectNode(applied, host), result.outcome, host); }
    }
  }

  lemma ReturnRecords(s: Snapshot, actorID: ActorID, target: NodeID, reason: string, host: Host)
    requires ReturnInstance(s, actorID, target, reason, host).Success?
    ensures Records(s, ReturnInstance(s, actorID, target, reason, host).value, Return(s.id, actorID, target, reason))
  {
    hide Commands, Compilable, ReturnTarget, ReturnAllowed;
    var record := ReturnRecord(s, target, actorID, reason);
    var recorded := Append(s, record, host);
    CommandsMore(s, record, host);
    CommandsMore(recorded.(tasks := CloseActiveAt(s.tasks, s.currentNodeID), currentNodeID := target,
                           nodeState := Absent),
                 AuditRecord(NodeEntered, nodeID := target), host);
  }

  /** Each successful command is recorded once, by who asked and for what, whatever follows from it. */
  lemma ExecuteRecords(s: Snapshot, request: Request, host: Host)
    requires ValidGraph(s.definition) && Execute(s, request, host).Success?
    ensures Records(s, Execute(s, request, host).value, request)
    ensures Execute(s, request, host).value.version == s.version + 1
  {
    hide ValidGraph, HandleCommand, ReturnInstance, Commands;
    match request {
      case Handle(c) =>
        HandleRecords(s, c, host);
        HandleKeepsVersion(s, c, host);
      case Withdraw(_, actor) =>
        CommandsMore(s, AuditRecord(InstanceWithdrawn, nodeID := s.currentNodeID, actorID := actor), host);
      case Return(_, actor, target, reason) =>
        ReturnRecords(s, actor, target, reason, host);
        ReturnKeepsVersion(s, actor, target, reason, host);
      case Transfer(_, taskID, actor, assignee, reason) =>
        var at := FindTask(s.tasks, taskID).value;
        CommandsMore(s, TransferRecord(s, s.tasks[at], actor, assignee, reason), host);
    }
  }

  lemma HandleKeepsVersion(s: Snapshot, command: Command, host: Host)
    requires ValidGraph(s.definition) && HandleCommand(s, command, host).Success?
    ensures HandleCommand(s, command, host).value.version == s.version
  {
    hide ValidGraph, CommandAllowed, Advance;
    var result := host.handle.value;
    var applied := Append(s, CommandRecord(s, command), host)
      .(tasks := ReplaceNodeTasks(s.tasks, s.currentNodeID, result.tasks), nodeState := result.state);
    if result.disposition.Continue? {
      AdvanceRecords(s.definition, applied, result.outcome, host);
    } else if !result.disposition.Waiting? && result.outcome != EMPTY {
      AdvanceRecords(s.definition, RejectNode(applied, host), result.outcome, host);
    }
  }

  lemma ReturnKeepsVersion(s: Snapshot, actorID: ActorID, target: NodeID, reason: string, host: Host)
    requires ReturnInstance(s, actorID, target, reason, host).Success?
    ensures ReturnInstance(s, actorID, target, reason, host).value.version == s.version
  {
    hide Compilable, ReturnTarget, ReturnAllowed;
  }

  lemma StartRecords(d: Definition, request: StartRequest, host: Host)
    requires StartInstance(d, request, host).Success?
    ensures var r := StartInstance(d, request, host).value;
            && Commands(r.audit) == 1 && r.audit != []
            && r.audit[0].action.InstanceStarted? && r.audit[0].actorID == request.initiator
  {
    hide Advance, ConfigsValid, HandlersReady, Unconditional, Acyclic, EdgesAllowed, AllReachable, AllReachEnd;
    var s := StartSnapshot(d, request, StartID(d), host);
    assert s.audit[..0] == [];
    assert Commands(s.audit) == 1 by { assert Commands(s.audit[..0]) == 0; }
    AdvanceRecords(d, s, EMPTY, host);
  }

  /** The version of every stored instance is the number of commands its audit records. */
  ghost predicate Accounted(db: Database) {
    forall id :: id in db ==> db[id].version == Commands(db[id].audit)
  }

  lemma CommitAccounted(db: Database, commit: Commit)
    requires AllSound(db) && Accounted(db) && Accepted(db, commit)
    ensures Accounted(Replayed(db, commit).1)
  {
    hide Sound, Fresh, StartInstance, Execute, Commands;
    match commit
    case Started(d, start, host) =>
      StartSound(d, start, host);
      StartRecords(d, start, host);
    case Applied(request, host) =>
      var s := db[InstanceOf(request)];
      SoundGraph(s);
      ExecuteRecords(s, request, host);
  }

  lemma SoundGraph(s: Snapshot)
    requires Sound(s)
    ensures ValidGraph(s.definition)
  {
  }

  lemma {:induction false} SerialAccounted(log: seq<Commit>)
    requires AllAccepted(log)
    ensures Accounted(Serial(log))
  {
    hide Accounted, Accepted, Replayed;
    if log == [] {
      NothingStored();
    } else {
      SerialAccounted(log[..|log| - 1]);
      SerialSound(log[..|log| - 1]);
      CommitAccounted(Serial(log[..|log| - 1]), log[|log| - 1]);
    }
  }

  lemma NothingStored()
    ensures Accounted(map[])
  {
  }

  /** In every interleaving, the audit of every stored instance accounts for exactly its version. */
  lemma RunAccounted(events: seq<Event>)
    ensures Accounted(Run(events).db)
  {
    hide Accounted, AllAccepted, Run;
    Serializable(events);
    SerialAccounted(Run(events).log);
  }
}
