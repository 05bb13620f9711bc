/** The engine's commands: load once, decide on a detached snapshot, change a private candidate, save once. */
module Engines {
  import opened Workflow
  import opened Graphs
  import opened Compiler
  import opened Analysis
  import opened NodeResults
  import opened Facts
  import opened Stores
  import T = Transitions
  import opened Navigation

  /** One command against a database: what the caller gets and what is stored afterwards. */
  ghost function RunCommand(db: Database, request: Request, host: Host): (Result<Snapshot>, Database) {
    var checked := T.Boundary(request);
    if checked.Failure? then (Failure(checked.error), db) else
    var loaded := LoadFrom(db, T.InstanceOf(request));
    if loaded.Failure? then (Failure(loaded.error), db) else
    var next := T.Execute(loaded.value, request, host);
    if next.Failure? then (Failure(next.error), db) else
    var saved := SaveIn(db, next.value, loaded.value.version);
    if saved.Failure? then (Failure(saved.error), db) else (Success(next.value), saved.value)
  }

  ghost function RunStart(db: Database, d: Definition, request: StartRequest, host: Host)
    : (Result<Snapshot>, Database)
  {
    var started := T.StartInstance(d, request, host);
    if started.Failure? then (Failure(started.error), db) else
    var created := CreateIn(db, started.value);
    if created.Failure? then (Failure(created.error), db) else (Success(started.value), created.value)
  }

  /** A step on the candidate did what the specification says, or failed as it says. */
  ghost predicate Did(r: Result<()>, after: Snapshot, spec: Result<Snapshot>) {
    match spec
    case Success(s) => r.Success? && after == s
    case Failure(e) => r == Failure(e)
  }

  method NodeTasks(tasks: seq<Task>, nodeID: NodeID) returns (r: seq<Task>)
    ensures r == T.NodeTasks(tasks, nodeID)
  {
    r := [];
    for i := 0 to |tasks|
      invariant r == T.NodeTasks(tasks[..i], nodeID)
    {
      assert tasks[..i + 1][..i] == tasks[..i];
      if tasks[i].nodeID == nodeID {
        r := r + [tasks[i]];
      }
    }
    assert tasks[..|tasks|] == tasks;
  }

  lemma FindsFirst(tasks: seq<Task>, id: TaskID, i: nat)
    requires i < |tasks| && tasks[i].id == id && forall k :: 0 <= k < i ==> tasks[k].id != id
    ensures T.FindTask(tasks, id) == Some(i)
  {
  }

  method ValidateCommandTask(tasks: seq<Task>, command: Command) returns (ok: bool)
    ensures ok <==> T.OwnsActiveTask(tasks, command)
  {
    for i := 0 to |tasks|
      invariant forall k :: 0 <= k < i ==> tasks[k].id != command.taskID
    {
      if tasks[i].id == command.taskID {
        FindsFirst(tasks, command.taskID, i);
        return tasks[i].status.Active? && tasks[i].assignee == command.actorID;
      }
    }
    return false;
  }

  method HasEnteredNode(audit: seq<AuditRecord>, nodeID: NodeID) returns (entered: bool)
    ensures entered <==> T.HasEntered(audit, nodeID)
  {
    for i := 0 to |audit|
      invariant forall k :: 0 <= k < i ==> !(audit[k].action.NodeEntered? && audit[k].nodeID == nodeID)
    {
      if audit[i].action.NodeEntered? && audit[i].nodeID == nodeID {
        return true;
      }
    }
    return false;
  }

  class Engine {
    const store: MemoryStore

    constructor (store: MemoryStore)
      ensures this.store == store
    {
      this.store := store;
    }

    /** The navigation loop has no bound of its own: it ends because every route leads further down an accepted graph.
        Whatever it answers, the candidate has entered exactly the nodes of the path, in order. */
    method Advance(facts: InstanceFacts, plan: Plan, outcome: Outcome, host: Host) returns (r: Result<()>)
      requires ValidGraph(plan.definition) && PlanFor(plan, plan.definition)
      modifies facts.instance
      ensures Did(r, facts.instance.Value(), T.Advance(plan.definition, old(facts.instance.Value()), outcome, host))
      ensures Entered(facts.instance.audit)
              == old(Entered(facts.instance.audit)) + Path(plan.definition, old(facts.instance.Value()), outcome, host)
    {
      hide ValidGraph, PlanFor, T.ActivationAllowed, Entered, IsBusiness, Path, T.Complete, T.RejectInstance, T.Below;
      var instance := facts.instance;
      ghost var d := plan.definition;
      ghost var spec := T.Advance(d, instance.Value(), outcome, host);
      ghost var walk := Entered(instance.audit) + Path(d, instance.Value(), outcome, host);
      var selected := outcome;
      while true
        invariant spec == T.Advance(d, instance.Value(), selected, host)
        invariant walk == Entered(instance.audit) + Path(d, instance.Value(), selected, host)
        decreases T.Below(d, instance.currentNodeID)
      {
        ghost var before := instance.Value();
        PlanAnswers(plan, d, instance.currentNodeID, selected);
        PathStep(d, before, selected, host);
        var next := plan.NextNode(instance.currentNodeID, selected);
        if next.Failure? {
          return Failure(next.error);
        }
        var node := next.value;
        facts.EnterNode(node.id, host);
        NothingEntered(instance.Value(), host);
        NodeKind(d, node);
        if node.kind == End {
          facts.Complete(host);
          return Success(());
        }
        PlanAnswers(plan, d, node.id, selected);
        if node.id !in plan.prepared {
          return Failure(HandlerNotFound);
        }
        var activated := host.activate(node.id);
        if activated.Failure? {
          return Failure(activated.error);
        }
        var result := activated.value;
        var prepared := PrepareActivation(node.id, result);
        if prepared.Failure? {
          return prepared;
        }
        var applied := facts.ActivateTasks(node.id, result.tasks, host);
        if applied.Failure? {
          return applied;
        }
        facts.SetNodeState(result.state);
        T.EdgeDescends(d, before.currentNodeID, node.id);
        Supported(node.id, result);
        NothingEntered(instance.Value(), host);
        if result.disposition.Waiting? {
          return Success(());
        }
        if result.disposition.Continue? {
          selected := result.outcome;
        } else if result.outcome != EMPTY {
          facts.RejectNode(host);
          selected := result.outcome;
        } else {
          facts.RejectInstance(host);
          return Success(());
        }
      }
    }

    lemma Supported(nodeID: NodeID, result: NodeResult)
      requires T.ActivationAllowed(nodeID, result)
      ensures result.disposition.Waiting? || result.disposition.Continue? || result.disposition.Reject?
    {
    }

    lemma NodeKind(d: Definition, node: NodeDefinition)
      requires ValidGraph(d) && FindNode(d, node.id) == Some(node)
      ensures IsBusiness(d, node.id) <==> Business(node)
    {
      if n :| n in d.nodes && n.id == node.id && Business(n) {
        SameIDSameNode(d.nodes, n, node);
      }
    }

    method HandleTransition(facts: InstanceFacts, snapshot: Snapshot, command: Command, host: Host)
      returns (r: Result<()>)
      requires facts.instance.Value() == snapshot
      modifies facts.instance
      ensures Did(r, facts.instance.Value(), T.HandleCommand(snapshot, command, host))
    {
      hide ValidGraph, PlanFor, T.CommandAllowed, Covers, T.Advance, T.NodeTasks, T.OwnsActiveTask, T.ReplaceTask;
      hide ConfigsValid, HandlersReady, Unconditional, IsBusiness;
      var tasks := NodeTasks(snapshot.tasks, snapshot.currentNodeID);
      var owns := ValidateCommandTask(tasks, command);
      if !owns {
        return Failure(InvalidCommand);
      }
      var compiled := CompileDefinition(snapshot.definition, host.prepare);
      if compiled.Failure? {
        return Failure(compiled.error);
      }
      var plan := compiled.value;
      PlanFound(plan, snapshot.definition, snapshot.currentNodeID);
      var node := plan.Node(snapshot.currentNodeID);
      if node.Failure? {
        return Failure(node.error);
      }
      if snapshot.currentNodeID !in plan.prepared {
        return Failure(HandlerNotFound);
      }
      if host.handle.Failure? {
        return Failure(host.handle.error);
      }
      var result := host.handle.value;
      var application := PrepareCommand(snapshot.tasks, snapshot.currentNodeID, result);
      if application.Failure? {
        return Failure(application.error);
      }
      facts.AppendAudit(T.CommandRecord(snapshot, command), host);
      facts.ApplyNodeTaskReplacements(application.value, snapshot.currentNodeID, result.tasks);
      facts.SetNodeState(result.state);
      CommandSupported(snapshot.tasks, snapshot.currentNodeID, result);
      if result.disposition.Waiting? {
        return Success(());
      }
      if result.disposition.Continue? {
        r := Advance(facts, plan, result.outcome, host);
      } else if result.outcome != EMPTY {
        facts.RejectNode(host);
        r := Advance(facts, plan, result.outcome, host);
      } else {
        facts.RejectInstance(host);
        return Success(());
      }
    }

    lemma CommandSupported(tasks: seq<Task>, nodeID: NodeID, result: NodeResult)
      requires T.CommandAllowed(tasks, nodeID, result)
      ensures result.disposition.Waiting? || result.disposition.Continue? || result.disposition.Reject?
    {
    }

    lemma PlanFound(plan: Plan, d: Definition, id: NodeID)
      requires ValidGraph(d) && PlanFor(plan, d)
      ensures plan.Indexed() && plan.definition == d
      ensures plan.Node(id) == if id in NodeIDs(d) then Success(FindNode(d, id).value) else Failure(InvalidDefinition)
      ensures id in plan.prepared <==> IsBusiness(d, id)
    {
      PlanNode(plan, d, id);
      PlanAnswers(plan, d, id, EMPTY);
    }

    method WithdrawTransition(facts: InstanceFacts, snapshot: Snapshot, actorID: ActorID, host: Host)
      returns (r: Result<()>)
      requires facts.instance.Value() == snapshot
      modifies facts.instance
      ensures Did(r, facts.instance.Value(), T.WithdrawInstance(snapshot, actorID, host))
    {
      if !host.authorized {
        return Failure(PolicyDenied);
      }
      facts.AppendAudit(AuditRecord(InstanceWithdrawn, nodeID := snapshot.currentNodeID, actorID := actorID), host);
      facts.Withdraw();
      return Success(());
    }

    method ReturnTransition(facts: InstanceFacts, snapshot: Snapshot, actorID: ActorID, target: NodeID, reason: string,
                            host: Host) returns (r: Result<()>)
      requires facts.instance.Value() == snapshot
      modifies facts.instance
      ensures Did(r, facts.instance.Value(), T.ReturnInstance(snapshot, actorID, target, reason, host))
    {
      hide ValidGraph, PlanFor, T.HasEntered, T.ReturnAllowed;
      var compiled := CompileDefinition(snapshot.definition, host.prepare);
      if compiled.Failure? {
        return Failure(compiled.error);
      }
      var plan := compiled.value;
      PlanFound(plan, snapshot.definition, target);
      var node := plan.Node(target);
      if node.Failure? {
        return Failure(InvalidReturnTarget);
      }
      NodeKind(snapshot.definition, node.value);
      var entered := HasEnteredNode(snapshot.audit, target);
      if !Business(node.value) || target == snapshot.currentNodeID || !entered {
        return Failure(InvalidReturnTarget);
      }
      if !host.authorized {
        return Failure(PolicyDenied);
      }
      var activated := host.activate(target);
      if activated.Failure? {
        return Failure(activated.error);
      }
      var prepared := PrepareReturn(target, activated.value);
      if prepared.Failure? {
        return prepared;
      }
      facts.AppendAudit(T.ReturnRecord(snapshot, target, actorID, reason), host);
      r := facts.ReturnTo(target, activated.value, host);
    }

    method TransferTransition(facts: InstanceFacts, snapshot: Snapshot, taskID: TaskID, actorID: ActorID,
                              newAssignee: ActorID, reason: string, host: Host) returns (r: Result<()>)
      requires facts.instance.Value() == snapshot
      modifies facts.instance
      ensures Did(r, facts.instance.Value(), T.TransferInstance(snapshot, taskID, actorID, newAssignee, reason, host))
    {
      var found := false;
      var current := Task(EMPTY, EMPTY, EMPTY, UnknownStatus, EMPTY);
      for i := 0 to |snapshot.tasks|
        invariant !found && forall k :: 0 <= k < i ==> snapshot.tasks[k].id != taskID
      {
        if snapshot.tasks[i].id == taskID {
          FindsFirst(snapshot.tasks, taskID, i);
          current, found := snapshot.tasks[i], true;
          break;
        }
      }
      assert found <==> T.FindTask(snapshot.tasks, taskID).Some?;
      if !found || current.nodeID != snapshot.currentNodeID || !current.status.Active? {
        return Failure(TaskNotTransferable);
      }
      if !host.authorized {
        return Failure(PolicyDenied);
      }
      facts.AppendAudit(T.TransferRecord(snapshot, current, actorID, newAssignee, reason), host);
      r := facts.Transfer(current, newAssignee, host);
    }

    method RunTransition(facts: InstanceFacts, snapshot: Snapshot, request: Request, host: Host) returns (r: Result<()>)
      requires facts.instance.Value() == snapshot
      modifies facts.instance
      ensures Did(r, facts.instance.Value(), T.Transition(snapshot, request, host))
    {
      match request
      case Handle(command) =>
        r := HandleTransition(facts, snapshot, command, host);
      case Withdraw(_, actor) =>
        r := WithdrawTransition(facts, snapshot, actor, host);
      case Return(_, actor, target, reason) =>
        r := ReturnTransition(facts, snapshot, actor, target, reason, host);
      case Transfer(_, task, actor, assignee, reason) =>
        r := TransferTransition(facts, snapshot, task, actor, assignee, reason, host);
    }

    /** The skeleton shared by the four commands: one load, at most one save, and nothing stored on any failure. */
    method ExecuteInstanceCommand(request: Request, host: Host) returns (r: Result<Snapshot>)
      requires store.Valid()
      modifies store
      ensures store.Valid()
      ensures (r, store.Contents()) == RunCommand(old(store.Contents()), request, host)
    {
      hide T.Transition, SaveIn, LoadFrom, T.Boundary, KeepsAudit, T.InstanceOf;
      var checked := T.Boundary(request);
      if checked.Failure? {
        return Failure(checked.error);
      }
      var loaded := store.Load(T.InstanceOf(request));
      if loaded.Failure? {
        return Failure(loaded.error);
      }
      var instance := loaded.value;
      ghost var db := store.Contents();
      var snapshot := instance.Value();
      if !instance.status.Running? {
        return Failure(if request.Handle? then InvalidCommand else InstanceNotRunning);
      }
      var expectedVersion := instance.version;
      var facts := new InstanceFacts(instance);
      var done := RunTransition(facts, snapshot, request, host);
      if done.Failure? {
        return Failure(done.error);
      }
      done := facts.AdvanceVersion();
      if done.Failure? {
        return Failure(done.error);
      }
      assert store.Contents() == db;
      ghost var next := instance.Value();
      done := store.Save(instance, expectedVersion);
      if done.Failure? {
        return Failure(done.error);
      }
      return Success(instance.Value());
    }

    /** Compiles and freezes the definition, follows its entry route and creates the instance. */
    method StartInstance(d: Definition, request: StartRequest, host: Host) returns (r: Result<Snapshot>)
      requires store.Valid()
      modifies store
      ensures store.Valid()
      ensures (r, store.Contents()) == RunStart(old(store.Contents()), d, request, host)
    {
      hide ValidGraph, T.Advance, HandlersReady, ConfigsValid, Unconditional, PositionsOf, RoutesOf, OneStart;
      hide Entered, Path, BusinessIDs, CreateIn;
      if request.id == EMPTY || request.initiator == EMPTY || !ValidJson(request.data) {
        return Failure(InvalidStartRequest);
      }
      var compiled := CompileDefinition(d, host.prepare);
      if compiled.Failure? {
        return Failure(compiled.error);
      }
      var plan := compiled.value;
      ghost var db := store.Contents();
      var instance := new Instance.Clone(
        Snapshot(request.id, plan.definition, Running, request.initiator, plan.startID, request.data, Absent, [], [],
                 1));
      var facts := new InstanceFacts(instance);
      facts.AppendAudit(AuditRecord(InstanceStarted, nodeID := plan.startID, actorID := request.initiator), host);
      var done := Advance(facts, plan, EMPTY, host);
      if done.Failure? {
        return Failure(done.error);
      }
      assert store.Contents() == db;
      done := store.Create(instance);
      if done.Failure? {
        return Failure(done.error);
      }
      return Success(instance.Value());
    }
  }
}
