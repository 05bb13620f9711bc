/** What callers may rely on, command by command: who may act, when a command succeeds, and what it leaves behind. */
module CommandLaws {
  import opened Workflow
  import opened Graphs
  import opened Compiler
  import opened Transitions
  import opened Invariants
  import opened Navigation
  import opened Chronicles
  import opened Accounting
  import opened Stores
  import E = Engines
  import opened Concurrency

  /* Who may act */

  /** The task at a position is open at the current node and belongs to the actor of the command. */
  ghost predicate OwnAt(s: Snapshot, c: Command, i: nat) {
    && i < |s.tasks| && s.tasks[i].id == c.taskID && s.tasks[i].nodeID == s.currentNodeID
    && s.tasks[i].status == Active && s.tasks[i].assignee == c.actorID
  }

  /** Only the owner of an open task at the current node is ever heard; everybody else gets the same answer. */
  lemma OnlyOwnersAreHeard(s: Snapshot, c: Command, host: Host)
    ensures Execute(s, Handle(c), host).Success? ==> exists i: nat :: OwnAt(s, c, i)
    ensures s.status.Running? && !(exists i: nat :: OwnAt(s, c, i)) ==>
              Execute(s, Handle(c), host) == Failure(InvalidCommand)
  {
    hide Compilable, CommandAllowed, Advance;
    var view := NodeTasks(s.tasks, s.currentNodeID);
    if OwnsActiveTask(view, c) {
      var t := view[FindTask(view, c.taskID).value];
      assert t in s.tasks && t.nodeID == s.currentNodeID;
      var i: nat :| i < |s.tasks| && s.tasks[i] == t;
      assert OwnAt(s, c, i);
    }
  }

  lemma OwnerIsFound(s: Snapshot, c: Command, i: nat)
    requires UniqueTasks(s.tasks) && OwnAt(s, c, i)
    ensures OwnsActiveTask(NodeTasks(s.tasks, s.currentNodeID), c)
  {
    var view := NodeTasks(s.tasks, s.currentNodeID);
    assert s.tasks[i] in view;
    var found := FindTask(view, c.taskID);
    assert found.Some?;
    assert view[found.value] in s.tasks;
    var j: nat :| j < |s.tasks| && s.tasks[j] == view[found.value];
    assert i < j ==> !SameTaskID(s.tasks, i, j);
    assert j < i ==> !SameTaskID(s.tasks, j, i);
  }

  /** The owner of an open task, known by a unique identity, gets past the ownership check. */
  lemma OwnersAreHeard(s: Snapshot, c: Command, host: Host, i: nat)
    requires Sound(s) && s.status.Running? && OwnAt(s, c, i)
    ensures Compilable(s.definition, host.prepare) && host.handle.Failure? ==>
              Execute(s, Handle(c), host) == Failure(host.handle.error)
    ensures !Compilable(s.definition, host.prepare) ==> Execute(s, Handle(c), host) == Failure(InvalidDefinition)
  {
    BusinessIsDeclared(s);
    OwnerIsFound(s, c, i);
    hide Compilable, CommandAllowed, Advance, Sound, NodeTasks, OwnAt, OwnsActiveTask;
  }

  lemma BusinessIsDeclared(s: Snapshot)
    requires Sound(s) && s.status.Running?
    ensures s.currentNodeID in NodeIDs(s.definition) && IsBusiness(s.definition, s.currentNodeID)
    ensures UniqueTasks(s.tasks) && ValidGraph(s.definition)
  {
  }

  /** What the policy denies does not happen, and nothing is stored. */
  lemma DenialStops(db: Database, s: Snapshot, request: Request, host: Host)
    requires !request.Handle? && !host.authorized
    ensures Execute(s, request, host).Failure?
    ensures E.RunCommand(db, request, host).0.Failure? && E.RunCommand(db, request, host).1 == db
  {
    Denied(s, request, host);
    if InstanceOf(request) in db { Denied(db[InstanceOf(request)], request, host); }
  }

  lemma Denied(s: Snapshot, request: Request, host: Host)
    requires !request.Handle? && !host.authorized
    ensures Execute(s, request, host).Failure?
  {
    hide Compilable, ReturnTarget, ReturnAllowed;
  }

  /* Well-formed requests */

  ghost predicate Visible(text: string) { exists i :: 0 <= i < |text| && !IsSpace(text[i]) }

  /** What a request must name, field by field. */
  ghost predicate WellFormed(request: Request) {
    match request
    case Handle(c) =>
      && c.instanceID != EMPTY && c.taskID != EMPTY && c.actorID != EMPTY && c.name != "" && c.name != "transferred"
      && (c.payload.Absent? || c.payload.Json?)
    case Withdraw(id, actor) => id != EMPTY && actor != EMPTY
    case Return(id, actor, target, reason) => id != EMPTY && actor != EMPTY && target != EMPTY && Visible(reason)
    case Transfer(id, task, actor, assignee, reason) =>
      id != EMPTY && task != EMPTY && actor != EMPTY && assignee != EMPTY && Visible(reason)
  }

  lemma BlankIsInvisible(text: string)
    ensures Blank(text) <==> !Visible(text)
  {
    if !Blank(text) {
      var c :| c in text && !IsSpace(c);
      var i :| 0 <= i < |text| && text[i] == c;
    }
  }

  /** A malformed request never reaches the store; a well-formed one is judged by what is stored. */
  lemma MalformedStops(db: Database, request: Request, host: Host)
    ensures !WellFormed(request) ==>
              E.RunCommand(db, request, host).0.Failure? && E.RunCommand(db, request, host).1 == db
    ensures WellFormed(request) <==> Boundary(request).Success?
  {
    if request.Return? || request.Transfer? { BlankIsInvisible(request.reason); }
  }

  /** What fails stores nothing; a well-formed command on an unknown instance fails for that reason, a start of a known
      one for that. */
  lemma FailureStoresNothing(db: Database, request: Request, d: Definition, start: StartRequest, host: Host)
    ensures E.RunCommand(db, request, host).0.Failure? ==> E.RunCommand(db, request, host).1 == db
    ensures E.RunStart(db, d, start, host).0.Failure? ==> E.RunStart(db, d, start, host).1 == db
    ensures WellFormed(request) && InstanceOf(request) !in db ==>
              E.RunCommand(db, request, host).0 == Failure(InstanceNotFound)
    ensures start.id in db ==> E.RunStart(db, d, start, host).0.Failure?
    ensures E.RunStart(db, d, start, host).0.Success? ==>
              E.RunStart(db, d, start, host).1 == db[start.id := E.RunStart(db, d, start, host).0.value]
  {
    hide Execute, StartInstance;
    MalformedStops(db, request, host);
    if StartInstance(d, start, host).Success? { StartCarries(d, start, host); }
  }

  /** A command touches the instance it names and no other. */
  lemma OnlyTheNamedInstance(db: Database, request: Request, host: Host, other: InstanceID)
    requires AllSound(db) && E.RunCommand(db, request, host).0.Success?
    requires InstanceOf(request) in db ==> Fresh(host.ids, db[InstanceOf(request)].tasks)
    requires match request case Handle(c) => other != c.instanceID case Withdraw(id, _) => other != id
                           case Return(id, _, _, _) => other != id case Transfer(id, _, _, _, _) => other != id
    ensures var after := E.RunCommand(db, request, host).1;
            (other in after <==> other in db) && (other in db ==> after[other] == db[other])
  {
    hide Sound, Fresh, Execute, Boundary;
    ExecuteKeepsID(db[InstanceOf(request)], request, host);
  }

  /* Exact conditions of success */

  /** A withdrawal succeeds exactly on a running instance, when the policy allows it and the version can grow. */
  lemma WithdrawSucceeds(s: Snapshot, id: InstanceID, actor: ActorID, host: Host)
    ensures Execute(s, Withdraw(id, actor), host).Success? <==>
              s.status == Running && host.authorized && s.version != 0xFFFF_FFFF_FFFF_FFFF
  {
  }

  /** A transfer succeeds exactly on a running instance, for an open task at the current node, when the policy allows
      it, the generator answers and the version can grow. */
  lemma TransferSucceeds(s: Snapshot, id: InstanceID, task: TaskID, actor: ActorID, assignee: ActorID, reason: string,
                         host: Host)
    requires UniqueTasks(s.tasks)
    ensures Execute(s, Transfer(id, task, actor, assignee, reason), host).Success? <==>
              && s.status == Running && host.authorized && host.ids != [] && s.version != 0xFFFF_FFFF_FFFF_FFFF
              && exists i :: 0 <= i < |s.tasks| && s.tasks[i].id == task
                             && s.tasks[i].nodeID == s.currentNodeID && s.tasks[i].status == Active
  {
    if i :| && 0 <= i < |s.tasks| && s.tasks[i].id == task
            && s.tasks[i].nodeID == s.currentNodeID && s.tasks[i].status == Active {
      var j := FindTask(s.tasks, task).value;
      assert j < i ==> !SameTaskID(s.tasks, j, i);
    }
  }

  /** A return succeeds exactly on a running instance of an executable definition, to another business node entered
      before, when the policy allows it, the target's handler waits with drafts, the generator has an identity for each,
      and the version can grow. */
  lemma ReturnSucceeds(s: Snapshot, id: InstanceID, actor: ActorID, target: NodeID, reason: string, host: Host)
    requires target != EMPTY
    ensures Execute(s, Return(id, actor, target, reason), host).Success? <==>
              && s.status == Running && host.authorized && s.version != 0xFFFF_FFFF_FFFF_FFFF
              && Compilable(s.definition, host.prepare)
              && target != s.currentNodeID
              && (exists n :: n in s.definition.nodes && n.id == target && n.kind != Start && n.kind != End)
              && (exists r :: r in s.audit && r.action == NodeEntered && r.nodeID == target)
              && WaitsWithDrafts(host.activate(target)) && |host.activate(target).value.tasks| <= |host.ids|
  {
    hide Compilable;
    assert HasEntered(s.audit, target) <==>
             exists r :: r in s.audit && r.action == NodeEntered && r.nodeID == target by {
      if HasEntered(s.audit, target) {
        var i :| 0 <= i < |s.audit| && s.audit[i].action == NodeEntered && s.audit[i].nodeID == target;
        assert s.audit[i] in s.audit;
      }
    }
    assert IsBusiness(s.definition, target) <==>
             exists n :: n in s.definition.nodes && n.id == target && n.kind != Start && n.kind != End by {
      if n :| n in s.definition.nodes && n.id == target && Business(n) {
        assert n.kind != Start;
      }
      if n :| n in s.definition.nodes && n.id == target && n.kind != Start && n.kind != End {
        assert Business(n);
      }
    }
    ReturnAnswers(target, host.activate(target));
    hide ReturnAllowed, WaitsWithDrafts, IsBusiness, HasEntered;
  }

  lemma ReturnAnswers(target: NodeID, answer: Result<NodeResult>)
    requires target != EMPTY
    ensures answer.Success? ==> (ReturnAllowed(target, answer.value) <==> WaitsWithDrafts(answer))
    ensures WaitsWithDrafts(answer) ==> answer.Success?
  {
  }

  /** A start succeeds exactly when it names an instance and an initiator, its data is JSON or absent, its definition is
      executable, and every node it comes to can be entered. */
  lemma StartSucceeds(d: Definition, request: StartRequest, host: Host)
    ensures StartInstance(d, request, host).Success? <==>
              && request.id != EMPTY && request.initiator != EMPTY && (request.data.Absent? || request.data.Json?)
              && Compilable(d, host.prepare)
              && forall node :: node in Path(d, StartSnapshot(d, request, StartID(d), host), EMPTY, host) ==>
                   Enterable(d, host, node)
  {
    hide Acyclic, EdgesAllowed, AllReachable, AllReachEnd, Advance, ConfigsValid, HandlersReady, Unconditional, Path,
         Enterable;
    if Compilable(d, host.prepare) {
      StartHasItsRoute(d, host.prepare);
      AdvanceSucceeds(d, StartSnapshot(d, request, StartID(d), host), EMPTY, host);
    }
  }

  ghost predicate CarriesStart(d: Definition, request: StartRequest, r: Snapshot) {
    && r.id == request.id && r.initiator == request.initiator && r.data == request.data
    && r.definition == d && r.version == 1
  }

  /** A start that succeeds was well formed, of an executable definition, and carries what was asked. */
  lemma StartCarries(d: Definition, request: StartRequest, host: Host)
    requires StartInstance(d, request, host).Success?
    ensures request.id != EMPTY && request.initiator != EMPTY && (request.data.Absent? || request.data.Json?)
    ensures Compilable(d, host.prepare)
    ensures CarriesStart(d, request, StartInstance(d, request, host).value)
  {
    hide Acyclic, EdgesAllowed, AllReachable, AllReachEnd, Advance, ConfigsValid, HandlersReady, Unconditional;
    AdvanceCarries(d, StartSnapshot(d, request, StartID(d), host), EMPTY, host);
  }

  lemma {:induction false} AdvanceCarries(d: Definition, s: Snapshot, outcome: Outcome, host: Host)
    requires ValidGraph(d) && Advance(d, s, outcome, host).Success?
    ensures var r := Advance(d, s, outcome, host).value;
            && r.id == s.id && r.initiator == s.initiator && r.data == s.data && r.definition == s.definition
            && r.version == s.version
    decreases Below(d, s.currentNodeID)
  {
    hide ValidGraph, ActivationAllowed;
    var target := Route(d, s.currentNodeID, outcome).value;
    if FindNode(d, target).value.kind == End {
    } else {
      var result := host.activate(target).value;
      var tasks := ActivateTasks(s.tasks, target, result.tasks, host.ids).value;
      var applied := EnterNode(s, target, host).(tasks := tasks, nodeState := result.state);
      EdgeDescends(d, s.currentNodeID, target);
      if result.disposition.Continue? {
        AdvanceCarries(d, applied, result.outcome, host);
      } else if !result.disposition.Waiting? && result.outcome != EMPTY {
        AdvanceCarries(d, RejectNode(applied, host), result.outcome, host);
      }
    }
  }

  /** An executable definition always has a way out of its Start, and only that one. */
  lemma StartHasItsRoute(d: Definition, prepare: (Kind, RawMessage) -> Preparation)
    requires Compilable(d, prepare)
    ensures exists e :: e in d.edges && e.source == StartID(d) && e.outcome == EMPTY
              && Route(d, StartID(d), EMPTY) == Some(e.target)
    ensures forall e, f :: e in d.edges && f in d.edges && e.source == StartID(d) && f.source == StartID(d) ==> e == f
  {
    var e :| e in d.edges && e.source == StartID(d);
    assert e.outcome == EMPTY;
    RouteUnique(d, e);
    forall e, f | e in d.edges && f in d.edges && e.source == StartID(d) && f.source == StartID(d) ensures e == f {
      SameSelectorSameEdge(d.edges, e, f);
    }
  }

  /* What a command leaves behind */

  ghost predicate SameButProgress(s: Snapshot, r: Snapshot) {
    r.id == s.id && r.definition == s.definition && r.initiator == s.initiator && r.data == s.data
  }

  /** The snapshot gained exactly one record, stamped by the clock. */
  ghost predicate OneRecord(s: Snapshot, r: Snapshot, host: Host) {
    |r.audit| == |s.audit| + 1 && s.audit <= r.audit && r.audit[|s.audit|].at == host.clock(|s.audit|)
  }

  /** The open tasks are closed and the others are as they were. */
  ghost predicate OpenClosed(before: seq<Task>, tasks: seq<Task>) {
    && |before| <= |tasks|
    && forall i :: 0 <= i < |before| ==>
         tasks[i] == if before[i].status == Active then before[i].(status := Closed) else before[i]
  }

  /** A withdrawn instance stays where it was, with every open task closed and every other task as it was. */
  ghost predicate LeftWithdrawn(s: Snapshot, r: Snapshot, host: Host) {
    && r.status == InstanceStatus.Withdrawn && r.currentNodeID == s.currentNodeID && r.nodeState == s.nodeState
    && OneRecord(s, r, host) && |r.tasks| == |s.tasks| && OpenClosed(s.tasks, r.tasks)
  }

  lemma WithdrawLeaves(s: Snapshot, id: InstanceID, actor: ActorID, host: Host)
    requires Execute(s, Withdraw(id, actor), host).Success?
    ensures var r := Execute(s, Withdraw(id, actor), host).value; LeftWithdrawn(s, r, host) && SameButProgress(s, r)
  {
  }

  /** A transfer closes the named task, adds one open task for the new owner at the same node, and changes nothing
      else. */
  ghost predicate LeftTransferred(s: Snapshot, task: TaskID, assignee: ActorID, r: Snapshot, host: Host) {
    && r.status == Running && r.currentNodeID == s.currentNodeID && r.nodeState == s.nodeState
    && OneRecord(s, r, host) && host.ids != []
    && |r.tasks| == |s.tasks| + 1
    && r.tasks[|s.tasks|] == Task(host.ids[0], s.currentNodeID, assignee, Active, EMPTY)
    && exists at :: 0 <= at < |s.tasks| && s.tasks[at].id == task && s.tasks[at].status == Active
                    && r.tasks[at] == s.tasks[at].(status := Closed)
                    && forall i :: 0 <= i < |s.tasks| && i != at ==> r.tasks[i] == s.tasks[i]
  }

  lemma TransferLeaves(s: Snapshot, id: InstanceID, task: TaskID, actor: ActorID, assignee: ActorID, reason: string,
                       host: Host)
    requires Execute(s, Transfer(id, task, actor, assignee, reason), host).Success?
    ensures var r := Execute(s, Transfer(id, task, actor, assignee, reason), host).value;
            LeftTransferred(s, task, assignee, r, host) && SameButProgress(s, r)
  {
    var at := FindTask(s.tasks, task).value;
    assert s.tasks[at].id == task;
  }

  /** The tasks from a position on are the drafts, opened at the node for their own assignees with the generator's
      identities, in order. */
  ghost predicate Opened(tasks: seq<Task>, from: nat, nodeID: NodeID, drafts: seq<Task>, ids: seq<TaskID>) {
    && |tasks| == from + |drafts| && |drafts| <= |ids|
    && forall k :: 0 <= k < |drafts| ==> tasks[from + k] == Task(ids[k], nodeID, drafts[k].assignee, Active, EMPTY)
  }

  lemma DraftsOpen(tasks: seq<Task>, nodeID: NodeID, drafts: seq<Task>, ids: seq<TaskID>)
    requires DraftsAllowed(drafts) && ActivateTasks(tasks, nodeID, drafts, ids).Success?
    ensures Opened(ActivateTasks(tasks, nodeID, drafts, ids).value, |tasks|, nodeID, drafts, ids)
  {
    var r := ActivateTasks(tasks, nodeID, drafts, ids).value;
    forall k | 0 <= k < |drafts| ensures r[|tasks| + k] == Task(ids[k], nodeID, drafts[k].assignee, Active, EMPTY) {
      assert DraftAllowed(drafts[k]);
    }
  }

  /** A return reopens the target with its handler's drafts and state; the tasks it leaves behind are closed. */
  ghost predicate LeftReturned(s: Snapshot, target: NodeID, r: Snapshot, host: Host) {
    && host.activate(target).Success?
    && var answer := host.activate(target).value;
       && r.status == Running && r.currentNodeID == target && r.nodeState == answer.state
       && |r.audit| == |s.audit| + 2 && s.audit <= r.audit
       && Opened(r.tasks, |s.tasks|, target, answer.tasks, host.ids) && OpenClosed(s.tasks, r.tasks)
  }

  lemma ReturnLeaves(s: Snapshot, id: InstanceID, actor: ActorID, target: NodeID, reason: string, host: Host)
    requires Sound(s) && Execute(s, Return(id, actor, target, reason), host).Success?
    ensures var r := Execute(s, Return(id, actor, target, reason), host).value;
            LeftReturned(s, target, r, host) && SameButProgress(s, r)
  {
    hide Compilable, ReturnTarget, Opened, OpenClosed, Sound, DraftsAllowed;
    ReturnLeavesTasks(s, actor, target, reason, host);
  }

  lemma ReturnLeavesTasks(s: Snapshot, actor: ActorID, target: NodeID, reason: string, host: Host)
    requires Sound(s) && s.status.Running? && ReturnInstance(s, actor, target, reason, host).Success?
    ensures var r := ReturnInstance(s, actor, target, reason, host).value;
            Opened(r.tasks, |s.tasks|, target, host.activate(target).value.tasks, host.ids)
            && OpenClosed(s.tasks, r.tasks)
  {
    assert forall i :: 0 <= i < |s.tasks| && s.tasks[i].status.Active? ==> s.tasks[i].nodeID == s.currentNodeID;
    hide Compilable, ReturnTarget, Sound;
    DraftsOpen(CloseActiveAt(s.tasks, s.currentNodeID), target, host.activate(target).value.tasks, host.ids);
  }

  /* Where an advance ends */

  /** The instance waits with the last handler's drafts and state, is completed without state, or was rejected with the
      last handler's state and without new tasks. */
  ghost predicate EndsAsAnswered(r: Snapshot, before: seq<Task>, host: Host) {
    match r.status
    case Running =>
      && WaitsWithDrafts(host.activate(r.currentNodeID))
      && r.nodeState == host.activate(r.currentNodeID).value.state
      && before <= r.tasks
      && Opened(r.tasks, |before|, r.currentNodeID, host.activate(r.currentNodeID).value.tasks, host.ids)
    case Completed => r.nodeState == Absent && r.tasks == before
    case Rejected =>
      && host.activate(r.currentNodeID).Success?
      && host.activate(r.currentNodeID).value.disposition == Reject
      && host.activate(r.currentNodeID).value.outcome == EMPTY
      && r.nodeState == host.activate(r.currentNodeID).value.state && r.tasks == before
    case Withdrawn => false
  }

  /** An advance follows the first route it is given, adds only stamped records, and ends as the last handler asked. */
  lemma {:induction false} AdvanceLeaves(d: Definition, s: Snapshot, outcome: Outcome, host: Host)
    requires ValidGraph(d) && s.status.Running? && Advance(d, s, outcome, host).Success?
    ensures EndsAsAnswered(Advance(d, s, outcome, host).value, s.tasks, host)
    decreases Below(d, s.currentNodeID)
  {
    hide ValidGraph, EndsAsAnswered, ActivationAllowed, Opened, WaitsWithDrafts;
    var target := Route(d, s.currentNodeID, outcome).value;
    var entered := EnterNode(s, target, host);
    if FindNode(d, target).value.kind == End {
      CompletedEnds(entered, s.tasks, host);
    } else {
      var result := host.activate(target).value;
      var tasks := ActivateTasks(s.tasks, target, result.tasks, host.ids).value;
      var applied := entered.(tasks := tasks, nodeState := result.state);
      EdgeDescends(d, s.currentNodeID, target);
      if result.disposition.Waiting? {
        WaitingEnds(applied, s.tasks, host);
      } else {
        NoDrafts(s.tasks, target, result, host.ids);
        if result.disposition.Continue? {
          AdvanceLeaves(d, applied, result.outcome, host);
        } else if result.outcome != EMPTY {
          AdvanceLeaves(d, RejectNode(applied, host), result.outcome, host);
        } else {
          RejectedEnds(applied, host);
        }
      }
    }
  }

  lemma NoDrafts(tasks: seq<Task>, target: NodeID, result: NodeResult, ids: seq<TaskID>)
    requires ActivationAllowed(target, result) && !result.disposition.Waiting?
    ensures ActivateTasks(tasks, target, result.tasks, ids) == Success(tasks)
  {
    assert ActivateTasks(tasks, target, [], ids).value == tasks;
  }

  lemma CompletedEnds(entered: Snapshot, before: seq<Task>, host: Host)
    requires entered.nodeState == Absent && entered.tasks == before
    ensures EndsAsAnswered(Complete(entered, host), before, host)
  {
  }

  lemma WaitingEnds(applied: Snapshot, before: seq<Task>, host: Host)
    requires applied.status.Running? && host.activate(applied.currentNodeID).Success?
    requires var answer := host.activate(applied.currentNodeID).value;
             && ActivationAllowed(applied.currentNodeID, answer) && answer.disposition.Waiting?
             && applied.nodeState == answer.state
             && ActivateTasks(before, applied.currentNodeID, answer.tasks, host.ids) == Success(applied.tasks)
    ensures EndsAsAnswered(applied, before, host)
  {
    DraftsOpen(before, applied.currentNodeID, host.activate(applied.currentNodeID).value.tasks, host.ids);
  }

  lemma RejectedEnds(applied: Snapshot, host: Host)
    requires host.activate(applied.currentNodeID).Success?
    requires var answer := host.activate(applied.currentNodeID).value;
             && ActivationAllowed(applied.currentNodeID, answer)
             && !answer.disposition.Waiting? && !answer.disposition.Continue? && answer.outcome == EMPTY
             && applied.nodeState == answer.state
    ensures EndsAsAnswered(RejectInstance(applied, host), applied.tasks, host)
  {
  }

  /** A started instance follows the edge of its Start, and ends its first advance as the last handler asked, from no
      tasks at all. */
  ghost predicate LeftStart(d: Definition, r: Snapshot, host: Host)
    requires OneStart(d.nodes)
  {
    && |r.audit| > 1 && EntersBy(d, StartID(d), EMPTY, r.audit[1]) && Story(d, host, r.audit, 1)
    && EndsAsAnswered(r, [], host)
  }

  lemma StartLeaves(d: Definition, request: StartRequest, host: Host)
    requires StartInstance(d, request, host).Success?
    ensures OneStart(d.nodes) && LeftStart(d, StartInstance(d, request, host).value, host)
  {
    hide Acyclic, EdgesAllowed, AllReachable, AllReachEnd, Advance, ConfigsValid, HandlersReady, Unconditional,
         EndsAsAnswered;
    var from := StartSnapshot(d, request, StartID(d), host);
    AdvanceLeaves(d, from, EMPTY, host);
    AdvanceStory(d, from, EMPTY, host);
  }

  /* What a handled command leaves behind */

  /** The last proposal for each task of the current node is stored; every other task stays as it was. */
  ghost predicate Rewritten(s: Snapshot, tasks: seq<Task>, proposals: seq<Task>) {
    && |s.tasks| <= |tasks|
    && forall i :: 0 <= i < |s.tasks| ==>
         if s.tasks[i].nodeID != s.currentNodeID then tasks[i] == s.tasks[i]
         else exists k :: 0 <= k < |proposals| && proposals[k] == tasks[i] && proposals[k].id == s.tasks[i].id
                          && forall m :: k < m < |proposals| ==> proposals[m].id != s.tasks[i].id
  }

  /** The proposals name exactly the tasks of the current node. */
  ghost predicate CompleteView(s: Snapshot, proposals: seq<Task>) {
    && (forall p :: p in proposals ==>
        p.nodeID == s.currentNodeID && exists t :: t in s.tasks && t.nodeID == p.nodeID && t.id == p.id)
    && (forall t :: t in s.tasks && t.nodeID == s.currentNodeID ==> exists p :: p in proposals && p.id == t.id)
  }

  lemma {:induction false} LastIsLast(proposals: seq<Task>, id: TaskID)
    requires LastProposal(proposals, id).Some?
    ensures exists k :: 0 <= k < |proposals| && proposals[k] == LastProposal(proposals, id).value
                        && forall m :: k < m < |proposals| ==> proposals[m].id != id
  {
    var last := |proposals| - 1;
    if proposals[last].id == id {
      assert proposals[last] == LastProposal(proposals, id).value;
    } else {
      LastIsLast(proposals[..last], id);
      var k :| 0 <= k < last && proposals[..last][k] == LastProposal(proposals, id).value
               && forall m :: k < m < last ==> proposals[..last][m].id != id;
      assert proposals[k] == LastProposal(proposals, id).value;
      forall m | k < m < |proposals| ensures proposals[m].id != id {
        if m < last { assert proposals[..last][m].id != id; }
      }
    }
  }

  lemma ViewIsComplete(s: Snapshot, proposals: seq<Task>)
    requires ViewAllowed(s.tasks, s.currentNodeID, proposals)
    ensures CompleteView(s, proposals) && Rewritten(s, ReplaceNodeTasks(s.tasks, s.currentNodeID, proposals), proposals)
  {
    var tasks := ReplaceNodeTasks(s.tasks, s.currentNodeID, proposals);
    forall i | 0 <= i < |s.tasks| && s.tasks[i].nodeID == s.currentNodeID
      ensures LastProposal(proposals, s.tasks[i].id).Some? && LastProposal(proposals, s.tasks[i].id).value in proposals
      ensures exists k :: 0 <= k < |proposals| && proposals[k] == tasks[i] && proposals[k].id == s.tasks[i].id
                          && forall m :: k < m < |proposals| ==> proposals[m].id != s.tasks[i].id
    {
      assert Proposed(proposals, s.tasks[i]);
      LastIsLast(proposals, s.tasks[i].id);
    }
    forall p | p in proposals
        ensures p.nodeID == s.currentNodeID && exists t :: t in s.tasks && t.nodeID == p.nodeID && t.id == p.id {
      assert TaskAt(s.tasks, s.currentNodeID, p.id);
    }
    forall t | t in s.tasks && t.nodeID == s.currentNodeID ensures exists p :: p in proposals && p.id == t.id {
      var i :| 0 <= i < |s.tasks| && s.tasks[i] == t;
      assert LastProposal(proposals, s.tasks[i].id).value in proposals;
    }
  }

  /** The first node an instance enters in the course of a command. */
  ghost predicate EntersFirst(s: Snapshot, r: Snapshot, node: NodeID) {
    && |Entered(s.audit)| < |Entered(r.audit)| && Entered(s.audit) <= Entered(r.audit)
    && Entered(r.audit)[|Entered(s.audit)|] == node
  }

  /** A handled command does what the handler's disposition says: it waits at the node with the new state; or it follows
      the route of the handler's outcome, after a rejection record when the handler rejected; or it ends the
      instance. */
  ghost predicate Obeys(s: Snapshot, r: Snapshot, result: NodeResult, host: Host) {
    match result.disposition
    case Waiting =>
      && r.status == Running && r.currentNodeID == s.currentNodeID && r.nodeState == result.state
      && |r.tasks| == |s.tasks| && Entered(r.audit) == Entered(s.audit) && |r.audit| == |s.audit| + 1
    case Continue =>
      && Route(s.definition, s.currentNodeID, result.outcome).Some?
      && EntersFirst(s, r, Route(s.definition, s.currentNodeID, result.outcome).value)
      && |r.audit| > |s.audit| + 1 && r.audit[|s.audit| + 1].action == NodeEntered
    case Reject =>
      if result.outcome == EMPTY then
        && r.status == InstanceStatus.Rejected && r.currentNodeID == s.currentNodeID && r.nodeState == result.state
        && |r.tasks| == |s.tasks| && Entered(r.audit) == Entered(s.audit) && |r.audit| == |s.audit| + 2
      else
        && Route(s.definition, s.currentNodeID, result.outcome).Some?
        && EntersFirst(s, r, Route(s.definition, s.currentNodeID, result.outcome).value)
        && |r.audit| > |s.audit| + 2 && r.audit[|s.audit| + 1].action == NodeRejected
        && r.audit[|s.audit| + 1].nodeID == s.currentNodeID && r.audit[|s.audit| + 2].action == NodeEntered
    case UnknownDisposition => false
    case UnsupportedDisposition(_) => false
  }

  lemma AdvanceGoesFirst(d: Definition, s: Snapshot, outcome: Outcome, host: Host)
    requires ValidGraph(d) && Advance(d, s, outcome, host).Success?
    ensures Route(d, s.currentNodeID, outcome).Some?
    ensures var r := Advance(d, s, outcome, host).value;
            && EntersFirst(s, r, Route(d, s.currentNodeID, outcome).value)
            && s.audit < r.audit && r.audit[|s.audit|].action == NodeEntered
  {
    hide ValidGraph, ActivationAllowed, Entered;
    PathRecorded(d, s, outcome, host);
    var target := Route(d, s.currentNodeID, outcome).value;
    var entered := EnterNode(s, target, host);
    var r := Advance(d, s, outcome, host).value;
    assert entered.audit <= r.audit by { AdvanceExtends(d, s, outcome, host); }
    assert Path(d, s, outcome, host)[0] == target;
  }

  lemma AdvanceExtends(d: Definition, s: Snapshot, outcome: Outcome, host: Host)
    requires ValidGraph(d) && Advance(d, s, outcome, host).Success?
    ensures Route(d, s.currentNodeID, outcome).Some?
    ensures var target := Route(d, s.currentNodeID, outcome).value;
            EnterNode(s, target, host).audit <= Advance(d, s, outcome, host).value.audit
  {
    hide ValidGraph, ActivationAllowed;
    var target := Route(d, s.currentNodeID, outcome).value;
    if FindNode(d, target).value.kind == End {
    } else {
      var result := host.activate(target).value;
      var tasks := ActivateTasks(s.tasks, target, result.tasks, host.ids).value;
      var applied := EnterNode(s, target, host).(tasks := tasks, nodeState := result.state);
      if result.disposition.Continue? {
        AdvanceRecords(d, applied, result.outcome, host);
      } else if !result.disposition.Waiting? && result.outcome != EMPTY {
        AdvanceRecords(d, RejectNode(applied, host), result.outcome, host);
      }
    }
  }

  /** The snapshot a handled command is routed from. */
  ghost function Handled(s: Snapshot, c: Command, result: NodeResult, host: Host): Snapshot {
    Append(s, CommandRecord(s, c), host)
      .(tasks := ReplaceNodeTasks(s.tasks, s.currentNodeID, result.tasks), nodeState := result.state)
  }

  /** The ways a handled command can succeed. */
  lemma HandleCases(s: Snapshot, c: Command, host: Host)
    requires HandleCommand(s, c, host).Success?
    ensures host.handle.Success? && CommandAllowed(s.tasks, s.currentNodeID, host.handle.value)
    ensures var result := host.handle.value;
            var handled := Handled(s, c, result, host);
            HandleCommand(s, c, host) ==
              if result.disposition.Waiting? then Success(handled)
              else if result.disposition.Continue? then Advance(s.definition, handled, result.outcome, host)
              else if result.outcome != EMPTY
                  then Advance(s.definition, RejectNode(handled, host), result.outcome, host)
              else Success(RejectInstance(handled, host))
  {
    hide CommandAllowed, Advance, ValidGraph;
  }

  /** Behind the tasks it had before, the instance ends as the last handler asked. */
  ghost predicate EndsFromThere(s: Snapshot, r: Snapshot, host: Host) {
    |s.tasks| <= |r.tasks| && EndsAsAnswered(r, r.tasks[..|s.tasks|], host)
  }

  lemma EndsFrom(s: Snapshot, before: seq<Task>, r: Snapshot, host: Host)
    requires |before| == |s.tasks| && EndsAsAnswered(r, before, host)
    ensures EndsFromThere(s, r, host)
  {
    hide Opened, WaitsWithDrafts;
    assert before == r.tasks[..|s.tasks|];
  }

  /** The handler's answer makes the instance leave its node. */
  ghost predicate Leaves(result: NodeResult) {
    result.disposition.Continue? || (result.disposition.Reject? && result.outcome != EMPTY)
  }

  lemma HandleArrived(s: Snapshot, c: Command, host: Host)
    requires ValidGraph(s.definition) && s.status.Running? && HandleCommand(s, c, host).Success?
    ensures host.handle.Success?
    ensures var r := HandleCommand(s, c, host).value;
            && CompleteView(s, host.handle.value.tasks) && Rewritten(s, r.tasks, host.handle.value.tasks)
            && SameButProgress(s, r) && (Leaves(host.handle.value) ==> EndsFromThere(s, r, host))
  {
    HandleCases(s, c, host);
    hide ValidGraph, Advance, CommandAllowed, ReplaceTask, CompleteView, Rewritten, HandleCommand, SameButProgress,
         EndsFromThere;
    var result := host.handle.value;
    var handled := Handled(s, c, result, host);
    HandledView(s, result);
    assert SameButProgress(s, handled) && SameButProgress(s, RejectNode(handled, host)) by {
      HandledCarries(s, c, result, host);
    }
    if result.disposition.Continue? {
      RoutedArrives(s, handled, result.outcome, result.tasks, host);
    } else if !result.disposition.Waiting? && result.outcome != EMPTY {
      RoutedArrives(s, RejectNode(handled, host), result.outcome, result.tasks, host);
    } else {
      HandledCarries(s, c, result, host);
    }
  }

  lemma HandledCarries(s: Snapshot, c: Command, result: NodeResult, host: Host)
    ensures var handled := Handled(s, c, result, host);
            SameButProgress(s, handled) && SameButProgress(s, RejectNode(handled, host))
            && SameButProgress(s, RejectInstance(handled, host))
  {
  }

  lemma RoutedArrives(s: Snapshot, from: Snapshot, outcome: Outcome, proposals: seq<Task>, host: Host)
    requires ValidGraph(s.definition) && from.status.Running? && SameButProgress(s, from)
    requires Rewritten(s, from.tasks, proposals) && |from.tasks| == |s.tasks|
    requires Advance(s.definition, from, outcome, host).Success?
    ensures var r := Advance(s.definition, from, outcome, host).value;
            Rewritten(s, r.tasks, proposals) && SameButProgress(s, r) && EndsFromThere(s, r, host)
  {
    hide ValidGraph, Advance, Rewritten, EndsAsAnswered;
    AdvanceCarries(s.definition, from, outcome, host);
    AdvanceLeaves(s.definition, from, outcome, host);
    EndsFrom(s, from.tasks, Advance(s.definition, from, outcome, host).value, host);
    StillRewritten(s, from.tasks, Advance(s.definition, from, outcome, host).value, proposals, host);
  }

  /** The handler answered on the complete view of the node's tasks, and was obeyed. */
  ghost predicate LeftHandled(s: Snapshot, r: Snapshot, host: Host) {
    && host.handle.Success?
    && Obeys(s, r, host.handle.value, host)
    && CompleteView(s, host.handle.value.tasks) && Rewritten(s, r.tasks, host.handle.value.tasks)
    && (Leaves(host.handle.value) ==> EndsFromThere(s, r, host) && StoryAfter(s, host.handle.value, r, host))
  }

  /** After the records of the command and of a rejection, the audit tells where the instance went. */
  ghost predicate StoryAfter(s: Snapshot, result: NodeResult, r: Snapshot, host: Host) {
    Story(s.definition, host, r.audit, |s.audit| + if result.disposition == Reject then 2 else 1)
  }

  lemma HandledStory(s: Snapshot, c: Command, result: NodeResult, host: Host)
    requires ValidGraph(s.definition) && HandleCommand(s, c, host).Success? && host.handle == Success(result)
    requires Leaves(result)
    ensures StoryAfter(s, result, HandleCommand(s, c, host).value, host)
  {
    HandleCases(s, c, host);
    hide ValidGraph, Advance, Story, HandleCommand, CommandAllowed, ReplaceTask;
    var handled := Handled(s, c, result, host);
    if result.disposition.Continue? {
      AdvanceStory(s.definition, handled, result.outcome, host);
    } else {
      AdvanceStory(s.definition, RejectNode(handled, host), result.outcome, host);
    }
  }


  /** Whatever the handler answered, a command that succeeds obeyed it. */
  lemma HandleObeys(s: Snapshot, c: Command, host: Host)
    requires Sound(s) && Execute(s, Handle(c), host).Success?
    ensures var r := Execute(s, Handle(c), host).value;
            LeftHandled(s, r, host) && SameButProgress(s, r) && r.version == s.version + 1
  {
    hide Sound, ValidGraph, HandleCommand, CompleteView, Rewritten, Obeys, Opened, WaitsWithDrafts, Story;
    hide WithdrawInstance, ReturnInstance, TransferInstance;
    GraphOf(s);
    HandleKeepsVersion(s, c, host);
    HandleArrived(s, c, host);
    HandledObeys(s, c, host.handle.value, host);
    if Leaves(host.handle.value) { HandledStory(s, c, host.handle.value, host); }
    ObeysAnyVersion(s, HandleCommand(s, c, host).value, s.version + 1, host.handle.value, host);
  }

  lemma ObeysAnyVersion(s: Snapshot, r: Snapshot, version: nat, result: NodeResult, host: Host)
    requires Obeys(s, r, result, host)
    ensures Obeys(s, r.(version := version), result, host)
  {
    hide Entered;
  }

  lemma GraphOf(s: Snapshot)
    requires Sound(s)
    ensures ValidGraph(s.definition)
  {
  }

  lemma HandledView(s: Snapshot, result: NodeResult)
    requires CommandAllowed(s.tasks, s.currentNodeID, result)
    ensures CompleteView(s, result.tasks)
    ensures Rewritten(s, ReplaceNodeTasks(s.tasks, s.currentNodeID, result.tasks), result.tasks)
    ensures result.disposition.Waiting? || result.disposition.Continue? || result.disposition.Reject?
  {
    hide ViewAllowed, CompleteView, Rewritten;
    ViewIsComplete(s, result.tasks);
  }

  lemma StillRewritten(s: Snapshot, handled: seq<Task>, r: Snapshot, proposals: seq<Task>, host: Host)
    requires Rewritten(s, handled, proposals) && EndsAsAnswered(r, handled, host)
    ensures Rewritten(s, r.tasks, proposals)
  {
    assert handled <= r.tasks;
    assert forall i :: 0 <= i < |handled| ==> r.tasks[i] == handled[i];
  }

  lemma HandledObeys(s: Snapshot, c: Command, result: NodeResult, host: Host)
    requires ValidGraph(s.definition) && s.status.Running? && HandleCommand(s, c, host).Success?
    requires host.handle == Success(result)
    ensures Obeys(s, HandleCommand(s, c, host).value, result, host)
  {
    hide ValidGraph, Compilable, Advance, ViewAllowed, ReplaceTask, Entered;
    var handled := Handled(s, c, result, host);
    EnteredMore(s, CommandRecord(s, c), host);
    NothingEntered(handled, host);
    if result.disposition.Continue? {
      AdvanceGoesFirst(s.definition, handled, result.outcome, host);
    } else if !result.disposition.Waiting? && result.outcome != EMPTY {
      AdvanceGoesFirst(s.definition, RejectNode(handled, host), result.outcome, host);
    }
  }

  /* Every command together */

  /** A handled command succeeds exactly for the owner of an open task at the current node of a running instance of an
      executable definition, when the handler answers, its answer is one the engine accepts, every node the answer leads
      to can be entered, and the version can grow. */
  lemma HandleSucceeds(s: Snapshot, c: Command, host: Host)
    requires Sound(s)
    ensures Execute(s, Handle(c), host).Success? <==>
              && s.status == Running && s.version != 0xFFFF_FFFF_FFFF_FFFF
              && (exists i: nat :: OwnAt(s, c, i))
              && Compilable(s.definition, host.prepare)
              && host.handle.Success? && CommandAllowed(s.tasks, s.currentNodeID, host.handle.value)
              && (Leaves(host.handle.value) ==> GoesOn(s, c, host))
  {
    hide Sound, ValidGraph, Compilable, CommandAllowed, Advance, OwnAt, NodeTasks, OwnsActiveTask, GoesOn;
    GraphOf(s);
    if !exists i: nat :: OwnAt(s, c, i) {
      OnlyOwnersAreHeard(s, c, host);
    } else if s.status.Running? {
      var i: nat :| OwnAt(s, c, i);
      BusinessIsDeclared(s);
      OwnerIsFound(s, c, i);
      if Compilable(s.definition, host.prepare) && host.handle.Success?
         && CommandAllowed(s.tasks, s.currentNodeID, host.handle.value) {
        HandleRuns(s, c, host);
      }
    }
  }

  lemma HandleRuns(s: Snapshot, c: Command, host: Host)
    requires ValidGraph(s.definition) && OwnsActiveTask(NodeTasks(s.tasks, s.currentNodeID), c)
    requires Compilable(s.definition, host.prepare)
    requires s.currentNodeID in NodeIDs(s.definition) && IsBusiness(s.definition, s.currentNodeID)
    requires host.handle.Success? && CommandAllowed(s.tasks, s.currentNodeID, host.handle.value)
    ensures HandleCommand(s, c, host).Success? <==> (Leaves(host.handle.value) ==> GoesOn(s, c, host))
    ensures HandleCommand(s, c, host).Success? ==> HandleCommand(s, c, host).value.version == s.version
  {
    hide ValidGraph, Compilable, CommandAllowed, Advance, NodeTasks, OwnsActiveTask, Path, Enterable, LeadsOn;
    var result := host.handle.value;
    HandledView(s, result);
    var handled := Handled(s, c, result, host);
    if HandleCommand(s, c, host).Success? { HandleKeepsVersion(s, c, host); }
    if result.disposition.Continue? {
      AdvanceSucceeds(s.definition, handled, result.outcome, host);
    } else if result.outcome != EMPTY {
      AdvanceSucceeds(s.definition, RejectNode(handled, host), result.outcome, host);
    }
  }

  /** The handler's outcome leads on, and every node the instance then comes to can be entered. */
  ghost predicate GoesOn(s: Snapshot, c: Command, host: Host)
    requires ValidGraph(s.definition) && host.handle.Success?
  {
    var result := host.handle.value;
    var handled := Handled(s, c, result, host);
    var from := if result.disposition == Reject then RejectNode(handled, host) else handled;
    && LeadsOn(s.definition, s.currentNodeID, result.outcome)
    && forall node :: node in Path(s.definition, from, result.outcome, host) ==> Enterable(s.definition, host, node)
  }

  ghost predicate LeftBy(s: Snapshot, request: Request, r: Snapshot, host: Host) {
    match request
    case Handle(_) => LeftHandled(s, r, host)
    case Withdraw(_, _) => LeftWithdrawn(s, r, host)
    case Return(_, _, target, _) => LeftReturned(s, target, r, host)
    case Transfer(_, task, _, assignee, _) => LeftTransferred(s, task, assignee, r, host)
  }

  lemma ExecuteLeaves(s: Snapshot, request: Request, host: Host)
    requires Sound(s) && Execute(s, request, host).Success?
    ensures var r := Execute(s, request, host).value; LeftBy(s, request, r, host) && SameButProgress(s, r)
  {
    hide Sound, Execute, LeftHandled, LeftWithdrawn, LeftReturned, LeftTransferred, SameButProgress;
    match request
    case Handle(c) => HandleObeys(s, c, host);
    case Withdraw(id, actor) => WithdrawLeaves(s, id, actor, host);
    case Return(id, actor, target, reason) => ReturnLeaves(s, id, actor, target, reason, host);
    case Transfer(id, task, actor, assignee, reason) => TransferLeaves(s, id, task, actor, assignee, reason, host);
  }

  /* Whole logs */

  lemma AcceptedAt(log: seq<Commit>, k: nat)
    requires AllAccepted(log) && k < |log|
    ensures Accepted(Serial(log[..k]), log[k]) && Serial(log[..k + 1]) == Replayed(Serial(log[..k]), log[k]).1
  {
    hide Accepted, Replayed;
    PrefixAccepted(log, k + 1);
    assert log[..k + 1][..k] == log[..k] && log[..k + 1][k] == log[k];
  }

  /** Every accepted command of a log ran on what the log had stored by then, and its result was stored. */
  lemma CommitRan(log: seq<Commit>, k: nat)
    requires AllAccepted(log) && k < |log| && log[k].Applied?
    ensures var id := InstanceOf(log[k].request);
            && id in Serial(log[..k]) && Sound(Serial(log[..k])[id])
            && Fresh(log[k].host.ids, Serial(log[..k])[id].tasks)
            && Execute(Serial(log[..k])[id], log[k].request, log[k].host).Success? && WellFormed(log[k].request)
            && id in Serial(log[..k + 1])
            && Serial(log[..k + 1])[id] == Execute(Serial(log[..k])[id], log[k].request, log[k].host).value
  {
    hide Sound, Execute, Serial, AllAccepted, WellFormed, Fresh;
    AcceptedAt(log, k);
    PrefixAccepted(log, k);
    SerialSound(log[..k]);
    MalformedStops(Serial(log[..k]), log[k].request, log[k].host);
    ExecuteKeepsID(Serial(log[..k])[InstanceOf(log[k].request)], log[k].request, log[k].host);
  }

  /** A handled command came from the owner of an open task at the node the instance was at, any other command was
      authorized, and either was well formed; a start was by somebody. */
  ghost predicate Entitled(log: seq<Commit>, k: nat)
    requires k < |log|
  {
    match log[k]
    case Started(_, start, _) => start.id != EMPTY && start.initiator != EMPTY
    case Applied(request, host) =>
      && WellFormed(request) && InstanceOf(request) in Serial(log[..k])
      && if request.Handle? then exists i: nat :: OwnAt(Serial(log[..k])[InstanceOf(request)], request.command, i)
         else host.authorized
  }

  /** Every accepted write of a log was somebody's to ask for. */
  lemma EveryCommitWasEntitled(log: seq<Commit>, k: nat)
    requires AllAccepted(log) && k < |log|
    ensures Entitled(log, k)
  {
    hide Sound, Execute, Serial, StartInstance, WellFormed, OwnAt;
    if log[k].Applied? {
      CommitRan(log, k);
      var s := Serial(log[..k])[InstanceOf(log[k].request)];
      if log[k].request.Handle? {
        OnlyOwnersAreHeard(s, log[k].request.command, log[k].host);
      } else if !log[k].host.authorized {
        Denied(s, log[k].request, log[k].host);
      }
    } else {
      StartRan(log, k);
      StartCarries(log[k].definition, log[k].start, log[k].host);
    }
  }

  /** The commit at a position left its instance as its request and its handlers' answers say. */
  ghost predicate AsAsked(log: seq<Commit>, k: nat)
    requires k < |log|
  {
    var id := Target(log[k]);
    id in Serial(log[..k + 1]) &&
    var r := Serial(log[..k + 1])[id];
    match log[k]
    case Started(d, start, host) => CarriesStart(d, start, r) && OneStart(d.nodes) && LeftStart(d, r, host)
    case Applied(request, host) =>
      && id in Serial(log[..k])
      && LeftBy(Serial(log[..k])[id], request, r, host) && SameButProgress(Serial(log[..k])[id], r)
  }

  lemma EveryCommitIsAsAsked(log: seq<Commit>, k: nat)
    requires AllAccepted(log) && k < |log|
    ensures AsAsked(log, k)
  {
    hide Sound, Execute, Serial, StartInstance, WellFormed, Fresh, LeftBy, SameButProgress, LeftStart, CarriesStart;
    if log[k].Applied? {
      CommitRan(log, k);
      ExecuteLeaves(Serial(log[..k])[Target(log[k])], log[k].request, log[k].host);
    } else {
      StartRan(log, k);
      StartCarries(log[k].definition, log[k].start, log[k].host);
      StartLeaves(log[k].definition, log[k].start, log[k].host);
    }
  }

  /** In every interleaving of any clients, everything that was ever stored was somebody's to ask for, and is what was
      asked and answered. */
  lemma EveryRunIsAsAsked(events: seq<Event>)
    ensures forall k: nat :: k < |Run(events).log| ==> Entitled(Run(events).log, k) && AsAsked(Run(events).log, k)
  {
    hide Run, Entitled, AsAsked, AllAccepted;
    Serializable(events);
    forall k: nat | k < |Run(events).log| ensures Entitled(Run(events).log, k) && AsAsked(Run(events).log, k) {
      EveryCommitWasEntitled(Run(events).log, k);
      EveryCommitIsAsAsked(Run(events).log, k);
    }
  }

  lemma StartRan(log: seq<Commit>, k: nat)
    requires AllAccepted(log) && k < |log| && log[k].Started?
    ensures StartInstance(log[k].definition, log[k].start, log[k].host).Success?
    ensures Target(log[k]) in Serial(log[..k + 1])
    ensures Serial(log[..k + 1])[Target(log[k])] == StartInstance(log[k].definition, log[k].start, log[k].host).value
  {
    hide Serial, AllAccepted, StartInstance, E.RunStart;
    AcceptedAt(log, k);
    StartStored(Serial(log[..k]), log[k].definition, log[k].start, log[k].host);
  }

  lemma StartStored(db: Database, d: Definition, start: StartRequest, host: Host)
    requires E.RunStart(db, d, start, host).0.Success?
    ensures StartInstance(d, start, host).Success?
    ensures var after := E.RunStart(db, d, start, host).1;
            start.id in after && after[start.id] == StartInstance(d, start, host).value
  {
    hide StartInstance;
    StartCarries(d, start, host);
  }
}
