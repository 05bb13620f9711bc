/** What a navigation records, told by the handlers' answers alone: each record says what the next one is, and the last
    one why nothing follows. */
module Chronicles {
  import opened Workflow
  import opened Graphs
  import opened Compiler
  import opened Transitions
  import opened Navigation

  /* Answers */

  /** A draft the engine turns into a task. */
  ghost predicate OpenDraft(t: Task) {
    t.id == EMPTY && t.assignee != EMPTY && t.status == Active && t.outcome == EMPTY
  }

  ghost predicate StateGiven(answer: NodeResult) { answer.state.Absent? || answer.state.Json? }

  /** A handler's answer that makes the instance wait at its node. */
  ghost predicate WaitsWithDrafts(answer: Result<NodeResult>) {
    && answer.Success?
    && answer.value.disposition == Waiting && answer.value.outcome == EMPTY
    && StateGiven(answer.value)
    && answer.value.tasks != [] && forall i :: 0 <= i < |answer.value.tasks| ==> OpenDraft(answer.value.tasks[i])
  }

  /** The edge from one node to another that an outcome selects. */
  ghost predicate Leads(d: Definition, from: NodeID, outcome: Outcome, to: NodeID) {
    exists e :: e in d.edges && e.source == from && e.outcome == outcome && e.target == to
  }

  ghost predicate LeadsOn(d: Definition, from: NodeID, outcome: Outcome) {
    exists e :: e in d.edges && e.source == from && e.outcome == outcome
  }

  lemma RouteLeads(d: Definition, from: NodeID, outcome: Outcome)
    ensures Route(d, from, outcome).Some? <==> LeadsOn(d, from, outcome)
    ensures Route(d, from, outcome).Some? ==> Leads(d, from, outcome, Route(d, from, outcome).value)
  {
    if e :| e in d.edges && e.source == from && e.outcome == outcome {
      assert Selects(e, from, outcome);
    }
    if Route(d, from, outcome).Some? {
      var e :| e in d.edges && Selects(e, from, outcome) && Route(d, from, outcome) == Some(e.target);
    }
  }

  /** The node can be entered: it is an End, or its handler gives an answer the engine can carry out. */
  ghost predicate Enterable(d: Definition, host: Host, node: NodeID) {
    IsEnd(d, node)
    || (&& host.activate(node).Success?
        && var answer := host.activate(node).value;
           match answer.disposition
           case Waiting => WaitsWithDrafts(Success(answer)) && |answer.tasks| <= |host.ids|
           case Continue => StateGiven(answer) && answer.tasks == [] && LeadsOn(d, node, answer.outcome)
           case Reject =>
             StateGiven(answer) && answer.tasks == [] && (answer.outcome == EMPTY || LeadsOn(d, node, answer.outcome))
           case UnknownDisposition => false
           case UnsupportedDisposition(_) => false)
  }

  /* Records */

  ghost predicate EntersBy(d: Definition, from: NodeID, outcome: Outcome, r: AuditRecord) {
    r.action == NodeEntered && Leads(d, from, outcome, r.nodeID)
  }

  /** The second record is what has to follow the first. */
  ghost predicate Follows(d: Definition, host: Host, a: AuditRecord, b: AuditRecord) {
    match a.action
    case NodeEntered =>
      if IsEnd(d, a.nodeID) then b.action == InstanceCompleted && b.nodeID == a.nodeID
      else
        && host.activate(a.nodeID).Success?
        && var answer := host.activate(a.nodeID).value;
           if answer.disposition == Continue then EntersBy(d, a.nodeID, answer.outcome, b)
           else
             && answer.disposition == Reject && b.nodeID == a.nodeID
             && b.action == if answer.outcome == EMPTY then InstanceRejected else NodeRejected
    case NodeRejected =>
      host.activate(a.nodeID).Success? && EntersBy(d, a.nodeID, host.activate(a.nodeID).value.outcome, b)
    case _ => false
  }

  /** Nothing has to follow the record. */
  ghost predicate Closes(d: Definition, host: Host, r: AuditRecord) {
    match r.action
    case NodeEntered => !IsEnd(d, r.nodeID) && WaitsWithDrafts(host.activate(r.nodeID))
    case InstanceCompleted => true
    case InstanceRejected => true
    case _ => false
  }

  /** From a position on, each record follows from the one before, and the last closes the story. */
  ghost predicate Story(d: Definition, host: Host, audit: seq<AuditRecord>, from: nat) {
    && from < |audit|
    && (forall j, k :: from <= j && k == j + 1 && k < |audit| ==> Follows(d, host, audit[j], audit[k]))
    && Closes(d, host, audit[|audit| - 1])
  }

  lemma StoryFrom(d: Definition, host: Host, audit: seq<AuditRecord>, from: nat)
    requires Story(d, host, audit, from + 1) && Follows(d, host, audit[from], audit[from + 1])
    ensures Story(d, host, audit, from)
  {
    hide Follows, Closes;
  }

  lemma StoryEnds(d: Definition, host: Host, audit: seq<AuditRecord>, r: AuditRecord)
    requires audit != [] && Follows(d, host, audit[|audit| - 1], r) && Closes(d, host, r)
    ensures Story(d, host, audit + [r], |audit| - 1)
  {
    hide Follows, Closes;
  }

  /** The entry of a business node whose handler answered. */
  ghost predicate EntryAnswered(d: Definition, host: Host, r: AuditRecord, disposition: Disposition) {
    && r.action == NodeEntered && !IsEnd(d, r.nodeID)
    && host.activate(r.nodeID).Success? && host.activate(r.nodeID).value.disposition == disposition
  }

  lemma ContinueStory(d: Definition, host: Host, audit: seq<AuditRecord>, from: nat)
    requires Story(d, host, audit, from + 1) && EntryAnswered(d, host, audit[from], Continue)
    requires EntersBy(d, audit[from].nodeID, host.activate(audit[from].nodeID).value.outcome, audit[from + 1])
    ensures Story(d, host, audit, from)
  {
    hide Story, EntersBy;
    StoryFrom(d, host, audit, from);
  }

  lemma RejectStory(d: Definition, host: Host, audit: seq<AuditRecord>, from: nat)
    requires Story(d, host, audit, from + 2) && EntryAnswered(d, host, audit[from], Reject)
    requires audit[from + 1].action == NodeRejected && audit[from + 1].nodeID == audit[from].nodeID
    requires host.activate(audit[from].nodeID).value.outcome != EMPTY
    requires EntersBy(d, audit[from].nodeID, host.activate(audit[from].nodeID).value.outcome, audit[from + 2])
    ensures Story(d, host, audit, from)
  {
    hide Story, EntersBy;
    StoryFrom(d, host, audit, from + 1);
    StoryFrom(d, host, audit, from);
  }

  lemma EntryStory(d: Definition, s: Snapshot, outcome: Outcome, host: Host)
    requires Route(d, s.currentNodeID, outcome).Some?
    ensures var target := Route(d, s.currentNodeID, outcome).value;
            var r := AuditRecord(NodeEntered, nodeID := target).(at := host.clock(|s.audit|));
            EnterNode(s, target, host).audit == s.audit + [r] && EntersBy(d, s.currentNodeID, outcome, r)
  {
    RouteLeads(d, s.currentNodeID, outcome);
  }

  lemma StoryHere(d: Definition, host: Host, audit: seq<AuditRecord>)
    requires audit != [] && Closes(d, host, audit[|audit| - 1])
    ensures Story(d, host, audit, |audit| - 1)
  {
  }

  lemma TargetKind(d: Definition, from: NodeID, target: NodeID)
    requires ValidGraph(d) && HasEdge(d.edges, from, target)
    ensures FindNode(d, target).Some? && FindNode(d, target).value.kind != Start && target != EMPTY
    ensures FindNode(d, target).value.kind == End <==> IsEnd(d, target)
    ensures IsBusiness(d, target) <==> !IsEnd(d, target)
  {
    TargetIsBusinessOrEnd(d, from, target);
    RouteLeadsToBusinessOrEnd(d, from, target);
    var n := FindNode(d, target).value;
    if m :| m in d.nodes && m.id == target && m.kind == End { SameIDSameNode(d.nodes, m, n); }
  }

  lemma AnswerTaken(target: NodeID, answer: NodeResult)
    requires target != EMPTY
    ensures ActivationAllowed(target, answer) <==>
              match answer.disposition
              case Waiting => WaitsWithDrafts(Success(answer))
              case Continue => StateGiven(answer) && answer.tasks == []
              case Reject => StateGiven(answer) && answer.tasks == []
              case UnknownDisposition => false
              case UnsupportedDisposition(_) => false
  {
  }

  /** The snapshot after a node was entered and its handler's answer taken. */
  ghost function Reached(s: Snapshot, target: NodeID, result: NodeResult, host: Host): Snapshot {
    var tasks := ActivateTasks(s.tasks, target, result.tasks, host.ids);
    EnterNode(s, target, host).(tasks := if tasks.Success? then tasks.value else s.tasks, nodeState := result.state)
  }

  /** The first round of an advance that succeeds. */
  lemma FirstRound(d: Definition, s: Snapshot, outcome: Outcome, host: Host)
    requires ValidGraph(d) && Advance(d, s, outcome, host).Success?
    ensures Route(d, s.currentNodeID, outcome).Some?
    ensures var target := Route(d, s.currentNodeID, outcome).value;
            var advanced := Advance(d, s, outcome, host);
            if IsEnd(d, target) then advanced == Success(Complete(EnterNode(s, target, host), host))
            else
              && host.activate(target).Success?
              && var result := host.activate(target).value;
                 var reached := Reached(s, target, result, host);
                 match result.disposition
                 case Waiting => advanced == Success(reached) && WaitsWithDrafts(Success(result))
                 case Continue => advanced == Advance(d, reached, result.outcome, host)
                 case Reject =>
                   advanced == if result.outcome == EMPTY then Success(RejectInstance(reached, host))
                               else Advance(d, RejectNode(reached, host), result.outcome, host)
                 case _ => false
  {
    hide ValidGraph, ActivationAllowed, WaitsWithDrafts, StateGiven, IsEnd, HasEdge;
    var target := Route(d, s.currentNodeID, outcome).value;
    TargetKind(d, s.currentNodeID, target);
    if !IsEnd(d, target) {
      AnswerTaken(target, host.activate(target).value);
    }
  }

  /** An advance that succeeds records its own story, beginning with the node its outcome leads to. */
  lemma {:induction false} AdvanceStory(d: Definition, s: Snapshot, outcome: Outcome, host: Host)
    requires ValidGraph(d) && Advance(d, s, outcome, host).Success?
    ensures var r := Advance(d, s, outcome, host).value;
            && s.audit < r.audit
            && EntersBy(d, s.currentNodeID, outcome, r.audit[|s.audit|]) && Story(d, host, r.audit, |s.audit|)
    decreases Below(d, s.currentNodeID)
  {
    hide ValidGraph, Advance, EntersBy, Story, WaitsWithDrafts, IsEnd, HasEdge, ActivateTasks;
    FirstRound(d, s, outcome, host);
    EntryStory(d, s, outcome, host);
    var target := Route(d, s.currentNodeID, outcome).value;
    var entered := EnterNode(s, target, host);
    if IsEnd(d, target) {
      StoryEnds(d, host, entered.audit, Complete(entered, host).audit[|entered.audit|]);
    } else {
      var result := host.activate(target).value;
      var reached := Reached(s, target, result, host);
      EdgeDescends(d, s.currentNodeID, target);
      if result.disposition.Waiting? {
        StoryHere(d, host, entered.audit);
      } else if result.disposition.Continue? {
        AdvanceStory(d, reached, result.outcome, host);
        var audit := Advance(d, reached, result.outcome, host).value.audit;
        assert audit[|s.audit|] == entered.audit[|s.audit|];
        ContinueStory(d, host, audit, |s.audit|);
      } else if result.outcome != EMPTY {
        var rejected := RejectNode(reached, host);
        AdvanceStory(d, rejected, result.outcome, host);
        var audit := Advance(d, rejected, result.outcome, host).value.audit;
        assert audit[|s.audit|] == entered.audit[|s.audit|] && audit[|s.audit| + 1] == rejected.audit[|s.audit| + 1];
        RejectStory(d, host, audit, |s.audit|);
      } else {
        StoryEnds(d, host, entered.audit, RejectInstance(reached, host).audit[|entered.audit|]);
      }
    }
  }

  /** An advance succeeds exactly when its outcome leads somewhere and every node it comes to can be entered. */
  lemma {:induction false} AdvanceSucceeds(d: Definition, s: Snapshot, outcome: Outcome, host: Host)
    requires ValidGraph(d)
    ensures var path := Path(d, s, outcome, host);
            Advance(d, s, outcome, host).Success? <==>
              LeadsOn(d, s.currentNodeID, outcome) && forall node :: node in path ==> Enterable(d, host, node)
    decreases Below(d, s.currentNodeID)
  {
    hide ValidGraph, ActivationAllowed, WaitsWithDrafts, LeadsOn, StateGiven, IsEnd, IsBusiness, HasEdge;
    RouteLeads(d, s.currentNodeID, outcome);
    var route := Route(d, s.currentNodeID, outcome);
    if route.Some? {
      var target := route.value;
      TargetKind(d, s.currentNodeID, target);
      EdgeDescends(d, s.currentNodeID, target);
      if IsEnd(d, target) || host.activate(target).Failure? {
        assert Path(d, s, outcome, host) == [target] + [];
        assert Enterable(d, host, target) <==> Advance(d, s, outcome, host).Success?;
      } else {
        var result := host.activate(target).value;
        AnswerTaken(target, result);
        RouteLeads(d, target, result.outcome);
        var onward := Onward(d, s, target, host);
        if onward.Some? {
          AdvanceSucceeds(d, onward.value.0, onward.value.1, host);
          InFront(target, Path(d, onward.value.0, onward.value.1, host));
          assert Path(d, s, outcome, host) == [target] + Path(d, onward.value.0, onward.value.1, host);
          assert Advance(d, s, outcome, host) == Advance(d, onward.value.0, onward.value.1, host);
          assert Enterable(d, host, target) <==> LeadsOn(d, target, onward.value.1);
          return;
        }
        assert Path(d, s, outcome, host) == [target] + [];
        assert Enterable(d, host, target) <==> Advance(d, s, outcome, host).Success?;
      }
      InFront(target, []);
    }
  }

  lemma InFront(target: NodeID, rest: seq<NodeID>)
    ensures forall node :: node in [target] + rest <==> node == target || node in rest
  {
  }
}
