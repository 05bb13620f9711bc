/** Why following routes ends: one advance is a walk of an accepted, hence acyclic, definition. */
module Navigation {
  import opened Workflow
  import opened Graphs
  import opened Compiler
  import opened Transitions

  /** The nodes a log enters, in order. */
  function Entered(audit: seq<AuditRecord>): seq<NodeID> {
    if audit == [] then []
    else
      var last := audit[|audit| - 1];
      Entered(audit[..|audit| - 1]) + (if last.action.NodeEntered? then [last.nodeID] else [])
  }

  lemma EnteredMore(s: Snapshot, r: AuditRecord, host: Host)
    ensures Entered(Append(s, r, host).audit) == Entered(s.audit) + (if r.action.NodeEntered? then [r.nodeID] else [])
  {
    var audit := Append(s, r, host).audit;
    assert audit[..|audit| - 1] == s.audit;
  }

  /** Where an advance goes on after entering a node and asking its handler, if it goes on at all. */
  ghost function Onward(d: Definition, s: Snapshot, target: NodeID, host: Host): Option<(Snapshot, Outcome)> {
    if !IsBusiness(d, target) || host.activate(target).Failure? then None else
    var result := host.activate(target).value;
    var tasks := ActivateTasks(s.tasks, target, result.tasks, host.ids);
    if !ActivationAllowed(target, result) || tasks.Failure? then None else
    var applied := EnterNode(s, target, host).(tasks := tasks.value, nodeState := result.state);
    if result.disposition.Continue? then Some((applied, result.outcome))
    else if !result.disposition.Waiting? && result.outcome != EMPTY
        then Some((RejectNode(applied, host), result.outcome))
    else None
  }

  /** The nodes an advance enters, in order, whether it then succeeds or fails: a node is entered as soon as a route
      to it is taken, before its handler is called. */
  ghost function Path(d: Definition, s: Snapshot, outcome: Outcome, host: Host): seq<NodeID>
    requires ValidGraph(d)
    decreases Below(d, s.currentNodeID)
  {
    var route := Route(d, s.currentNodeID, outcome);
    if route.None? || FindNode(d, route.value).None? then [] else
    var onward := Onward(d, s, route.value, host);
    EdgeDescends(d, s.currentNodeID, route.value);
    [route.value] + (if onward.None? then [] else Path(d, onward.value.0, onward.value.1, host))
  }

  /** Puts the node just entered in front of the rest of the walk. */
  lemma LongerWalk(edges: seq<Edge>, a: NodeID, target: NodeID, rest: seq<NodeID>)
    requires HasEdge(edges, a, target) && IsWalk(edges, [target] + rest)
    ensures IsWalk(edges, [a] + ([target] + rest))
  {
    var w := [a] + ([target] + rest);
    forall i, j | 0 <= i && i + 1 == j && j < |w| ensures HasEdge(edges, w[i], w[j]) {
      if i > 0 { assert w[i] == ([target] + rest)[i - 1] && w[j] == ([target] + rest)[i]; }
    }
  }

  lemma ShortWalk(edges: seq<Edge>, a: NodeID)
    ensures IsWalk(edges, [a] + []) && IsWalk(edges, [a])
  {
  }

  /** Every advance walks along edges, however it ends. */
  lemma {:induction false} PathWalks(d: Definition, s: Snapshot, outcome: Outcome, host: Host)
    requires ValidGraph(d)
    ensures IsWalk(d.edges, [s.currentNodeID] + Path(d, s, outcome, host))
    ensures Path(d, s, outcome, host) == [] <==> Route(d, s.currentNodeID, outcome).None?
    decreases Below(d, s.currentNodeID)
  {
    hide ValidGraph, IsWalk, ActivationAllowed, HasEdge;
    var route := Route(d, s.currentNodeID, outcome);
    ShortWalk(d.edges, s.currentNodeID);
    if route.Some? {
      var target := route.value;
      RouteLeadsToBusinessOrEnd(d, s.currentNodeID, target);
      ShortWalk(d.edges, target);
      LongerWalk(d.edges, s.currentNodeID, target, []);
      var onward := Onward(d, s, target, host);
      if onward.Some? {
        EdgeDescends(d, s.currentNodeID, target);
        PathWalks(d, onward.value.0, onward.value.1, host);
        LongerWalk(d.edges, s.currentNodeID, target, Path(d, onward.value.0, onward.value.1, host));
      }
    }
  }

  /** One round of a successful advance: it enters the route's target, then goes on or stops there. */
  lemma OneHop(d: Definition, s: Snapshot, outcome: Outcome, host: Host)
    requires ValidGraph(d) && Advance(d, s, outcome, host).Success?
    ensures Route(d, s.currentNodeID, outcome).Some?
    ensures var target := Route(d, s.currentNodeID, outcome).value;
            var onward := Onward(d, s, target, host);
            var reached := if onward.None? then Advance(d, s, outcome, host).value else onward.value.0;
            && HasEdge(d.edges, s.currentNodeID, target)
            && reached.currentNodeID == target && Entered(reached.audit) == Entered(s.audit) + [target]
            && (onward.Some? ==> Advance(d, reached, onward.value.1, host) == Advance(d, s, outcome, host))
  {
    hide ValidGraph, Entered, ActivationAllowed, IsBusiness;
    var target := Route(d, s.currentNodeID, outcome).value;
    var entered := EnterNode(s, target, host);
    EnteredMore(s.(currentNodeID := target, nodeState := Absent), AuditRecord(NodeEntered, nodeID := target), host);
    TargetIsBusinessOrEnd(d, s.currentNodeID, target);
    if FindNode(d, target).value.kind == End {
      EnteredMore(entered.(status := Completed), AuditRecord(InstanceCompleted, nodeID := target), host);
    } else {
      var result := host.activate(target).value;
      var tasks := ActivateTasks(entered.tasks, target, result.tasks, host.ids).value;
      var applied := entered.(tasks := tasks, nodeState := result.state);
      EnteredMore(applied, AuditRecord(NodeRejected, nodeID := target), host);
      EnteredMore(applied.(status := Rejected), AuditRecord(InstanceRejected, nodeID := target), host);
    }
  }

  /** A successful advance records exactly this path, and ends where the path does. */
  lemma {:induction false} PathRecorded(d: Definition, s: Snapshot, outcome: Outcome, host: Host)
    requires ValidGraph(d) && Advance(d, s, outcome, host).Success?
    ensures var r := Advance(d, s, outcome, host).value;
            var path := Path(d, s, outcome, host);
            && path != []
            && Entered(r.audit) == Entered(s.audit) + path
            && r.currentNodeID == path[|path| - 1]
    decreases Below(d, s.currentNodeID)
  {
    hide ValidGraph, Entered, Advance, Onward;
    OneHop(d, s, outcome, host);
    var target := Route(d, s.currentNodeID, outcome).value;
    RouteLeadsToBusinessOrEnd(d, s.currentNodeID, target);
    Joined(Entered(s.audit), target, []);
    var onward := Onward(d, s, target, host);
    if onward.Some? {
      EdgeDescends(d, s.currentNodeID, target);
      PathRecorded(d, onward.value.0, onward.value.1, host);
      Joined(Entered(s.audit), target, Path(d, onward.value.0, onward.value.1, host));
    }
  }

  lemma Joined(before: seq<NodeID>, target: NodeID, rest: seq<NodeID>)
    ensures (before + [target]) + rest == before + ([target] + rest)
    ensures rest != [] ==> ([target] + rest)[|rest|] == rest[|rest| - 1]
  {
  }

  /** Only entering a node makes a log enter one. */
  lemma NothingEntered(s: Snapshot, host: Host)
    ensures Entered(Complete(s, host).audit) == Entered(s.audit)
    ensures Entered(RejectNode(s, host).audit) == Entered(s.audit)
    ensures Entered(RejectInstance(s, host).audit) == Entered(s.audit)
  {
    EnteredMore(s.(status := Completed), AuditRecord(InstanceCompleted, nodeID := s.currentNodeID), host);
    EnteredMore(s, AuditRecord(NodeRejected, nodeID := s.currentNodeID), host);
    EnteredMore(s.(status := Rejected), AuditRecord(InstanceRejected, nodeID := s.currentNodeID), host);
  }

  /** What has been entered and what is still to be entered, before and after one hop. */
  lemma PathStep(d: Definition, s: Snapshot, outcome: Outcome, host: Host)
    requires ValidGraph(d)
    ensures var route := Route(d, s.currentNodeID, outcome);
            var walk := Entered(s.audit) + Path(d, s, outcome, host);
            if route.None? || FindNode(d, route.value).None? then walk == Entered(s.audit)
            else
              var onward := Onward(d, s, route.value, host);
              && Entered(EnterNode(s, route.value, host).audit) == Entered(s.audit) + [route.value]
              && walk == if onward.None? then Entered(s.audit) + [route.value]
                         else Entered(onward.value.0.audit) + Path(d, onward.value.0, onward.value.1, host)
  {
    hide ValidGraph, Entered, ActivationAllowed, IsBusiness;
    var route := Route(d, s.currentNodeID, outcome);
    if route.Some? && FindNode(d, route.value).Some? {
      var target := route.value;
      EnteredMore(s.(currentNodeID := target, nodeState := Absent), AuditRecord(NodeEntered, nodeID := target), host);
      var onward := Onward(d, s, target, host);
      if onward.Some? {
        var result := host.activate(target).value;
        var tasks := ActivateTasks(s.tasks, target, result.tasks, host.ids).value;
        NothingEntered(EnterNode(s, target, host).(tasks := tasks, nodeState := result.state), host);
        Joined(Entered(s.audit), target, Path(d, onward.value.0, onward.value.1, host));
      } else {
        Joined(Entered(s.audit), target, []);
      }
    }
  }

  /** One advance, successful or not, enters fewer nodes than the definition has, none of them twice, never Start and
      never the node it left; it enters none exactly when it finds no route at all. */
  lemma AdvanceTerminates(d: Definition, s: Snapshot, outcome: Outcome, host: Host)
    requires ValidGraph(d) && s.currentNodeID in NodeIDs(d)
    ensures var path := Path(d, s, outcome, host);
            && |path| <= |d.nodes| - 1
            && Distinct([s.currentNodeID] + path) && IsWalk(d.edges, [s.currentNodeID] + path)
            && StartID(d) !in path
            && (path == [] <==> Route(d, s.currentNodeID, outcome).None?)
            && (path == [] ==> Advance(d, s, outcome, host) == Failure(RouteNotFound))
  {
    var path := Path(d, s, outcome, host);
    PathWalks(d, s, outcome, host);
    var w := [s.currentNodeID] + path;
    WalkBounded(d, w);
    forall i | 0 <= i < |path| ensures path[i] != StartID(d) { assert w[i + 1] == path[i]; }
  }

  /** An advance over an accepted definition never meets a missing node or a node without handler: it can only fail
      for lack of a route, through a handler, through its result or through the identity generator. */
  lemma {:induction false} AdvanceFailures(d: Definition, s: Snapshot, outcome: Outcome, host: Host)
    requires ValidGraph(d)
    requires forall id :: host.activate(id).Failure? ==> host.activate(id).error == HandlerFailed
    requires Advance(d, s, outcome, host).Failure?
    ensures Advance(d, s, outcome, host).error in {RouteNotFound, HandlerFailed, InvalidNodeResult, EntropyFailed}
    decreases Below(d, s.currentNodeID)
  {
    hide ValidGraph;
    var route := Route(d, s.currentNodeID, outcome);
    if route.Some? {
      var target := route.value;
      RouteLeadsToBusinessOrEnd(d, s.currentNodeID, target);
      var entered := EnterNode(s, target, host);
      if FindNode(d, target).value.kind != End && host.activate(target).Success? {
        var result := host.activate(target).value;
        if ActivationAllowed(target, result) && |result.tasks| <= |host.ids| {
          var applied := entered.(tasks := ActivateTasks(entered.tasks, target, result.tasks, host.ids).value,
                                  nodeState := result.state);
          EdgeDescends(d, s.currentNodeID, target);
          if result.disposition.Continue? {
            AdvanceFailures(d, applied, result.outcome, host);
          } else if result.disposition.Reject? && result.outcome != EMPTY {
            AdvanceFailures(d, RejectNode(applied, host), result.outcome, host);
          }
        }
      }
    }
  }

  lemma TargetIsBusinessOrEnd(d: Definition, a: NodeID, target: NodeID)
    requires ValidGraph(d) && HasEdge(d.edges, a, target)
    ensures FindNode(d, target).Some?
    ensures IsBusiness(d, target) <==> FindNode(d, target).value.kind != End
  {
    RouteLeadsToBusinessOrEnd(d, a, target);
    var n := FindNode(d, target).value;
    if m :| m in d.nodes && m.id == target && Business(m) { SameIDSameNode(d.nodes, m, n); }
  }

  lemma RouteLeadsToBusinessOrEnd(d: Definition, a: NodeID, target: NodeID)
    requires ValidGraph(d) && HasEdge(d.edges, a, target)
    ensures FindNode(d, target).Some? && FindNode(d, target).value.kind != Start
  {
    EdgeEnds(d, a, target);
    var n := FindNode(d, target).value;
    if n.kind == Start {
      StartIDUnique(d, n);
      StartHasNoPredecessor(d, a);
    }
  }
}
