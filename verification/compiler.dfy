/** Graph analysis and compilation of a definition into the plan the engine executes. */
module Compiler {
  import opened Workflow
  import opened Graphs

  /* What the compiler promises about the definitions it accepts */

  ghost function NodeIDs(d: Definition): set<NodeID> { set n | n in d.nodes :: n.id }

  ghost predicate OtherID(nodes: seq<NodeDefinition>, i: nat, j: nat)
    requires i < |nodes| && j < |nodes|
  {
    nodes[i].id != nodes[j].id
  }

  ghost predicate UniqueIDs(nodes: seq<NodeDefinition>) {
    forall i: nat, j: nat {:trigger OtherID(nodes, i, j)} :: i < j < |nodes| ==> OtherID(nodes, i, j)
  }

  lemma SameIDSameNode(nodes: seq<NodeDefinition>, m: NodeDefinition, n: NodeDefinition)
    requires UniqueIDs(nodes) && m in nodes && n in nodes && m.id == n.id
    ensures m == n
  {
    var i: nat :| i < |nodes| && nodes[i] == m;
    var j: nat :| j < |nodes| && nodes[j] == n;
    assert i < j ==> OtherID(nodes, i, j);
    assert j < i ==> OtherID(nodes, j, i);
  }

  ghost predicate BothStart(nodes: seq<NodeDefinition>, i: nat, j: nat)
    requires i < |nodes| && j < |nodes|
  {
    nodes[i].kind == Start && nodes[j].kind == Start
  }

  ghost predicate OneStart(nodes: seq<NodeDefinition>) {
    && (exists n :: n in nodes && n.kind == Start)
    && (forall i: nat, j: nat {:trigger BothStart(nodes, i, j)} :: i < j < |nodes| ==> !BothStart(nodes, i, j))
  }

  ghost predicate NodesValid(d: Definition) {
    && (forall n :: n in d.nodes ==> n.id != EMPTY && n.kind != NoKind)
    && UniqueIDs(d.nodes)
    && OneStart(d.nodes)
    && (exists n :: n in d.nodes && n.kind == End)
  }

  ghost predicate OtherSelector(edges: seq<Edge>, i: nat, j: nat)
    requires i < |edges| && j < |edges|
  {
    edges[i].source != edges[j].source || edges[i].outcome != edges[j].outcome
  }

  ghost predicate UniqueSelectors(edges: seq<Edge>) {
    forall i: nat, j: nat {:trigger OtherSelector(edges, i, j)} :: i < j < |edges| ==> OtherSelector(edges, i, j)
  }

  lemma SameSelectorSameEdge(edges: seq<Edge>, e: Edge, f: Edge)
    requires UniqueSelectors(edges) && e in edges && f in edges && e.source == f.source && e.outcome == f.outcome
    ensures e == f
  {
    var i: nat :| i < |edges| && edges[i] == e;
    var j: nat :| j < |edges| && edges[j] == f;
    assert i < j ==> OtherSelector(edges, i, j);
    assert j < i ==> OtherSelector(edges, j, i);
  }

  lemma UniquePrefix(edges: seq<Edge>, k: nat)
    requires UniqueSelectors(edges) && k <= |edges|
    ensures UniqueSelectors(edges[..k])
  {
    forall i: nat, j: nat | i < j < k ensures OtherSelector(edges[..k], i, j) { assert OtherSelector(edges, i, j); }
  }

  ghost predicate EdgeAllowed(d: Definition, e: Edge) {
    e.source in NodeIDs(d) && e.target in NodeIDs(d) && !IsEnd(d, e.source)
  }

  ghost predicate EdgesAllowed(d: Definition, edges: seq<Edge>) {
    && (forall e {:trigger EdgeAllowed(d, e)} :: e in edges ==> EdgeAllowed(d, e))
    && UniqueSelectors(edges)
  }

  ghost predicate EdgesValid(d: Definition) { EdgesAllowed(d, d.edges) }

  ghost function StartID(d: Definition): (id: NodeID)
    requires OneStart(d.nodes)
    ensures exists n :: n in d.nodes && n.kind == Start && n.id == id
  {
    var n :| n in d.nodes && n.kind == Start;
    n.id
  }

  lemma StartIDUnique(d: Definition, n: NodeDefinition)
    requires OneStart(d.nodes) && n in d.nodes && n.kind == Start
    ensures StartID(d) == n.id
  {
    var m :| m in d.nodes && m.kind == Start && m.id == StartID(d);
    var i: nat :| i < |d.nodes| && d.nodes[i] == n;
    var j: nat :| j < |d.nodes| && d.nodes[j] == m;
    assert i < j ==> !BothStart(d.nodes, i, j);
    assert j < i ==> !BothStart(d.nodes, j, i);
  }

  ghost predicate EndAmong(nodes: seq<NodeDefinition>, id: NodeID) {
    exists n :: n in nodes && n.id == id && n.kind == End
  }

  ghost predicate IsEnd(d: Definition, id: NodeID) { EndAmong(d.nodes, id) }

  ghost predicate ReachesEnd(d: Definition, id: NodeID) {
    exists end :: IsEnd(d, end) && Reaches(d.edges, id, end)
  }

  ghost predicate AllReachable(d: Definition)
    requires OneStart(d.nodes)
  {
    forall id :: id in NodeIDs(d) ==> Reaches(d.edges, StartID(d), id)
  }

  ghost predicate AllReachEnd(d: Definition) {
    forall id :: id in NodeIDs(d) ==> ReachesEnd(d, id)
  }

  ghost predicate ValidGraph(d: Definition) {
    && d.id != EMPTY
    && NodesValid(d)
    && EdgesValid(d)
    && Acyclic(d.edges)
    && AllReachable(d)
    && AllReachEnd(d)
  }

  predicate Business(n: NodeDefinition) { n.kind != Start && n.kind != End }

  ghost predicate IsBusiness(d: Definition, id: NodeID) {
    exists n :: n in d.nodes && n.id == id && Business(n)
  }

  ghost predicate ConfigsValid(nodes: seq<NodeDefinition>) {
    forall n :: n in nodes ==> JsonSyntax(n.config)
  }

  ghost predicate HandlersReady(nodes: seq<NodeDefinition>, prepare: (Kind, RawMessage) -> Preparation) {
    forall n :: n in nodes && Business(n) ==> prepare(n.kind, n.config).Prepared?
  }

  /** The node has outgoing edges, and all of them are unconditional. */
  ghost predicate Unconditional(edges: seq<Edge>, id: NodeID) {
    && (exists e :: e in edges && e.source == id)
    && (forall e :: e in edges && e.source == id ==> e.outcome == EMPTY)
  }

  /** A valid graph whose Start has one unconditional edge and whose business nodes all prepare. */
  ghost predicate Compilable(d: Definition, prepare: (Kind, RawMessage) -> Preparation) {
    && ValidGraph(d)
    && ConfigsValid(d.nodes)
    && Unconditional(d.edges, StartID(d))
    && HandlersReady(d.nodes, prepare)
  }

  ghost predicate Selects(e: Edge, source: NodeID, outcome: Outcome) {
    e.source == source && e.outcome == outcome
  }

  ghost function Route(d: Definition, source: NodeID, outcome: Outcome): (r: Option<NodeID>)
    ensures r.Some? ==> HasEdge(d.edges, source, r.value)
  {
    if e :| e in d.edges && Selects(e, source, outcome) then Some(e.target) else None
  }

  ghost function FindNode(d: Definition, id: NodeID): (r: Option<NodeDefinition>)
    ensures r.Some? <==> id in NodeIDs(d)
    ensures r.Some? ==> r.value in d.nodes && r.value.id == id
  {
    if n :| n in d.nodes && n.id == id then Some(n) else None
  }

  lemma FindNodeUnique(d: Definition, n: NodeDefinition)
    requires UniqueIDs(d.nodes) && n in d.nodes
    ensures FindNode(d, n.id) == Some(n)
  {
    assert n.id in NodeIDs(d);
    SameIDSameNode(d.nodes, FindNode(d, n.id).value, n);
  }

  lemma RouteUnique(d: Definition, e: Edge)
    requires UniqueSelectors(d.edges) && e in d.edges
    ensures Route(d, e.source, e.outcome) == Some(e.target)
  {
    assert Selects(e, e.source, e.outcome);
    var f :| f in d.edges && Selects(f, e.source, e.outcome) && Route(d, e.source, e.outcome) == Some(f.target);
    assert Selects(f, e.source, e.outcome) && f.source == e.source && f.outcome == e.outcome;
    SameSelectorSameEdge(d.edges, e, f);
  }

  lemma EdgeEnds(d: Definition, a: NodeID, b: NodeID)
    requires EdgesValid(d) && HasEdge(d.edges, a, b)
    ensures a in NodeIDs(d) && b in NodeIDs(d) && !IsEnd(d, a)
  {
    var e :| e in d.edges && e.source == a && e.target == b;
    assert EdgeAllowed(d, e);
  }

  lemma ValidEndpoints(d: Definition)
    requires EdgesValid(d)
    ensures EndpointsIn(d.edges, NodeIDs(d))
  {
    forall e | e in d.edges ensures e.source in NodeIDs(d) && e.target in NodeIDs(d) { assert EdgeAllowed(d, e); }
  }

  /* Consequences of acceptance */

  /** Nothing checks this directly: an edge into Start would close a cycle, because Start reaches every node. */
  lemma StartHasNoPredecessor(d: Definition, a: NodeID)
    requires ValidGraph(d)
    ensures !HasEdge(d.edges, a, StartID(d))
  {
    if HasEdge(d.edges, a, StartID(d)) {
      EdgeEnds(d, a, StartID(d));
      NoWayBack(d.edges, a, StartID(d));
    }
  }

  ghost predicate HasPredecessor(d: Definition, id: NodeID) { exists a :: HasEdge(d.edges, a, id) }

  ghost predicate HasSuccessor(d: Definition, id: NodeID) { exists b :: HasEdge(d.edges, id, b) }

  ghost predicate StartIsOnlySource(d: Definition)
    requires OneStart(d.nodes)
  {
    forall id {:trigger HasPredecessor(d, id)} :: id in NodeIDs(d) ==> (HasPredecessor(d, id) <==> id != StartID(d))
  }

  ghost predicate EverySinkEnds(d: Definition) {
    forall id {:trigger HasSuccessor(d, id)} :: id in NodeIDs(d) && !HasSuccessor(d, id) ==> IsEnd(d, id)
  }

  lemma OnlySourceReachesAll(d: Definition)
    requires NodesValid(d) && EdgesValid(d) && Acyclic(d.edges) && StartIsOnlySource(d)
    ensures AllReachable(d)
  {
    var start := StartID(d);
    var lost := set id | id in NodeIDs(d) && !Reaches(d.edges, start, id);
    if lost != {} {
      AcyclicHasEntry(d.edges, lost);
      var x :| x in lost && !Preceded(d.edges, lost, x);
      if x == start { ReachesSelf(d.edges, start); }
      assert HasPredecessor(d, x);
      var a :| HasEdge(d.edges, a, x);
      EdgeEnds(d, a, x);
      assert a !in lost;
      ReachesStep(d.edges, start, a, x);
      assert false;
    }
    forall id | id in NodeIDs(d) ensures Reaches(d.edges, start, id) {
      assert id !in lost;
    }
  }

  /** On an acyclic graph, reachability from Start means that Start is the only node without predecessors. */
  lemma ReachableMeansOnlySource(d: Definition)
    requires NodesValid(d) && EdgesValid(d) && Acyclic(d.edges)
    ensures AllReachable(d) <==> StartIsOnlySource(d)
  {
    if StartIsOnlySource(d) {
      OnlySourceReachesAll(d);
    }
    if AllReachable(d) {
      forall id | id in NodeIDs(d) ensures HasPredecessor(d, id) <==> id != StartID(d) {
        if id == StartID(d) {
          if a :| HasEdge(d.edges, a, id) { EdgeEnds(d, a, id); NoWayBack(d.edges, a, id); }
        } else {
          var w :| WalkBetween(d.edges, w, StartID(d), id);
          assert HasEdge(d.edges, w[|w| - 2], w[|w| - 1]);
        }
      }
    }
  }

  lemma FlipAcyclic(edges: seq<Edge>)
    requires Acyclic(edges)
    ensures Acyclic(Flip(edges))
  {
    forall w | IsWalk(Flip(edges), w) && |w| >= 2 ensures w[0] != w[|w| - 1] {
      FlipWalk(Flip(edges), w, w[0], w[|w| - 1]);
      assert Flip(Flip(edges)) == edges;
    }
  }

  lemma SinksEndReachEnd(d: Definition)
    requires NodesValid(d) && EdgesValid(d) && Acyclic(d.edges) && EverySinkEnds(d)
    ensures AllReachEnd(d)
  {
    var lost := set id | id in NodeIDs(d) && !ReachesEnd(d, id);
    if lost != {} {
      FlipAcyclic(d.edges);
      AcyclicHasEntry(Flip(d.edges), lost);
      var x :| x in lost && !Preceded(Flip(d.edges), lost, x);
      if IsEnd(d, x) { ReachesSelf(d.edges, x); assert ReachesEnd(d, x); }
      assert HasSuccessor(d, x);
      var b :| HasEdge(d.edges, x, b);
      FlipEdge(d.edges, x, b);
      EdgeEnds(d, x, b);
      assert b !in lost;
      var end :| IsEnd(d, end) && Reaches(d.edges, b, end);
      StepReaches(d.edges, x, b, end);
      assert false;
    }
    forall id | id in NodeIDs(d) ensures ReachesEnd(d, id) {
      assert id !in lost;
    }
  }

  /** On an acyclic graph, reaching an End from everywhere means that every node without successors is an End. */
  lemma ReachEndMeansSinksEnd(d: Definition)
    requires NodesValid(d) && EdgesValid(d) && Acyclic(d.edges)
    ensures AllReachEnd(d) <==> EverySinkEnds(d)
  {
    if EverySinkEnds(d) {
      SinksEndReachEnd(d);
    }
    if AllReachEnd(d) {
      forall id | id in NodeIDs(d) && !IsEnd(d, id) ensures HasSuccessor(d, id) {
        assert ReachesEnd(d, id);
        var end :| IsEnd(d, end) && Reaches(d.edges, id, end);
        var w :| WalkBetween(d.edges, w, id, end);
        assert HasEdge(d.edges, w[0], w[1]);
      }
    }
  }

  /** A walk of an accepted definition visits no node twice, so it cannot outgrow the node list. */
  lemma WalkBounded(d: Definition, w: seq<NodeID>)
    requires ValidGraph(d) && IsWalk(d.edges, w) && w[0] in NodeIDs(d)
    ensures Distinct(w) && |w| <= |NodeIDs(d)| <= |d.nodes|
    ensures forall k :: 0 < k < |w| ==> w[k] != StartID(d)
  {
    AcyclicWalkDistinct(d.edges, w);
    forall x | x in w ensures x in NodeIDs(d) {
      var i :| 0 <= i < |w| && w[i] == x;
      if i > 0 { EdgeEnds(d, w[i - 1], w[i]); }
    }
    DistinctFits(w, NodeIDs(d));
    forall k | 0 < k < |w| ensures w[k] != StartID(d) {
      assert HasEdge(d.edges, w[k - 1], w[k]);
      StartHasNoPredecessor(d, w[k - 1]);
    }
    IDsFit(d.nodes);
    assert NodeIDs(d) == set n | n in d.nodes :: n.id;
  }

  lemma {:induction false} IDsFit(nodes: seq<NodeDefinition>)
    ensures |set n | n in nodes :: n.id| <= |nodes|
  {
    if nodes == [] {
    } else {
      var init, last := nodes[..|nodes| - 1], nodes[|nodes| - 1];
      IDsFit(init);
      assert nodes == init + [last];
      assert (set n | n in nodes :: n.id) == (set n | n in init :: n.id) + {last.id};
    }
  }

  /* Declaration order */

  lemma {:induction false} TwoPlaces<T>(s: seq<T>, x: T)
    requires multiset(s)[x] >= 2
    ensures exists i, j :: 0 <= i < j < |s| && s[i] == x && s[j] == x
  {
    var init := s[..|s| - 1];
    assert s == init + [s[|s| - 1]];
    if multiset(init)[x] >= 2 {
      TwoPlaces(init, x);
      var i, j :| 0 <= i < j < |init| && init[i] == x && init[j] == x;
      assert s[i] == x && s[j] == x;
    } else {
      assert x in multiset(init);
      assert x in init;
      var i :| 0 <= i < |init| && init[i] == x;
      assert s[i] == x && s[|s| - 1] == x;
    }
  }

  /** Two positions of a sequence carry over to two positions of any rearrangement. */
  lemma MovedPair<T>(s: seq<T>, t: seq<T>, i: nat, j: nat) returns (k: nat, l: nat)
    requires multiset(s) == multiset(t) && i < j < |s|
    ensures k < |t| && l < |t| && k != l && t[k] == s[i] && t[l] == s[j]
  {
    if s[i] == s[j] {
      assert s == s[..i] + [s[i]] + s[i + 1..j] + [s[j]] + s[j + 1..];
      assert multiset(s)[s[i]] >= 2;
      TwoPlaces(t, s[i]);
      k, l :| 0 <= k < l < |t| && t[k] == s[i] && t[l] == s[i];
    } else {
      assert s[i] in multiset(t) && s[j] in multiset(t);
      k :| 0 <= k < |t| && t[k] == s[i];
      l :| 0 <= l < |t| && t[l] == s[j];
    }
  }

  lemma SameMembers<T>(s: seq<T>, t: seq<T>)
    requires multiset(s) == multiset(t)
    ensures forall x :: x in s <==> x in t
  {
    forall x ensures x in s <==> x in t {
      assert x in s <==> x in multiset(s);
      assert x in t <==> x in multiset(t);
    }
  }

  ghost predicate Reordered(d: Definition, other: Definition) {
    && d.id == other.id
    && multiset(d.nodes) == multiset(other.nodes)
    && multiset(d.edges) == multiset(other.edges)
  }

  lemma ReorderedNodes(d: Definition, other: Definition)
    requires Reordered(d, other) && NodesValid(d)
    ensures NodesValid(other) && StartID(d) == StartID(other)
  {
    SameMembers(d.nodes, other.nodes);
    forall i: nat, j: nat | i < j < |other.nodes|
      ensures OtherID(other.nodes, i, j)
      ensures !BothStart(other.nodes, i, j)
    {
      var k, l := MovedPair(other.nodes, d.nodes, i, j);
      if k < l { assert OtherID(d.nodes, k, l) && !BothStart(d.nodes, k, l); }
      else { assert OtherID(d.nodes, l, k) && !BothStart(d.nodes, l, k); }
    }
    var n :| n in d.nodes && n.kind == Start && n.id == StartID(d);
    assert n in other.nodes;
    StartIDUnique(other, n);
  }

  lemma ReorderedEdges(d: Definition, other: Definition)
    requires Reordered(d, other)
    ensures forall a, b :: HasEdge(d.edges, a, b) <==> HasEdge(other.edges, a, b)
    ensures forall w :: IsWalk(d.edges, w) <==> IsWalk(other.edges, w)
    ensures forall a, b :: Reaches(d.edges, a, b) <==> Reaches(other.edges, a, b)
    ensures Acyclic(d.edges) <==> Acyclic(other.edges)
    ensures UniqueSelectors(d.edges) ==> UniqueSelectors(other.edges)
  {
    SameMembers(d.edges, other.edges);
    assert forall a, b :: HasEdge(d.edges, a, b) <==> HasEdge(other.edges, a, b);
    assert forall w :: IsWalk(d.edges, w) <==> IsWalk(other.edges, w);
    assert forall w, a, b :: WalkBetween(d.edges, w, a, b) <==> WalkBetween(other.edges, w, a, b);
    if UniqueSelectors(d.edges) {
      forall i: nat, j: nat | i < j < |other.edges| ensures OtherSelector(other.edges, i, j) {
        var k, l := MovedPair(other.edges, d.edges, i, j);
        if k < l { assert OtherSelector(d.edges, k, l); } else { assert OtherSelector(d.edges, l, k); }
      }
    }
  }

  lemma ReorderedValid(d: Definition, other: Definition)
    requires Reordered(d, other) && ValidGraph(d)
    ensures ValidGraph(other)
  {
    ReorderedNodes(d, other);
    ReorderedEdges(d, other);
    SameMembers(d.nodes, other.nodes);
    SameMembers(d.edges, other.edges);
    assert NodeIDs(d) == NodeIDs(other);
    assert forall id :: IsEnd(d, id) <==> IsEnd(other, id);
    forall e | e in other.edges ensures EdgeAllowed(other, e) { assert EdgeAllowed(d, e); }
    forall id | id in NodeIDs(other) ensures ReachesEnd(other, id) {
      assert ReachesEnd(d, id);
      var end :| IsEnd(d, end) && Reaches(d.edges, id, end);
      assert IsEnd(other, end) && Reaches(other.edges, id, end);
    }
  }

  lemma ReorderedCompilable(d: Definition, other: Definition, prepare: (Kind, RawMessage) -> Preparation)
    requires Reordered(d, other) && Compilable(d, prepare)
    ensures Compilable(other, prepare)
  {
    ReorderedValid(d, other);
    ReorderedNodes(d, other);
    SameMembers(d.nodes, other.nodes);
    SameMembers(d.edges, other.edges);
  }

  lemma ReorderedRoute(d: Definition, other: Definition, source: NodeID, outcome: Outcome)
    requires Reordered(d, other) && UniqueSelectors(d.edges)
    ensures Route(d, source, outcome) == Route(other, source, outcome)
  {
    SameMembers(d.edges, other.edges);
    ReorderedEdges(d, other);
    if e :| e in d.edges && Selects(e, source, outcome) {
      RouteUnique(d, e);
      RouteUnique(other, e);
    }
  }

  lemma ReorderedFind(d: Definition, other: Definition, id: NodeID)
    requires Reordered(d, other) && NodesValid(d)
    ensures FindNode(d, id) == FindNode(other, id)
  {
    SameMembers(d.nodes, other.nodes);
    ReorderedNodes(d, other);
    if n :| n in d.nodes && n.id == id {
      FindNodeUnique(d, n);
      FindNodeUnique(other, n);
    }
  }

  /** Neither the verdict, nor the entry, nor any route depends on the order in which a definition lists its parts. */
  lemma OrderIndependent(d: Definition, other: Definition, prepare: (Kind, RawMessage) -> Preparation,
                         source: NodeID, outcome: Outcome)
    requires Reordered(d, other)
    ensures ValidGraph(d) <==> ValidGraph(other)
    ensures Compilable(d, prepare) <==> Compilable(other, prepare)
    ensures ValidGraph(d) ==> StartID(d) == StartID(other)
    ensures ValidGraph(d) ==> Route(d, source, outcome) == Route(other, source, outcome)
    ensures ValidGraph(d) ==> FindNode(d, source) == FindNode(other, source)
  {
    if Compilable(d, prepare) { ReorderedCompilable(d, other, prepare); }
    if Compilable(other, prepare) { ReorderedCompilable(other, d, prepare); }
    if ValidGraph(other) { ReorderedValid(other, d); }
    if ValidGraph(d) {
      ReorderedValid(d, other);
      ReorderedNodes(d, other);
      ReorderedRoute(d, other, source, outcome);
      ReorderedFind(d, other, source);
    }
  }
}
