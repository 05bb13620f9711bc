/** The compiler's passes over one definition, with the indexes, queues and counters they update in place. */
module Analysis {
  import opened Workflow
  import opened Graphs
  import opened Compiler

  datatype EdgeSelector = EdgeSelector(source: NodeID, outcome: Outcome)

  function Lookup(index: map<NodeID, seq<NodeID>>, x: NodeID): seq<NodeID> {
    if x in index then index[x] else []
  }

  /** The frozen execution plan: immutable once compilation returns it. */
  datatype Plan = Plan(
    definition: Definition,
    startID: NodeID,
    nodes: map<NodeID, nat>,
    routes: map<EdgeSelector, NodeID>,
    prepared: set<NodeID>)
  {
    predicate Indexed() {
      forall id :: id in nodes ==> nodes[id] < |definition.nodes|
    }

    function Node(id: NodeID): Result<NodeDefinition>
      requires Indexed()
    {
      if id in nodes then Success(definition.nodes[nodes[id]]) else Failure(InvalidDefinition)
    }

    function NextNode(source: NodeID, outcome: Outcome): Result<NodeDefinition>
      requires Indexed()
    {
      var selector := EdgeSelector(source, outcome);
      if selector in routes then Node(routes[selector]) else Failure(RouteNotFound)
    }
  }

  ghost predicate PositionsOf(index: map<NodeID, nat>, nodes: seq<NodeDefinition>) {
    && (forall i :: 0 <= i < |nodes| ==> nodes[i].id in index && index[nodes[i].id] == i)
    && (forall id :: id in index ==> index[id] < |nodes| && nodes[index[id]].id == id)
  }

  ghost predicate RouteAmong(edges: seq<Edge>, selector: EdgeSelector, target: NodeID) {
    exists e :: e in edges && Selects(e, selector.source, selector.outcome) && e.target == target
  }

  ghost predicate RoutesOf(routes: map<EdgeSelector, NodeID>, edges: seq<Edge>) {
    && (forall e :: e in edges ==> EdgeSelector(e.source, e.outcome) in routes)
    && (forall s {:trigger routes[s]} :: s in routes ==> RouteAmong(edges, s, routes[s]))
  }

  ghost predicate PlanFor(plan: Plan, d: Definition)
    requires OneStart(d.nodes)
  {
    && plan.definition == d
    && plan.startID == StartID(d)
    && PositionsOf(plan.nodes, d.nodes)
    && RoutesOf(plan.routes, d.edges)
    && plan.prepared == BusinessIDs(d.nodes)
  }

  ghost function BusinessIDs(nodes: seq<NodeDefinition>): set<NodeID> {
    set n | n in nodes && Business(n) :: n.id
  }

  lemma PositionOf(index: map<NodeID, nat>, d: Definition, n: NodeDefinition)
    requires PositionsOf(index, d.nodes) && n in d.nodes
    ensures n.id in index && index[n.id] < |d.nodes| && d.nodes[index[n.id]] == n
  {
    var i :| 0 <= i < |d.nodes| && d.nodes[i] == n;
  }

  lemma IndexedIDs(index: map<NodeID, nat>, d: Definition)
    requires PositionsOf(index, d.nodes)
    ensures index.Keys == NodeIDs(d)
  {
    forall n | n in d.nodes ensures n.id in index { PositionOf(index, d, n); }
    forall id | id in index ensures id in NodeIDs(d) { assert d.nodes[index[id]] in d.nodes; }
  }

  lemma PlanNode(plan: Plan, d: Definition, id: NodeID)
    requires ValidGraph(d) && PlanFor(plan, d)
    ensures plan.Indexed()
    ensures plan.Node(id) == match FindNode(d, id) case Some(n) => Success(n) case None => Failure(InvalidDefinition)
  {
    IndexedIDs(plan.nodes, d);
    if id in plan.nodes {
      assert d.nodes[plan.nodes[id]] in d.nodes;
      FindNodeUnique(d, d.nodes[plan.nodes[id]]);
    }
  }

  lemma PlanRoute(plan: Plan, d: Definition, source: NodeID, outcome: Outcome)
    requires ValidGraph(d) && PlanFor(plan, d)
    ensures var s := EdgeSelector(source, outcome);
            Route(d, source, outcome) == if s in plan.routes then Some(plan.routes[s]) else None
  {
    var s := EdgeSelector(source, outcome);
    if s in plan.routes {
      assert RouteAmong(d.edges, s, plan.routes[s]);
      var e :| e in d.edges && Selects(e, source, outcome) && e.target == plan.routes[s];
      RouteUnique(d, e);
    }
  }

  /** A plan answers exactly what the definition says, independently of the indexes it was built from. */
  lemma PlanAnswers(plan: Plan, d: Definition, source: NodeID, outcome: Outcome)
    requires ValidGraph(d) && PlanFor(plan, d)
    ensures plan.Indexed()
    ensures plan.NextNode(source, outcome) ==
            match Route(d, source, outcome)
              case None => Failure(RouteNotFound)
              case Some(target) => if FindNode(d, target).Some? then Success(FindNode(d, target).value)
                  else Failure(InvalidDefinition)
    ensures source in plan.prepared <==> IsBusiness(d, source)
  {
    PlanRoute(plan, d, source, outcome);
    PlanNode(plan, d, source);
    if Route(d, source, outcome).Some? {
      PlanNode(plan, d, Route(d, source, outcome).value);
    }
  }

  /* The node pass */

  function Starts(nodes: seq<NodeDefinition>): nat {
    if nodes == [] then 0
    else Starts(nodes[..|nodes| - 1]) + (if nodes[|nodes| - 1].kind == Start then 1 else 0)
  }

  lemma {:induction false} StartsCounts(nodes: seq<NodeDefinition>)
    ensures Starts(nodes) == 0 <==> forall n :: n in nodes ==> n.kind != Start
    ensures Starts(nodes) == 1 <==> OneStart(nodes)
  {
    if nodes == [] {
    } else {
      var init, last := nodes[..|nodes| - 1], nodes[|nodes| - 1];
      StartsCounts(init);
      assert nodes == init + [last];
      StartsMore(init, last);
      OneStartMore(init, last);
    }
  }

  /** A longer list has one Start exactly when it is the last node and the first, or was there before and is not
      joined. */
  lemma OneStartMore(init: seq<NodeDefinition>, last: NodeDefinition)
    ensures last in init + [last] && forall n :: n in init + [last] <==> n in init || n == last
    ensures OneStart(init + [last]) <==>
              if last.kind == Start then forall n :: n in init ==> n.kind != Start else OneStart(init)
  {
    hide Starts;
    var nodes := init + [last];
    assert nodes[|init|] == last;
    assert forall i :: 0 <= i < |init| ==> nodes[i] == init[i] && init[i] in init;
    if last.kind == Start {
      if n :| n in init && n.kind == Start {
        var i: nat :| i < |init| && init[i] == n;
        assert BothStart(nodes, i, |init|);
      } else {
        forall i: nat, j: nat | i < j < |nodes| ensures !BothStart(nodes, i, j) {
          assert init[i] in init;
        }
      }
    } else {
      forall i: nat, j: nat | i < j < |init| ensures BothStart(nodes, i, j) == BothStart(init, i, j) {
      }
    }
  }

  /** What the node pass has established after reading a prefix of the node list. */
  ghost predicate NodesRead(seen: seq<NodeDefinition>, index: map<NodeID, nat>, startID: NodeID, endIDs: seq<NodeID>) {
    && PositionsOf(index, seen)
    && (forall i :: 0 <= i < |seen| ==> seen[i].id != EMPTY && seen[i].kind != NoKind)
    && (forall id :: id in endIDs <==> EndAmong(seen, id))
    && (Starts(seen) > 0 ==> StartAmong(seen, startID))
  }

  ghost predicate StartAmong(nodes: seq<NodeDefinition>, id: NodeID) {
    exists n :: n in nodes && n.id == id && n.kind == Start
  }

  lemma NoNodesRead(startID: NodeID)
    ensures NodesRead([], map[], startID, []) && Starts([]) == 0
  {
  }

  lemma BadNode(d: Definition, k: nat)
    requires k < |d.nodes|
    ensures d.nodes[k].id == EMPTY || d.nodes[k].kind == NoKind ==> !NodesValid(d)
  {
    assert d.nodes[k] in d.nodes;
  }

  lemma RepeatedNode(d: Definition, seen: seq<NodeDefinition>, index: map<NodeID, nat>, startID: NodeID,
                     endIDs: seq<NodeID>, k: nat)
    requires k < |d.nodes| && seen == d.nodes[..k] && NodesRead(seen, index, startID, endIDs)
    ensures d.nodes[k].id in index ==> !NodesValid(d)
  {
    if d.nodes[k].id in index {
      assert !OtherID(d.nodes, index[d.nodes[k].id], k);
    }
  }

  lemma EndAmongMore(seen: seq<NodeDefinition>, n: NodeDefinition, id: NodeID)
    ensures EndAmong(seen + [n], id) <==> EndAmong(seen, id) || (n.id == id && n.kind == End)
    ensures StartAmong(seen + [n], id) <==> StartAmong(seen, id) || (n.id == id && n.kind == Start)
  {
    assert n in seen + [n];
    assert forall m :: m in seen + [n] <==> m in seen || m == n;
  }

  lemma PositionsMore(index: map<NodeID, nat>, seen: seq<NodeDefinition>, n: NodeDefinition)
    requires PositionsOf(index, seen) && n.id !in index
    ensures PositionsOf(index[n.id := |seen|], seen + [n])
  {
  }

  lemma StartsMore(seen: seq<NodeDefinition>, n: NodeDefinition)
    ensures Starts(seen + [n]) == Starts(seen) + (if n.kind == Start then 1 else 0)
  {
    assert (seen + [n])[..|seen|] == seen;
  }

  lemma EndsMore(seen: seq<NodeDefinition>, n: NodeDefinition, endIDs: seq<NodeID>)
    requires forall id :: id in endIDs <==> EndAmong(seen, id)
    ensures forall id :: id in (if n.kind == End then endIDs + [n.id] else endIDs) <==> EndAmong(seen + [n], id)
  {
    forall id ensures EndAmong(seen + [n], id) <==> EndAmong(seen, id) || (n.id == id && n.kind == End) {
      EndAmongMore(seen, n, id);
    }
  }

  lemma ReadNode(seen: seq<NodeDefinition>, index: map<NodeID, nat>, startID: NodeID, endIDs: seq<NodeID>,
                 n: NodeDefinition)
    requires NodesRead(seen, index, startID, endIDs) && n.id != EMPTY && n.kind != NoKind && n.id !in index
    ensures NodesRead(seen + [n], index[n.id := |seen|], if n.kind == Start then n.id else startID,
                      if n.kind == End then endIDs + [n.id] else endIDs)
    ensures Starts(seen + [n]) == Starts(seen) + (if n.kind == Start then 1 else 0)
  {
    hide PositionsOf, EndAmong, StartAmong, Starts;
    StartsMore(seen, n);
    PositionsMore(index, seen, n);
    EndsMore(seen, n, endIDs);
    EndAmongMore(seen, n, startID);
    EndAmongMore(seen, n, n.id);
  }

  /** The whole list read with one Start and some End is a valid node list, and only then. */
  lemma NodesReadAll(d: Definition, index: map<NodeID, nat>, startID: NodeID, endIDs: seq<NodeID>)
    requires NodesRead(d.nodes, index, startID, endIDs)
    ensures NodesValid(d) <==> Starts(d.nodes) == 1 && endIDs != []
    ensures NodesValid(d) ==> startID == StartID(d)
    ensures PositionsOf(index, d.nodes) && forall id :: id in endIDs <==> IsEnd(d, id)
  {
    StartsCounts(d.nodes);
    if endIDs != [] {
      assert EndAmong(d.nodes, endIDs[0]);
    }
    if n :| n in d.nodes && n.kind == End {
      assert EndAmong(d.nodes, n.id);
    }
    if OneStart(d.nodes) {
      var n :| n in d.nodes && n.kind == Start && n.id == startID;
      StartIDUnique(d, n);
    }
  }

  /* The edge pass */

  ghost predicate Adjacent(index: map<NodeID, seq<NodeID>>, edges: seq<Edge>) {
    forall x :: Lookup(index, x) == Targets(edges, x)
  }

  /** What the edge pass has established after reading a prefix of the edge list. */
  ghost predicate EdgesRead(seen: seq<Edge>, nodes: set<NodeID>, routes: map<EdgeSelector, NodeID>,
                            adjacency: map<NodeID, seq<NodeID>>, predecessors: map<NodeID, seq<NodeID>>,
                            indegree: map<NodeID, int>)
  {
    && RoutesOf(routes, seen)
    && Adjacent(adjacency, seen)
    && Adjacent(predecessors, Flip(seen))
    && indegree.Keys == nodes
    && (forall x :: x in nodes ==> indegree[x] == Entering(seen, x, {}))
  }

  lemma EdgesReadParts(edges: seq<Edge>, nodes: set<NodeID>, routes: map<EdgeSelector, NodeID>,
                       adjacency: map<NodeID, seq<NodeID>>, predecessors: map<NodeID, seq<NodeID>>,
                           indegree: map<NodeID, int>)
    requires EdgesRead(edges, nodes, routes, adjacency, predecessors, indegree)
    ensures RoutesOf(routes, edges) && Adjacent(adjacency, edges) && indegree.Keys == nodes
  {
  }

  lemma ReadRoute(seen: seq<Edge>, routes: map<EdgeSelector, NodeID>, e: Edge)
    requires RoutesOf(routes, seen) && EdgeSelector(e.source, e.outcome) !in routes
    ensures RoutesOf(routes[EdgeSelector(e.source, e.outcome) := e.target], seen + [e])
  {
    var all := seen + [e];
    assert e in all;
    assert forall f :: f in all <==> f in seen || f == e;
    var updated := routes[EdgeSelector(e.source, e.outcome) := e.target];
    forall s | s in updated ensures RouteAmong(all, s, updated[s]) {
      if s in routes {
        assert RouteAmong(seen, s, routes[s]);
        var f :| f in seen && Selects(f, s.source, s.outcome) && f.target == routes[s];
        assert f in all;
      } else {
        assert Selects(e, s.source, s.outcome);
      }
    }
  }

  lemma NoEdgesRead(d: Definition, nodes: set<NodeID>, indegree: map<NodeID, int>)
    requires indegree.Keys == nodes && forall x :: x in nodes ==> indegree[x] == 0
    ensures EdgesAllowed(d, []) && EdgesRead([], nodes, map[], map[], map[], indegree)
  {
  }

  lemma ReadAdjacent(index: map<NodeID, seq<NodeID>>, seen: seq<Edge>, e: Edge)
    requires Adjacent(index, seen)
    ensures Adjacent(index[e.source := Lookup(index, e.source) + [e.target]], seen + [e])
  {
    assert (seen + [e])[..|seen|] == seen;
    forall x
      ensures Lookup(index[e.source := Lookup(index, e.source) + [e.target]], x) == Targets(seen + [e], x)
    {
      assert Targets(seen + [e], x) == Targets(seen, x) + (if e.source == x then [e.target] else []);
    }
  }

  lemma FlipMore(seen: seq<Edge>, e: Edge)
    ensures Flip(seen + [e]) == Flip(seen) + [Edge(e.target, e.source, e.outcome)]
  {
    assert (seen + [e])[..|seen|] == seen;
  }

  lemma ReadEdge(seen: seq<Edge>, nodes: set<NodeID>, routes: map<EdgeSelector, NodeID>,
                 adjacency: map<NodeID, seq<NodeID>>, predecessors: map<NodeID, seq<NodeID>>,
                 indegree: map<NodeID, int>, e: Edge)
    requires EdgesRead(seen, nodes, routes, adjacency, predecessors, indegree)
    requires e.target in nodes && EdgeSelector(e.source, e.outcome) !in routes
    ensures EdgesRead(seen + [e], nodes, routes[EdgeSelector(e.source, e.outcome) := e.target],
                      adjacency[e.source := Lookup(adjacency, e.source) + [e.target]],
                      predecessors[e.target := Lookup(predecessors, e.target) + [e.source]],
                      indegree[e.target := indegree[e.target] + 1])
  {
    hide RoutesOf, Adjacent, Entering, Flip;
    ReadRoute(seen, routes, e);
    ReadAdjacent(adjacency, seen, e);
    FlipMore(seen, e);
    ReadAdjacent(predecessors, Flip(seen), Edge(e.target, e.source, e.outcome));
    forall x ensures Entering(seen + [e], x, {}) == Entering(seen, x, {}) + (if e.target == x then 1 else 0) {
      EnteringMore(seen, e, x);
    }
  }

  lemma EnteringMore(seen: seq<Edge>, e: Edge, x: NodeID)
    ensures Entering(seen + [e], x, {}) == Entering(seen, x, {}) + (if e.target == x then 1 else 0)
  {
    assert (seen + [e])[..|seen|] == seen;
  }

  lemma FreshSelector(seen: seq<Edge>, routes: map<EdgeSelector, NodeID>, e: Edge)
    requires RoutesOf(routes, seen) && UniqueSelectors(seen)
    ensures EdgeSelector(e.source, e.outcome) !in routes <==> UniqueSelectors(seen + [e])
  {
    var all := seen + [e];
    var s := EdgeSelector(e.source, e.outcome);
    if s in routes {
      assert RouteAmong(seen, s, routes[s]);
      var f :| f in seen && Selects(f, e.source, e.outcome);
      var i: nat :| i < |seen| && seen[i] == f;
      assert !OtherSelector(all, i, |seen|);
    } else {
      forall i: nat, j: nat | i < j < |all| ensures OtherSelector(all, i, j) {
        if j < |seen| { assert OtherSelector(seen, i, j); } else { assert seen[i] in seen; }
      }
    }
  }

  lemma EndByPosition(index: map<NodeID, nat>, d: Definition, id: NodeID)
    requires PositionsOf(index, d.nodes) && id in index
    ensures IsEnd(d, id) <==> d.nodes[index[id]].kind == End
  {
    assert d.nodes[index[id]] in d.nodes;
    if n :| n in d.nodes && n.id == id && n.kind == End {
      PositionOf(index, d, n);
    }
  }

  lemma AllowEdge(d: Definition, seen: seq<Edge>, index: map<NodeID, nat>, routes: map<EdgeSelector, NodeID>, e: Edge)
    requires PositionsOf(index, d.nodes) && EdgesAllowed(d, seen) && RoutesOf(routes, seen)
    ensures e.source in index ==> index[e.source] < |d.nodes|
    ensures EdgesAllowed(d, seen + [e]) <==>
            e.source in index && e.target in index && d.nodes[index[e.source]].kind != End
            && EdgeSelector(e.source, e.outcome) !in routes
  {
    IndexedIDs(index, d);
    FreshSelector(seen, routes, e);
    var all := seen + [e];
    assert forall f :: f in all <==> f in seen || f == e;
    if e.source in index {
      EndByPosition(index, d, e.source);
    }
    assert EdgesAllowed(d, all) ==> EdgeAllowed(d, e);
  }

  /** A refused edge refuses every list it is part of. */
  lemma RefusedPrefix(d: Definition, k: nat)
    requires k < |d.edges| && !EdgesAllowed(d, d.edges[..k] + [d.edges[k]])
    ensures !EdgesValid(d)
  {
    PrefixStep(d.edges, k);
    var some := d.edges[..k + 1];
    if EdgesValid(d) {
      assert forall e :: e in some ==> e in d.edges;
      UniquePrefix(d.edges, k + 1);
      assert EdgesAllowed(d, some);
    }
  }

  /* Breadth-first search */

  ghost predicate Reached(edges: seq<Edge>, seeds: set<NodeID>, x: NodeID) {
    exists s :: s in seeds && Reaches(edges, s, x)
  }

  ghost predicate AllReached(edges: seq<Edge>, seeds: set<NodeID>, nodes: set<NodeID>) {
    forall x {:trigger Reached(edges, seeds, x)} :: x in nodes ==> Reached(edges, seeds, x)
  }

  /** A search in progress: what is visited is reached, and visited nodes are exhausted unless they wait in the
      queue or are the one being expanded. */
  ghost predicate Searching(edges: seq<Edge>, seeds: set<NodeID>, visited: set<NodeID>, queue: seq<NodeID>,
                            expanding: set<NodeID>)
  {
    && seeds <= visited
    && (forall x :: x in queue ==> x in visited)
    && (forall x {:trigger Reached(edges, seeds, x)} :: x in visited ==> Reached(edges, seeds, x))
    && (forall x, y :: x in visited && x !in queue && x !in expanding && HasEdge(edges, x, y) ==> y in visited)
  }

  lemma SearchStart(edges: seq<Edge>, seeds: set<NodeID>, queue: seq<NodeID>)
    requires forall x :: x in queue <==> x in seeds
    ensures Searching(edges, seeds, seeds, queue, {})
  {
    forall x | x in seeds ensures Reached(edges, seeds, x) { ReachesSelf(edges, x); }
  }

  lemma SearchTake(edges: seq<Edge>, seeds: set<NodeID>, visited: set<NodeID>, queue: seq<NodeID>)
    requires Searching(edges, seeds, visited, queue, {}) && queue != []
    ensures Searching(edges, seeds, visited, queue[1..], {queue[0]}) && queue[0] in visited
    ensures forall y :: y in Targets(edges, queue[0]) ==> HasEdge(edges, queue[0], y)
  {
    assert queue == [queue[0]] + queue[1..];
    TargetsAreEdges(edges, queue[0]);
  }

  lemma AdjacentAt(index: map<NodeID, seq<NodeID>>, edges: seq<Edge>, x: NodeID)
    requires Adjacent(index, edges)
    ensures Lookup(index, x) == Targets(edges, x)
  {
  }

  lemma EdgeInside(edges: seq<Edge>, nodes: set<NodeID>, a: NodeID, b: NodeID)
    requires EndpointsIn(edges, nodes) && HasEdge(edges, a, b)
    ensures a in nodes && b in nodes
  {
  }

  lemma SearchVisit(edges: seq<Edge>, seeds: set<NodeID>, visited: set<NodeID>, queue: seq<NodeID>, x: NodeID,
                    y: NodeID)
    requires Searching(edges, seeds, visited, queue, {x}) && x in visited && HasEdge(edges, x, y)
    ensures Searching(edges, seeds, visited + {y}, queue + [y], {x})
  {
    assert Reached(edges, seeds, x);
    var s :| s in seeds && Reaches(edges, s, x);
    ReachesStep(edges, s, x, y);
    assert Reached(edges, seeds, y);
  }

  lemma SearchExhaust(edges: seq<Edge>, seeds: set<NodeID>, visited: set<NodeID>, queue: seq<NodeID>, x: NodeID)
    requires Searching(edges, seeds, visited, queue, {x})
    requires forall y :: y in Targets(edges, x) ==> y in visited
    ensures Searching(edges, seeds, visited, queue, {})
  {
    TargetsAreEdges(edges, x);
  }

  /** An exhausted search has visited exactly what its seeds reach. */
  lemma SearchDone(edges: seq<Edge>, seeds: set<NodeID>, visited: set<NodeID>, x: NodeID)
    requires Searching(edges, seeds, visited, [], {})
    ensures x in visited <==> Reached(edges, seeds, x)
  {
    if Reached(edges, seeds, x) {
      var s :| s in seeds && Reaches(edges, s, x);
      var w :| WalkBetween(edges, w, s, x);
      ClosedKeepsWalk(edges, w, visited);
    }
  }

  lemma SubsetFull<T(!new)>(part: set<T>, whole: set<T>)
    requires part <= whole
    ensures |part| == |whole| <==> forall x :: x in whole ==> x in part
  {
    assert whole == part + (whole - part);
    if forall x :: x in whole ==> x in part { assert part == whole; }
  }

  class DefinitionAnalysis {
    var startID: NodeID
    var endIDs: seq<NodeID>
    var nodes: map<NodeID, nat>
    var routes: map<EdgeSelector, NodeID>
    var adjacency: map<NodeID, seq<NodeID>>
    var predecessors: map<NodeID, seq<NodeID>>
    var indegree: map<NodeID, int>

    constructor ()
      ensures endIDs == [] && nodes == map[] && routes == map[] && indegree == map[]
      ensures adjacency == map[] && predecessors == map[]
    {
      startID, endIDs, nodes, routes := EMPTY, [], map[], map[];
      adjacency, predecessors, indegree := map[], map[], map[];
    }

    ghost predicate NodesIndexed(d: Definition)
      requires OneStart(d.nodes)
      reads this
    {
      && startID == StartID(d)
      && PositionsOf(nodes, d.nodes)
      && indegree.Keys == nodes.Keys
      && (forall id :: id in endIDs <==> IsEnd(d, id))
    }

    ghost predicate EdgesIndexed(edges: seq<Edge>)
      reads this
    {
      EdgesRead(edges, nodes.Keys, routes, adjacency, predecessors, indegree)
    }

    method IndexNodes(d: Definition) returns (ok: bool)
      requires nodes == map[] && endIDs == [] && indegree == map[]
      modifies `startID, `endIDs, `nodes, `indegree
      ensures ok <==> NodesValid(d)
      ensures ok ==> NodesIndexed(d) && forall x :: x in indegree ==> indegree[x] == 0
    {
      hide NodesValid, PositionsOf, EndAmong, StartAmong, NodesRead, Starts;
      NoNodesRead(startID);
      assert d.nodes[..0] == [];
      var startCount := 0;
      var index := 0;
      while index < |d.nodes|
        invariant 0 <= index <= |d.nodes|
        invariant NodesRead(d.nodes[..index], nodes, startID, endIDs)
        invariant startCount == Starts(d.nodes[..index])
        invariant indegree.Keys == nodes.Keys && forall x :: x in indegree ==> indegree[x] == 0
      {
        var node := d.nodes[index];
        PrefixStep(d.nodes, index);
        BadNode(d, index);
        RepeatedNode(d, d.nodes[..index], nodes, startID, endIDs, index);
        if node.id == EMPTY || node.kind == NoKind {
          return false;
        }
        if node.id in nodes {
          return false;
        }
        ReadNode(d.nodes[..index], nodes, startID, endIDs, node);
        nodes := nodes[node.id := index];
        indegree := indegree[node.id := 0];
        if node.kind == Start {
          startCount := startCount + 1;
          startID := node.id;
        } else if node.kind == End {
          endIDs := endIDs + [node.id];
        }
        index := index + 1;
      }
      assert d.nodes[..index] == d.nodes;
      NodesReadAll(d, nodes, startID, endIDs);
      if startCount != 1 {
        return false;
      }
      if |endIDs| == 0 {
        return false;
      }
      return true;
    }

    method IndexEdges(d: Definition) returns (ok: bool)
      requires PositionsOf(nodes, d.nodes)
      requires indegree.Keys == nodes.Keys && forall x :: x in indegree ==> indegree[x] == 0
      requires routes == map[] && adjacency == map[] && predecessors == map[]
      modifies `routes, `adjacency, `predecessors, `indegree
      ensures ok <==> EdgesValid(d)
      ensures ok ==> EdgesIndexed(d.edges)
    {
      hide EdgesAllowed, Adjacent, RoutesOf, PositionsOf, EdgesRead;
      NoEdgesRead(d, nodes.Keys, indegree);
      assert d.edges[..0] == [];
      var k := 0;
      while k < |d.edges|
        invariant 0 <= k <= |d.edges|
        invariant EdgesAllowed(d, d.edges[..k])
        invariant EdgesIndexed(d.edges[..k])
      {
        var edge := d.edges[k];
        ghost var seen := d.edges[..k];
        PrefixStep(d.edges, k);
        EdgesReadParts(seen, nodes.Keys, routes, adjacency, predecessors, indegree);
        AllowEdge(d, seen, nodes, routes, edge);
        if !EdgesAllowed(d, seen + [edge]) { RefusedPrefix(d, k); }
        if edge.source !in nodes || edge.target !in nodes {
          return false;
        }
        if d.nodes[nodes[edge.source]].kind == End {
          return false;
        }
        var selector := EdgeSelector(edge.source, edge.outcome);
        if selector in routes {
          return false;
        }
        ReadEdge(seen, nodes.Keys, routes, adjacency, predecessors, indegree, edge);
        routes := routes[selector := edge.target];
        adjacency := adjacency[edge.source := Lookup(adjacency, edge.source) + [edge.target]];
        predecessors := predecessors[edge.target := Lookup(predecessors, edge.target) + [edge.source]];
        indegree := indegree[edge.target := indegree[edge.target] + 1];
        k := k + 1;
      }
      assert d.edges[..k] == d.edges;
      return true;
    }

    /** The nodes nothing enters, in whatever order the map yields them. */
    method SeedRoots(remaining: map<NodeID, int>) returns (queue: seq<NodeID>)
      ensures Distinct(queue) && forall x :: x in queue <==> x in remaining.Keys && remaining[x] == 0
    {
      queue := [];
      var unseeded := remaining.Keys;
      while unseeded != {}
        invariant unseeded <= remaining.Keys
        invariant Distinct(queue)
        invariant forall x :: x in queue <==> x in remaining.Keys && x !in unseeded && remaining[x] == 0
        decreases unseeded
      {
        var id :| id in unseeded;
        if remaining[id] == 0 {
          queue := queue + [id];
        }
        unseeded := unseeded - {id};
      }
    }

    /** Kahn's algorithm: roots are seeded in any order, and parallel edges are counted one by one. */
    method ValidateAcyclic(ghost edges: seq<Edge>) returns (ok: bool)
      requires EdgesIndexed(edges) && EndpointsIn(edges, nodes.Keys)
      ensures ok <==> Acyclic(edges)
    {
      hide Sorting, EndpointsIn, Acyclic, Adjacent, Targets, Entering, EdgesRead, Distinct;
      EdgesReadParts(edges, nodes.Keys, routes, adjacency, predecessors, indegree);
      var remaining := indegree;
      var queue := SeedRoots(remaining);
      var visited := 0;
      ghost var done: seq<NodeID> := [];
      SortBegin(edges, nodes.Keys, routes, adjacency, predecessors, indegree, queue);
      while |queue| > 0
        invariant visited == |done|
        invariant Sorting(edges, nodes.Keys, done, queue, remaining, []) && remaining.Keys == nodes.Keys
        decreases |nodes| - |done|
      {
        var id := queue[0];
        SortTake(edges, nodes.Keys, done, queue, remaining);
        queue := queue[1..];
        visited := visited + 1;
        var targets := Lookup(adjacency, id);
        AdjacentAt(adjacency, edges, id);
        done := done + [id];
        var k := 0;
        while k < |targets|
          invariant 0 <= k <= |targets|
          invariant Sorting(edges, nodes.Keys, done, queue, remaining, targets[k..]) && remaining.Keys == nodes.Keys
        {
          var target := targets[k];
          SortDecrement(edges, nodes.Keys, done, queue, remaining, targets[k..]);
          assert targets[k..][1..] == targets[k + 1..];
          remaining := remaining[target := remaining[target] - 1];
          if remaining[target] == 0 {
            queue := queue + [target];
          }
          k := k + 1;
        }
        assert targets[k..] == [];
      }
      SortDone(edges, nodes.Keys, done, remaining);
      return visited == |nodes|;
    }

    method ValidateReachable(ghost edges: seq<Edge>) returns (ok: bool)
      requires Adjacent(adjacency, edges) && EndpointsIn(edges, nodes.Keys) && startID in nodes
      ensures ok <==> AllReached(edges, {startID}, nodes.Keys)
    {
      hide Searching, EndpointsIn, Reached, Reaches, HasEdge, Adjacent, Targets;
      var visited := {startID};
      var queue := [startID];
      SearchStart(edges, {startID}, queue);
      while |queue| > 0
        invariant Searching(edges, {startID}, visited, queue, {}) && visited <= nodes.Keys
        decreases nodes.Keys - visited, |queue|
      {
        var id := queue[0];
        ghost var seen, waiting := visited, |queue|;
        SearchTake(edges, {startID}, visited, queue);
        queue := queue[1..];
        var targets := Lookup(adjacency, id);
        AdjacentAt(adjacency, edges, id);
        var k := 0;
        while k < |targets|
          invariant 0 <= k <= |targets|
          invariant seen <= visited <= nodes.Keys && (visited == seen ==> |queue| < waiting)
          invariant forall j :: 0 <= j < k ==> targets[j] in visited
          invariant Searching(edges, {startID}, visited, queue, {id})
        {
          var target := targets[k];
          if target !in visited {
            assert target in Targets(edges, id);
            EdgeInside(edges, nodes.Keys, id, target);
            SearchVisit(edges, {startID}, visited, queue, id, target);
            visited := visited + {target};
            queue := queue + [target];
          }
          k := k + 1;
        }
        SearchExhaust(edges, {startID}, visited, queue, id);
      }
      forall x ensures x in visited <==> Reached(edges, {startID}, x) { SearchDone(edges, {startID}, visited, x); }
      SubsetFull(visited, nodes.Keys);
      return |visited| == |nodes|;
    }

    method ValidateCanReachEnd(ghost edges: seq<Edge>) returns (ok: bool)
      requires Adjacent(predecessors, Flip(edges)) && EndpointsIn(edges, nodes.Keys)
      requires forall id :: id in endIDs ==> id in nodes
      ensures ok <==> AllReached(Flip(edges), Members(endIDs), nodes.Keys)
    {
      hide Searching, EndpointsIn, Reached, Reaches, HasEdge, Adjacent, Targets, Flip, Members;
      var queue := endIDs;
      var visited: set<NodeID> := {};
      ghost var back := Flip(edges);
      ghost var ends := Members(endIDs);
      NoMembers();
      for i := 0 to |endIDs|
        invariant visited == Members(endIDs[..i])
      {
        MembersMore(endIDs, i);
        visited := visited + {endIDs[i]};
      }
      assert endIDs[..|endIDs|] == endIDs;
      MembersWithin(endIDs, nodes.Keys);
      SearchStart(back, ends, queue);
      while |queue| > 0
        invariant Searching(back, ends, visited, queue, {}) && visited <= nodes.Keys
        decreases nodes.Keys - visited, |queue|
      {
        var id := queue[0];
        ghost var seen, waiting := visited, |queue|;
        SearchTake(back, ends, visited, queue);
        queue := queue[1..];
        var sources := Lookup(predecessors, id);
        AdjacentAt(predecessors, back, id);
        var k := 0;
        while k < |sources|
          invariant 0 <= k <= |sources|
          invariant seen <= visited <= nodes.Keys && (visited == seen ==> |queue| < waiting)
          invariant forall j :: 0 <= j < k ==> sources[j] in visited
          invariant Searching(back, ends, visited, queue, {id})
        {
          var source := sources[k];
          if source !in visited {
            assert source in Targets(back, id);
            FlipEdge(edges, source, id);
            EdgeInside(edges, nodes.Keys, source, id);
            SearchVisit(back, ends, visited, queue, id, source);
            visited := visited + {source};
            queue := queue + [source];
          }
          k := k + 1;
        }
        SearchExhaust(back, ends, visited, queue, id);
      }
      forall x ensures x in visited <==> Reached(back, ends, x) { SearchDone(back, ends, visited, x); }
      SubsetFull(visited, nodes.Keys);
      return |visited| == |nodes|;
    }
  }

  /* Topological sorting */

  ghost function Members(s: seq<NodeID>): set<NodeID> { set x | x in s }

  lemma NoMembers()
    ensures Members([]) == {}
  {
  }

  lemma MembersMore(s: seq<NodeID>, i: nat)
    requires i < |s|
    ensures Members(s[..i + 1]) == Members(s[..i]) + {s[i]}
  {
    assert s[..i + 1] == s[..i] + [s[i]];
  }

  lemma MembersWithin(s: seq<NodeID>, nodes: set<NodeID>)
    requires forall x :: x in s ==> x in nodes
    ensures Members(s) <= nodes && forall x :: x in s <==> x in Members(s)
  {
  }

  /** Kahn's loop in progress: `owed` lists the targets of the node removed last that are still to be counted down. */
  ghost predicate Sorting(edges: seq<Edge>, nodes: set<NodeID>, done: seq<NodeID>, queue: seq<NodeID>,
                          remaining: map<NodeID, int>, owed: seq<NodeID>)
  {
    && remaining.Keys == nodes
    && Topological(edges, done)
    && Distinct(done + queue)
    && (forall x :: x in owed ==> x in nodes)
    && (forall x :: x in done + queue <==> x in nodes && remaining[x] == 0)
    && (forall x :: x in nodes ==> remaining[x] == Entering(edges, x, Members(done)) + multiset(owed)[x])
  }

  lemma SortStart(edges: seq<Edge>, nodes: set<NodeID>, queue: seq<NodeID>, remaining: map<NodeID, int>)
    requires remaining.Keys == nodes && forall x :: x in nodes ==> remaining[x] == Entering(edges, x, {})
    requires Distinct(queue) && forall x :: x in queue <==> x in nodes && remaining[x] == 0
    ensures Sorting(edges, nodes, [], queue, remaining, [])
  {
    assert [] + queue == queue;
    assert Members([]) == {};
  }

  lemma SortBegin(edges: seq<Edge>, nodes: set<NodeID>, routes: map<EdgeSelector, NodeID>,
                  adjacency: map<NodeID, seq<NodeID>>,
                  predecessors: map<NodeID, seq<NodeID>>, indegree: map<NodeID, int>, queue: seq<NodeID>)
    requires EdgesRead(edges, nodes, routes, adjacency, predecessors, indegree)
    requires Distinct(queue) && forall x :: x in queue <==> x in nodes && indegree[x] == 0
    ensures Sorting(edges, nodes, [], queue, indegree, [])
  {
    hide Distinct, Adjacent, Targets, Entering;
    SortStart(edges, nodes, queue, indegree);
  }

  lemma SortTake(edges: seq<Edge>, nodes: set<NodeID>, done: seq<NodeID>, queue: seq<NodeID>,
                 remaining: map<NodeID, int>)
    requires Sorting(edges, nodes, done, queue, remaining, []) && queue != [] && EndpointsIn(edges, nodes)
    ensures Sorting(edges, nodes, done + [queue[0]], queue[1..], remaining, Targets(edges, queue[0]))
    ensures |done| < |nodes|
  {
    var id := queue[0];
    var next := done + [id];
    assert next + queue[1..] == done + queue;
    assert (done + queue)[|done|] == id;
    assert id in done + queue;
    forall i | 0 <= i < |done| ensures done[i] != id {
      assert (done + queue)[i] == done[i];
    }
    assert Members(next) == Members(done) + {id};
    SortTakeOrder(edges, nodes, done, queue, remaining);
    forall x | x in nodes
      ensures remaining[x] == Entering(edges, x, Members(next)) + multiset(Targets(edges, id))[x]
    {
      EnteringRemove(edges, x, Members(done), id);
    }
    TargetsAreEdges(edges, id);
    forall x | x in next ensures x in nodes {
      assert x in done || x == id;
      if x in done { assert x in done + queue; }
    }
    DistinctFits(next, nodes);
  }

  lemma SortTakeOrder(edges: seq<Edge>, nodes: set<NodeID>, done: seq<NodeID>, queue: seq<NodeID>,
                      remaining: map<NodeID, int>)
    requires Sorting(edges, nodes, done, queue, remaining, []) && queue != []
    requires forall i :: 0 <= i < |done| ==> done[i] != queue[0]
    ensures Topological(edges, done + [queue[0]])
  {
    var id := queue[0];
    var next := done + [id];
    assert id in done + queue;
    EnteringZero(edges, id, Members(done));
    forall k, a | 0 <= k < |next| && HasEdge(edges, a, next[k]) ensures a in next[..k] {
      if k < |done| {
        assert next[..k] == done[..k] && HasEdge(edges, a, done[k]);
      } else {
        assert next[..k] == done;
        assert a in Members(done);
      }
    }
  }

  lemma SortDecrement(edges: seq<Edge>, nodes: set<NodeID>, done: seq<NodeID>, queue: seq<NodeID>,
                      remaining: map<NodeID, int>, owed: seq<NodeID>)
    requires Sorting(edges, nodes, done, queue, remaining, owed) && owed != []
    ensures owed[0] in nodes
    ensures var less := remaining[owed[0] := remaining[owed[0]] - 1];
            Sorting(edges, nodes, done, if less[owed[0]] == 0 then queue + [owed[0]] else queue, less, owed[1..])
  {
    var target := owed[0];
    assert target in owed;
    assert owed == [target] + owed[1..];
    var less := remaining[target := remaining[target] - 1];
    assert remaining[target] >= 1;
    assert target !in done + queue;
    if less[target] == 0 {
      var longer := done + (queue + [target]);
      assert longer == (done + queue) + [target];
    }
  }

  lemma SortDone(edges: seq<Edge>, nodes: set<NodeID>, done: seq<NodeID>, remaining: map<NodeID, int>)
    requires Sorting(edges, nodes, done, [], remaining, []) && EndpointsIn(edges, nodes)
    ensures |done| == |nodes| <==> Acyclic(edges)
  {
    assert done + [] == done;
    if |done| == |nodes| {
      DistinctCovers(done, nodes);
      TopologicalAcyclic(edges, done);
    }
    if Acyclic(edges) {
      var trapped := nodes - Members(done);
      if trapped != {} {
        AcyclicHasEntry(edges, trapped);
        var x :| x in trapped && !Preceded(edges, trapped, x);
        EnteringZero(edges, x, Members(done));
        assert false;
      }
      DistinctFits(done, nodes);
      SetFits(nodes, done);
    }
  }

  lemma {:induction false} SetFits(inside: set<NodeID>, s: seq<NodeID>)
    requires inside - Members(s) == {}
    ensures |inside| <= |s|
  {
    if s == [] {
      assert inside == {};
    } else {
      var init, last := s[..|s| - 1], s[|s| - 1];
      assert s == init + [last];
      assert Members(s) == Members(init) + {last};
      assert (inside - {last}) - Members(init) == {};
      SetFits(inside - {last}, init);
    }
  }

  /* The two entry points */

  lemma ReachedFromEnds(d: Definition, endIDs: seq<NodeID>, id: NodeID)
    requires forall x :: x in endIDs <==> IsEnd(d, x)
    ensures Reached(Flip(d.edges), Members(endIDs), id) <==> ReachesEnd(d, id)
  {
    forall x ensures Reaches(Flip(d.edges), x, id) <==> Reaches(d.edges, id, x) { FlipReaches(d.edges, id, x); }
  }

  lemma SearchVerdicts(d: Definition, endIDs: seq<NodeID>)
    requires OneStart(d.nodes) && forall x :: x in endIDs <==> IsEnd(d, x)
    ensures AllReached(d.edges, {StartID(d)}, NodeIDs(d)) <==> AllReachable(d)
    ensures AllReached(Flip(d.edges), Members(endIDs), NodeIDs(d)) <==> AllReachEnd(d)
    ensures StartID(d) in NodeIDs(d) && forall id :: id in endIDs ==> id in NodeIDs(d)
  {
    forall id ensures Reached(d.edges, {StartID(d)}, id) <==> Reaches(d.edges, StartID(d), id) {}
    forall id ensures Reached(Flip(d.edges), Members(endIDs), id) <==> ReachesEnd(d, id) {
      ReachedFromEnds(d, endIDs, id);
    }
    forall id | id in endIDs ensures id in NodeIDs(d) { assert IsEnd(d, id); }
  }

  method AnalyzeDefinition(d: Definition) returns (r: Result<DefinitionAnalysis>)
    ensures r.Success? <==> ValidGraph(d)
    ensures r.Failure? ==> r.error == InvalidDefinition
    ensures r.Success? ==> fresh(r.value) && r.value.startID == StartID(d)
    ensures r.Success? ==> PositionsOf(r.value.nodes, d.nodes) && r.value.EdgesIndexed(d.edges)
  {
    hide Acyclic, EdgesAllowed, AllReachable, AllReachEnd, AllReached, PositionsOf, Adjacent, RoutesOf, EndAmong,
         OneStart;
    if d.id == EMPTY {
      return Failure(InvalidDefinition);
    }
    var analysis := new DefinitionAnalysis();
    var ok := analysis.IndexNodes(d);
    if !ok { return Failure(InvalidDefinition); }
    IndexedIDs(analysis.nodes, d);
    SearchVerdicts(d, analysis.endIDs);
    ok := analysis.IndexEdges(d);
    if !ok { return Failure(InvalidDefinition); }
    ValidEndpoints(d);
    ok := analysis.ValidateAcyclic(d.edges);
    if !ok { return Failure(InvalidDefinition); }
    ok := analysis.ValidateReachable(d.edges);
    if !ok { return Failure(InvalidDefinition); }
    ok := analysis.ValidateCanReachEnd(d.edges);
    if !ok { return Failure(InvalidDefinition); }
    return Success(analysis);
  }

  method CheckConfigs(nodes: seq<NodeDefinition>) returns (ok: bool)
    ensures ok <==> ConfigsValid(nodes)
  {
    for i := 0 to |nodes|
      invariant forall j :: 0 <= j < i ==> JsonSyntax(nodes[j].config)
    {
      if !JsonSyntax(nodes[i].config) {
        assert nodes[i] in nodes;
        return false;
      }
    }
    return true;
  }

  lemma BusinessMore(seen: seq<NodeDefinition>, n: NodeDefinition)
    ensures BusinessIDs(seen + [n]) == BusinessIDs(seen) + (if Business(n) then {n.id} else {})
  {
    assert forall m :: m in seen + [n] <==> m in seen || m == n;
  }

  method PrepareHandlers(nodes: seq<NodeDefinition>, prepare: (Kind, RawMessage) -> Preparation)
    returns (r: Option<set<NodeID>>)
    ensures r.Some? <==> HandlersReady(nodes, prepare)
    ensures r.Some? ==> r.value == BusinessIDs(nodes)
  {
    var prepared: set<NodeID> := {};
    for i := 0 to |nodes|
      invariant prepared == BusinessIDs(nodes[..i])
      invariant HandlersReady(nodes[..i], prepare)
    {
      var node := nodes[i];
      PrefixStep(nodes, i);
      BusinessMore(nodes[..i], node);
      if node.kind == Start || node.kind == End {
        continue;
      }
      if !prepare(node.kind, node.config).Prepared? {
        return None;
      }
      prepared := prepared + {node.id};
    }
    assert nodes[..|nodes|] == nodes;
    return Some(prepared);
  }

  method CompileDefinition(d: Definition, prepare: (Kind, RawMessage) -> Preparation) returns (r: Result<Plan>)
    ensures r.Success? <==> Compilable(d, prepare)
    ensures r.Failure? ==> r.error == InvalidDefinition
    ensures r.Success? ==> PlanFor(r.value, d)
  {
    var analyzed := AnalyzeDefinition(d);
    if analyzed.Failure? { return Failure(analyzed.error); }
    var analysis := analyzed.value;
    var start := analysis.startID;
    var ok := CheckConfigs(d.nodes);
    if !ok { return Failure(InvalidDefinition); }
    UnconditionalByIndex(d.edges, analysis.routes, start);
    if EdgeSelector(start, EMPTY) !in analysis.routes {
      return Failure(InvalidDefinition);
    }
    if |Lookup(analysis.adjacency, start)| != 1 {
      return Failure(InvalidDefinition);
    }
    var prepared := PrepareHandlers(d.nodes, prepare);
    if prepared.None? { return Failure(InvalidDefinition); }
    return Success(Plan(d, start, analysis.nodes, analysis.routes, prepared.value));
  }

  /** The compiler's two checks on Start: an unconditional route exists, and it is the only outgoing edge. */
  lemma UnconditionalByIndex(edges: seq<Edge>, routes: map<EdgeSelector, NodeID>, start: NodeID)
    requires UniqueSelectors(edges) && RoutesOf(routes, edges)
    ensures Unconditional(edges, start) <==> EdgeSelector(start, EMPTY) in routes && |Targets(edges, start)| == 1
  {
    if EdgeSelector(start, EMPTY) in routes {
      assert RouteAmong(edges, EdgeSelector(start, EMPTY), routes[EdgeSelector(start, EMPTY)]);
      var first :| first in edges && Selects(first, start, EMPTY);
      OneTarget(edges, start, first);
    }
  }

  lemma LastIsNew(edges: seq<Edge>, e: Edge)
    requires UniqueSelectors(edges) && edges != [] && e in edges[..|edges| - 1]
    ensures e.source != edges[|edges| - 1].source || e.outcome != edges[|edges| - 1].outcome
  {
    var i: nat :| i < |edges| - 1 && edges[i] == e;
    assert OtherSelector(edges, i, |edges| - 1);
  }

  /** With unique selectors, one outgoing edge besides an unconditional one means that no edge carries an outcome. */
  lemma {:induction false} OneTarget(edges: seq<Edge>, start: NodeID, first: Edge)
    requires UniqueSelectors(edges) && first in edges && Selects(first, start, EMPTY)
    ensures |Targets(edges, start)| >= 1
    ensures |Targets(edges, start)| == 1 <==> forall e :: e in edges && e.source == start ==> e.outcome == EMPTY
  {
    var init, last := edges[..|edges| - 1], edges[|edges| - 1];
    assert edges == init + [last];
    UniquePrefix(edges, |init|);
    if first in init {
      OneTarget(init, start, first);
      if last.source == start && last.outcome == EMPTY { LastIsNew(edges, first); }
    } else {
      TargetsAreEdges(init, start);
      if e :| e in init && e.source == start {
        assert HasEdge(init, start, e.target);
        if e.outcome == EMPTY { LastIsNew(edges, e); }
      }
      if Targets(init, start) != [] {
        assert Targets(init, start)[0] in Targets(init, start);
      }
    }
  }
}
