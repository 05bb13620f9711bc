/** Walks over edge lists: reachability, acyclicity, reversal and the counting used by topological sorting. */
module Graphs {
  import opened Workflow

  ghost predicate HasEdge(edges: seq<Edge>, a: NodeID, b: NodeID) {
    exists e :: e in edges && e.source == a && e.target == b
  }

  ghost predicate IsWalk(edges: seq<Edge>, w: seq<NodeID>) {
    && |w| >= 1
    && forall i, j :: 0 <= i && i + 1 == j && j < |w| ==> HasEdge(edges, w[i], w[j])
  }

  ghost predicate WalkBetween(edges: seq<Edge>, w: seq<NodeID>, a: NodeID, b: NodeID) {
    IsWalk(edges, w) && w[0] == a && w[|w| - 1] == b
  }

  ghost predicate Reaches(edges: seq<Edge>, a: NodeID, b: NodeID) {
    exists w :: WalkBetween(edges, w, a, b)
  }

  /** No walk of at least one step returns to the node it left. */
  ghost predicate Acyclic(edges: seq<Edge>) {
    forall w :: IsWalk(edges, w) && |w| >= 2 ==> w[0] != w[|w| - 1]
  }

  ghost predicate Distinct<T(!new)>(s: seq<T>) {
    forall i, j :: 0 <= i < j < |s| ==> s[i] != s[j]
  }

  ghost predicate EndpointsIn(edges: seq<Edge>, nodes: set<NodeID>) {
    forall e :: e in edges ==> e.source in nodes && e.target in nodes
  }

  lemma PrefixStep<T>(s: seq<T>, k: nat)
    requires k < |s|
    ensures s[..k + 1] == s[..k] + [s[k]]
    ensures forall x :: x in s[..k + 1] <==> x in s[..k] || x == s[k]
    ensures s[k] in s
  {
    assert s[..k + 1] == s[..k] + [s[k]];
  }

  /* Walks */

  lemma ReachesSelf(edges: seq<Edge>, a: NodeID)
    ensures Reaches(edges, a, a)
  {
    assert WalkBetween(edges, [a], a, a);
  }

  lemma WalkStep(edges: seq<Edge>, w: seq<NodeID>, a: NodeID, b: NodeID, c: NodeID)
    requires WalkBetween(edges, w, a, b) && HasEdge(edges, b, c)
    ensures WalkBetween(edges, w + [c], a, c)
  {
  }

  lemma ReachesStep(edges: seq<Edge>, a: NodeID, b: NodeID, c: NodeID)
    requires Reaches(edges, a, b) && HasEdge(edges, b, c)
    ensures Reaches(edges, a, c)
  {
    var w :| WalkBetween(edges, w, a, b);
    WalkStep(edges, w, a, b, c);
  }

  lemma StepReaches(edges: seq<Edge>, a: NodeID, b: NodeID, c: NodeID)
    requires HasEdge(edges, a, b) && Reaches(edges, b, c)
    ensures Reaches(edges, a, c)
  {
    var w :| WalkBetween(edges, w, b, c);
    assert WalkBetween(edges, [a] + w, a, c);
  }

  /** An edge and a way back would close a cycle. */
  lemma NoWayBack(edges: seq<Edge>, a: NodeID, b: NodeID)
    requires Acyclic(edges) && HasEdge(edges, a, b)
    ensures !Reaches(edges, b, a)
  {
    if Reaches(edges, b, a) {
      var w :| WalkBetween(edges, w, b, a);
      assert IsWalk(edges, [a] + w);
      assert false;
    }
  }

  lemma AcyclicWalkDistinct(edges: seq<Edge>, w: seq<NodeID>)
    requires Acyclic(edges) && IsWalk(edges, w)
    ensures Distinct(w)
  {
    forall i, j | 0 <= i < j < |w| ensures w[i] != w[j] {
      var part := w[i..j + 1];
      assert IsWalk(edges, part);
      assert part[0] != part[|part| - 1];
    }
  }

  lemma {:induction false} ClosedKeepsWalk(edges: seq<Edge>, w: seq<NodeID>, inside: set<NodeID>)
    requires IsWalk(edges, w) && w[0] in inside
    requires forall a, b :: a in inside && HasEdge(edges, a, b) ==> b in inside
    ensures w[|w| - 1] in inside
  {
    if |w| > 1 {
      ClosedKeepsWalk(edges, w[..|w| - 1], inside);
      assert HasEdge(edges, w[|w| - 2], w[|w| - 1]);
    }
  }

  /* Reversal */

  function Flip(edges: seq<Edge>): (r: seq<Edge>)
    ensures |r| == |edges|
    ensures forall i :: 0 <= i < |r| ==> r[i] == Edge(edges[i].target, edges[i].source, edges[i].outcome)
  {
    if edges == [] then []
    else
      var e := edges[|edges| - 1];
      Flip(edges[..|edges| - 1]) + [Edge(e.target, e.source, e.outcome)]
  }

  lemma FlipEdge(edges: seq<Edge>, a: NodeID, b: NodeID)
    ensures HasEdge(Flip(edges), b, a) <==> HasEdge(edges, a, b)
  {
    if e :| e in edges && e.source == a && e.target == b {
      var i :| 0 <= i < |edges| && edges[i] == e;
      assert Flip(edges)[i] in Flip(edges);
    }
    if e :| e in Flip(edges) && e.source == b && e.target == a {
      var i :| 0 <= i < |edges| && Flip(edges)[i] == e;
      assert edges[i] in edges;
    }
  }

  function Backwards(w: seq<NodeID>): (r: seq<NodeID>)
    ensures |r| == |w|
    ensures forall i :: 0 <= i < |w| ==> r[i] == w[|w| - 1 - i]
  {
    seq(|w|, i requires 0 <= i < |w| => w[|w| - 1 - i])
  }

  lemma FlipWalk(edges: seq<Edge>, w: seq<NodeID>, a: NodeID, b: NodeID)
    requires WalkBetween(edges, w, a, b)
    ensures WalkBetween(Flip(edges), Backwards(w), b, a)
  {
    var r := Backwards(w);
    forall i, j | 0 <= i && i + 1 == j && j < |r| ensures HasEdge(Flip(edges), r[i], r[j]) {
      assert HasEdge(edges, w[|w| - 1 - j], w[|w| - 1 - i]);
      FlipEdge(edges, w[|w| - 1 - j], w[|w| - 1 - i]);
    }
  }

  lemma FlipReaches(edges: seq<Edge>, a: NodeID, b: NodeID)
    ensures Reaches(Flip(edges), b, a) <==> Reaches(edges, a, b)
  {
    if Reaches(edges, a, b) {
      var w :| WalkBetween(edges, w, a, b);
      FlipWalk(edges, w, a, b);
    }
    if Reaches(Flip(edges), b, a) {
      var w :| WalkBetween(Flip(edges), w, b, a);
      FlipWalk(Flip(edges), w, b, a);
      assert Flip(Flip(edges)) == edges;
    }
  }

  /* Finite sets of nodes */

  lemma {:induction false} DistinctFits<T(!new)>(s: seq<T>, inside: set<T>)
    requires Distinct(s) && forall x :: x in s ==> x in inside
    ensures |s| <= |inside|
  {
    if s == [] {
    } else {
      var last := s[|s| - 1];
      forall x | x in s[..|s| - 1] ensures x in inside - {last} {
        var i :| 0 <= i < |s| - 1 && s[i] == x;
      }
      DistinctFits(s[..|s| - 1], inside - {last});
    }
  }

  lemma {:induction false} DistinctCovers<T(!new)>(s: seq<T>, inside: set<T>)
    requires Distinct(s) && |s| == |inside| && forall x :: x in s ==> x in inside
    ensures forall x :: x in inside ==> x in s
  {
    forall x | x in inside ensures x in s {
      if x !in s {
        DistinctFits(s, inside - {x});
      }
    }
  }

  ghost predicate Preceded(edges: seq<Edge>, trapped: set<NodeID>, x: NodeID) {
    exists y :: y in trapped && HasEdge(edges, y, x)
  }

  /** A backward walk of any length, when every node of the set has a predecessor in the set. */
  lemma {:induction false} BackwardWalk(edges: seq<Edge>, trapped: set<NodeID>, n: nat) returns (w: seq<NodeID>)
    requires trapped != {}
    requires forall x {:trigger Preceded(edges, trapped, x)} :: x in trapped ==> Preceded(edges, trapped, x)
    ensures |w| == n + 1 && IsWalk(edges, w) && forall x :: x in w ==> x in trapped
  {
    if n == 0 {
      var x :| x in trapped;
      w := [x];
    } else {
      var tail := BackwardWalk(edges, trapped, n - 1);
      var first := tail[0];
      assert first in tail;
      assert Preceded(edges, trapped, first);
      var y :| y in trapped && HasEdge(edges, y, first);
      w := [y] + tail;
    }
  }

  /** A finite acyclic graph gives every non-empty set of nodes an entry that no other member precedes. */
  lemma AcyclicHasEntry(edges: seq<Edge>, trapped: set<NodeID>)
    requires Acyclic(edges) && trapped != {}
    ensures exists x :: x in trapped && !Preceded(edges, trapped, x)
  {
    if forall x {:trigger Preceded(edges, trapped, x)} :: x in trapped ==> Preceded(edges, trapped, x) {
      var w := BackwardWalk(edges, trapped, |trapped|);
      AcyclicWalkDistinct(edges, w);
      DistinctFits(w, trapped);
    }
  }

  /** A list in which every edge into a listed node comes from an earlier one. */
  ghost predicate Topological(edges: seq<Edge>, order: seq<NodeID>) {
    && Distinct(order)
    && forall k, a :: 0 <= k < |order| && HasEdge(edges, a, order[k]) ==> a in order[..k]
  }

  function Position(order: seq<NodeID>, x: NodeID): (k: nat)
    requires x in order
    ensures k < |order| && order[k] == x
  {
    if order[|order| - 1] == x then |order| - 1 else Position(order[..|order| - 1], x)
  }

  lemma {:induction false} WalkClimbs(edges: seq<Edge>, order: seq<NodeID>, w: seq<NodeID>)
    requires Topological(edges, order) && IsWalk(edges, w)
    requires forall x :: x in w ==> x in order
    ensures Position(order, w[0]) + |w| - 1 <= Position(order, w[|w| - 1])
  {
    if |w| > 1 {
      var init := w[..|w| - 1];
      WalkClimbs(edges, order, init);
      var a, b := w[|w| - 2], w[|w| - 1];
      assert HasEdge(edges, a, b);
      var k := Position(order, b);
      assert a in order[..k];
      var i :| 0 <= i < k && order[i] == a;
    }
  }

  lemma TopologicalAcyclic(edges: seq<Edge>, order: seq<NodeID>)
    requires Topological(edges, order)
    requires forall e :: e in edges ==> e.source in order && e.target in order
    ensures Acyclic(edges)
  {
    forall w | IsWalk(edges, w) && |w| >= 2 ensures w[0] != w[|w| - 1] {
      forall x | x in w ensures x in order {
        var i :| 0 <= i < |w| && w[i] == x;
        if i + 1 < |w| { assert HasEdge(edges, w[i], w[i + 1]); }
        else { assert HasEdge(edges, w[i - 1], w[i]); }
      }
      WalkClimbs(edges, order, w);
    }
  }

  /* The indexes an edge list induces */

  /** The targets of the edges leaving x, in declaration order; parallel edges repeat their target. */
  function Targets(edges: seq<Edge>, x: NodeID): seq<NodeID> {
    if edges == [] then []
    else
      var e := edges[|edges| - 1];
      Targets(edges[..|edges| - 1], x) + (if e.source == x then [e.target] else [])
  }

  lemma {:induction false} TargetsAreEdges(edges: seq<Edge>, x: NodeID)
    ensures forall y :: y in Targets(edges, x) <==> HasEdge(edges, x, y)
  {
    if edges == [] {
    } else {
      var init, e := edges[..|edges| - 1], edges[|edges| - 1];
      assert edges == init + [e];
      TargetsAreEdges(init, x);
      forall y ensures y in Targets(edges, x) <==> HasEdge(edges, x, y) {
        if HasEdge(edges, x, y) {
          var d :| d in edges && d.source == x && d.target == y;
          if d != e { assert d in init; assert HasEdge(init, x, y); }
        }
        if HasEdge(init, x, y) {
          var d :| d in init && d.source == x && d.target == y;
          assert d in edges;
        }
      }
    }
  }

  /** How many edges enter x from outside the given set. */
  function Entering(edges: seq<Edge>, x: NodeID, gone: set<NodeID>): nat {
    if edges == [] then 0
    else
      var e := edges[|edges| - 1];
      Entering(edges[..|edges| - 1], x, gone) + (if e.target == x && e.source !in gone then 1 else 0)
  }

  lemma {:induction false} EnteringZero(edges: seq<Edge>, x: NodeID, gone: set<NodeID>)
    ensures Entering(edges, x, gone) == 0 <==> forall a :: HasEdge(edges, a, x) ==> a in gone
  {
    if edges == [] {
    } else {
      var init, e := edges[..|edges| - 1], edges[|edges| - 1];
      assert edges == init + [e];
      EnteringZero(init, x, gone);
      assert e in edges;
      forall a ensures HasEdge(edges, a, x) <==> HasEdge(init, a, x) || (e.source == a && e.target == x) {
        if d :| d in edges && d.source == a && d.target == x {
          assert d in init || d == e;
        }
        if d :| d in init && d.source == a && d.target == x {
          assert d in edges;
        }
      }
      if e.target == x { assert HasEdge(edges, e.source, x); }
    }
  }

  /** Removing one more node lowers each count by the number of parallel edges from it. */
  lemma {:induction false} EnteringRemove(edges: seq<Edge>, x: NodeID, gone: set<NodeID>, n: NodeID)
    requires n !in gone
    ensures Entering(edges, x, gone) == Entering(edges, x, gone + {n}) + multiset(Targets(edges, n))[x]
  {
    if edges == [] {
    } else {
      EnteringRemove(edges[..|edges| - 1], x, gone, n);
    }
  }
}
