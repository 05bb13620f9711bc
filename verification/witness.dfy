/** One definition carried through the compiler, a start and a transfer: the hypotheses of the other modules are met. */
module Witness {
  import opened Workflow
  import opened Graphs
  import opened Compiler
  import opened Transitions
  import opened Invariants
  import opened Stores
  import opened Engines
  import opened Approvals

  const BEGIN: NodeDefinition := NodeDefinition("b", Start, Absent)
  const SIGN: NodeDefinition := NodeDefinition("s", Registered("approval"), Absent)
  const FINISH: NodeDefinition := NodeDefinition("f", End, Absent)

  const SIGN_OFF: Definition :=
    Definition("d", 1, [BEGIN, SIGN, FINISH], [Edge("b", "s", EMPTY), Edge("s", "f", APPROVED)])

  lemma TwoEdges()
    ensures forall e :: e in SIGN_OFF.edges <==> e == Edge("b", "s", EMPTY) || e == Edge("s", "f", APPROVED)
  {
    assert SIGN_OFF.edges[0] in SIGN_OFF.edges && SIGN_OFF.edges[1] in SIGN_OFF.edges;
  }

  lemma DifferentIDs()
    ensures "b" != "s" && "s" != "f" && "b" != "f" && "b" != EMPTY && "s" != EMPTY && "f" != EMPTY && APPROVED != EMPTY
  {
    assert "b"[0] != "s"[0] && "s"[0] != "f"[0] && "b"[0] != "f"[0];
  }

  lemma NodesAreValid()
    ensures NodesValid(SIGN_OFF) && StartID(SIGN_OFF) == "b" && NodeIDs(SIGN_OFF) == {"b", "s", "f"}
    ensures IsEnd(SIGN_OFF, "f") && !IsEnd(SIGN_OFF, "b") && !IsEnd(SIGN_OFF, "s") && IsBusiness(SIGN_OFF, "s")
  {
    DifferentIDs();
    var nodes := SIGN_OFF.nodes;
    assert nodes[0] == BEGIN && nodes[1] == SIGN && nodes[2] == FINISH;
    forall i: nat, j: nat | i < j < |nodes| ensures OtherID(nodes, i, j) && !BothStart(nodes, i, j) {
      assert j == 1 || j == 2;
    }
    assert BEGIN in nodes && SIGN in nodes && FINISH in nodes;
    StartIDUnique(SIGN_OFF, BEGIN);
  }

  lemma EdgesAreValid()
    ensures EdgesValid(SIGN_OFF) && HasEdge(SIGN_OFF.edges, "b", "s") && HasEdge(SIGN_OFF.edges, "s", "f")
    ensures forall x, y :: HasEdge(SIGN_OFF.edges, x, y) ==> (x == "b" && y == "s") || (x == "s" && y == "f")
  {
    DifferentIDs();
    NodesAreValid();
    var edges := SIGN_OFF.edges;
    assert edges[0] in edges && edges[1] in edges;
    forall i: nat, j: nat | i < j < |edges| ensures OtherSelector(edges, i, j) {
      assert i == 0 && j == 1;
    }
    TwoEdges();
  }

  lemma EdgesClimb()
    ensures Acyclic(SIGN_OFF.edges)
  {
    DifferentIDs();
    EdgesAreValid();
    hide Acyclic, HasEdge, EdgesAllowed;
    var order := ["b", "s", "f"];
    assert Topological(SIGN_OFF.edges, order) by {
      assert order[..1] == ["b"] && order[..2] == ["b", "s"];
    }
    TwoEdges();
    assert order[0] in order && order[1] in order && order[2] in order;
    TopologicalAcyclic(SIGN_OFF.edges, order);
  }

  lemma GraphIsValid()
    ensures ValidGraph(SIGN_OFF)
  {
    DifferentIDs();
    NodesAreValid();
    EdgesAreValid();
    hide NodesValid, EdgesAllowed, IsEnd, HasEdge, Acyclic, UniqueIDs, OneStart;
    EdgesClimb();
    forall id | id in NodeIDs(SIGN_OFF) ensures HasPredecessor(SIGN_OFF, id) <==> id != StartID(SIGN_OFF) {
      assert id == "s" ==> HasEdge(SIGN_OFF.edges, "b", "s");
      assert id == "f" ==> HasEdge(SIGN_OFF.edges, "s", "f");
    }
    ReachableMeansOnlySource(SIGN_OFF);
    forall id | id in NodeIDs(SIGN_OFF) && !HasSuccessor(SIGN_OFF, id) ensures IsEnd(SIGN_OFF, id) {
      assert HasEdge(SIGN_OFF.edges, "b", "s") && HasEdge(SIGN_OFF.edges, "s", "f");
    }
    ReachEndMeansSinksEnd(SIGN_OFF);
  }

  function Signers(): NodeResult {
    NodeResult(Waiting, EMPTY, Absent, [Draft("al"), Draft("bo")])
  }

  /** A host that opens the round for both signers and authorizes whatever is asked. */
  function Office(ids: seq<TaskID>): Host {
    Host((_, _) => Prepared, _ => Success(Signers()), Failure(HandlerFailed), true, ids, k => k)
  }

  lemma Compiles(ids: seq<TaskID>)
    ensures Compilable(SIGN_OFF, Office(ids).prepare)
    ensures Route(SIGN_OFF, "b", EMPTY) == Some("s") && FindNode(SIGN_OFF, "s") == Some(SIGN)
  {
    DifferentIDs();
    NodesAreValid();
    EdgesAreValid();
    GraphIsValid();
    hide Acyclic, AllReachable, AllReachEnd, OneStart, IsEnd, IsBusiness, HasEdge, EdgeAllowed;
    var edges := SIGN_OFF.edges;
    assert edges[0] in edges && SIGN_OFF.nodes[1] == SIGN;
    TwoEdges();
    RouteUnique(SIGN_OFF, edges[0]);
    FindNodeUnique(SIGN_OFF, SIGN);
  }

  const REQUEST: StartRequest := StartRequest("i", "al", Absent)

  lemma SignersOpen(ids: seq<TaskID>)
    requires |ids| >= 2
    ensures ActivationAllowed("s", Signers())
    ensures ActivateTasks([], "s", Signers().tasks, ids)
            == Success([Bind(Draft("al"), "s", ids[0]), Bind(Draft("bo"), "s", ids[1])])
  {
    var drafts := Signers().tasks;
    assert "s" != EMPTY && "al" != EMPTY && "bo" != EMPTY;
    assert drafts[0] == Draft("al") && drafts[1] == Draft("bo");
    var tasks := ActivateTasks([], "s", drafts, ids).value;
    assert tasks == [Bind(drafts[0], "s", ids[0]), Bind(drafts[1], "s", ids[1])];
  }

  /** The definition starts, and waits with one open task for each signer. */
  lemma Starts(ids: seq<TaskID>)
    requires |ids| >= 2
    ensures var r := StartInstance(SIGN_OFF, REQUEST, Office(ids));
            && r.Success? && r.value.status.Running? && r.value.currentNodeID == "s" && r.value.version == 1
            && r.value.tasks == [Bind(Draft("al"), "s", ids[0]), Bind(Draft("bo"), "s", ids[1])]
  {
    Compiles(ids);
    hide Compilable, NodesValid, EdgesAllowed, IsEnd, IsBusiness, HasEdge, Below;
    DifferentIDs();
    var host := Office(ids);
    NodesAreValid();
    assert "i" != EMPTY && "al" != EMPTY;
    var s := StartSnapshot(SIGN_OFF, REQUEST, "b", host);
    SignersOpen(ids);
    hide ActivationAllowed;
    var tasks := ActivateTasks([], "s", Signers().tasks, ids).value;
    GraphIsValid();
    assert Advance(SIGN_OFF, s, EMPTY, host) == Success(EnterNode(s, "s", host).(tasks := tasks, nodeState := Absent));
  }

  lemma FreshIDs()
    ensures Fresh(["1", "2"], [])
  {
    assert "1"[0] != "2"[0];
  }

  lemma Stored(db: Database, s: Snapshot, request: Request, host: Host)
    requires Boundary(request).Success? && InstanceOf(request) in db && db[InstanceOf(request)] == s
    requires Execute(s, request, host).Success? && Execute(s, request, host).value.id == InstanceOf(request) == s.id
    requires s.audit <= Execute(s, request, host).value.audit
    ensures var next := Execute(s, request, host).value;
            RunCommand(db, request, host) == (Success(next), db[next.id := next])
  {
    hide Execute;
  }

  lemma TransferStays(s: Snapshot, request: Request, host: Host)
    requires request.Transfer? && Execute(s, request, host).Success?
    ensures var r := Execute(s, request, host).value; r.id == s.id && s.audit <= r.audit
  {
  }

  const LEAVE: Request := Transfer("i", "1", "al", "bo", "leave")

  lemma LeaveIsValid()
    ensures Boundary(LEAVE).Success? && "al" != "bo"
  {
    assert "al"[0] != "bo"[0];
    assert "i" != EMPTY && "1" != EMPTY && "al" != EMPTY && "bo" != EMPTY;
    assert "leave"[0] == 'l' && !IsSpace('l');
  }

  lemma SharedAfter(s: Snapshot)
    requires Sound(s) && s.status.Running? && s.version == 1 && s.id == "i"
    requires s.tasks == [Bind(Draft("al"), "s", "1"), Bind(Draft("bo"), "s", "2")]
    ensures var (moved, after) := RunCommand(map["i" := s], LEAVE, Office(["3"]));
            moved.Success? && "i" in after && after["i"] == moved.value
            && !OwnersDistinct(moved.value.tasks, moved.value.currentNodeID)
  {
    hide Sound, Execute, OwnersDistinct, Boundary;
    LeaveIsValid();
    var host := Office(["3"]);
    assert Doubling(s, 0, 1, "al", "leave");
    TransferSharesOwner(s, 0, 1, "al", "leave", host);
    TransferStays(s, LEAVE, host);
    Stored(map["i" := s], s, LEAVE, host);
  }

  /** From an empty store, a start and one authorized transfer leave an actor with two open tasks of the round. */
  lemma OwnerShared()
    ensures var (started, db) := RunStart(map[], SIGN_OFF, REQUEST, Office(["1", "2"]));
            && started.Success? && Sound(started.value) && db == map["i" := started.value]
            && var (moved, after) := RunCommand(db, LEAVE, Office(["3"]));
               moved.Success? && "i" in after && after["i"] == moved.value
               && !OwnersDistinct(moved.value.tasks, moved.value.currentNodeID)
  {
    hide StartInstance, Sound, RunCommand, Fresh, OwnersDistinct;
    var host := Office(["1", "2"]);
    FreshIDs();
    Starts(["1", "2"]);
    StartSound(SIGN_OFF, REQUEST, host);
    var s := StartInstance(SIGN_OFF, REQUEST, host).value;
    assert RunStart(map[], SIGN_OFF, REQUEST, host) == (Success(s), map["i" := s]);
    SharedAfter(s);
  }
}
