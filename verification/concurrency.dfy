/** Any number of clients running commands against one store, interleaved between Load and Save. */
module Concurrency {
  import opened Workflow
  import opened Stores
  import opened Engines
  import opened Invariants
  import T = Transitions

  /** What one client holds between its load and its save. */
  datatype Client =
    | Loaded(request: Request, host: Host, snapshot: Snapshot)
    | Ready(request: Request, host: Host, snapshot: Snapshot, candidate: Snapshot)

  /** A write the store accepted, with everything needed to run it again on its own. */
  datatype Commit =
    | Started(definition: Definition, start: StartRequest, host: Host)
    | Applied(request: Request, host: Host)

  datatype System = System(db: Database, clients: map<nat, Client>, log: seq<Commit>)

  /** One atomic step of the environment: store calls are atomic, everything between them is private. */
  datatype Event =
    | Launch(definition: Definition, start: StartRequest, host: Host)
    | LoadStep(client: nat, request: Request, host: Host)
    | ComputeStep(client: nat)
    | SaveStep(client: nat)
    | Abandon(client: nat)

  ghost function Step(sys: System, event: Event): System {
    match event
    case Launch(d, start, host) =>
      var (r, db) := RunStart(sys.db, d, start, host);
      if r.Success? && Fresh(host.ids, []) then sys.(db := db, log := sys.log + [Started(d, start, host)]) else sys
    case LoadStep(c, request, host) =>
      var loaded := LoadFrom(sys.db, T.InstanceOf(request));
      if c !in sys.clients && T.Boundary(request).Success? && loaded.Success? && Fresh(host.ids, loaded.value.tasks)
      then sys.(clients := sys.clients[c := Loaded(request, host, loaded.value)]) else sys
    case ComputeStep(c) =>
      if c !in sys.clients || !sys.clients[c].Loaded? then sys else
      var client := sys.clients[c];
      var next := T.Execute(client.snapshot, client.request, client.host);
      if next.Failure? then sys.(clients := sys.clients - {c}) else
      sys.(clients := sys.clients[c := Ready(client.request, client.host, client.snapshot, next.value)])
    case SaveStep(c) =>
      if c !in sys.clients || !sys.clients[c].Ready? then sys else
      var client := sys.clients[c];
      var saved := SaveIn(sys.db, client.candidate, client.snapshot.version);
      if saved.Failure? then sys.(clients := sys.clients - {c}) else
      System(saved.value, sys.clients - {c}, sys.log + [Applied(client.request, client.host)])
    case Abandon(c) =>
      sys.(clients := sys.clients - {c})
  }

  /** Every reachable state: an empty store, then any sequence of steps. */
  ghost function Run(events: seq<Event>): System {
    if events == [] then System(map[], map[], [])
    else Step(Run(events[..|events| - 1]), events[|events| - 1])
  }

  /* The serial reference: the accepted writes, one after the other, with nothing in between */

  ghost function Replayed(db: Database, commit: Commit): (Result<Snapshot>, Database) {
    match commit
    case Started(d, start, host) => RunStart(db, d, start, host)
    case Applied(request, host) => RunCommand(db, request, host)
  }

  ghost function Serial(log: seq<Commit>): Database {
    if log == [] then map[] else Replayed(Serial(log[..|log| - 1]), log[|log| - 1]).1
  }

  function Target(commit: Commit): InstanceID {
    if commit.Started? then commit.start.id else T.InstanceOf(commit.request)
  }

  /** The commit succeeds on the database, with identities the generator had not used there. */
  ghost predicate Accepted(db: Database, commit: Commit) {
    && Replayed(db, commit).0.Success?
    && match commit
       case Started(_, _, host) => Fresh(host.ids, [])
       case Applied(request, host) => T.InstanceOf(request) in db && Fresh(host.ids, db[T.InstanceOf(request)].tasks)
  }

  ghost predicate AllAccepted(log: seq<Commit>) {
    log == [] || (AllAccepted(log[..|log| - 1]) && Accepted(Serial(log[..|log| - 1]), log[|log| - 1]))
  }

  ghost predicate AllSound(db: Database) {
    forall id :: id in db ==> db[id].id == id && id != EMPTY && Sound(db[id])
  }

  /** How many accepted writes concern the instance. */
  function Writes(log: seq<Commit>, id: InstanceID): nat {
    if log == [] then 0
    else Writes(log[..|log| - 1], id) + (if Target(log[|log| - 1]) == id then 1 else 0)
  }

  lemma ExecuteKeepsID(s: Snapshot, request: Request, host: Host)
    requires Sound(s) && Fresh(host.ids, s.tasks) && T.Execute(s, request, host).Success?
    ensures T.Execute(s, request, host).value.id == s.id
  {
    ExecuteSound(s, request, host);
  }

  /** One accepted write changes its own instance only: it creates version one, or moves a sound one to its next
      version. */
  lemma AcceptedWrite(db: Database, commit: Commit)
    requires AllSound(db) && Accepted(db, commit)
    ensures var after := Replayed(db, commit).1; var id := Target(commit);
            && AllSound(after)
            && after.Keys == db.Keys + {id}
            && (forall other :: other in db && other != id ==> after[other] == db[other])
            && (commit.Started? ==> id !in db && after[id].version == 1)
            && (commit.Applied? ==> id in db && after[id].version == db[id].version + 1 && Evolves(db[id], after[id]))
  {
    hide Sound, Fresh, Evolves, T.StartInstance, T.Execute;
    match commit
    case Started(d, start, host) =>
      StartSound(d, start, host);
    case Applied(request, host) =>
      ExecuteSound(db[T.InstanceOf(request)], request, host);
      ExecuteKeepsID(db[T.InstanceOf(request)], request, host);
  }

  lemma {:induction false} SerialSound(log: seq<Commit>)
    requires AllAccepted(log)
    ensures AllSound(Serial(log))
  {
    if log == [] {
    } else {
      SerialSound(log[..|log| - 1]);
      AcceptedWrite(Serial(log[..|log| - 1]), log[|log| - 1]);
    }
  }

  /** Versions run 1, 2, 3, ... with one step per accepted write. */
  lemma {:induction false} VersionsCount(log: seq<Commit>, id: InstanceID)
    requires AllAccepted(log)
    ensures id in Serial(log) <==> Writes(log, id) > 0
    ensures id in Serial(log) ==> Serial(log)[id].version == Writes(log, id)
  {
    hide Sound, Accepted, Replayed, Evolves;
    if log == [] {
    } else {
      var init := log[..|log| - 1];
      VersionsCount(init, id);
      SerialSound(init);
      AcceptedWrite(Serial(init), log[|log| - 1]);
    }
  }

  lemma {:induction false} PrefixAccepted(log: seq<Commit>, k: nat)
    requires AllAccepted(log) && k <= |log|
    ensures AllAccepted(log[..k])
  {
    hide Accepted, Serial;
    if k == |log| {
      assert log[..k] == log;
    } else {
      var init := log[..|log| - 1];
      PrefixAccepted(init, k);
      assert init[..k] == log[..k];
    }
  }

  /** Whatever the run, an instance once stored stays stored and evolves; a version identifies one snapshot, so none
      recurs. */
  lemma {:induction false} HistoryEvolves(log: seq<Commit>, k: nat, id: InstanceID)
    requires AllAccepted(log) && k <= |log| && id in Serial(log[..k])
    ensures id in Serial(log)
    ensures Evolves(Serial(log[..k])[id], Serial(log)[id])
    ensures Serial(log[..k])[id].version <= Serial(log)[id].version
    ensures Serial(log[..k])[id].version == Serial(log)[id].version ==> Serial(log[..k])[id] == Serial(log)[id]
    decreases |log|
  {
    hide Sound, Accepted, Replayed;
    if k == |log| {
      assert log[..k] == log;
    } else {
      hide Evolves;
      var init := log[..|log| - 1];
      assert init[..k] == log[..k];
      HistoryEvolves(init, k, id);
      SerialSound(init);
      AcceptedWrite(Serial(init), log[|log| - 1]);
      if Target(log[|log| - 1]) == id {
        EvolvesTransitive(Serial(log[..k])[id], Serial(init)[id], Serial(log)[id]);
      }
    }
  }

  /* The interleaved system */

  /** What a client holds was stored at some point of the log. */
  ghost predicate SeenAt(log: seq<Commit>, client: Client, k: nat) {
    && k <= |log|
    && T.InstanceOf(client.request) in Serial(log[..k])
    && Serial(log[..k])[T.InstanceOf(client.request)] == client.snapshot
  }

  ghost predicate Seen(log: seq<Commit>, client: Client) { exists k: nat :: SeenAt(log, client, k) }

  ghost predicate ClientSound(log: seq<Commit>, client: Client) {
    && T.Boundary(client.request).Success?
    && Fresh(client.host.ids, client.snapshot.tasks)
    && Seen(log, client)
    && (client.Ready? ==> T.Execute(client.snapshot, client.request, client.host) == Success(client.candidate))
  }

  ghost predicate Consistent(sys: System) {
    && AllAccepted(sys.log)
    && sys.db == Serial(sys.log)
    && forall c :: c in sys.clients ==> ClientSound(sys.log, sys.clients[c])
  }

  lemma SeenLater(log: seq<Commit>, commit: Commit, client: Client)
    requires Seen(log, client)
    ensures Seen(log + [commit], client)
  {
    hide Serial;
    var k: nat :| SeenAt(log, client, k);
    assert (log + [commit])[..k] == log[..k];
    assert SeenAt(log + [commit], client, k);
  }

  lemma LogGrows(log: seq<Commit>, commit: Commit)
    requires AllAccepted(log) && Accepted(Serial(log), commit)
    ensures AllAccepted(log + [commit]) && Serial(log + [commit]) == Replayed(Serial(log), commit).1
  {
    hide Accepted, Replayed;
    assert (log + [commit])[..|log|] == log;
  }

  /** A save that succeeds finds exactly the snapshot its client loaded. */
  lemma SaveFindsLoaded(sys: System, c: nat)
    requires Consistent(sys) && c in sys.clients && sys.clients[c].Ready?
    requires SaveIn(sys.db, sys.clients[c].candidate, sys.clients[c].snapshot.version).Success?
    ensures var id := T.InstanceOf(sys.clients[c].request); id in sys.db && sys.db[id] == sys.clients[c].snapshot
    ensures sys.clients[c].candidate.id == T.InstanceOf(sys.clients[c].request)
  {
    hide Evolves, Sound, Accepted, Replayed, T.Execute;
    var client := sys.clients[c];
    var id := T.InstanceOf(client.request);
    assert ClientSound(sys.log, client);
    var k: nat :| SeenAt(sys.log, client, k);
    PrefixAccepted(sys.log, k);
    SerialSound(sys.log[..k]);
    ExecuteKeepsID(client.snapshot, client.request, client.host);
    HistoryEvolves(sys.log, k, id);
  }

  lemma SaveConsistent(sys: System, c: nat)
    requires Consistent(sys)
    ensures Consistent(Step(sys, SaveStep(c)))
  {
    hide Evolves, Sound, Fresh, Seen, T.Execute;
    if c in sys.clients && sys.clients[c].Ready? {
      var client := sys.clients[c];
      assert ClientSound(sys.log, client);
      if SaveIn(sys.db, client.candidate, client.snapshot.version).Success? {
        SaveFindsLoaded(sys, c);
        var commit := Applied(client.request, client.host);
        LogGrows(sys.log, commit);
        forall other | other in sys.clients ensures ClientSound(sys.log + [commit], sys.clients[other]) {
          assert ClientSound(sys.log, sys.clients[other]);
          SeenLater(sys.log, commit, sys.clients[other]);
        }
      }
    }
  }

  lemma LaunchConsistent(sys: System, d: Definition, start: StartRequest, host: Host)
    requires Consistent(sys)
    ensures Consistent(Step(sys, Launch(d, start, host)))
  {
    hide Evolves, Sound, Fresh, Seen, T.Execute, T.StartInstance;
    var (r, db) := RunStart(sys.db, d, start, host);
    if r.Success? && Fresh(host.ids, []) {
      var commit := Started(d, start, host);
      LogGrows(sys.log, commit);
      forall other | other in sys.clients ensures ClientSound(sys.log + [commit], sys.clients[other]) {
        assert ClientSound(sys.log, sys.clients[other]);
        SeenLater(sys.log, commit, sys.clients[other]);
      }
    }
  }

  lemma StepConsistent(sys: System, event: Event)
    requires Consistent(sys)
    ensures Consistent(Step(sys, event))
  {
    hide Evolves, Sound, Fresh, T.Execute, T.StartInstance, Accepted;
    match event
    case Launch(d, start, host) => LaunchConsistent(sys, d, start, host);
    case SaveStep(c) => SaveConsistent(sys, c);
    case LoadStep(c, request, host) =>
      assert sys.log[..|sys.log|] == sys.log;
      if LoadFrom(sys.db, T.InstanceOf(request)).Success? {
        assert SeenAt(sys.log, Loaded(request, host, sys.db[T.InstanceOf(request)]), |sys.log|);
      }
    case ComputeStep(c) =>
      if c in sys.clients && sys.clients[c].Loaded? {
        var client := sys.clients[c];
        assert ClientSound(sys.log, client);
        var k: nat :| SeenAt(sys.log, client, k);
        var next := T.Execute(client.snapshot, client.request, client.host);
        if next.Success? {
          assert SeenAt(sys.log, Ready(client.request, client.host, client.snapshot, next.value), k);
        }
      }
    case Abandon(c) =>
  }

  /** Serializability: in every interleaving, the store holds exactly what running the accepted writes alone, in commit
      order, would have stored; every one of them succeeds there; and every stored instance is sound. */
  lemma {:induction false} Serializable(events: seq<Event>)
    ensures var sys := Run(events);
            && Consistent(sys)
            && sys.db == Serial(sys.log)
            && AllAccepted(sys.log)
            && AllSound(sys.db)
  {
    hide Step;
    if events != [] {
      Serializable(events[..|events| - 1]);
      StepConsistent(Run(events[..|events| - 1]), events[|events| - 1]);
    } else {
      assert Consistent(System(map[], map[], []));
    }
    SerialSound(Run(events).log);
  }

  /** What a client is about to write is the next version of the instance it asked for. */
  lemma CandidateIsNext(sys: System, c: nat)
    requires Consistent(sys) && c in sys.clients && sys.clients[c].Ready?
    ensures sys.clients[c].candidate.id == T.InstanceOf(sys.clients[c].request)
    ensures sys.clients[c].candidate.version == sys.clients[c].snapshot.version + 1
  {
    hide Evolves, Sound, Fresh, Accepted, Replayed, T.Execute;
    var client := sys.clients[c];
    assert ClientSound(sys.log, client);
    var k: nat :| SeenAt(sys.log, client, k);
    PrefixAccepted(sys.log, k);
    SerialSound(sys.log[..k]);
    ExecuteSound(client.snapshot, client.request, client.host);
    ExecuteKeepsID(client.snapshot, client.request, client.host);
  }

  /** Of two clients that loaded the same version, the second to save meets a conflict and changes nothing. */
  lemma OneWinner(sys: System, winner: nat, loser: nat)
    requires Consistent(sys) && winner != loser && winner in sys.clients && loser in sys.clients
    requires sys.clients[winner].Ready? && sys.clients[loser].Ready?
    requires T.InstanceOf(sys.clients[winner].request) == T.InstanceOf(sys.clients[loser].request)
    requires sys.clients[winner].snapshot.version == sys.clients[loser].snapshot.version
    requires SaveIn(sys.db, sys.clients[winner].candidate, sys.clients[winner].snapshot.version).Success?
    ensures var won := Step(sys, SaveStep(winner));
            var late := sys.clients[loser];
            && SaveIn(won.db, late.candidate, late.snapshot.version) == Failure(VersionConflict)
            && Step(won, SaveStep(loser)) == won.(clients := won.clients - {loser})
  {
    hide Consistent;
    CandidateIsNext(sys, winner);
    CandidateIsNext(sys, loser);
  }

  /** A client nobody interleaves with does exactly what one command does, and leaves nothing behind. */
  lemma Undisturbed(sys: System, c: nat, request: Request, host: Host)
    requires c !in sys.clients
    requires LoadFrom(sys.db, T.InstanceOf(request)).Success? ==>
               Fresh(host.ids, LoadFrom(sys.db, T.InstanceOf(request)).value.tasks)
    ensures var done := Step(Step(Step(sys, LoadStep(c, request, host)), ComputeStep(c)), SaveStep(c));
            var (r, db) := RunCommand(sys.db, request, host);
            && done.db == db
            && done.clients == sys.clients
            && done.log == sys.log + (if r.Success? then [Applied(request, host)] else [])
  {
    hide Fresh, T.Execute;
    var loaded := Step(sys, LoadStep(c, request, host));
    assert loaded.clients - {c} == sys.clients;
  }
}
