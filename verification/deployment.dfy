/** Whole runs on any of the stores: what interleaved clients leave there, what rounds they carry, what queries show. */
module Deployment {
  import opened Workflow
  import opened Stores
  import opened Invariants
  import opened Concurrency
  import opened Refinement
  import opened Accounting
  import opened Approvals
  import opened Projections
  import opened Paging
  import T = Transitions
  import P = Postgres
  import Q = Queries
  import L = CommandLaws

  /* Steps on a store */

  /** One atomic step of the environment when every store call goes through the adapter. */
  ghost function StepOn(a: Adapter, sys: System, event: Event): System {
    match event
    case Launch(d, start, host) =>
      var started := T.StartInstance(d, start, host);
      if started.Failure? then sys else
      var created := CreateOn(a, sys.db, started.value);
      if created.Success? && Fresh(host.ids, [])
      then sys.(db := created.value, log := sys.log + [Started(d, start, host)]) else sys
    case LoadStep(c, request, host) =>
      if LoadOn(a, sys.db, T.InstanceOf(request)).Success? then Step(sys, event) else sys
    case SaveStep(c) =>
      if c !in sys.clients || !sys.clients[c].Ready? then sys else
      var client := sys.clients[c];
      var saved := SaveOn(a, sys.db, client.candidate, client.snapshot.version);
      if saved.Failure? then sys.(clients := sys.clients - {c}) else
      System(saved.value, sys.clients - {c}, sys.log + [Applied(client.request, client.host)])
    case ComputeStep(_) => Step(sys, event)
    case Abandon(_) => Step(sys, event)
  }

  ghost function RunOn(a: Adapter, events: seq<Event>): System {
    if events == [] then System(map[], map[], [])
    else StepOn(a, RunOn(a, events[..|events| - 1]), events[|events| - 1])
  }

  /** A write that succeeds on an adapter is one the shared contract accepts, with the same result, within its
      limits. */
  lemma SuccessIsShared(a: Adapter, db: Database, s: Snapshot, expectedVersion: nat)
    ensures SaveOn(a, db, s, expectedVersion).Success? ==>
              SaveOn(a, db, s, expectedVersion) == SaveIn(db, s, expectedVersion) && WithinLimits(a, s)
    ensures CreateOn(a, db, s).Success? ==> CreateOn(a, db, s) == CreateIn(db, s) && WithinLimits(a, s)
  {
  }

  /** On an adapter a step does what it does on the shared contract, or it is refused: then nothing is stored, and at
      most its client gives up. */
  lemma StepOnIsStep(a: Adapter, sys: System, event: Event)
    ensures || StepOn(a, sys, event) == Step(sys, event)
            || StepOn(a, sys, event) == sys
            || (event.SaveStep? && StepOn(a, sys, event) == Step(sys, Abandon(event.client)))
  {
    hide T.StartInstance, T.Execute, Fresh, CreateOn, SaveOn, WithinLimits;
    match event
    case Launch(d, start, host) =>
      if T.StartInstance(d, start, host).Success? {
        SuccessIsShared(a, sys.db, T.StartInstance(d, start, host).value, 0);
      }
    case SaveStep(c) =>
      if c in sys.clients && sys.clients[c].Ready? {
        SuccessIsShared(a, sys.db, sys.clients[c].candidate, sys.clients[c].snapshot.version);
      }
    case LoadStep(_, _, _) =>
    case ComputeStep(_) =>
    case Abandon(_) =>
  }

  /** Serializability on every store: the adapter holds exactly what running the accepted writes alone, in commit order,
      would have stored; every one of them succeeds there; every stored instance is sound and accounted for. */
  lemma {:induction false} SerializableOn(a: Adapter, events: seq<Event>)
    ensures var sys := RunOn(a, events);
            Consistent(sys) && AllSound(sys.db) && Accounted(sys.db)
  {
    hide Step, StepOn, AllAccepted, Serial, ClientSound, Accounted, AllSound;
    if events == [] {
      NothingRuns();
    } else {
      var before := RunOn(a, events[..|events| - 1]);
      var event := events[|events| - 1];
      SerializableOn(a, events[..|events| - 1]);
      StepOnIsStep(a, before, event);
      StepConsistent(before, event);
      if event.SaveStep? {
        StepConsistent(before, Abandon(event.client));
      }
    }
    SerialSound(RunOn(a, events).log);
    SerialAccounted(RunOn(a, events).log);
  }

  /** On every store, in every interleaving: whatever was stored, the owner of a task, an authorized actor or an
      initiator asked for it, and it is what was asked and answered. */
  lemma AsAskedOn(a: Adapter, events: seq<Event>, k: nat)
    requires k < |RunOn(a, events).log|
    ensures L.Entitled(RunOn(a, events).log, k) && L.AsAsked(RunOn(a, events).log, k)
  {
    hide RunOn, L.Entitled, L.AsAsked, AllAccepted;
    SerializableOn(a, events);
    L.EveryCommitWasEntitled(RunOn(a, events).log, k);
    L.EveryCommitIsAsAsked(RunOn(a, events).log, k);
  }

  lemma NothingRuns()
    ensures Consistent(System(map[], map[], []))
  {
  }

  /* What PostgreSQL has checked of everything it holds */

  ghost predicate AllWithin(server: P.Server, db: Database) {
    P.AllPageable(db, server.codec) && P.AllHeld(db, server)
  }

  lemma StepWithin(server: P.Server, sys: System, event: Event)
    requires AllWithin(server, sys.db)
    ensures AllWithin(server, StepOn(OnPostgres(server), sys, event).db)
  {
    hide T.StartInstance, T.Execute, Fresh, Pageable, P.Held, CreateOn, SaveOn;
    var a := OnPostgres(server);
    match event
    case Launch(d, start, host) =>
      if T.StartInstance(d, start, host).Success? {
        SuccessIsShared(a, sys.db, T.StartInstance(d, start, host).value, 0);
      }
    case SaveStep(c) =>
      if c in sys.clients && sys.clients[c].Ready? {
        SuccessIsShared(a, sys.db, sys.clients[c].candidate, sys.clients[c].snapshot.version);
      }
    case LoadStep(_, _, _) =>
    case ComputeStep(_) =>
    case Abandon(_) =>
  }

  lemma {:induction false} RunWithin(server: P.Server, events: seq<Event>)
    ensures AllWithin(server, RunOn(OnPostgres(server), events).db)
  {
    hide StepOn;
    if events == [] {
    } else {
      RunWithin(server, events[..|events| - 1]);
      StepWithin(server, RunOn(OnPostgres(server), events[..|events| - 1]), events[|events| - 1]);
    }
  }

  /** The read model of any run serves pages: it is the projection of aggregates that all passed the checks. */
  lemma RunIsServed(server: P.Server, events: seq<Event>, views: Views)
    requires Projected(views, RunOn(OnPostgres(server), events).db, server.rounded)
    ensures Q.Served(views, RunOn(OnPostgres(server), events).db, server)
  {
    hide RunOn;
    RunWithin(server, events);
  }

  /** After any run on PostgreSQL the worklist rows are exactly the actor's open tasks. */
  lemma WorklistOfRun(server: P.Server, events: seq<Event>, views: Views, actorID: ActorID, scope: Q.Scope,
                      key: TaskKey)
    requires Projected(views, RunOn(OnPostgres(server), events).db, server.rounded) && actorID != EMPTY
    ensures key in Q.MatchingTasks(views, Q.Worklist, actorID, scope) <==>
              Q.OpenWork(RunOn(OnPostgres(server), events).db, actorID, scope, key, server.rounded)
  {
    hide RunOn;
    SerializableOn(OnPostgres(server), events);
    Q.WorklistIsOpenWork(views, RunOn(OnPostgres(server), events).db, actorID, scope, key, server.rounded);
  }

  /** ... and the participation rows exactly the actor's decided tasks. */
  lemma ParticipationOfRun(server: P.Server, events: seq<Event>, views: Views, actorID: ActorID, scope: Q.Scope,
                           key: TaskKey)
    requires Projected(views, RunOn(OnPostgres(server), events).db, server.rounded) && actorID != EMPTY
    ensures key in Q.MatchingTasks(views, Q.Participated, actorID, scope) <==>
              Q.DecidedWork(RunOn(OnPostgres(server), events).db, actorID, scope, key, server.rounded)
  {
    hide RunOn;
    SerializableOn(OnPostgres(server), events);
    Q.ParticipatedIsDecidedWork(views, RunOn(OnPostgres(server), events).db, actorID, scope, key, server.rounded);
  }

  /** After any run, following worklist tokens to the last page shows the actor's open tasks: each once, in order, and
      nothing else. */
  lemma WholeWorklistOfRun(server: P.Server, events: seq<Event>, views: Views, less: Q.Collation, actorID: ActorID,
                           scope: Q.Scope, limits: seq<int>, pages: seq<Q.TokenPage<Q.TaskItem>>)
    returns (keys: seq<TaskKey>)
    requires StrictTotal(less) && actorID != EMPTY
    requires Projected(views, RunOn(OnPostgres(server), events).db, server.rounded)
    requires Q.TaskChain(views, less, server.codec, Q.Worklist, actorID, scope, "", limits, pages)
    requires pages[|pages| - 1].next == ""
    ensures Q.NewestFirst(keys, less)
    ensures Q.ShowsAllWork(RunOn(OnPostgres(server), events).db, server.rounded, actorID, Q.Candidate, keys,
                           Q.AllItems(pages))
    ensures forall key :: key in keys <==>
              Q.OpenWork(RunOn(OnPostgres(server), events).db, actorID, scope, key, server.rounded)
  {
    hide RunOn;
    SerializableOn(OnPostgres(server), events);
    keys := Q.WholeWorklist(views, RunOn(OnPostgres(server), events).db, less, server.codec, actorID, scope, limits,
                            pages,
                            server.rounded);
  }

  lemma WholeParticipationOfRun(server: P.Server, events: seq<Event>, views: Views, less: Q.Collation, actorID: ActorID,
                                scope: Q.Scope, limits: seq<int>, pages: seq<Q.TokenPage<Q.TaskItem>>)
    returns (keys: seq<TaskKey>)
    requires StrictTotal(less) && actorID != EMPTY
    requires Projected(views, RunOn(OnPostgres(server), events).db, server.rounded)
    requires Q.TaskChain(views, less, server.codec, Q.Participated, actorID, scope, "", limits, pages)
    requires pages[|pages| - 1].next == ""
    ensures Q.NewestFirst(keys, less)
    ensures Q.ShowsAllWork(RunOn(OnPostgres(server), events).db, server.rounded, actorID, Q.Participant, keys,
                           Q.AllItems(pages))
    ensures forall key :: key in keys <==>
              Q.DecidedWork(RunOn(OnPostgres(server), events).db, actorID, scope, key, server.rounded)
  {
    hide RunOn;
    SerializableOn(OnPostgres(server), events);
    keys := Q.WholeParticipation(views, RunOn(OnPostgres(server), events).db, less, server.codec, actorID, scope,
                                 limits,
                                 pages, server.rounded);
  }

  /* Rounds of one instance among the commits of all */

  /** The round that is current for an instance after a log. */
  ghost function RoundOf(log: seq<Commit>, id: InstanceID): Round {
    if log == [] then Round(0, 0) else
    var init := log[..|log| - 1];
    var commit := log[|log| - 1];
    if Target(commit) != id || id !in Serial(log) then RoundOf(init, id)
    else if commit.Started? then Round(0, DraftCount(Serial(log)[id], commit.host))
    else if id !in Serial(init) then RoundOf(init, id)
    else NextRound(RoundOf(init, id), Serial(init)[id], Serial(log)[id], commit.host)
  }

  /** At approval nodes the instance's commands were answered by the approval handler. */
  ghost predicate ApprovedBy(configs: Configs, log: seq<Commit>, id: InstanceID) {
    log == []
    || (&& ApprovedBy(configs, log[..|log| - 1], id)
        && var init := Serial(log[..|log| - 1]);
           var commit := log[|log| - 1];
           (Target(commit) == id && commit.Applied? && id in init ==>
              AnsweredByApproval(init[id], commit.request, commit.host, configs)))
  }

  lemma CommitKeepsRound(configs: Configs, db: Database, commit: Commit, round: Round)
    requires AllSound(db) && Accepted(db, commit)
    requires commit.Applied? ==>
               && AnsweredByApproval(db[Target(commit)], commit.request, commit.host, configs)
               && RoundKept(db[Target(commit)], configs, round)
    ensures Target(commit) in Replayed(db, commit).1
    ensures var r := Replayed(db, commit).1[Target(commit)];
            RoundKept(r, configs, if commit.Started? then Round(0, DraftCount(r, commit.host))
                                  else NextRound(round, db[Target(commit)], r, commit.host))
  {
    hide Sound, Fresh, T.StartInstance, T.Execute, RoundKept, AnsweredByApproval;
    match commit
    case Started(d, start, host) =>
      StartSound(d, start, host);
      StartOpens(configs, d, start, host);
    case Applied(request, host) =>
      ExecuteKeepsID(db[T.InstanceOf(request)], request, host);
      TurnKeepsRound(configs, db[T.InstanceOf(request)], request, host, round);
  }

  /** In every log of accepted writes, whatever other instances do in between, each instance's round is conserved. */
  lemma {:induction false} RoundsInLog(configs: Configs, log: seq<Commit>, id: InstanceID)
    requires AllAccepted(log) && id in Serial(log) && ApprovedBy(configs, log, id)
    ensures RoundKept(Serial(log)[id], configs, RoundOf(log, id))
  {
    hide Accepted, Replayed, RoundKept, AnsweredByApproval, AllSound, NextRound;
    if log == [] {
    } else {
      var init := log[..|log| - 1];
      var commit := log[|log| - 1];
      SerialSound(init);
      AcceptedWrite(Serial(init), commit);
      if id in Serial(init) {
        RoundsInLog(configs, init, id);
      }
      if Target(commit) == id {
        CommitKeepsRound(configs, Serial(init), commit, RoundOf(init, id));
      }
    }
  }

  /** On every store, in every interleaving: at an approval node each actor of the instance's round is still represented
      by an open task or has approved. */
  lemma RoundsOfRun(a: Adapter, events: seq<Event>, configs: Configs, id: InstanceID)
    requires id in RunOn(a, events).db && ApprovedBy(configs, RunOn(a, events).log, id)
    ensures Sound(RunOn(a, events).db[id])
              && RoundKept(RunOn(a, events).db[id], configs, RoundOf(RunOn(a, events).log, id))
  {
    hide RunOn, ApprovedBy, RoundKept, RoundOf, Sound, ClientSound, AllAccepted, Serial;
    SerializableOn(a, events);
    RoundsInLog(configs, RunOn(a, events).log, id);
  }

  lemma {:induction false} ApprovedBefore(configs: Configs, log: seq<Commit>, k: nat, id: InstanceID)
    requires k < |log| && ApprovedBy(configs, log, id)
    ensures ApprovedBy(configs, log[..k], id) && ApprovedBy(configs, log[..k + 1], id)
  {
    hide AnsweredByApproval, Serial, ApprovedBy;
    var init := log[..|log| - 1];
    if k < |init| {
      ApprovedFirst(configs, log, id);
      ApprovedBefore(configs, init, k, id);
      assert init[..k] == log[..k] && init[..k + 1] == log[..k + 1];
    } else {
      ApprovedFirst(configs, log, id);
      assert log[..k + 1] == log;
    }
  }

  lemma ApprovedFirst(configs: Configs, log: seq<Commit>, id: InstanceID)
    requires log != [] && ApprovedBy(configs, log, id)
    ensures ApprovedBy(configs, log[..|log| - 1], id)
    ensures var init := Serial(log[..|log| - 1]);
            var commit := log[|log| - 1];
            Target(commit) == id && commit.Applied? && id in init ==>
              AnsweredByApproval(init[id], commit.request, commit.host, configs)
  {
    hide AnsweredByApproval, Serial;
  }

  /** A committed decision at an approval node settles what it means for the round of its instance. */
  ghost predicate SettledAt(configs: Configs, log: seq<Commit>, k: nat)
    requires k < |log| && log[k].Applied? && log[k].request.Handle?
  {
    var id := T.InstanceOf(log[k].request);
    id in Serial(log[..k]) && id in Serial(log[..k + 1]) &&
    var s, r := Serial(log[..k])[id], Serial(log[..k + 1])[id];
    configs(s.currentNodeID).Some? ==>
      Settles(configs(s.currentNodeID).value, s, log[k].request.command, r, RoundOf(log[..k], id))
  }

  /** Every decision in a log of accepted writes settles what it means for its round and goes where its verdict
      leads. */
  lemma DecisionsInLog(configs: Configs, log: seq<Commit>, k: nat)
    requires AllAccepted(log) && k < |log| && log[k].Applied? && log[k].request.Handle?
    requires ApprovedBy(configs, log, T.InstanceOf(log[k].request))
    ensures SettledAt(configs, log, k)
  {
    hide AllAccepted, Serial, ApprovedBy, AnsweredByApproval, T.Execute, Settles, RoundKept, RoundOf, Sound, Fresh;
    hide L.WellFormed;
    var id := T.InstanceOf(log[k].request);
    L.CommitRan(log, k);
    PrefixAccepted(log, k);
    ApprovedBefore(configs, log, k, id);
    RoundsInLog(configs, log[..k], id);
    assert log[..k + 1][..k] == log[..k] && log[..k + 1][k] == log[k];
    ApprovedFirst(configs, log[..k + 1], id);
    var s := Serial(log[..k])[id];
    if configs(s.currentNodeID).Some? {
      RunningNow(s, log[k].request, log[k].host);
      RoundDecides(configs, s, log[k].request.command, log[k].host, RoundOf(log[..k], id));
    }
  }

  lemma RunningNow(s: Snapshot, request: Request, host: Host)
    requires T.Execute(s, request, host).Success?
    ensures s.status.Running?
  {
  }

  /** On every store, in every interleaving: an approving decision that leaves its node under countersign has every
      approval of its round, and each verdict leads along its own edge. */
  lemma DecisionsOfRun(a: Adapter, events: seq<Event>, configs: Configs, k: nat)
    requires k < |RunOn(a, events).log| && RunOn(a, events).log[k].Applied? && RunOn(a, events).log[k].request.Handle?
    requires ApprovedBy(configs, RunOn(a, events).log, T.InstanceOf(RunOn(a, events).log[k].request))
    ensures SettledAt(configs, RunOn(a, events).log, k)
  {
    hide RunOn, ApprovedBy, SettledAt, AllAccepted;
    SerializableOn(a, events);
    DecisionsInLog(configs, RunOn(a, events).log, k);
  }
}
