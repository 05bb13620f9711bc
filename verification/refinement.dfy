/** The SQL stores as data refinements of the in-memory store: same answers, same aggregates, call after call. */
module Refinement {
  import opened Workflow
  import opened Stores
  import opened Tables
  import opened Projections
  import opened Invariants
  import opened Concurrency
  import T = Transitions
  import M = MySQL
  import P = Postgres

  datatype Adapter = Memory | OnMySQL | OnPostgres(server: P.Server)

  datatype StoreCall = Create(s: Snapshot) | Save(s: Snapshot, expectedVersion: nat) | Load(id: InstanceID)

  datatype StoreAnswer = Read(r: Result<Snapshot>) | Written(error: Option<Error>)

  ghost function CreateOn(a: Adapter, db: Database, s: Snapshot): Result<Database> {
    match a
    case Memory => CreateIn(db, s)
    case OnMySQL => M.CreateHere(db, s)
    case OnPostgres(server) => P.CreateHere(db, s, server)
  }

  ghost function SaveOn(a: Adapter, db: Database, s: Snapshot, expectedVersion: nat): Result<Database> {
    match a
    case Memory => SaveIn(db, s, expectedVersion)
    case OnMySQL => M.SaveHere(db, s, expectedVersion)
    case OnPostgres(server) => P.SaveHere(db, s, expectedVersion, server)
  }

  ghost function LoadOn(a: Adapter, db: Database, id: InstanceID): Result<Snapshot> {
    if a.OnPostgres? then P.LoadHere(db, id) else LoadFrom(db, id)
  }

  /** What an adapter bounds beyond the shared contract: dates for both; column widths for the one; texts, index entries
      and the length of continuation tokens for the other. */
  ghost predicate WithinLimits(a: Adapter, s: Snapshot) {
    match a
    case Memory => true
    case OnMySQL => M.Encodable(s) && Dated(s)
    case OnPostgres(server) => Dated(s) && P.Held(s, server) && Pageable(s, server.codec)
  }

  /** What an adapter answers before it looks at what is stored. */
  ghost function EarlyError(a: Adapter, s: Snapshot): Option<Error> {
    match a
    case Memory => None
    case OnMySQL =>
      if !M.Encodable(s) then Some(InvalidStoreInput) else if !Dated(s) then Some(EncodingFailed) else None
    case OnPostgres(_) =>
      if !Dated(s) then Some(EncodingFailed) else if !P.ParentTexts(s) then Some(StatementRefused) else None
  }

  ghost predicate Storable(a: Adapter, s: Snapshot) { a.Memory? || (SchemaValid(s) && WithinLimits(a, s)) }

  /** A SQL store answers a write like the in-memory store exactly when it can hold the candidate, or the shared
      contract refuses the write and the adapter reports that refusal. */
  lemma WritesAgree(a: Adapter, db: Database, s: Snapshot, expectedVersion: nat)
    ensures var shared := SaveIn(db, s, expectedVersion);
            SaveOn(a, db, s, expectedVersion) == shared <==>
              || Storable(a, s)
              || (shared.Failure? && (EarlyError(a, s).Some? ==> EarlyError(a, s).value == shared.error))
    ensures var shared := CreateIn(db, s);
            CreateOn(a, db, s) == shared <==>
              || Storable(a, s)
              || (shared.Failure? && (s.id == EMPTY
                                      || (EarlyError(a, s).Some? ==> EarlyError(a, s).value == shared.error)))
  {
    hide Pageable, M.Encodable, SchemaValid, P.ChildrenHeld, P.ViewHeld, P.ParentTexts, Dated;
  }

  function AnswerOf(r: Result<Database>): StoreAnswer { Written(if r.Success? then None else Some(r.error)) }

  ghost function Perform(a: Adapter, db: Database, call: StoreCall): (StoreAnswer, Database) {
    match call
    case Create(s) =>
      var r := CreateOn(a, db, s); (AnswerOf(r), if r.Success? then r.value else db)
    case Save(s, expectedVersion) =>
      var r := SaveOn(a, db, s, expectedVersion); (AnswerOf(r), if r.Success? then r.value else db)
    case Load(id) => (Read(LoadOn(a, db, id)), db)
  }

  ghost function Trace(a: Adapter, calls: seq<StoreCall>): (seq<StoreAnswer>, Database) {
    if calls == [] then ([], map[]) else
    var (answers, db) := Trace(a, calls[..|calls| - 1]);
    var (answer, next) := Perform(a, db, calls[|calls| - 1]);
    (answers + [answer], next)
  }

  /** The adapter can bind what the call names and hold what it writes. */
  ghost predicate Answerable(a: Adapter, call: StoreCall) {
    match call
    case Load(id) => a.OnPostgres? ==> P.IsText(id)
    case Create(s) => Storable(a, s)
    case Save(s, _) => Storable(a, s)
  }

  /** Any sequence of calls with storable candidates is answered alike, error for error and aggregate for aggregate. */
  lemma {:induction false} SameTrace(a: Adapter, calls: seq<StoreCall>)
    requires forall i :: 0 <= i < |calls| ==> Answerable(a, calls[i])
    ensures Trace(a, calls) == Trace(Memory, calls)
  {
    hide Storable, CreateOn, SaveOn;
    if calls == [] {
    } else {
      var last := calls[|calls| - 1];
      var db := Trace(Memory, calls[..|calls| - 1]).1;
      SameTrace(a, calls[..|calls| - 1]);
      if last.Create? { StorableAgrees(a, db, last.s, 0); }
      if last.Save? { StorableAgrees(a, db, last.s, last.expectedVersion); }
    }
  }

  lemma StorableAgrees(a: Adapter, db: Database, s: Snapshot, expectedVersion: nat)
    requires Storable(a, s)
    ensures SaveOn(a, db, s, expectedVersion) == SaveIn(db, s, expectedVersion) && CreateOn(a, db, s) == CreateIn(db, s)
    ensures SaveOn(Memory, db, s, expectedVersion) == SaveIn(db, s, expectedVersion)
              && CreateOn(Memory, db, s) == CreateIn(db, s)
  {
    WritesAgree(a, db, s, expectedVersion);
  }

  /** What a write within the shared contract comes to on an adapter. */
  ghost predicate OnlyLimits(a: Adapter, r: Result<Database>, shared: Database, s: Snapshot) {
    if WithinLimits(a, s) then r == Success(shared)
    else r.Failure? && r.error in {InvalidStoreInput, StatementRefused, EncodingFailed}
  }

  /** What the engine saves always satisfies the constraints on tasks and audit: the only new failures on any store are
      the adapter's own limits on texts. */
  lemma EngineFitsSchema(a: Adapter, db: Database, request: Request, host: Host)
    requires AllSound(db) && LoadFrom(db, T.InstanceOf(request)).Success?
    requires Fresh(host.ids, db[T.InstanceOf(request)].tasks)
    requires T.Execute(db[T.InstanceOf(request)], request, host).Success?
    ensures var s := db[T.InstanceOf(request)];
            var next := T.Execute(s, request, host).value;
            SchemaValid(next) && OnlyLimits(a, SaveOn(a, db, next, s.version), db[next.id := next], next)
  {
    hide Pageable, M.Encodable, SchemaValid, T.Execute, Sound, Fresh, P.ChildrenHeld, P.ViewHeld, P.ParentTexts, Dated;
    var s := db[T.InstanceOf(request)];
    var next := T.Execute(s, request, host).value;
    ExecuteSound(s, request, host);
    ExecuteKeepsID(s, request, host);
    SoundIsSchemaValid(next);
  }

  lemma StartFitsSchema(a: Adapter, db: Database, d: Definition, start: StartRequest, host: Host)
    requires AllSound(db) && Fresh(host.ids, []) && T.StartInstance(d, start, host).Success? && start.id !in db
    ensures var s := T.StartInstance(d, start, host).value;
            SchemaValid(s) && OnlyLimits(a, CreateOn(a, db, s), db[s.id := s], s)
  {
    hide Pageable, M.Encodable, SchemaValid, T.StartInstance, Sound, Fresh, P.ChildrenHeld, P.ViewHeld, P.ParentTexts,
         Dated;
    StartSound(d, start, host);
    SoundIsSchemaValid(T.StartInstance(d, start, host).value);
  }
}
