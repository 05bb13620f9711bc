/** The PostgreSQL command store: the same rows, bulk copies, and the read model inside the same transaction. */
module Postgres {
  import opened Workflow
  import opened Facts
  import opened Stores
  import opened Tables
  import opened Projections
  import I = Invariants

  /* What the server can hold */

  datatype Index =
    | InstancesKey | TasksKey | TasksUnique | AuditKey
    | ViewsKey | InitiatorPage | ParticipationKey | ParticipationUnique | ActorPage

  /** The token codec, which text columns an index entry can hold (entries are bounded, texts are not), and how times
      are kept. */
  datatype Server = Server(codec: Codec, indexable: (Index, seq<string>) -> bool, rounded: Rounding)

  /** TEXT columns hold every text without the null character. */
  predicate IsText(text: string) { '\0' !in text }

  /** Checked by the server when the parent statement is bound, before anything is looked up. */
  predicate ParentTexts(s: Snapshot) { IsText(s.id) && IsText(s.initiator) && IsText(s.currentNodeID) }

  predicate TaskHeld(id: InstanceID, t: Task, server: Server) {
    && IsText(id) && IsText(t.id) && IsText(StatusText(t.status))
    && server.indexable(TasksKey, [id]) && server.indexable(TasksUnique, [id, t.id])
  }

  predicate TasksHeld(id: InstanceID, tasks: seq<Task>, server: Server) {
    forall i :: 0 <= i < |tasks| ==> TaskHeld(id, tasks[i], server)
  }

  predicate RecordHeld(id: InstanceID, r: AuditRecord, server: Server) {
    IsText(id) && IsText(ActionText(r.action)) && server.indexable(AuditKey, [id])
  }

  predicate AuditHeld(id: InstanceID, audit: seq<AuditRecord>, server: Server) {
    forall i :: 0 <= i < |audit| ==> RecordHeld(id, audit[i], server)
  }

  predicate ViewHeld(s: Snapshot, server: Server) {
    && IsText(s.id) && IsText(s.definition.id) && IsText(s.initiator) && IsText(s.currentNodeID)
    && server.indexable(ViewsKey, [s.id]) && server.indexable(InitiatorPage, [s.initiator, s.id])
    && forall i :: 0 <= i < |s.tasks| && Concrete(s.tasks[i]) ==> ParticipationHeld(s.id, s.tasks[i], server)
  }

  predicate ParticipationHeld(id: InstanceID, t: Task, server: Server) {
    && IsText(t.id) && IsText(t.assignee) && IsText(t.nodeID) && IsText(StatusText(t.status)) && IsText(t.outcome)
    && server.indexable(ParticipationKey, [id, t.id]) && server.indexable(ParticipationUnique, [id])
    && server.indexable(ActorPage, [t.assignee, StatusText(t.status), id, t.id])
  }

  predicate ChildrenHeld(s: Snapshot, server: Server) {
    server.indexable(InstancesKey, [s.id]) && TasksHeld(s.id, s.tasks, server) && AuditHeld(s.id, s.audit, server)
  }

  /** Every text column and index entry of the aggregate, its tasks, its audit and its read rows. */
  predicate Held(s: Snapshot, server: Server) { ParentTexts(s) && ChildrenHeld(s, server) && ViewHeld(s, server) }

  /* The shared contract, behind what the server refuses and the paging preflight of the read model */

  ghost function CreateHere(db: Database, s: Snapshot, server: Server): Result<Database> {
    if s.id == EMPTY then Failure(InvalidStoreInput)
    else if !Dated(s) then Failure(EncodingFailed)
    else if !ParentTexts(s) then Failure(StatementRefused)
    else Committed(CreateIn(db, s), s, server)
  }

  ghost function SaveHere(db: Database, s: Snapshot, expectedVersion: nat, server: Server): Result<Database> {
    if !Dated(s) then Failure(EncodingFailed)
    else if !ParentTexts(s) then Failure(StatementRefused)
    else Committed(SaveIn(db, s, expectedVersion), s, server)
  }

  ghost function Committed(written: Result<Database>, s: Snapshot, server: Server): Result<Database> {
    if written.Failure? then written
    else if !SchemaValid(s) || !ChildrenHeld(s, server) then Failure(StatementRefused)
    else if !Pageable(s, server.codec) then Failure(InvalidStoreInput)
    else if !ViewHeld(s, server) then Failure(StatementRefused)
    else written
  }

  ghost function LoadHere(db: Database, id: InstanceID): Result<Snapshot> {
    if IsText(id) then LoadFrom(db, id) else Failure(StatementRefused)
  }

  ghost predicate AllPageable(db: Database, codec: Codec) { forall id :: id in db ==> Pageable(db[id], codec) }

  ghost predicate AllHeld(db: Database, server: Server) { forall id :: id in db ==> Held(db[id], server) }

  lemma SuffixHeld(id: InstanceID, durable: seq<AuditRecord>, audit: seq<AuditRecord>, server: Server)
    requires durable <= audit && AuditHeld(id, durable, server)
    ensures AuditHeld(id, audit[|durable|..], server) <==> AuditHeld(id, audit, server)
  {
    var suffix := audit[|durable|..];
    assert forall i :: 0 <= i < |suffix| ==> suffix[i] == audit[|durable| + i];
    assert forall i :: 0 <= i < |durable| ==> audit[i] == durable[i];
    if AuditHeld(id, suffix, server) {
      forall i | 0 <= i < |audit| ensures RecordHeld(id, audit[i], server) {
        if i >= |durable| { assert RecordHeld(id, suffix[i - |durable|], server); }
      }
    }
  }

  lemma DurableHeld(db: Database, id: InstanceID, server: Server)
    requires AllHeld(db, server) && id in db && db[id].id == id
    ensures AuditHeld(id, AuditIn(db, id), server) && server.indexable(InstancesKey, [id])
  {
    assert Held(db[id], server);
  }

  lemma RepresentsParts(rows: Rows, db: Database, id: InstanceID)
    requires Represents(rows, db)
    ensures AuditStored(rows.audit, db) && (id in rows.parents <==> id in db)
    ensures id in db ==> db[id].id == id && rows.parents[id].version == db[id].version
  {
  }

  lemma AlsoHeld(db: Database, s: Snapshot, server: Server)
    requires AllHeld(db, server) && AllPageable(db, server.codec) && Held(s, server) && Pageable(s, server.codec)
    ensures AllHeld(db[s.id := s], server) && AllPageable(db[s.id := s], server.codec)
  {
  }

  class Store {
    const server: Server
    var rows: Rows
    var views: Views
    ghost var contents: Database

    ghost predicate Valid()
      reads this
    {
      && Represents(rows, contents) && Projected(views, contents, server.rounded)
      && AllPageable(contents, server.codec) && AllHeld(contents, server)
    }

    constructor (server: Server)
      ensures Valid() && contents == map[] && this.server == server
    {
      this.server := server;
      rows, views, contents := NO_ROWS, NO_VIEWS, map[];
    }

    method CopyTasks(id: InstanceID, tasks: seq<Task>) returns (ok: bool)
      modifies this`rows
      ensures var inserted := InsertTaskRows(old(rows), Entries(id, 0, TaskRows(tasks)));
              if tasks == [] then ok && rows == old(rows)
              else ok == (TasksHeld(id, tasks, server) && inserted.Some?) && (ok ==> rows == inserted.value)
    {
      if |tasks| == 0 {
        return true;
      }
      var entries := BuildTaskRows(id, tasks);
      var inserted := InsertTaskRows(rows, entries);
      if !TasksHeld(id, tasks, server) || inserted.None? {
        return false;
      }
      rows := inserted.value;
      return true;
    }

    method CopyAudit(id: InstanceID, audit: seq<AuditRecord>, offset: nat) returns (ok: bool)
      modifies this`rows
      ensures var inserted := InsertAuditRows(old(rows), Entries(id, offset, AuditRows(audit)));
              if audit == [] then ok && rows == old(rows)
              else ok == (AuditHeld(id, audit, server) && inserted.Some?) && (ok ==> rows == inserted.value)
    {
      if |audit| == 0 {
        return true;
      }
      var entries := BuildAuditRows(id, audit, offset);
      var inserted := InsertAuditRows(rows, entries);
      if !AuditHeld(id, audit, server) || inserted.None? {
        return false;
      }
      rows := inserted.value;
      return true;
    }

    method ReplaceCollections(s: Snapshot, auditOffset: nat) returns (ok: bool)
      requires ParentWritten(rows, contents, s)
      requires AuditIn(contents, s.id) <= s.audit && auditOffset == |AuditIn(contents, s.id)|
      modifies this`rows
      ensures ok == (SchemaValid(s) && TasksHeld(s.id, s.tasks, server)
                     && AuditHeld(s.id, s.audit[auditOffset..], server))
      ensures ok ==> Represents(rows, contents[s.id := s])
    {
      hide TaskHeld, RecordHeld;
      ChildrenReplaced(rows, contents, s);
      NoEntries(s.id);
      rows := DeleteTasks(rows, s.id);
      var tasksIn := CopyTasks(s.id, s.tasks);
      if !tasksIn {
        return false;
      }
      var auditIn := CopyAudit(s.id, s.audit[auditOffset..], auditOffset);
      return auditIn;
    }

    method Create(candidate: Instance) returns (r: Result<()>)
      requires Valid() && candidate.version <= MAX_UINT64
      modifies this
      ensures Valid() && Answers(r, old(contents), contents, CreateHere(old(contents), candidate.Value(), server))
    {
      hide Represents, Projected, Pageable, TaskHeld, RecordHeld, ViewHeld, ParentTexts, Dated;
      hide ParentWritten, AllHeld, AllPageable, TaskRowAllowed, UniqueIDs;
      var s := candidate.Value();
      if s.id == EMPTY {
        return Failure(InvalidStoreInput);
      }
      if !Dated(s) {
        return Failure(EncodingFailed);
      }
      if !ParentTexts(s) {
        return Failure(StatementRefused);
      }
      var begin := rows;
      SameKeys(rows, contents);
      if s.id in rows.parents {
        return Failure(InstanceExists);
      }
      var parent := InsertParent(rows, s.id, ParentOf(s));
      if !server.indexable(InstancesKey, [s.id]) {
        return Failure(StatementRefused);
      }
      rows := parent.value;
      NewParentWritten(begin, contents, s);
      ChildrenReplaced(rows, contents, s);
      FirstWrite(rows, contents, s);
      NoEntries(s.id);
      var ok := CopyTasks(s.id, s.tasks);
      if ok {
        ok := CopyAudit(s.id, s.audit, 0);
      }
      if !ok {
        rows := begin;
        return Failure(StatementRefused);
      }
      var projected := ReplaceQueryProjection(views, s, server.codec, server.rounded, ViewHeld(s, server), contents);
      if projected.Failure? {
        rows := begin;
        return Failure(projected.error);
      }
      AlsoHeld(contents, s, server);
      views := projected.value;
      contents := contents[s.id := s];
      return Success(());
    }

    method Load(id: InstanceID) returns (r: Result<Snapshot>)
      requires Valid()
      ensures r == LoadHere(contents, id)
    {
      if !IsText(id) {
        return Failure(StatementRefused);
      }
      r := LoadSnapshot(rows, id, contents);
    }

    method ClassifyFailedCAS(id: InstanceID) returns (e: Error)
      ensures e == if id in rows.parents then VersionConflict else InstanceNotFound
    {
      return if id in rows.parents then VersionConflict else InstanceNotFound;
    }

    method Save(candidate: Instance, expectedVersion: nat) returns (r: Result<()>)
      requires Valid() && candidate.version <= MAX_UINT64
      modifies this
      ensures Valid() && Answers(r, old(contents), contents,
                                 SaveHere(old(contents), candidate.Value(), expectedVersion, server))
    {
      hide Represents, Projected, Pageable, AuditStored, TaskHeld, RecordHeld, ViewHeld, ParentTexts, AuditHeld, Dated,
           TasksHeld;
      hide ParentWritten, AllHeld, AllPageable, I.UniqueTasks, TaskRowAllowed;
      var s := candidate.Value();
      if !Dated(s) {
        return Failure(EncodingFailed);
      }
      if !ParentTexts(s) {
        return Failure(StatementRefused);
      }
      var begin := rows;
      RepresentsParts(rows, contents, s.id);
      var affected := if Matches(rows, s.id, expectedVersion) then 1 else 0;
      rows := UpdateParent(rows, s.id, ParentOf(s), expectedVersion);
      if affected == 0 {
        var classified := ClassifyFailedCAS(s.id);
        return Failure(classified);
      }
      UpdatedParentWritten(begin, contents, s, expectedVersion);
      DurableHeld(contents, s.id, server);
      var durable := LoadAudit(rows, s.id, contents);
      if |s.audit| < |durable| || s.audit[..|durable|] != durable {
        rows := begin;
        return Failure(InvalidStoreInput);
      }
      SuffixHeld(s.id, durable, s.audit, server);
      var ok := ReplaceCollections(s, |durable|);
      if !ok {
        rows := begin;
        return Failure(StatementRefused);
      }
      var projected := ReplaceQueryProjection(views, s, server.codec, server.rounded, ViewHeld(s, server), contents);
      if projected.Failure? {
        rows := begin;
        return Failure(projected.error);
      }
      AlsoHeld(contents, s, server);
      views := projected.value;
      contents := contents[s.id := s];
      return Success(());
    }
  }
}
