/** The MySQL command store: conditional parent update, task replacement, audit suffix, batched inserts. */
module MySQL {
  import opened Workflow
  import opened Facts
  import opened Stores
  import opened Tables
  import I = Invariants

  const MAX_INSERT_BATCH := 500
  const MAX_STORED_LENGTH := 255

  /** Checked before any statement, so that even servers that ignore CHECK constraints refuse these aggregates. */
  predicate Encodable(s: Snapshot) {
    && (forall i :: 0 <= i < |s.tasks| ==> TaskRowAllowed(TaskRowOf(s.tasks[i])))
    && |s.id| <= MAX_STORED_LENGTH && |s.initiator| <= MAX_STORED_LENGTH && |s.currentNodeID| <= MAX_STORED_LENGTH
    && (forall i :: 0 <= i < |s.tasks| ==>
          |s.tasks[i].id| <= MAX_STORED_LENGTH && |StatusText(s.tasks[i].status)| <= MAX_STORED_LENGTH)
    && (forall i :: 0 <= i < |s.audit| ==> |ActionText(s.audit[i].action)| <= MAX_STORED_LENGTH)
  }

  /** The shared contract, behind this adapter's own input checks and the schema's task uniqueness. */
  ghost function CreateHere(db: Database, s: Snapshot): Result<Database> {
    if s.id == EMPTY || !Encodable(s) then Failure(InvalidStoreInput) else
    if !Dated(s) then Failure(EncodingFailed) else
    var created :- CreateIn(db, s);
    if !SchemaValid(s) then Failure(StatementRefused) else Success(created)
  }

  ghost function SaveHere(db: Database, s: Snapshot, expectedVersion: nat): Result<Database> {
    if !Encodable(s) then Failure(InvalidStoreInput) else
    if !Dated(s) then Failure(EncodingFailed) else
    var saved :- SaveIn(db, s, expectedVersion);
    if !SchemaValid(s) then Failure(StatementRefused) else Success(saved)
  }

  /** Bounded multi-row statements insert the same rows as one statement would, or fail together with it. */
  method InsertRows<Row(!new)>(rows: Rows, insert: (Rows, seq<Entry<Key, Row>>) -> Option<Rows>,
                               entries: seq<Entry<Key, Row>>)
    returns (r: Option<Rows>)
    requires Composes(insert)
    ensures r == if entries == [] then Some(rows) else insert(rows, entries)
  {
    var now := rows;
    var start := 0;
    while start < |entries|
      invariant start == 0 ==> now == rows
      invariant start > 0 ==> entries != []
      invariant 0 < start < |entries| ==> insert(rows, entries[..start]) == Some(now)
      invariant start >= |entries| > 0 ==> insert(rows, entries) == Some(now)
    {
      var end := if start + MAX_INSERT_BATCH < |entries| then start + MAX_INSERT_BATCH else |entries|;
      var inserted := insert(now, entries[start..end]);
      assert entries[..start] + entries[start..end] == entries[..end];
      assert entries[..end] + entries[end..] == entries && entries[..|entries|] == entries;
      assert ComposesAt(insert, rows, entries[..start], entries[start..end]);
      assert ComposesAt(insert, rows, entries[..end], entries[end..]);
      assert start == 0 ==> entries[start..end] == entries[..end];
      if inserted.None? {
        return None;
      }
      now := inserted.value;
      start := start + MAX_INSERT_BATCH;
    }
    return Some(now);
  }

  class Store {
    /** Whether the connection counts rows the update matched, or only rows it changed. */
    const countsMatched: bool
    var rows: Rows
    ghost var contents: Database

    ghost predicate Valid()
      reads this
    {
      Represents(rows, contents)
    }

    constructor (countsMatched: bool)
      ensures Valid() && contents == map[]
    {
      this.countsMatched := countsMatched;
      rows, contents := NO_ROWS, map[];
    }

    method InsertTasks(id: InstanceID, tasks: seq<Task>) returns (ok: bool)
      modifies this`rows
      ensures var inserted := InsertTaskRows(old(rows), Entries(id, 0, TaskRows(tasks)));
              if tasks == [] then ok && rows == old(rows) else ok == inserted.Some? && (ok ==> rows == inserted.value)
    {
      if |tasks| == 0 {
        return true;
      }
      var entries := BuildTaskRows(id, tasks);
      TasksCompose();
      var inserted := InsertRows(rows, InsertTaskRows, entries);
      if inserted.None? {
        return false;
      }
      rows := inserted.value;
      return true;
    }

    method InsertAudit(id: InstanceID, audit: seq<AuditRecord>, offset: nat) returns (ok: bool)
      modifies this`rows
      ensures var inserted := InsertAuditRows(old(rows), Entries(id, offset, AuditRows(audit)));
              if audit == [] then ok && rows == old(rows) else ok == inserted.Some? && (ok ==> rows == inserted.value)
    {
      if |audit| == 0 {
        return true;
      }
      var entries := BuildAuditRows(id, audit, offset);
      AuditCompose();
      var inserted := InsertRows(rows, InsertAuditRows, entries);
      if inserted.None? {
        return false;
      }
      rows := inserted.value;
      return true;
    }

    method ReplaceCollections(s: Snapshot, auditOffset: nat) returns (ok: bool)
      requires ParentWritten(rows, contents, s) && AuditIn(contents, s.id) <= s.audit
                 && auditOffset == |AuditIn(contents, s.id)|
      modifies this`rows
      ensures ok == SchemaValid(s)
      ensures ok ==> Represents(rows, contents[s.id := s])
    {
      ChildrenReplaced(rows, contents, s);
      NoEntries(s.id);
      rows := DeleteTasks(rows, s.id);
      var tasksIn := InsertTasks(s.id, s.tasks);
      if !tasksIn {
        return false;
      }
      var auditIn := InsertAudit(s.id, s.audit[auditOffset..], auditOffset);
      return auditIn;
    }

    method Create(candidate: Instance) returns (r: Result<()>)
      requires Valid() && candidate.version <= MAX_UINT64
      modifies this
      ensures Valid() && Answers(r, old(contents), contents, CreateHere(old(contents), candidate.Value()))
    {
      var s := candidate.Value();
      if s.id == EMPTY || !Encodable(s) {
        return Failure(InvalidStoreInput);
      }
      if !Dated(s) {
        return Failure(EncodingFailed);
      }
      var begin := rows;
      var parent := InsertParent(rows, s.id, ParentOf(s));
      if parent.None? {
        return Failure(if s.id in rows.parents then InstanceExists else StatementRefused);
      }
      rows := parent.value;
      NewParentWritten(begin, contents, s);
      ChildrenReplaced(rows, contents, s);
      FirstWrite(rows, contents, s);
      NoEntries(s.id);
      var ok := InsertTasks(s.id, s.tasks);
      if ok {
        ok := InsertAudit(s.id, s.audit, 0);
      }
      if !ok {
        rows := begin;
        return Failure(StatementRefused);
      }
      contents := contents[s.id := s];
      return Success(());
    }

    method Load(id: InstanceID) returns (r: Result<Snapshot>)
      requires Valid()
      ensures r == LoadFrom(contents, id)
    {
      r := LoadSnapshot(rows, id, contents);
    }

    /** Zero affected rows mean a missing instance, a stale version, or a row that did not need changing. */
    method ClassifyFailedCAS(id: InstanceID, expectedVersion: nat) returns (r: Result<()>)
      ensures r.Success? <==> Matches(rows, id, expectedVersion)
      ensures r.Failure? ==> r.error == if id in rows.parents then VersionConflict else InstanceNotFound
    {
      if id !in rows.parents {
        return Failure(InstanceNotFound);
      }
      return if rows.parents[id].version != expectedVersion then Failure(VersionConflict) else Success(());
    }

    method Save(candidate: Instance, expectedVersion: nat) returns (r: Result<()>)
      requires Valid() && candidate.version <= MAX_UINT64
      modifies this
      ensures Valid() && Answers(r, old(contents), contents,
                                 SaveHere(old(contents), candidate.Value(), expectedVersion))
    {
      var s := candidate.Value();
      if !Encodable(s) {
        return Failure(InvalidStoreInput);
      }
      if !Dated(s) {
        return Failure(EncodingFailed);
      }
      var begin := rows;
      var matched := Matches(rows, s.id, expectedVersion);
      rows := UpdateParent(rows, s.id, ParentOf(s), expectedVersion);
      var affected := if matched && (countsMatched || begin.parents[s.id] != ParentOf(s)) then 1 else 0;
      if affected == 0 {
        var classified := ClassifyFailedCAS(s.id, expectedVersion);
        if classified.Failure? {
          rows := begin;
          return classified;
        }
      }
      UpdatedParentWritten(begin, contents, s, expectedVersion);
      var durable := LoadAudit(rows, s.id, contents);
      if |s.audit| < |durable| || s.audit[..|durable|] != durable {
        rows := begin;
        return Failure(InvalidStoreInput);
      }
      var ok := ReplaceCollections(s, |durable|);
      if !ok {
        rows := begin;
        return Failure(StatementRefused);
      }
      contents := contents[s.id := s];
      return Success(());
    }
  }
}
