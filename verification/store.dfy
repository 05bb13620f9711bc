/** The persistence contract, as functions of the stored snapshots, and the in-memory adapter that keeps it. */
module Stores {
  import opened Workflow
  import opened Facts

  type Database = map<InstanceID, Snapshot>

  /** The durable records a candidate must keep in front of its own. */
  predicate KeepsAudit(stored: Snapshot, candidate: Snapshot) { stored.audit <= candidate.audit }

  function CreateIn(db: Database, s: Snapshot): Result<Database> {
    if s.id == EMPTY then Failure(InvalidStoreInput)
    else if s.id in db then Failure(InstanceExists)
    else Success(db[s.id := s])
  }

  function LoadFrom(db: Database, id: InstanceID): Result<Snapshot> {
    if id in db then Success(db[id]) else Failure(InstanceNotFound)
  }

  function SaveIn(db: Database, s: Snapshot, expectedVersion: nat): Result<Database> {
    if s.id !in db then Failure(InstanceNotFound)
    else if db[s.id].version != expectedVersion then Failure(VersionConflict)
    else if !KeepsAudit(db[s.id], s) then Failure(InvalidStoreInput)
    else Success(db[s.id := s])
  }

  /** What a call answered, together with what it left stored. */
  ghost predicate Answers(r: Result<()>, before: Database, after: Database, spec: Result<Database>) {
    match spec
    case Success(db) => r.Success? && after == db
    case Failure(e) => r == Failure(e) && after == before
  }

  /* What the comparison of versions alone gives */

  datatype Write = Write(s: Snapshot, expectedVersion: nat)

  /** After an accepted save, every further save of the instance that expects the same version is refused exactly when
      the saved candidate carried another version: a save does not check that itself. */
  lemma StaleSaveRefused(db: Database, s: Snapshot, expectedVersion: nat)
    requires SaveIn(db, s, expectedVersion).Success?
    ensures var after := SaveIn(db, s, expectedVersion).value;
            (forall t: Snapshot :: t.id == s.id ==> SaveIn(after, t, expectedVersion) == Failure(VersionConflict))
            <==> s.version != expectedVersion
  {
    var after := SaveIn(db, s, expectedVersion).value;
    if s.version == expectedVersion {
      assert SaveIn(after, s, expectedVersion) == Success(after[s.id := s]);
    }
  }

  /** Saves one after the other; those refused change nothing. */
  function SaveAll(db: Database, writes: seq<Write>): Database {
    if writes == [] then db else
    var before := SaveAll(db, writes[..|writes| - 1]);
    var last := writes[|writes| - 1];
    var saved := SaveIn(before, last.s, last.expectedVersion);
    if saved.Success? then saved.value else before
  }

  predicate Growing(writes: seq<Write>) {
    forall w :: w in writes ==> w.s.version > w.expectedVersion
  }

  lemma {:induction false} GrowingNeverFalls(db: Database, writes: seq<Write>, id: InstanceID)
    requires Growing(writes) && id in db
    ensures id in SaveAll(db, writes) && SaveAll(db, writes)[id].version >= db[id].version
  {
    if writes == [] {
    } else {
      assert writes[|writes| - 1] in writes;
      GrowingNeverFalls(db, writes[..|writes| - 1], id);
    }
  }

  /** Whatever is saved, by whomever and with whatever versions, no instance is lost and its audit is only continued. */
  lemma {:induction false} AuditOnlyGrows(db: Database, writes: seq<Write>, id: InstanceID)
    ensures id in SaveAll(db, writes) <==> id in db
    ensures id in db ==> db[id].audit <= SaveAll(db, writes)[id].audit
    ensures id in db && (forall w :: w in writes ==> w.s.id != id) ==> SaveAll(db, writes)[id] == db[id]
  {
    if writes == [] {
    } else {
      assert writes[|writes| - 1] in writes;
      AuditOnlyGrows(db, writes[..|writes| - 1], id);
    }
  }

  /** When every candidate carries a later version than it expects, a version once left is never accepted again,
      however many saves of any instances lie between. */
  lemma LeftForGood(db: Database, first: Write, between: seq<Write>, stale: Write)
    requires SaveIn(db, first.s, first.expectedVersion).Success? && Growing([first]) && Growing(between)
    requires stale.s.id == first.s.id && stale.expectedVersion <= first.expectedVersion
    ensures var after := SaveIn(db, first.s, first.expectedVersion).value;
            SaveIn(SaveAll(after, between), stale.s, stale.expectedVersion) == Failure(VersionConflict)
  {
    assert first in [first];
    GrowingNeverFalls(SaveIn(db, first.s, first.expectedVersion).value, between, first.s.id);
  }

  /** Two different candidates that carry the version they expect are both accepted, and the version recurs. */
  lemma VersionRecurs() returns (created: Snapshot, s: Snapshot, t: Snapshot)
    ensures CreateIn(map[], created).Success? && s != t && s.version == t.version == created.version
    ensures var db := CreateIn(map[], created).value;
            var saved := SaveIn(db, s, created.version);
            && saved.Success?
            && SaveIn(saved.value, t, created.version) == Success(map[created.id := t])
  {
    created := Snapshot("i", Definition("d", 1, [], []), Running, "al", "n", Absent, Absent, [], [], 1);
    s := created.(nodeState := Json("1"));
    t := created.(nodeState := Json("2"));
    assert "1" != "2" by { assert "1"[0] != "2"[0]; }
    var db := CreateIn(map[], created).value;
    assert db[created.id := s][created.id := t] == map[created.id := t];
  }

  class MemoryStore {
    var instances: map<InstanceID, Instance>

    ghost predicate Valid()
      reads this
    {
      forall id :: id in instances ==> instances[id].id == id
    }

    ghost function Contents(): Database
      reads this, instances.Values
    {
      map id | id in instances :: instances[id].Value()
    }

    constructor ()
      ensures Valid() && Contents() == map[]
    {
      instances := map[];
    }

    method Create(candidate: Instance) returns (r: Result<()>)
      requires Valid()
      modifies this
      ensures Valid()
      ensures Answers(r, old(Contents()), Contents(), CreateIn(old(Contents()), candidate.Value()))
      ensures candidate !in old(instances.Values) ==> candidate !in instances.Values
    {
      if candidate.id == EMPTY {
        return Failure(InvalidStoreInput);
      }
      if candidate.id in instances {
        return Failure(InstanceExists);
      }
      var snapshot := new Instance.Clone(candidate.Value());
      instances := instances[candidate.id := snapshot];
      return Success(());
    }

    /** The caller owns the result: it shares nothing with what is stored. */
    method Load(id: InstanceID) returns (r: Result<Instance>)
      requires Valid()
      ensures r.Success? ==> fresh(r.value) && LoadFrom(Contents(), id) == Success(r.value.Value())
      ensures r.Failure? ==> LoadFrom(Contents(), id) == Failure(r.error)
    {
      if id !in instances {
        return Failure(InstanceNotFound);
      }
      var snapshot := new Instance.Clone(instances[id].Value());
      return Success(snapshot);
    }

    method Save(candidate: Instance, expectedVersion: nat) returns (r: Result<()>)
      requires Valid()
      modifies this
      ensures Valid()
      ensures Answers(r, old(Contents()), Contents(), SaveIn(old(Contents()), candidate.Value(), expectedVersion))
      ensures candidate !in old(instances.Values) ==> candidate !in instances.Values
    {
      if candidate.id !in instances {
        return Failure(InstanceNotFound);
      }
      var stored := instances[candidate.id];
      if stored.version != expectedVersion {
        return Failure(VersionConflict);
      }
      if |candidate.audit| < |stored.audit| || candidate.audit[..|stored.audit|] != stored.audit {
        return Failure(InvalidStoreInput);
      }
      var snapshot := new Instance.Clone(candidate.Value());
      instances := instances[candidate.id := snapshot];
      return Success(());
    }
  }
}
