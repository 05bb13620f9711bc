/** The relational tables both SQL stores write, the statements they issue and what the rows mean as aggregates. */
module Tables {
  import opened Workflow
  import opened Stores
  import I = Invariants

  /** One row per instance; payload columns hold decoded values because what can be encoded reads back as it was. */
  datatype ParentRow = ParentRow(
    definition: Definition,
    status: InstanceStatus,
    initiator: ActorID,
    currentNodeID: NodeID,
    data: RawMessage,
    nodeState: RawMessage,
    version: nat)

  datatype TaskRow = TaskRow(taskID: TaskID, status: TaskStatus, payload: Task)

  datatype AuditRow = AuditRow(action: string, payload: AuditRecord)

  /** Child rows are identified by their instance and their position in it. */
  type Key = (InstanceID, nat)

  datatype Entry<+K, +Row> = Entry(key: K, row: Row)

  datatype Rows = Rows(
    parents: map<InstanceID, ParentRow>,
    tasks: map<Key, TaskRow>,
    audit: map<Key, AuditRow>)

  const NO_ROWS := Rows(map[], map[], map[])

  function ParentOf(s: Snapshot): ParentRow {
    ParentRow(s.definition, s.status, s.initiator, s.currentNodeID, s.data, s.nodeState, s.version)
  }

  function TaskRowOf(t: Task): TaskRow { TaskRow(t.id, t.status, t) }

  function AuditRowOf(r: AuditRecord): AuditRow { AuditRow(ActionText(r.action), r) }

  function TaskRows(tasks: seq<Task>): (r: seq<TaskRow>)
    ensures |r| == |tasks|
  {
    seq(|tasks|, i requires 0 <= i < |tasks| => TaskRowOf(tasks[i]))
  }

  function AuditRows(audit: seq<AuditRecord>): (r: seq<AuditRow>)
    ensures |r| == |audit|
  {
    seq(|audit|, i requires 0 <= i < |audit| => AuditRowOf(audit[i]))
  }

  /** Rows for consecutive positions of one instance. */
  function Entries<Row>(id: InstanceID, offset: nat, rows: seq<Row>): (r: seq<Entry<Key, Row>>)
    ensures |r| == |rows|
  {
    seq(|rows|, i requires 0 <= i < |rows| => Entry((id, offset + i), rows[i]))
  }

  /* Statements */

  function Inserted<K, Row>(table: map<K, Row>, batch: seq<Entry<K, Row>>): map<K, Row> {
    if batch == [] then table
    else
      var last := batch[|batch| - 1];
      Inserted(table, batch[..|batch| - 1])[last.key := last.row]
  }

  predicate NewKeys<K(==), Row>(table: map<K, Row>, batch: seq<Entry<K, Row>>) {
    && (forall i :: 0 <= i < |batch| ==> batch[i].key !in table)
    && (forall i, j :: 0 <= i < j < |batch| ==> batch[i].key != batch[j].key)
  }

  predicate TaskClash(table: map<Key, TaskRow>, a: Key, b: Key)
    requires a in table && b in table
  {
    a != b && a.0 == b.0 && table[a].taskID == table[b].taskID
  }

  predicate UniqueIDs(table: map<Key, TaskRow>) {
    forall a, b :: a in table && b in table ==> !TaskClash(table, a, b)
  }

  predicate TaskRowAllowed(row: TaskRow) { row.taskID != EMPTY && !row.status.UnknownStatus? }

  /** An insert succeeds as a whole or not at all: foreign key, primary key, checks and task uniqueness. */
  predicate TasksInsertable(rows: Rows, batch: seq<Entry<Key, TaskRow>>) {
    && (forall i :: 0 <= i < |batch| ==> batch[i].key.0 in rows.parents && TaskRowAllowed(batch[i].row))
    && NewKeys(rows.tasks, batch)
    && UniqueIDs(Inserted(rows.tasks, batch))
  }

  predicate AuditInsertable(rows: Rows, batch: seq<Entry<Key, AuditRow>>) {
    && (forall i :: 0 <= i < |batch| ==> batch[i].key.0 in rows.parents && batch[i].row.action != "")
    && NewKeys(rows.audit, batch)
  }

  function InsertTaskRows(rows: Rows, batch: seq<Entry<Key, TaskRow>>): Option<Rows> {
    if TasksInsertable(rows, batch) then Some(rows.(tasks := Inserted(rows.tasks, batch))) else None
  }

  function InsertAuditRows(rows: Rows, batch: seq<Entry<Key, AuditRow>>): Option<Rows> {
    if AuditInsertable(rows, batch) then Some(rows.(audit := Inserted(rows.audit, batch))) else None
  }

  function InsertParent(rows: Rows, id: InstanceID, row: ParentRow): Option<Rows> {
    if id == EMPTY || id in rows.parents || row.version > MAX_UINT64 then None
    else Some(rows.(parents := rows.parents[id := row]))
  }

  /** The conditional update that decides every race: it matches only the expected version. */
  predicate Matches(rows: Rows, id: InstanceID, expectedVersion: nat) {
    id in rows.parents && rows.parents[id].version == expectedVersion
  }

  function UpdateParent(rows: Rows, id: InstanceID, row: ParentRow, expectedVersion: nat): Rows {
    if Matches(rows, id, expectedVersion) then rows.(parents := rows.parents[id := row]) else rows
  }

  function Without<Row>(table: map<Key, Row>, id: InstanceID): map<Key, Row> {
    map key | key in table && key.0 != id :: table[key]
  }

  function DeleteTasks(rows: Rows, id: InstanceID): Rows { rows.(tasks := Without(rows.tasks, id)) }

  /** The rows of one instance in ascending order of position. */
  ghost predicate Ordered<Row>(table: map<Key, Row>, id: InstanceID, positions: seq<nat>, rows: seq<Row>) {
    && |rows| == |positions|
    && (forall k: nat :: k in positions <==> (id, k) in table)
    && (forall i, j :: 0 <= i < j < |positions| ==> positions[i] < positions[j])
    && (forall i :: 0 <= i < |rows| ==> (id, positions[i]) in table && rows[i] == table[(id, positions[i])])
  }

  method Select<Row>(table: map<Key, Row>, id: InstanceID) returns (rows: seq<Row>)
    ensures exists positions: seq<nat> :: Ordered(table, id, positions, rows)
  {
    var left := set key | key in table && key.0 == id :: key.1;
    ghost var all := left;
    var positions: seq<nat> := [];
    rows := [];
    while left != {}
      invariant forall k :: k in left ==> (id, k) in table
      invariant forall k :: k in all <==> k in left || k in positions
      invariant forall k, i :: k in left && 0 <= i < |positions| ==> positions[i] < k
      invariant |rows| == |positions|
      invariant forall i, j :: 0 <= i < j < |positions| ==> positions[i] < positions[j]
      invariant forall i :: 0 <= i < |rows| ==> (id, positions[i]) in table && rows[i] == table[(id, positions[i])]
      decreases |left|
    {
      var least := Least(left);
      rows := rows + [table[(id, least)]];
      positions := positions + [least];
      left := left - {least};
    }
    assert forall k: nat :: (id, k) in table ==> k in all;
    assert Ordered(table, id, positions, rows);
  }

  method Least(s: set<nat>) returns (least: nat)
    requires s != {}
    ensures least in s && forall k :: k in s ==> least <= k
  {
    least :| least in s;
    var left := s - {least};
    while left != {}
      invariant left <= s && least in s
      invariant forall k :: k in s && k !in left ==> least <= k
      decreases |left|
    {
      var next :| next in left;
      if next < least {
        least := next;
      }
      left := left - {next};
    }
  }

  /* Meaning */

  /** The instance owns exactly these rows, at consecutive positions from zero. */
  ghost predicate Lists<Row(!new)>(table: map<Key, Row>, id: InstanceID, rows: seq<Row>) {
    && (forall k: nat {:trigger (id, k) in table} :: (id, k) in table <==> k < |rows|)
    && (forall k: nat {:trigger table[(id, k)]} {:trigger rows[k]} :: k < |rows| ==> table[(id, k)] == rows[k])
  }

  function TasksIn(db: Database, id: InstanceID): seq<Task> { if id in db then db[id].tasks else [] }

  function AuditIn(db: Database, id: InstanceID): seq<AuditRecord> { if id in db then db[id].audit else [] }

  /** The tables hold exactly these aggregates. */
  ghost predicate Represents(rows: Rows, db: Database) {
    && rows.parents.Keys == db.Keys
    && (forall id :: id in db ==> rows.parents[id] == ParentOf(db[id]) && db[id].id == id && id != EMPTY)
    && TasksStored(rows.tasks, db) && AuditStored(rows.audit, db)
    && UniqueIDs(rows.tasks)
  }

  /** Rows that list an instance's values read back as exactly those values. */
  lemma OrderedIsListed<Row(!new)>(table: map<Key, Row>, id: InstanceID, positions: seq<nat>, rows: seq<Row>,
                                   listed: seq<Row>)
    requires Ordered(table, id, positions, rows) && Lists(table, id, listed)
    ensures rows == listed
  {
    ConsecutivePositions(positions, |listed|);
  }

  /** A strictly increasing sequence of exactly the numbers below n counts them. */
  lemma {:induction false} ConsecutivePositions(positions: seq<nat>, n: nat)
    requires forall a, b :: 0 <= a < b < |positions| ==> positions[a] < positions[b]
    requires forall k: nat :: k in positions <==> k < n
    ensures |positions| == n && forall i :: 0 <= i < n ==> positions[i] == i
  {
    if positions == [] {
      assert n > 0 ==> 0 in positions;
    } else {
      assert positions[0] in positions;
      var last := |positions| - 1;
      assert n - 1 in positions;
      var at :| 0 <= at < |positions| && positions[at] == n - 1;
      assert positions[last] in positions && positions[last] < n;
      assert at == last;
      var init := positions[..last];
      forall k: nat ensures k in init <==> k < n - 1 {
        if k < n - 1 {
          assert k in positions;
          var x :| 0 <= x < |positions| && positions[x] == k;
          assert init[x] == k;
        }
        if k in init {
          var x :| 0 <= x < |init| && init[x] == k;
          assert positions[x] in positions;
        }
      }
      ConsecutivePositions(init, n - 1);
    }
  }

  /* What the statements do to listed rows */

  lemma {:induction false} InsertedLookup<K, Row>(table: map<K, Row>, batch: seq<Entry<K, Row>>)
    requires NewKeys(table, batch)
    ensures forall key :: key in table ==> key in Inserted(table, batch) && Inserted(table, batch)[key] == table[key]
    ensures forall i :: 0 <= i < |batch| ==>
              batch[i].key in Inserted(table, batch) && Inserted(table, batch)[batch[i].key] == batch[i].row
    ensures forall key :: key in Inserted(table, batch) ==>
              key in table || exists i :: 0 <= i < |batch| && key == batch[i].key
  {
    if batch == [] {
    } else {
      InsertedLookup(table, batch[..|batch| - 1]);
    }
  }

  lemma {:induction false} InsertedConcat<K, Row>(table: map<K, Row>, a: seq<Entry<K, Row>>, b: seq<Entry<K, Row>>)
    ensures Inserted(table, a + b) == Inserted(Inserted(table, a), b)
  {
    if b == [] {
      assert a + b == a;
    } else {
      assert (a + b)[..|a + b| - 1] == a + b[..|b| - 1];
      InsertedConcat(table, a, b[..|b| - 1]);
    }
  }

  lemma NewKeysSplit<K, Row>(table: map<K, Row>, a: seq<Entry<K, Row>>, b: seq<Entry<K, Row>>)
    ensures NewKeys(table, a + b) <==> NewKeys(table, a) && NewKeys(Inserted(table, a), b)
  {
    var both := a + b;
    assert forall i :: 0 <= i < |a| ==> both[i] == a[i];
    assert forall i :: 0 <= i < |b| ==> both[|a| + i] == b[i];
    if NewKeys(table, a) {
      InsertedLookup(table, a);
    }
  }

  ghost predicate ComposesAt<Row>(insert: (Rows, seq<Entry<Key, Row>>) -> Option<Rows>, rows: Rows,
                                  a: seq<Entry<Key, Row>>, b: seq<Entry<Key, Row>>) {
    insert(rows, a + b) == if insert(rows, a).None? then None else insert(insert(rows, a).value, b)
  }

  /** Inserting in two parts succeeds exactly when inserting at once does, with the same rows. */
  ghost predicate Composes<Row(!new)>(insert: (Rows, seq<Entry<Key, Row>>) -> Option<Rows>) {
    forall rows, a, b :: ComposesAt(insert, rows, a, b)
  }

  lemma TasksCompose()
    ensures Composes(InsertTaskRows)
  {
    forall rows: Rows, a: seq<Entry<Key, TaskRow>>, b: seq<Entry<Key, TaskRow>>
        ensures ComposesAt(InsertTaskRows, rows, a, b) {
      InsertedConcat(rows.tasks, a, b);
      NewKeysSplit(rows.tasks, a, b);
      BatchChecks(rows, a, b);
      if NewKeys(rows.tasks, a) && NewKeys(Inserted(rows.tasks, a), b) {
        InsertedLookup(Inserted(rows.tasks, a), b);
        UniqueBelow(Inserted(rows.tasks, a), Inserted(Inserted(rows.tasks, a), b));
      }
    }
  }

  lemma BatchChecks(rows: Rows, a: seq<Entry<Key, TaskRow>>, b: seq<Entry<Key, TaskRow>>)
    ensures (forall i :: 0 <= i < |a + b| ==> (a + b)[i].key.0 in rows.parents && TaskRowAllowed((a + b)[i].row))
            <==> (forall i :: 0 <= i < |a| ==> a[i].key.0 in rows.parents && TaskRowAllowed(a[i].row))
                 && (forall i :: 0 <= i < |b| ==> b[i].key.0 in rows.parents && TaskRowAllowed(b[i].row))
  {
    var both := a + b;
    assert forall i :: 0 <= i < |a| ==> both[i] == a[i];
    assert forall i :: 0 <= i < |b| ==> both[|a| + i] == b[i];
  }

  lemma UniqueBelow(smaller: map<Key, TaskRow>, larger: map<Key, TaskRow>)
    requires forall key :: key in smaller ==> key in larger && larger[key] == smaller[key]
    ensures UniqueIDs(larger) ==> UniqueIDs(smaller)
  {
    if UniqueIDs(larger) {
      forall a, b | a in smaller && b in smaller ensures !TaskClash(smaller, a, b) { assert !TaskClash(larger, a, b); }
    }
  }

  lemma AuditCompose()
    ensures Composes(InsertAuditRows)
  {
    forall rows: Rows, a: seq<Entry<Key, AuditRow>>, b: seq<Entry<Key, AuditRow>>
        ensures ComposesAt(InsertAuditRows, rows, a, b) {
      InsertedConcat(rows.audit, a, b);
      NewKeysSplit(rows.audit, a, b);
      var both := a + b;
      assert forall i :: 0 <= i < |a| ==> both[i] == a[i];
      assert forall i :: 0 <= i < |b| ==> both[|a| + i] == b[i];
    }
  }

  /** Appending rows at the first free position extends what the instance lists and touches no other instance. */
  lemma InsertedLists<Row(!new)>(table: map<Key, Row>, id: InstanceID, front: seq<Row>, values: seq<Row>)
    requires Lists(table, id, front)
    ensures NewKeys(table, Entries(id, |front|, values))
    ensures Lists(Inserted(table, Entries(id, |front|, values)), id, front + values)
    ensures forall other, rows :: other != id && Lists(table, other, rows) ==>
              Lists(Inserted(table, Entries(id, |front|, values)), other, rows)
  {
    var batch := Entries(id, |front|, values);
    var after := Inserted(table, batch);
    InsertedLookup(table, batch);
    forall k: nat ensures (id, k) in after <==> k < |front + values| {
      if |front| <= k < |front + values| { assert batch[k - |front|].key == (id, k); }
    }
    forall k: nat | k < |front + values| ensures after[(id, k)] == (front + values)[k] {
      if |front| <= k { assert batch[k - |front|].key == (id, k); } else {
        assert (id, k) in table && table[(id, k)] == front[k];
      }
    }
    forall other, rows | other != id && Lists(table, other, rows) ensures Lists(after, other, rows) {
      forall k: nat ensures (other, k) in after <==> k < |rows| { assert (other, k) in after <==> (other, k) in table; }
      forall k: nat | k < |rows| ensures after[(other, k)] == rows[k] { assert (other, k) in table; }
    }
  }

  lemma DeletedLists<Row(!new)>(table: map<Key, Row>, id: InstanceID)
    ensures Lists(Without(table, id), id, [])
    ensures forall other, rows :: other != id && Lists(table, other, rows) ==> Lists(Without(table, id), other, rows)
  {
    var after := Without(table, id);
    forall other, rows | other != id && Lists(table, other, rows) ensures Lists(after, other, rows) {
      forall k: nat ensures (other, k) in after <==> k < |rows| { assert (other, k) in after <==> (other, k) in table; }
      forall k: nat | k < |rows| ensures after[(other, k)] == rows[k] { assert (other, k) in table; }
    }
  }

  lemma NothingToDelete<Row(!new)>(table: map<Key, Row>, id: InstanceID)
    requires Lists(table, id, [])
    ensures Without(table, id) == table
  {
    forall key | key in table ensures key in Without(table, id) {
      assert key.0 == id ==> (id, key.1) in table;
    }
  }

  /* Writing one aggregate */

  ghost predicate TasksAt(table: map<Key, TaskRow>, db: Database, id: InstanceID) {
    Lists(table, id, TaskRows(TasksIn(db, id)))
  }

  ghost predicate AuditAt(table: map<Key, AuditRow>, db: Database, id: InstanceID) {
    Lists(table, id, AuditRows(AuditIn(db, id)))
  }

  ghost predicate TasksStored(table: map<Key, TaskRow>, db: Database) { forall id :: TasksAt(table, db, id) }

  ghost predicate AuditStored(table: map<Key, AuditRow>, db: Database) { forall id :: AuditAt(table, db, id) }

  /** Replacing the task rows stores the new tasks, and violates uniqueness exactly when their identities repeat. */
  lemma TasksReplaced(table: map<Key, TaskRow>, db: Database, s: Snapshot)
    requires TasksStored(table, db) && UniqueIDs(table)
    ensures var batch := Entries(s.id, 0, TaskRows(s.tasks));
            var after := Inserted(Without(table, s.id), batch);
            && NewKeys(Without(table, s.id), batch)
            && TasksStored(after, db[s.id := s])
            && (UniqueIDs(after) <==> I.UniqueTasks(s.tasks))
  {
    hide Lists, UniqueIDs, NewKeys, I.UniqueTasks;
    var cleared := Without(table, s.id);
    var rows := TaskRows(s.tasks);
    DeletedLists(table, s.id);
    InsertedLists(cleared, s.id, [], rows);
    var after := Inserted(cleared, Entries(s.id, 0, rows));
    assert [] + rows == rows;
    var next := db[s.id := s];
    forall id: InstanceID ensures TasksAt(after, next, id) {
      assert TasksAt(table, db, id);
    }
    ClearedUnique(table, s.id);
    InsertedElsewhere(cleared, s.id, 0, rows);
    UniqueAfter(cleared, after, s);
  }

  lemma ClearedUnique(table: map<Key, TaskRow>, id: InstanceID)
    requires UniqueIDs(table)
    ensures UniqueIDs(Without(table, id))
  {
    UniqueBelow(Without(table, id), table);
  }

  lemma InsertedElsewhere<Row(!new)>(table: map<Key, Row>, id: InstanceID, offset: nat, rows: seq<Row>)
    requires NewKeys(table, Entries(id, offset, rows))
    ensures forall key :: key in Inserted(table, Entries(id, offset, rows)) && key.0 != id ==>
              key in table && table[key] == Inserted(table, Entries(id, offset, rows))[key]
  {
    InsertedLookup(table, Entries(id, offset, rows));
  }

  lemma UniqueAfter(cleared: map<Key, TaskRow>, after: map<Key, TaskRow>, s: Snapshot)
    requires UniqueIDs(cleared) && Lists(after, s.id, TaskRows(s.tasks))
    requires forall key :: key in after && key.0 != s.id ==> key in cleared && cleared[key] == after[key]
    ensures UniqueIDs(after) <==> I.UniqueTasks(s.tasks)
  {
    var id := s.id;
    if UniqueIDs(after) {
      forall i: nat, j: nat | i < j < |s.tasks| ensures !I.SameTaskID(s.tasks, i, j) {
        assert (id, i) in after && (id, j) in after;
        assert !TaskClash(after, (id, i), (id, j));
        assert after[(id, i)] == TaskRows(s.tasks)[i] && after[(id, j)] == TaskRows(s.tasks)[j];
      }
    }
    if I.UniqueTasks(s.tasks) {
      forall a, b | a in after && b in after ensures !TaskClash(after, a, b) {
        if a.0 == id && b.0 == id && a != b {
          assert (id, a.1) in after && (id, b.1) in after;
          assert after[a] == TaskRows(s.tasks)[a.1] && after[b] == TaskRows(s.tasks)[b.1];
          if a.1 < b.1 { assert !I.SameTaskID(s.tasks, a.1, b.1); } else { assert !I.SameTaskID(s.tasks, b.1, a.1); }
        } else if a.0 != id && b.0 != id {
          assert !TaskClash(cleared, a, b);
        }
      }
    }
  }

  /** Only the suffix is inserted, and the whole audit is stored. */
  lemma AuditAppended(table: map<Key, AuditRow>, db: Database, s: Snapshot)
    requires AuditStored(table, db) && AuditIn(db, s.id) <= s.audit
    ensures var offset := |AuditIn(db, s.id)|;
            var batch := Entries(s.id, offset, AuditRows(s.audit[offset..]));
            && NewKeys(table, batch)
            && AuditStored(Inserted(table, batch), db[s.id := s])
  {
    var durable := AuditIn(db, s.id);
    var suffix := AuditRows(s.audit[|durable|..]);
    assert AuditAt(table, db, s.id);
    InsertedLists(table, s.id, AuditRows(durable), suffix);
    assert AuditRows(durable) + suffix == AuditRows(s.audit);
    var after := Inserted(table, Entries(s.id, |durable|, suffix));
    var next := db[s.id := s];
    forall id: InstanceID ensures AuditAt(after, next, id) {
      assert AuditAt(table, db, id);
    }
  }

  /** Audit payloads carry dates as text, so an aggregate with a date outside the calendar cannot be encoded. */
  predicate Dated(s: Snapshot) { forall i :: 0 <= i < |s.audit| ==> Dateable(s.audit[i].at) }

  /** What the child tables demand of an aggregate. */
  ghost predicate SchemaValid(s: Snapshot) {
    (forall i :: 0 <= i < |s.tasks| ==> TaskRowAllowed(TaskRowOf(s.tasks[i]))) && I.UniqueTasks(s.tasks)
  }

  /** Everything the engine writes satisfies the schema. */
  lemma SoundIsSchemaValid(s: Snapshot)
    requires I.Sound(s)
    ensures SchemaValid(s)
  {
    forall i | 0 <= i < |s.tasks| ensures TaskRowAllowed(TaskRowOf(s.tasks[i])) { assert I.TaskSound(s.tasks[i]); }
  }

  /** Audit actions are never empty text. */
  lemma ActionsNamed(action: Action)
    ensures ActionText(action) != ""
  {
  }

  /* Reading one aggregate */

  lemma TasksHere(table: map<Key, TaskRow>, db: Database, id: InstanceID)
    requires TasksStored(table, db)
    ensures TasksAt(table, db, id)
  {
  }

  lemma AuditHere(table: map<Key, AuditRow>, db: Database, id: InstanceID)
    requires AuditStored(table, db)
    ensures AuditAt(table, db, id)
  {
  }

  lemma SelectedIsListed<Row(!new)>(table: map<Key, Row>, id: InstanceID, selected: seq<Row>, listed: seq<Row>)
    requires (exists positions: seq<nat> :: Ordered(table, id, positions, selected)) && Lists(table, id, listed)
    ensures selected == listed
  {
    var positions: seq<nat> :| Ordered(table, id, positions, selected);
    OrderedIsListed(table, id, positions, selected, listed);
  }

  method LoadTasks(rows: Rows, id: InstanceID, ghost db: Database) returns (tasks: seq<Task>)
    requires TasksStored(rows.tasks, db)
    ensures tasks == TasksIn(db, id)
  {
    hide TasksStored;
    var selected := Select(rows.tasks, id);
    assert selected == TaskRows(TasksIn(db, id)) by {
      assert TasksAt(rows.tasks, db, id) by { TasksHere(rows.tasks, db, id); }
      SelectedIsListed(rows.tasks, id, selected, TaskRows(TasksIn(db, id)));
    }
    tasks := [];
    for i := 0 to |selected|
      invariant tasks == TasksIn(db, id)[..i]
    {
      tasks := tasks + [selected[i].payload];
    }
  }

  method LoadAudit(rows: Rows, id: InstanceID, ghost db: Database) returns (audit: seq<AuditRecord>)
    requires AuditStored(rows.audit, db)
    ensures audit == AuditIn(db, id)
  {
    hide AuditStored;
    var selected := Select(rows.audit, id);
    assert selected == AuditRows(AuditIn(db, id)) by {
      assert AuditAt(rows.audit, db, id) by { AuditHere(rows.audit, db, id); }
      SelectedIsListed(rows.audit, id, selected, AuditRows(AuditIn(db, id)));
    }
    audit := [];
    for i := 0 to |selected|
      invariant audit == AuditIn(db, id)[..i]
    {
      audit := audit + [selected[i].payload];
    }
  }

  /** Three reads rebuild the aggregate that was written last. */
  method LoadSnapshot(rows: Rows, id: InstanceID, ghost db: Database) returns (r: Result<Snapshot>)
    requires Represents(rows, db)
    ensures r == LoadFrom(db, id)
  {
    if id !in rows.parents {
      return Failure(InstanceNotFound);
    }
    var parent := rows.parents[id];
    var tasks := LoadTasks(rows, id, db);
    var audit := LoadAudit(rows, id, db);
    return Success(Snapshot(id, parent.definition, parent.status, parent.initiator, parent.currentNodeID, parent.data,
                            parent.nodeState, tasks, audit, parent.version));
  }

  /** The rows of a task list, numbered from zero. */
  method BuildTaskRows(id: InstanceID, tasks: seq<Task>) returns (entries: seq<Entry<Key, TaskRow>>)
    ensures entries == Entries(id, 0, TaskRows(tasks))
  {
    entries := [];
    for i := 0 to |tasks|
      invariant |entries| == i
      invariant forall k :: 0 <= k < i ==> entries[k] == Entry((id, k), TaskRowOf(tasks[k]))
    {
      entries := entries + [Entry((id, i), TaskRowOf(tasks[i]))];
    }
  }

  /** The rows of an audit suffix, numbered from the first free position. */
  method BuildAuditRows(id: InstanceID, audit: seq<AuditRecord>, offset: nat)
    returns (entries: seq<Entry<Key, AuditRow>>)
    ensures entries == Entries(id, offset, AuditRows(audit))
  {
    entries := [];
    for i := 0 to |audit|
      invariant |entries| == i
      invariant forall k :: 0 <= k < i ==> entries[k] == Entry((id, offset + k), AuditRowOf(audit[k]))
    {
      entries := entries + [Entry((id, offset + i), AuditRowOf(audit[i]))];
    }
  }

  /** Everything but the parent row is stored for the old aggregates and the parent row is the new one's. */
  ghost predicate ParentWritten(rows: Rows, db: Database, s: Snapshot) {
    && Represents(rows.(parents := if s.id in db then rows.parents[s.id := ParentOf(db[s.id])]
                        else rows.parents - {s.id}), db)
    && s.id != EMPTY && s.id in rows.parents && rows.parents[s.id] == ParentOf(s)
  }

  /** Whether the child rows can be replaced, and that the tables then hold the new aggregate. */
  lemma ChildrenReplaced(rows: Rows, db: Database, s: Snapshot)
    requires ParentWritten(rows, db, s) && AuditIn(db, s.id) <= s.audit
    ensures var cleared := DeleteTasks(rows, s.id);
            var tasks := InsertTaskRows(cleared, Entries(s.id, 0, TaskRows(s.tasks)));
            var offset := |AuditIn(db, s.id)|;
            && (tasks.Some? <==> SchemaValid(s))
            && (tasks.Some? ==>
                  var audit := InsertAuditRows(tasks.value, Entries(s.id, offset, AuditRows(s.audit[offset..])));
                  audit.Some? && Represents(audit.value, db[s.id := s]))
  {
    hide TasksStored, AuditStored, UniqueIDs, NewKeys, I.UniqueTasks, Inserted;
    var batch := Entries(s.id, 0, TaskRows(s.tasks));
    var cleared := DeleteTasks(rows, s.id);
    TasksReplaced(rows.tasks, db, s);
    AuditAppended(rows.audit, db, s);
    assert forall i :: 0 <= i < |batch| ==> batch[i].row == TaskRowOf(s.tasks[i]) && batch[i].key.0 == s.id;
    if forall i :: 0 <= i < |batch| ==> TaskRowAllowed(batch[i].row) {
      forall i | 0 <= i < |s.tasks| ensures TaskRowAllowed(TaskRowOf(s.tasks[i])) {
        assert batch[i].row == TaskRowOf(s.tasks[i]);
      }
    }
    var offset := |AuditIn(db, s.id)|;
    var suffix := Entries(s.id, offset, AuditRows(s.audit[offset..]));
    forall i | 0 <= i < |suffix| ensures suffix[i].row.action != "" { ActionsNamed(s.audit[offset + i].action); }
  }

  lemma NoEntries(id: InstanceID)
    ensures Entries(id, 0, TaskRows([])) == []
    ensures forall offset: nat :: Entries(id, offset, AuditRows([])) == []
  {
  }

  lemma NewParentWritten(begin: Rows, db: Database, s: Snapshot)
    requires Represents(begin, db) && InsertParent(begin, s.id, ParentOf(s)).Some?
    ensures ParentWritten(InsertParent(begin, s.id, ParentOf(s)).value, db, s)
  {
    var rows := InsertParent(begin, s.id, ParentOf(s)).value;
    assert rows.parents - {s.id} == begin.parents;
  }

  lemma UpdatedParentWritten(begin: Rows, db: Database, s: Snapshot, expectedVersion: nat)
    requires Represents(begin, db) && Matches(begin, s.id, expectedVersion)
    ensures ParentWritten(UpdateParent(begin, s.id, ParentOf(s), expectedVersion), db, s)
  {
    var rows := UpdateParent(begin, s.id, ParentOf(s), expectedVersion);
    assert rows.parents[s.id := ParentOf(db[s.id])] == begin.parents;
  }

  /** Creating needs no deletion: an unknown instance has no rows. */
  lemma FirstWrite(rows: Rows, db: Database, s: Snapshot)
    requires ParentWritten(rows, db, s) && s.id !in db
    ensures DeleteTasks(rows, s.id) == rows && s.audit[0..] == s.audit
  {
    TasksHere(rows.tasks, db, s.id);
    NothingToDelete(rows.tasks, s.id);
  }

  lemma SameKeys(rows: Rows, db: Database)
    requires Represents(rows, db)
    ensures rows.parents.Keys == db.Keys
  {
  }
}
