/** The read model: rows derived from each aggregate as it is committed, and the positions used to page through them. */
module Projections {
  import opened Workflow
  import opened Stores
  import opened Tables
  import I = Invariants

  datatype InstanceRow = InstanceRow(
    definitionID: Name,
    definitionVersion: nat,
    status: InstanceStatus,
    initiator: ActorID,
    currentNodeID: NodeID,
    startedAt: Option<Time>,
    lastAuditAt: Option<Time>,
    orderAt: Time)

  datatype ParticipationRow = ParticipationRow(ordinal: nat, actorID: ActorID, nodeID: NodeID, status: TaskStatus,
                                               outcome: Outcome)

  type TaskRef = (InstanceID, TaskID)

  datatype Views = Views(instances: map<InstanceID, InstanceRow>, participation: map<TaskRef, ParticipationRow>)

  const NO_VIEWS := Views(map[], map[])

  /* Audit times */

  datatype Times = Times(startedAt: Option<Time>, lastAuditAt: Option<Time>, orderAt: Time)

  ghost predicate IsStart(r: AuditRecord) { r.action.InstanceStarted? && r.at != ZERO_TIME }

  /** The first dated start and the last dated record, with a fixed order key when nothing is dated. */
  ghost predicate TimesOf(audit: seq<AuditRecord>, times: Times) {
    && (match times.startedAt
        case None => forall i :: 0 <= i < |audit| ==> !IsStart(audit[i])
        case Some(at) =>
          exists i :: 0 <= i < |audit| && IsStart(audit[i]) && audit[i].at == at
                      && forall k :: 0 <= k < i ==> !IsStart(audit[k]))
    && (match times.lastAuditAt
        case None => (forall i :: 0 <= i < |audit| ==> audit[i].at == ZERO_TIME) && times.orderAt == UNIX_EPOCH
        case Some(at) =>
          && times.orderAt == at && at != ZERO_TIME
          && exists i :: 0 <= i < |audit| && audit[i].at == at
                         && forall k :: i < k < |audit| ==> audit[k].at == ZERO_TIME)
  }

  /** How the server keeps a time, such as to the nearest microsecond. */
  type Rounding = Time -> Time

  function Kept(times: Times, rounded: Rounding): Times {
    Times(if times.startedAt.None? then None else Some(rounded(times.startedAt.value)),
          if times.lastAuditAt.None? then None else Some(rounded(times.lastAuditAt.value)),
          rounded(times.orderAt))
  }

  lemma TimesUnique(audit: seq<AuditRecord>, a: Times, b: Times)
    requires TimesOf(audit, a) && TimesOf(audit, b)
    ensures a == b
  {
  }

  method ProjectionAuditTimes(audit: seq<AuditRecord>) returns (times: Times)
    ensures TimesOf(audit, times)
  {
    var startedAt: Option<Time> := None;
    var lastAuditAt: Option<Time> := None;
    ghost var first := 0;
    ghost var last := 0;
    for i := 0 to |audit|
      invariant startedAt.None? ==> forall k :: 0 <= k < i ==> !IsStart(audit[k])
      invariant startedAt.Some? ==> 0 <= first < i && IsStart(audit[first]) && audit[first].at == startedAt.value
                                    && forall k :: 0 <= k < first ==> !IsStart(audit[k])
      invariant lastAuditAt.None? ==> forall k :: 0 <= k < i ==> audit[k].at == ZERO_TIME
      invariant lastAuditAt.Some? ==>
                  0 <= last < i && audit[last].at == lastAuditAt.value && lastAuditAt.value != ZERO_TIME
                                      && forall k :: last < k < i ==> audit[k].at == ZERO_TIME
    {
      if audit[i].action.InstanceStarted? && startedAt.None? && audit[i].at != ZERO_TIME {
        startedAt := Some(audit[i].at);
        first := i;
      }
      if audit[i].at != ZERO_TIME {
        lastAuditAt := Some(audit[i].at);
        last := i;
      }
    }
    if lastAuditAt.None? {
      return Times(startedAt, None, UNIX_EPOCH);
    }
    return Times(startedAt, lastAuditAt, lastAuditAt.value);
  }

  /* Positions */

  const ENCODING_VERSION := 1
  const TASK_FAMILY := "task"
  const INSTANCE_FAMILY := "instance"

  datatype TaskKey = TaskKey(at: Time, instanceID: InstanceID, taskID: TaskID)

  datatype InstanceKey = InstanceKey(at: Time, instanceID: InstanceID)

  /** The fields a continuation token carries. */
  datatype Envelope = Envelope(version: nat, family: string, at: Time, instanceID: InstanceID, taskID: TaskID)

  const MAX_TOKEN_LENGTH := 1024

  /** The text form of envelopes; some, such as those with dates no calendar text can hold, have none. */
  datatype Codec = Codec(encode: Envelope -> Option<string>, decode: string -> Option<Envelope>)

  /** Reading a written envelope gives it back; other texts may read as well. */
  ghost predicate Lossless(codec: Codec) {
    forall e: Envelope :: codec.encode(e).Some? ==>
        codec.encode(e).value != "" && codec.decode(codec.encode(e).value) == Some(e)
  }

  function EncodeEnvelope(token: Envelope, codec: Codec): Result<string> {
    var text := codec.encode(token);
    if text.None? then Failure(EncodingFailed)
    else if |text.value| > MAX_TOKEN_LENGTH then Failure(InvalidProjectionQuery)
    else Success(text.value)
  }

  function DecodeEnvelope(text: string, codec: Codec): Result<Envelope> {
    if text == "" || |text| > MAX_TOKEN_LENGTH || codec.decode(text).None? then Failure(InvalidProjectionQuery)
    else Success(codec.decode(text).value)
  }

  function EncodeTask(key: TaskKey, codec: Codec): Result<string> {
    if key.at == ZERO_TIME || key.instanceID == EMPTY || key.taskID == EMPTY then Failure(InvalidProjectionQuery)
    else EncodeEnvelope(Envelope(ENCODING_VERSION, TASK_FAMILY, key.at, key.instanceID, key.taskID), codec)
  }

  function DecodeTask(text: string, codec: Codec): Result<TaskKey> {
    var token :- DecodeEnvelope(text, codec);
    if token.version != ENCODING_VERSION || token.family != TASK_FAMILY then Failure(InvalidProjectionQuery)
    else if token.at == ZERO_TIME || token.instanceID == EMPTY || token.taskID == EMPTY
        then Failure(InvalidProjectionQuery)
    else Success(TaskKey(token.at, token.instanceID, token.taskID))
  }

  function EncodeInstance(key: InstanceKey, codec: Codec): Result<string> {
    if key.at == ZERO_TIME || key.instanceID == EMPTY then Failure(InvalidProjectionQuery)
    else EncodeEnvelope(Envelope(ENCODING_VERSION, INSTANCE_FAMILY, key.at, key.instanceID, EMPTY), codec)
  }

  function DecodeInstance(text: string, codec: Codec): Result<InstanceKey> {
    var token :- DecodeEnvelope(text, codec);
    if token.version != ENCODING_VERSION || token.family != INSTANCE_FAMILY || token.taskID != EMPTY
    then Failure(InvalidProjectionQuery)
    else if token.at == ZERO_TIME || token.instanceID == EMPTY then Failure(InvalidProjectionQuery)
    else Success(InstanceKey(token.at, token.instanceID))
  }

  /** A token that was handed out decodes to the key it was made from, and no text serves both query families. */
  lemma TokensRoundTrip(codec: Codec, task: TaskKey, instance: InstanceKey, text: string)
    requires Lossless(codec)
    ensures EncodeTask(task, codec) == Success(text) ==> DecodeTask(text, codec) == Success(task)
    ensures EncodeInstance(instance, codec) == Success(text) ==> DecodeInstance(text, codec) == Success(instance)
    ensures DecodeTask(text, codec).Failure? || DecodeInstance(text, codec).Failure?
  {
    assert TASK_FAMILY[0] != INSTANCE_FAMILY[0];
  }

  /* Rows of one aggregate */

  /** A task without owner, node or state is not yet a fact about anyone. */
  predicate Concrete(t: Task) { t.assignee != EMPTY && t.nodeID != EMPTY && !t.status.UnknownStatus? }

  function InstanceRowOf(s: Snapshot, times: Times): InstanceRow {
    InstanceRow(s.definition.id, s.definition.version, s.status, s.initiator, s.currentNodeID,
                times.startedAt, times.lastAuditAt, times.orderAt)
  }

  function ParticipationOf(ordinal: nat, t: Task): ParticipationRow {
    ParticipationRow(ordinal, t.assignee, t.nodeID, t.status, t.outcome)
  }

  /** Every row the aggregate projects to can be the end of a page. */
  ghost predicate Pageable(s: Snapshot, codec: Codec) {
    forall times :: TimesOf(s.audit, times) ==> PageableAt(s, times.orderAt, codec)
  }

  ghost predicate PageableAt(s: Snapshot, at: Time, codec: Codec) {
    && EncodeInstance(InstanceKey(at, s.id), codec).Success?
    && forall i :: 0 <= i < |s.tasks| && Concrete(s.tasks[i]) ==>
         EncodeTask(TaskKey(at, s.id, s.tasks[i].id), codec).Success?
  }

  /** What a token of the aggregate's rows at a time needs besides complete keys. */
  ghost predicate TokensFit(s: Snapshot, at: Time, codec: Codec) {
    && EncodeEnvelope(Envelope(ENCODING_VERSION, INSTANCE_FAMILY, at, s.id, EMPTY), codec).Success?
    && forall i :: 0 <= i < |s.tasks| && Concrete(s.tasks[i]) ==>
         EncodeEnvelope(Envelope(ENCODING_VERSION, TASK_FAMILY, at, s.id, s.tasks[i].id), codec).Success?
  }

  /** The write checks rows at the time it derives, queries see the time the server keeps: what passed the check can
      still
      be paged exactly when the kept time is not the zero time and the tokens at it fit. */
  lemma PageableAsKept(s: Snapshot, derived: Time, kept: Time, codec: Codec)
    requires PageableAt(s, derived, codec)
    ensures PageableAt(s, kept, codec) <==> kept != ZERO_TIME && TokensFit(s, kept, codec)
  {
    forall i | 0 <= i < |s.tasks| && Concrete(s.tasks[i]) ensures s.tasks[i].id != EMPTY {
      assert EncodeTask(TaskKey(derived, s.id, s.tasks[i].id), codec).Success?;
    }
  }

  /** A record dated one nanosecond after the zero time passes the check, and whole microseconds keep no position for
      it. */
  lemma RoundedAway(s: Snapshot, codec: Codec, rounded: Rounding)
    requires s.id != EMPTY && s.tasks == [] && |s.audit| == 1 && s.audit[0].at == 1
    requires TokensFit(s, 1, codec) && rounded(1) == ZERO_TIME
    ensures Pageable(s, codec)
    ensures forall times :: TimesOf(s.audit, times) ==> !PageableAt(s, rounded(times.orderAt), codec)
  {
  }

  /* Meaning of the views */

  /** The read row of an instance shows these facts of the aggregate, column by column. */
  ghost predicate RowOf(row: InstanceRow, s: Snapshot, times: Times, rounded: Rounding) {
    && row.definitionID == s.definition.id && row.definitionVersion == s.definition.version
    && row.status == s.status && row.initiator == s.initiator && row.currentNodeID == s.currentNodeID
    && (match times.startedAt case None => row.startedAt == None case Some(at) => row.startedAt == Some(rounded(at)))
    && (match times.lastAuditAt
        case None => row.lastAuditAt == None
        case Some(at) => row.lastAuditAt == Some(rounded(at)))
    && row.orderAt == rounded(times.orderAt)
  }

  /** The read row of a task shows these facts of it. */
  predicate FactOf(row: ParticipationRow, ordinal: nat, t: Task) {
    && row.ordinal == ordinal && row.actorID == t.assignee && row.nodeID == t.nodeID
    && row.status == t.status && row.outcome == t.outcome
  }

  ghost predicate InstanceProjected(views: Views, s: Snapshot, rounded: Rounding) {
    && s.id in views.instances
    && exists times :: TimesOf(s.audit, times) && RowOf(views.instances[s.id], s, times, rounded)
  }

  /** The row of a task is there exactly when the task is concrete. */
  ghost predicate TaskProjected(views: Views, s: Snapshot, i: nat)
    requires i < |s.tasks|
  {
    Concrete(s.tasks[i]) ==>
      (s.id, s.tasks[i].id) in views.participation
          && FactOf(views.participation[(s.id, s.tasks[i].id)], i, s.tasks[i])
  }

  ghost predicate RowGrounded(views: Views, db: Database, ref: TaskRef)
    requires ref in views.participation
  {
    && ref.0 in db
    && var i := views.participation[ref].ordinal;
       i < |db[ref.0].tasks| && Concrete(db[ref.0].tasks[i]) && db[ref.0].tasks[i].id == ref.1
       && FactOf(views.participation[ref], i, db[ref.0].tasks[i])
  }

  /** The views are a function of the stored aggregates: no row is missing, stale or left over. */
  ghost predicate Projected(views: Views, db: Database, rounded: Rounding) {
    && views.instances.Keys == db.Keys
    && (forall id :: id in db ==> db[id].id == id && InstanceProjected(views, db[id], rounded))
    && (forall id, i: nat {:trigger TaskProjected(views, db[id], i)} :: id in db && i < |db[id].tasks| ==>
        TaskProjected(views, db[id], i))
    && (forall ref :: ref in views.participation ==> RowGrounded(views, db, ref))
  }

  /* Writing */

  /** Some dated or fallback order key always exists, so the position of a row is well defined. */
  method ValidateContinuationKeys(s: Snapshot, times: Times, codec: Codec) returns (ok: bool)
    requires TimesOf(s.audit, times)
    ensures ok <==> Pageable(s, codec)
  {
    forall other | TimesOf(s.audit, other) ensures other == times { TimesUnique(s.audit, times, other); }
    if EncodeInstance(InstanceKey(times.orderAt, s.id), codec).Failure? {
      return false;
    }
    for i := 0 to |s.tasks|
      invariant forall k :: 0 <= k < i && Concrete(s.tasks[k]) ==>
                  EncodeTask(TaskKey(times.orderAt, s.id, s.tasks[k].id), codec).Success?
    {
      if Concrete(s.tasks[i]) && EncodeTask(TaskKey(times.orderAt, s.id, s.tasks[i].id), codec).Failure? {
        return false;
      }
    }
    return true;
  }

  function RefOf(s: Snapshot, i: nat): TaskRef
    requires i < |s.tasks|
  {
    (s.id, s.tasks[i].id)
  }

  /** The batch holds the rows of exactly the concrete tasks before a position. */
  ghost predicate Derived(s: Snapshot, n: nat, batch: seq<Entry<TaskRef, ParticipationRow>>) {
    && n <= |s.tasks|
    && (forall k :: 0 <= k < |batch| ==>
          && batch[k].row.ordinal < n && Concrete(s.tasks[batch[k].row.ordinal])
          && batch[k].key == RefOf(s, batch[k].row.ordinal)
          && FactOf(batch[k].row, batch[k].row.ordinal, s.tasks[batch[k].row.ordinal]))
    && (forall i :: 0 <= i < n && Concrete(s.tasks[i]) ==> exists k :: 0 <= k < |batch| && batch[k].row.ordinal == i)
    && (forall j, k :: 0 <= j < k < |batch| ==> batch[j].row.ordinal < batch[k].row.ordinal)
  }

  method BuildParticipation(s: Snapshot) returns (batch: seq<Entry<TaskRef, ParticipationRow>>)
    ensures Derived(s, |s.tasks|, batch)
  {
    batch := [];
    for i := 0 to |s.tasks|
      invariant Derived(s, i, batch)
    {
      if Concrete(s.tasks[i]) {
        var longer := batch + [Entry(RefOf(s, i), ParticipationOf(i, s.tasks[i]))];
        assert longer[|batch|].row.ordinal == i;
        forall j | 0 <= j < i && Concrete(s.tasks[j])
            ensures exists k :: 0 <= k < |longer| && longer[k].row.ordinal == j {
          var k :| 0 <= k < |batch| && batch[k].row.ordinal == j;
          assert longer[k].row.ordinal == j;
        }
        batch := longer;
      }
    }
  }

  function WithoutRefs(table: map<TaskRef, ParticipationRow>, id: InstanceID): map<TaskRef, ParticipationRow> {
    map ref | ref in table && ref.0 != id :: table[ref]
  }

  /** Distinct task identities make the bulk copy free of key violations. */
  lemma CopyAccepted(table: map<TaskRef, ParticipationRow>, s: Snapshot, batch: seq<Entry<TaskRef, ParticipationRow>>)
    requires I.UniqueTasks(s.tasks) && Derived(s, |s.tasks|, batch)
    ensures NewKeys(WithoutRefs(table, s.id), batch)
  {
    forall j, k | 0 <= j < k < |batch| ensures batch[j].key != batch[k].key {
      assert !I.SameTaskID(s.tasks, batch[j].row.ordinal, batch[k].row.ordinal);
    }
  }

  /** Replaces the read rows of one aggregate, after checking that each of them can be paged past; `held` says whether
      the server can hold the derived rows. */
  method ReplaceQueryProjection(views: Views, s: Snapshot, codec: Codec, rounded: Rounding, held: bool,
                                ghost db: Database)
    returns (r: Result<Views>)
    requires Projected(views, db, rounded) && I.UniqueTasks(s.tasks)
    ensures r.Success? <==> Pageable(s, codec) && held
    ensures r.Failure? ==> r.error == if Pageable(s, codec) then StatementRefused else InvalidStoreInput
    ensures r.Success? ==> Projected(r.value, db[s.id := s], rounded)
  {
    var times := ProjectionAuditTimes(s.audit);
    var pageable := ValidateContinuationKeys(s, times, codec);
    if !pageable {
      return Failure(InvalidStoreInput);
    }
    if !held {
      return Failure(StatementRefused);
    }
    var instances := views.instances[s.id := InstanceRowOf(s, Kept(times, rounded))];
    var cleared := WithoutRefs(views.participation, s.id);
    var rows := BuildParticipation(s);
    CopyAccepted(views.participation, s, rows);
    ProjectionReplaced(views, db, s, times, rows, rounded);
    return Success(Views(instances, Inserted(cleared, rows)));
  }

  ghost function Replaced(views: Views, s: Snapshot, times: Times,
                          batch: seq<Entry<TaskRef, ParticipationRow>>): Views {
    Views(views.instances[s.id := InstanceRowOf(s, times)], Inserted(WithoutRefs(views.participation, s.id), batch))
  }

  lemma ProjectionReplaced(views: Views, db: Database, s: Snapshot, times: Times,
                           batch: seq<Entry<TaskRef, ParticipationRow>>, rounded: Rounding)
    requires Projected(views, db, rounded) && TimesOf(s.audit, times) && Derived(s, |s.tasks|, batch)
    requires NewKeys(WithoutRefs(views.participation, s.id), batch)
    ensures Projected(Replaced(views, s, Kept(times, rounded), batch), db[s.id := s], rounded)
  {
    hide TimesOf, NewKeys, Inserted, TaskProjected, RowGrounded, Derived;
    var kept := Kept(times, rounded);
    var after := Replaced(views, s, kept, batch);
    var next := db[s.id := s];
    forall id | id in next ensures next[id].id == id && InstanceProjected(after, next[id], rounded) {
      if id != s.id { assert InstanceProjected(views, db[id], rounded); }
    }
    forall id, i: nat | id in next && i < |next[id].tasks| ensures TaskProjected(after, next[id], i) {
      TaskReplaced(views, db, s, kept, batch, id, i, rounded);
    }
    forall ref | ref in after.participation ensures RowGrounded(after, next, ref) {
      RowReplaced(views, db, s, kept, batch, ref, rounded);
    }
  }

  lemma TaskReplaced(views: Views, db: Database, s: Snapshot, times: Times,
                     batch: seq<Entry<TaskRef, ParticipationRow>>,
                     id: InstanceID, i: nat, rounded: Rounding)
    requires Projected(views, db, rounded) && Derived(s, |s.tasks|, batch)
               && NewKeys(WithoutRefs(views.participation, s.id), batch)
    requires id in db[s.id := s] && i < |db[s.id := s][id].tasks|
    ensures TaskProjected(Replaced(views, s, times, batch), db[s.id := s][id], i)
  {
    hide NewKeys, Inserted, Concrete;
    InsertedLookup(WithoutRefs(views.participation, s.id), batch);
    if id != s.id {
      assert TaskProjected(views, db[id], i);
    } else if Concrete(s.tasks[i]) {
      var k :| 0 <= k < |batch| && batch[k].row.ordinal == i;
      assert batch[k].key in Replaced(views, s, times, batch).participation;
    }
  }

  lemma RowReplaced(views: Views, db: Database, s: Snapshot, times: Times,
                    batch: seq<Entry<TaskRef, ParticipationRow>>, ref: TaskRef, rounded: Rounding)
    requires Projected(views, db, rounded) && Derived(s, |s.tasks|, batch)
               && NewKeys(WithoutRefs(views.participation, s.id), batch)
    requires ref in Replaced(views, s, times, batch).participation
    ensures RowGrounded(Replaced(views, s, times, batch), db[s.id := s], ref)
  {
    hide NewKeys, Inserted, Concrete, InstanceProjected, TaskProjected;
    InsertedLookup(WithoutRefs(views.participation, s.id), batch);
    if ref in WithoutRefs(views.participation, s.id) {
      assert RowGrounded(views, db, ref);
    } else {
      var k :| 0 <= k < |batch| && ref == batch[k].key;
    }
  }

  /** The stored aggregates determine every row of the views. */
  lemma ProjectedOnce(a: Views, b: Views, db: Database, rounded: Rounding)
    requires Projected(a, db, rounded) && Projected(b, db, rounded)
    ensures a == b
  {
    hide TimesOf, TaskProjected, RowGrounded;
    forall id | id in db ensures a.instances[id] == b.instances[id] {
      SameInstance(a, b, db[id], rounded);
    }
    SameParticipation(a, b, db, rounded);
    SameParticipation(b, a, db, rounded);
  }

  lemma SameInstance(a: Views, b: Views, s: Snapshot, rounded: Rounding)
    requires InstanceProjected(a, s, rounded) && InstanceProjected(b, s, rounded)
    ensures a.instances[s.id] == b.instances[s.id]
  {
    hide TimesOf;
    var x :| TimesOf(s.audit, x) && RowOf(a.instances[s.id], s, x, rounded);
    var y :| TimesOf(s.audit, y) && RowOf(b.instances[s.id], s, y, rounded);
    TimesUnique(s.audit, x, y);
  }

  lemma SameParticipation(a: Views, b: Views, db: Database, rounded: Rounding)
    requires Projected(a, db, rounded) && Projected(b, db, rounded)
    ensures forall ref :: ref in a.participation ==>
              ref in b.participation && b.participation[ref] == a.participation[ref]
  {
    forall ref | ref in a.participation ensures ref in b.participation && b.participation[ref] == a.participation[ref] {
      assert RowGrounded(a, db, ref);
      assert TaskProjected(b, db[ref.0], a.participation[ref].ordinal);
    }
  }
}
