/** Read queries over the projection: which rows they select, the order they page in and the tokens they hand out. */
module Queries {
  import opened Workflow
  import opened Stores
  import opened Projections
  import opened Paging
  import I = Invariants
  import C = Concurrency
  import P = Postgres

  const DEFAULT_PAGE_LIMIT := 50
  const MAXIMUM_PAGE_LIMIT := 200

  /** The order of text columns in the database. */
  type Collation = (Name, Name) -> bool

  datatype View = Worklist | Participated

  datatype Relation = Candidate | Participant

  /** No scope leaves instances unconstrained; an empty one denies them all. */
  type Scope = Option<seq<InstanceID>>

  datatype TaskItem = TaskItem(
    definitionID: Name, definitionVersion: nat, instanceID: InstanceID, instanceStatus: InstanceStatus,
    initiator: ActorID,
    nodeID: NodeID, taskID: TaskID, actorID: ActorID, taskStatus: TaskStatus, outcome: Outcome, relation: Relation,
    startedAt: Option<Time>, lastAuditAt: Option<Time>)

  datatype InstanceItem = InstanceItem(
    definitionID: Name, definitionVersion: nat, instanceID: InstanceID, instanceStatus: InstanceStatus,
    initiator: ActorID,
    currentNodeID: NodeID, startedAt: Option<Time>, lastAuditAt: Option<Time>)

  datatype Page<+Item, +Key> = Page(items: seq<Item>, next: Option<Key>)

  /* Orders */

  /** ORDER BY order_at DESC, instance_id ASC, task_id ASC. */
  function TaskBefore(less: Collation): (TaskKey, TaskKey) -> bool {
    (a: TaskKey, b: TaskKey) =>
      a.at > b.at
      || (a.at == b.at && (less(a.instanceID, b.instanceID)
                           || (a.instanceID == b.instanceID && less(a.taskID, b.taskID))))
  }

  /** The three-way WHERE clause on a row and the cursor. */
  predicate TaskAfterCursor(less: Collation, row: TaskKey, cursor: TaskKey) {
    || row.at < cursor.at
    || (row.at == cursor.at && less(cursor.instanceID, row.instanceID))
    || (row.at == cursor.at && row.instanceID == cursor.instanceID && less(cursor.taskID, row.taskID))
  }

  /** ORDER BY order_at DESC, instance_id ASC. */
  function InstanceBefore(less: Collation): (InstanceKey, InstanceKey) -> bool {
    (a: InstanceKey, b: InstanceKey) => a.at > b.at || (a.at == b.at && less(a.instanceID, b.instanceID))
  }

  predicate InstanceAfterCursor(less: Collation, row: InstanceKey, cursor: InstanceKey) {
    row.at < cursor.at || (row.at == cursor.at && less(cursor.instanceID, row.instanceID))
  }

  /** The WHERE clause selects exactly what the ORDER BY puts after the cursor, and ties are never left open. */
  lemma TaskOrder(less: Collation)
    requires StrictTotal(less)
    ensures StrictTotal(TaskBefore(less))
    ensures forall row, cursor :: TaskAfterCursor(less, row, cursor) <==> TaskBefore(less)(cursor, row)
  {
    var before := TaskBefore(less);
    forall a: TaskKey ensures !before(a, a) {
      assert !less(a.instanceID, a.instanceID) && !less(a.taskID, a.taskID);
    }
    forall a: TaskKey, b: TaskKey, c: TaskKey | before(a, b) && before(b, c) ensures before(a, c) {
      assert less(a.instanceID, b.instanceID) && less(b.instanceID, c.instanceID) ==> less(a.instanceID, c.instanceID);
      assert less(a.taskID, b.taskID) && less(b.taskID, c.taskID) ==> less(a.taskID, c.taskID);
    }
    forall a: TaskKey, b: TaskKey ensures a == b || before(a, b) || before(b, a) {
      assert a.instanceID == b.instanceID || less(a.instanceID, b.instanceID) || less(b.instanceID, a.instanceID);
      assert a.taskID == b.taskID || less(a.taskID, b.taskID) || less(b.taskID, a.taskID);
    }
  }

  lemma InstanceOrder(less: Collation)
    requires StrictTotal(less)
    ensures StrictTotal(InstanceBefore(less))
    ensures forall row, cursor :: InstanceAfterCursor(less, row, cursor) <==> InstanceBefore(less)(cursor, row)
  {
    var before := InstanceBefore(less);
    forall a: InstanceKey ensures !before(a, a) {
      assert !less(a.instanceID, a.instanceID);
    }
    forall a: InstanceKey, b: InstanceKey, c: InstanceKey | before(a, b) && before(b, c) ensures before(a, c) {
      assert less(a.instanceID, b.instanceID) && less(b.instanceID, c.instanceID) ==> less(a.instanceID, c.instanceID);
    }
    forall a: InstanceKey, b: InstanceKey ensures a == b || before(a, b) || before(b, a) {
      assert a.instanceID == b.instanceID || less(a.instanceID, b.instanceID) || less(b.instanceID, a.instanceID);
    }
  }

  /* Selected rows */

  predicate InScope(scope: Scope, id: InstanceID) { scope.None? || id in scope.value }

  predicate Selects(view: View, row: ParticipationRow, instance: InstanceRow) {
    match view
    case Worklist => row.status.Active? && instance.status.Running?
    case Participated => row.status.Done? || row.status.Closed?
  }

  predicate Matches(views: Views, view: View, actorID: ActorID, scope: Scope, ref: TaskRef) {
    && ref in views.participation && ref.0 in views.instances
    && views.participation[ref].actorID == actorID
    && Selects(view, views.participation[ref], views.instances[ref.0])
    && InScope(scope, ref.0)
  }

  function MatchingTasks(views: Views, view: View, actorID: ActorID, scope: Scope): set<TaskKey> {
    set ref | ref in views.participation && Matches(views, view, actorID, scope, ref) ::
      TaskKey(views.instances[ref.0].orderAt, ref.0, ref.1)
  }

  function MatchingInstances(views: Views, actorID: ActorID, scope: Scope): set<InstanceKey> {
    set id | id in views.instances && views.instances[id].initiator == actorID && InScope(scope, id) ::
      InstanceKey(views.instances[id].orderAt, id)
  }

  function TaskItemOf(views: Views, key: TaskKey, relation: Relation): TaskItem
    requires key.instanceID in views.instances && (key.instanceID, key.taskID) in views.participation
  {
    var i := views.instances[key.instanceID];
    var p := views.participation[(key.instanceID, key.taskID)];
    TaskItem(i.definitionID, i.definitionVersion, key.instanceID, i.status, i.initiator, p.nodeID, key.taskID,
             p.actorID,
             p.status, p.outcome, relation, i.startedAt, i.lastAuditAt)
  }

  function InstanceItemOf(views: Views, id: InstanceID): InstanceItem
    requires id in views.instances
  {
    var i := views.instances[id];
    InstanceItem(i.definitionID, i.definitionVersion, id, i.status, i.initiator, i.currentNodeID, i.startedAt,
                 i.lastAuditAt)
  }

  /** The item shows the joined rows of its key, column by column. */
  ghost predicate ShowsTask(views: Views, key: TaskKey, relation: Relation, item: TaskItem) {
    && key.instanceID in views.instances && (key.instanceID, key.taskID) in views.participation
    && var i := views.instances[key.instanceID];
       var p := views.participation[(key.instanceID, key.taskID)];
       && item.instanceID == key.instanceID && item.taskID == key.taskID && item.relation == relation
       && item.definitionID == i.definitionID && item.definitionVersion == i.definitionVersion
       && item.instanceStatus == i.status && item.initiator == i.initiator
       && item.startedAt == i.startedAt && item.lastAuditAt == i.lastAuditAt
       && item.nodeID == p.nodeID && item.actorID == p.actorID
       && item.taskStatus == p.status && item.outcome == p.outcome
  }

  ghost predicate ShowsInstance(views: Views, key: InstanceKey, item: InstanceItem) {
    && key.instanceID in views.instances
    && var i := views.instances[key.instanceID];
       && item.instanceID == key.instanceID
       && item.definitionID == i.definitionID && item.definitionVersion == i.definitionVersion
       && item.instanceStatus == i.status && item.initiator == i.initiator && item.currentNodeID == i.currentNodeID
       && item.startedAt == i.startedAt && item.lastAuditAt == i.lastAuditAt
  }

  ghost predicate ShowsTasks(views: Views, keys: seq<TaskKey>, relation: Relation, items: seq<TaskItem>) {
    |items| == |keys| && forall i :: 0 <= i < |keys| ==> ShowsTask(views, keys[i], relation, items[i])
  }

  ghost predicate ShowsInstances(views: Views, keys: seq<InstanceKey>, items: seq<InstanceItem>) {
    |items| == |keys| && forall i :: 0 <= i < |keys| ==> ShowsInstance(views, keys[i], items[i])
  }

  /* Queries */

  datatype Boundary = Boundary(actorID: ActorID, scope: Scope, limit: nat)

  /** Text parameters the server can bind. */
  predicate Bindable(query: Boundary) {
    && P.IsText(query.actorID)
    && (query.scope.Some? ==> forall i :: 0 <= i < |query.scope.value| ==> P.IsText(query.scope.value[i]))
  }

  predicate TaskBindable(after: Option<TaskKey>) {
    after.Some? ==> P.IsText(after.value.instanceID) && P.IsText(after.value.taskID)
  }

  predicate InstanceBindable(after: Option<InstanceKey>) { after.Some? ==> P.IsText(after.value.instanceID) }

  /** The items of one page of the matching rows, and the position of the last of them when more follow. */
  ghost predicate IsTaskPage(views: Views, less: Collation, view: View, query: Boundary, after: Option<TaskKey>,
                             relation: Relation,
                             page: Page<TaskItem, TaskKey>)
  {
    exists keys ::
      && IsPage(MatchingTasks(views, view, query.actorID, query.scope), after, query.limit, TaskBefore(less), keys,
                page.next)
      && ShowsTasks(views, keys, relation, page.items)
  }

  ghost predicate IsInstancePage(views: Views, less: Collation, query: Boundary, after: Option<InstanceKey>,
                                 page: Page<InstanceItem, InstanceKey>)
  {
    exists keys ::
      && IsPage(MatchingInstances(views, query.actorID, query.scope), after, query.limit, InstanceBefore(less), keys,
                page.next)
      && ShowsInstances(views, keys, page.items)
  }

  predicate LimitAllowed(limit: int) { limit == 0 || 1 <= limit <= MAXIMUM_PAGE_LIMIT }

  function LimitOf(limit: int): int { if limit == 0 then DEFAULT_PAGE_LIMIT else limit }

  function PageSize(limit: int): nat
    requires LimitAllowed(limit)
  {
    LimitOf(limit)
  }

  function PrepareQuery(actorID: ActorID, scope: Scope, requestedLimit: int): (r: Result<Boundary>)
    ensures r.Success? <==> actorID != EMPTY && LimitAllowed(requestedLimit)
    ensures r.Success? ==> 1 <= r.value.limit == LimitOf(requestedLimit)
    ensures r.Success? ==> r.value.actorID == actorID && r.value.scope == scope
    ensures r.Failure? ==> r.error == InvalidProjectionQuery
  {
    if actorID == EMPTY then Failure(InvalidProjectionQuery) else
    var limit := LimitOf(requestedLimit);
    if limit < 1 || limit > MAXIMUM_PAGE_LIMIT then Failure(InvalidProjectionQuery)
    else Success(Boundary(actorID, scope, limit))
  }

  /** Runs the statement: one row more than the page shows. */
  method SelectTasks(views: Views, less: Collation, view: View, query: Boundary, after: Option<TaskKey>)
    returns (rows: seq<TaskKey>)
    requires StrictTotal(less) && query.limit >= 1
    ensures var s := MatchingTasks(views, view, query.actorID, query.scope);
            IsPage(s, after, query.limit, TaskBefore(less), if |rows| > query.limit then rows[..query.limit] else rows,
                      if |rows| > query.limit then Some(rows[query.limit - 1]) else None)
    ensures forall i :: 0 <= i < |rows| ==>
              rows[i].instanceID in views.instances && (rows[i].instanceID, rows[i].taskID) in views.participation
  {
    var before := TaskBefore(less);
    TaskOrder(less);
    var matching := MatchingTasks(views, view, query.actorID, query.scope);
    var selected := set key | key in matching && (after.None? || TaskAfterCursor(less, key, after.value));
    assert selected == Beyond(matching, after, before);
    ghost var rest;
    rows, rest := Fetch(selected, before, query.limit + 1);
    LookAhead(matching, after, query.limit, before, rows, rest);
  }

  lemma NoTasksInScope(views: Views, less: Collation, view: View, query: Boundary, after: Option<TaskKey>)
    requires query.scope == Some([])
    ensures IsPage(MatchingTasks(views, view, query.actorID, query.scope), after, query.limit, TaskBefore(less), [],
                   None)
  {
    assert Enumerates([], Beyond(MatchingTasks(views, view, query.actorID, query.scope), after, TaskBefore(less)),
                      TaskBefore(less));
  }

  /** One look-ahead row decides whether the page has a continuation. */
  method QueryTaskProjection(views: Views, less: Collation, view: View, query: Boundary, after: Option<TaskKey>,
                             relation: Relation)
    returns (r: Result<Page<TaskItem, TaskKey>>)
    requires StrictTotal(less) && query.limit >= 1
    ensures r == Failure(StatementRefused)
              || (r.Success? && IsTaskPage(views, less, view, query, after, relation, r.value))
    ensures r.Success? <==> query.scope == Some([]) || (Bindable(query) && TaskBindable(after))
  {
    hide StrictTotal, IsPage, MatchingTasks, InScope;
    if query.scope.Some? && |query.scope.value| == 0 {
      NoTasksInScope(views, less, view, query, after);
      assert ShowsTasks(views, [], relation, []);
      return Success(Page([], None));
    }
    if !Bindable(query) || !TaskBindable(after) {
      return Failure(StatementRefused);
    }
    var rows := SelectTasks(views, less, view, query, after);
    var items: seq<TaskItem> := [];
    var orderTimes: seq<Time> := [];
    for i := 0 to |rows|
      invariant ShowsTasks(views, rows[..i], relation, items)
      invariant |orderTimes| == i && forall k :: 0 <= k < i ==> orderTimes[k] == rows[k].at
    {
      items := items + [TaskItemOf(views, rows[i], relation)];
      orderTimes := orderTimes + [rows[i].at];
    }
    assert rows[..|rows|] == rows;
    if |items| > query.limit {
      var lastIndex := query.limit - 1;
      var last := items[lastIndex];
      var page := Page(items[..query.limit], Some(TaskKey(orderTimes[lastIndex], last.instanceID, last.taskID)));
      assert ShowsTasks(views, rows[..query.limit], relation, page.items);
      return Success(page);
    } else {
      return Success(Page(items, None));
    }
  }

  /** Runs the statement: one row more than the page shows. */
  method SelectInstances(views: Views, less: Collation, query: Boundary, after: Option<InstanceKey>)
    returns (rows: seq<InstanceKey>)
    requires StrictTotal(less) && query.limit >= 1
    ensures var s := MatchingInstances(views, query.actorID, query.scope);
            IsPage(s, after, query.limit, InstanceBefore(less), if |rows| > query.limit then rows[..query.limit]
                   else rows,
                      if |rows| > query.limit then Some(rows[query.limit - 1]) else None)
    ensures forall i :: 0 <= i < |rows| ==> rows[i].instanceID in views.instances
  {
    var before := InstanceBefore(less);
    InstanceOrder(less);
    var matching := MatchingInstances(views, query.actorID, query.scope);
    var selected := set key | key in matching && (after.None? || InstanceAfterCursor(less, key, after.value));
    assert selected == Beyond(matching, after, before);
    ghost var rest;
    rows, rest := Fetch(selected, before, query.limit + 1);
    LookAhead(matching, after, query.limit, before, rows, rest);
  }

  lemma NoInstancesInScope(views: Views, less: Collation, query: Boundary, after: Option<InstanceKey>)
    requires query.scope == Some([])
    ensures IsPage(MatchingInstances(views, query.actorID, query.scope), after, query.limit, InstanceBefore(less), [],
                   None)
  {
    assert Enumerates([], Beyond(MatchingInstances(views, query.actorID, query.scope), after, InstanceBefore(less)),
                      InstanceBefore(less));
  }

  method QueryInstanceProjection(views: Views, less: Collation, query: Boundary, after: Option<InstanceKey>)
    returns (r: Result<Page<InstanceItem, InstanceKey>>)
    requires StrictTotal(less) && query.limit >= 1
    ensures r == Failure(StatementRefused) || (r.Success? && IsInstancePage(views, less, query, after, r.value))
    ensures r.Success? <==> query.scope == Some([]) || (Bindable(query) && InstanceBindable(after))
  {
    hide StrictTotal, IsPage, MatchingInstances, InScope;
    if query.scope.Some? && |query.scope.value| == 0 {
      NoInstancesInScope(views, less, query, after);
      assert ShowsInstances(views, [], []);
      return Success(Page([], None));
    }
    if !Bindable(query) || !InstanceBindable(after) {
      return Failure(StatementRefused);
    }
    var rows := SelectInstances(views, less, query, after);
    var items: seq<InstanceItem> := [];
    var orderTimes: seq<Time> := [];
    for i := 0 to |rows|
      invariant ShowsInstances(views, rows[..i], items)
      invariant |orderTimes| == i && forall k :: 0 <= k < i ==> orderTimes[k] == rows[k].at
    {
      items := items + [InstanceItemOf(views, rows[i].instanceID)];
      orderTimes := orderTimes + [rows[i].at];
    }
    assert rows[..|rows|] == rows;
    if |items| > query.limit {
      var lastIndex := query.limit - 1;
      var page := Page(items[..query.limit], Some(InstanceKey(orderTimes[lastIndex], items[lastIndex].instanceID)));
      assert ShowsInstances(views, rows[..query.limit], page.items);
      return Success(page);
    } else {
      return Success(Page(items, None));
    }
  }

  /* Public pages */

  function RelationOf(view: View): Relation { if view.Worklist? then Candidate else Participant }

  /** A page as callers see it; the empty token asks for the first page and marks the last one. */
  datatype TokenPage<+Item> = TokenPage(items: seq<Item>, next: string)

  function TaskAfter(after: string, codec: Codec): Result<Option<TaskKey>> {
    if after == "" then Success(None) else
    var key :- DecodeTask(after, codec);
    Success(Some(key))
  }

  function InstanceAfter(after: string, codec: Codec): Result<Option<InstanceKey>> {
    if after == "" then Success(None) else
    var key :- DecodeInstance(after, codec);
    Success(Some(key))
  }

  /** The page after the token; its own token decodes to its last position. */
  ghost predicate TaskAnswer(views: Views, less: Collation, codec: Codec, view: View, actorID: ActorID, scope: Scope,
                             limit: int,
                             after: string, page: TokenPage<TaskItem>)
  {
    && LimitAllowed(limit) && TaskAfter(after, codec).Success? && TaskAfter(page.next, codec).Success?
    && IsTaskPage(views, less, view, Boundary(actorID, scope, LimitOf(limit)), TaskAfter(after, codec).value,
                  RelationOf(view),
                  Page(page.items, TaskAfter(page.next, codec).value))
  }

  ghost predicate InstanceAnswer(views: Views, less: Collation, codec: Codec, actorID: ActorID, scope: Scope,
                                 limit: int,
                                 after: string, page: TokenPage<InstanceItem>)
  {
    && LimitAllowed(limit) && InstanceAfter(after, codec).Success? && InstanceAfter(page.next, codec).Success?
    && IsInstancePage(views, less, Boundary(actorID, scope, LimitOf(limit)), InstanceAfter(after, codec).value,
                      Page(page.items, InstanceAfter(page.next, codec).value))
  }

  /** The rows are those of the aggregates, each of which passed the checks of its write. */
  ghost predicate Served(views: Views, db: Database, server: P.Server) {
    Projected(views, db, server.rounded) && P.AllPageable(db, server.codec) && P.AllHeld(db, server)
  }

  /** Rounding the stored times lost no position: every row can still end a page. */
  ghost predicate PageableAsStored(db: Database, server: P.Server) {
    forall id, times :: id in db && TimesOf(db[id].audit, times) ==>
      PageableAt(db[id], server.rounded(times.orderAt), server.codec)
  }

  /** A selected row was checked by the write of its aggregate. */
  lemma SelectedTask(views: Views, db: Database, view: View, actorID: ActorID, scope: Scope, key: TaskKey,
                     server: P.Server)
    requires Served(views, db, server) && key in MatchingTasks(views, view, actorID, scope)
    ensures P.IsText(key.instanceID) && P.IsText(key.taskID)
    ensures PageableAsStored(db, server) ==> EncodeTask(key, server.codec).Success?
  {
    var ref := (key.instanceID, key.taskID);
    var rounded := server.rounded;
    assert RowGrounded(views, db, ref);
    assert InstanceProjected(views, db[ref.0], rounded);
    var times :| TimesOf(db[ref.0].audit, times)
                 && RowOf(views.instances[ref.0], db[ref.0], times, rounded);
    assert P.Held(db[ref.0], server);
    assert P.TaskHeld(ref.0, db[ref.0].tasks[views.participation[ref].ordinal], server);
    assert PageableAsStored(db, server) ==> PageableAt(db[ref.0], rounded(times.orderAt), server.codec);
  }

  lemma SelectedInstance(views: Views, db: Database, actorID: ActorID, scope: Scope, key: InstanceKey, server: P.Server)
    requires Served(views, db, server) && key in MatchingInstances(views, actorID, scope)
    ensures P.IsText(key.instanceID)
    ensures PageableAsStored(db, server) ==> EncodeInstance(key, server.codec).Success?
  {
    var id := key.instanceID;
    var rounded := server.rounded;
    assert InstanceProjected(views, db[id], rounded);
    var times :| TimesOf(db[id].audit, times) && RowOf(views.instances[id], db[id], times, rounded);
    assert P.Held(db[id], server);
    assert PageableAsStored(db, server) ==> PageableAt(db[id], rounded(times.orderAt), server.codec);
  }

  /** The inputs of a task page are in order: all of it can be checked before the call. */
  predicate TaskInputs(codec: Codec, actorID: ActorID, scope: Scope, limit: int, after: string) {
    && actorID != EMPTY && LimitAllowed(limit) && TaskAfter(after, codec).Success?
    && (scope == Some([])
        || (Bindable(Boundary(actorID, scope, LimitOf(limit))) && TaskBindable(TaskAfter(after, codec).value)))
  }

  predicate InstanceInputs(codec: Codec, actorID: ActorID, scope: Scope, limit: int, after: string) {
    && actorID != EMPTY && LimitAllowed(limit) && InstanceAfter(after, codec).Success?
    && (scope == Some([])
        || (Bindable(Boundary(actorID, scope, LimitOf(limit))) && InstanceBindable(InstanceAfter(after, codec).value)))
  }

  /** The page exists, but its last row has no token: the one failure that inputs do not show. */
  ghost predicate TaskStuck(views: Views, less: Collation, codec: Codec, view: View, query: Boundary,
                            after: Option<TaskKey>,
                            error: Error)
  {
    exists page :: IsTaskPage(views, less, view, query, after, RelationOf(view), page)
                   && page.next.Some? && EncodeTask(page.next.value, codec) == Failure(error)
  }

  ghost predicate InstanceStuck(views: Views, less: Collation, codec: Codec, query: Boundary,
                                after: Option<InstanceKey>,
                                error: Error)
  {
    exists page :: IsInstancePage(views, less, query, after, page)
                   && page.next.Some? && EncodeInstance(page.next.value, codec) == Failure(error)
  }

  /** Everything that can be refused before the query runs. */
  method PrepareTask(codec: Codec, actorID: ActorID, scope: Scope, limit: int, after: string)
    returns (r: Result<(Boundary, Option<TaskKey>)>)
    ensures r.Success? <==> actorID != EMPTY && LimitAllowed(limit) && TaskAfter(after, codec).Success?
    ensures r.Success? ==> r.value == (Boundary(actorID, scope, PageSize(limit)), TaskAfter(after, codec).value)
    ensures r.Failure? ==> r.error == InvalidProjectionQuery
  {
    var prepared := PrepareQuery(actorID, scope, limit);
    if prepared.Failure? {
      return Failure(prepared.error);
    }
    if after == "" {
      return Success((prepared.value, None));
    }
    var decoded := DecodeTask(after, codec);
    if decoded.Failure? {
      DecodeFails(after, codec);
      return Failure(InvalidProjectionQuery);
    }
    return Success((prepared.value, Some(decoded.value)));
  }

  /** A page with its token. Besides bad inputs only a row whose stored time has no token can make it fail, and none can
      when rounding lost no position. */
  method TaskPage(views: Views, less: Collation, server: P.Server, view: View, actorID: ActorID, scope: Scope,
                  limit: int,
                  after: string, ghost db: Database)
    returns (r: Result<TokenPage<TaskItem>>)
    requires StrictTotal(less) && Lossless(server.codec) && Served(views, db, server)
    ensures r.Success? ==>
              && TaskInputs(server.codec, actorID, scope, limit, after)
              && TaskAnswer(views, less, server.codec, view, actorID, scope, limit, after, r.value)
    ensures r.Failure? && !TaskInputs(server.codec, actorID, scope, limit, after) ==>
              r.error == InvalidProjectionQuery || r.error == StatementRefused
    ensures r.Failure? && TaskInputs(server.codec, actorID, scope, limit, after) ==>
              TaskStuck(views, less, server.codec, view, Boundary(actorID, scope, LimitOf(limit)),
                        TaskAfter(after, server.codec).value, r.error)
    ensures TaskInputs(server.codec, actorID, scope, limit, after) && PageableAsStored(db, server) ==> r.Success?
  {
    var codec := server.codec;
    var prepared := PrepareTask(codec, actorID, scope, limit, after);
    if prepared.Failure? {
      return Failure(prepared.error);
    }
    var (query, start) := prepared.value;
    hide StrictTotal, Served, IsTaskPage, DecodeTask, EncodeTask, TaskAfter, Lossless, Bindable, TaskBindable,
         TaskStuck, PageableAsStored;
    var answer := QueryTaskProjection(views, less, view, query, start, RelationOf(view));
    if answer.Failure? {
      return Failure(StatementRefused);
    }
    var page := answer.value;
    var token := "";
    FirstPage(codec);
    if page.next.Some? {
      NextTask(views, less, view, query, start, RelationOf(view), page, server, db);
      var encoded := EncodeTask(page.next.value, codec);
      if encoded.Failure? {
        IsTaskStuck(views, less, codec, view, query, start, page, encoded.error);
        return Failure(encoded.error);
      }
      TokenReadsBack(codec, page.next.value, encoded.value);
      token := encoded.value;
    }
    return Success(TokenPage(page.items, token));
  }

  lemma DecodeFails(after: string, codec: Codec)
    ensures DecodeTask(after, codec).Failure? ==> DecodeTask(after, codec).error == InvalidProjectionQuery
    ensures DecodeInstance(after, codec).Failure? ==> DecodeInstance(after, codec).error == InvalidProjectionQuery
  {
  }

  lemma TokenReadsBack(codec: Codec, key: TaskKey, text: string)
    requires Lossless(codec) && EncodeTask(key, codec) == Success(text)
    ensures TaskAfter(text, codec) == Success(Some(key))
  {
    TokensRoundTrip(codec, key, InstanceKey(ZERO_TIME, EMPTY), text);
  }

  lemma InstanceTokenReadsBack(codec: Codec, key: InstanceKey, text: string)
    requires Lossless(codec) && EncodeInstance(key, codec) == Success(text)
    ensures InstanceAfter(text, codec) == Success(Some(key))
  {
    TokensRoundTrip(codec, TaskKey(ZERO_TIME, EMPTY, EMPTY), key, text);
  }

  lemma FirstPage(codec: Codec)
    ensures TaskAfter("", codec) == Success(None) && InstanceAfter("", codec) == Success(None)
  {
  }

  lemma IsTaskStuck(views: Views, less: Collation, codec: Codec, view: View, query: Boundary, after: Option<TaskKey>,
                  page: Page<TaskItem, TaskKey>, error: Error)
    requires IsTaskPage(views, less, view, query, after, RelationOf(view), page)
    requires page.next.Some? && EncodeTask(page.next.value, codec) == Failure(error)
    ensures TaskStuck(views, less, codec, view, query, after, error)
  {
  }

  lemma NextTask(views: Views, less: Collation, view: View, query: Boundary, after: Option<TaskKey>, relation: Relation,
                 page: Page<TaskItem, TaskKey>, server: P.Server, db: Database)
    requires IsTaskPage(views, less, view, query, after, relation, page) && page.next.Some? && Served(views, db, server)
    ensures P.IsText(page.next.value.instanceID) && P.IsText(page.next.value.taskID)
    ensures PageableAsStored(db, server) ==> EncodeTask(page.next.value, server.codec).Success?
  {
    hide IsPage, Served, ShowsTasks, PageableAsStored;
    var s := MatchingTasks(views, view, query.actorID, query.scope);
    var keys :|
      && IsPage(s, after, query.limit, TaskBefore(less), keys, page.next)
      && ShowsTasks(views, keys, relation, page.items);
    ContinuationIsRow(s, after, query.limit, TaskBefore(less), keys, page.next);
    SelectedTask(views, db, view, query.actorID, query.scope, page.next.value, server);
  }

  /** Everything that can be refused before the query runs. */
  method PrepareInstance(codec: Codec, actorID: ActorID, scope: Scope, limit: int, after: string)
    returns (r: Result<(Boundary, Option<InstanceKey>)>)
    ensures r.Success? <==> actorID != EMPTY && LimitAllowed(limit) && InstanceAfter(after, codec).Success?
    ensures r.Success? ==> r.value == (Boundary(actorID, scope, PageSize(limit)), InstanceAfter(after, codec).value)
    ensures r.Failure? ==> r.error == InvalidProjectionQuery
  {
    var prepared := PrepareQuery(actorID, scope, limit);
    if prepared.Failure? {
      return Failure(prepared.error);
    }
    if after == "" {
      return Success((prepared.value, None));
    }
    var decoded := DecodeInstance(after, codec);
    if decoded.Failure? {
      DecodeFails(after, codec);
      return Failure(InvalidProjectionQuery);
    }
    return Success((prepared.value, Some(decoded.value)));
  }

  method InitiatedPage(views: Views, less: Collation, server: P.Server, actorID: ActorID, scope: Scope, limit: int,
                       after: string, ghost db: Database)
    returns (r: Result<TokenPage<InstanceItem>>)
    requires StrictTotal(less) && Lossless(server.codec) && Served(views, db, server)
    ensures r.Success? ==>
              && InstanceInputs(server.codec, actorID, scope, limit, after)
              && InstanceAnswer(views, less, server.codec, actorID, scope, limit, after, r.value)
    ensures r.Failure? && !InstanceInputs(server.codec, actorID, scope, limit, after) ==>
              r.error == InvalidProjectionQuery || r.error == StatementRefused
    ensures r.Failure? && InstanceInputs(server.codec, actorID, scope, limit, after) ==>
              InstanceStuck(views, less, server.codec, Boundary(actorID, scope, LimitOf(limit)),
                            InstanceAfter(after, server.codec).value, r.error)
    ensures InstanceInputs(server.codec, actorID, scope, limit, after) && PageableAsStored(db, server) ==> r.Success?
  {
    var codec := server.codec;
    var prepared := PrepareInstance(codec, actorID, scope, limit, after);
    if prepared.Failure? {
      return Failure(prepared.error);
    }
    var (query, start) := prepared.value;
    hide StrictTotal, Served, IsInstancePage, DecodeInstance, EncodeInstance, InstanceAfter, Lossless, Bindable,
         InstanceBindable, InstanceStuck;
    hide PageableAsStored;
    var answer := QueryInstanceProjection(views, less, query, start);
    if answer.Failure? {
      return Failure(StatementRefused);
    }
    var page := answer.value;
    var token := "";
    FirstPage(codec);
    if page.next.Some? {
      NextInstance(views, less, query, start, page, server, db);
      var encoded := EncodeInstance(page.next.value, codec);
      if encoded.Failure? {
        IsInstanceStuck(views, less, codec, query, start, page, encoded.error);
        return Failure(encoded.error);
      }
      InstanceTokenReadsBack(codec, page.next.value, encoded.value);
      token := encoded.value;
    }
    return Success(TokenPage(page.items, token));
  }

  lemma IsInstanceStuck(views: Views, less: Collation, codec: Codec, query: Boundary, after: Option<InstanceKey>,
                  page: Page<InstanceItem, InstanceKey>, error: Error)
    requires IsInstancePage(views, less, query, after, page)
    requires page.next.Some? && EncodeInstance(page.next.value, codec) == Failure(error)
    ensures InstanceStuck(views, less, codec, query, after, error)
  {
  }

  lemma NextInstance(views: Views, less: Collation, query: Boundary, after: Option<InstanceKey>,
                     page: Page<InstanceItem, InstanceKey>, server: P.Server, db: Database)
    requires IsInstancePage(views, less, query, after, page) && page.next.Some? && Served(views, db, server)
    ensures P.IsText(page.next.value.instanceID)
    ensures PageableAsStored(db, server) ==> EncodeInstance(page.next.value, server.codec).Success?
  {
    hide IsPage, Served, ShowsInstances, PageableAsStored;
    var s := MatchingInstances(views, query.actorID, query.scope);
    var keys :|
      && IsPage(s, after, query.limit, InstanceBefore(less), keys, page.next)
      && ShowsInstances(views, keys, page.items);
    ContinuationIsRow(s, after, query.limit, InstanceBefore(less), keys, page.next);
    SelectedInstance(views, db, query.actorID, query.scope, page.next.value, server);
  }

  /** A token that was handed out is accepted by the next query for the same rows, with any allowed limit. */
  lemma TokenAccepted(views: Views, less: Collation, server: P.Server, view: View, actorID: ActorID, scope: Scope,
                      limit: int, after: string, page: TokenPage<TaskItem>, nextLimit: int, db: Database)
    requires Served(views, db, server) && LimitAllowed(nextLimit)
    requires TaskInputs(server.codec, actorID, scope, limit, after)
    requires TaskAnswer(views, less, server.codec, view, actorID, scope, limit, after, page) && page.next != ""
    ensures TaskInputs(server.codec, actorID, scope, nextLimit, page.next)
  {
    hide Served, IsTaskPage;
    NextTask(views, less, view, Boundary(actorID, scope, LimitOf(limit)), TaskAfter(after, server.codec).value,
             RelationOf(view), Page(page.items, TaskAfter(page.next, server.codec).value), server, db);
  }

  lemma InstanceTokenAccepted(views: Views, less: Collation, server: P.Server, actorID: ActorID, scope: Scope,
                              limit: int, after: string, page: TokenPage<InstanceItem>, nextLimit: int, db: Database)
    requires Served(views, db, server) && LimitAllowed(nextLimit)
    requires InstanceInputs(server.codec, actorID, scope, limit, after)
    requires InstanceAnswer(views, less, server.codec, actorID, scope, limit, after, page) && page.next != ""
    ensures InstanceInputs(server.codec, actorID, scope, nextLimit, page.next)
  {
    hide Served, IsInstancePage;
    NextInstance(views, less, Boundary(actorID, scope, LimitOf(limit)), InstanceAfter(after, server.codec).value,
                 Page(page.items, InstanceAfter(page.next, server.codec).value), server, db);
  }

  /* Agreement with the aggregates */

  /** A task of a stored aggregate, at the position its instance has in the order. */
  ghost predicate TaskOf(db: Database, key: TaskKey, i: nat, times: Times, rounded: Rounding) {
    && key.instanceID in db && i < |db[key.instanceID].tasks|
    && db[key.instanceID].tasks[i].id == key.taskID
    && TimesOf(db[key.instanceID].audit, times) && rounded(times.orderAt) == key.at
  }

  /** Open work of the actor, read from the aggregates alone; nothing is said about the instance still running. */
  ghost predicate OpenWork(db: Database, actorID: ActorID, scope: Scope, key: TaskKey, rounded: Rounding) {
    && (scope.Some? ==> key.instanceID in scope.value)
    && exists i: nat, times :: TaskOf(db, key, i, times, rounded)
         && db[key.instanceID].tasks[i].status.Active? && db[key.instanceID].tasks[i].assignee == actorID
  }

  /** For everything the engine stores, the worklist is exactly the actor's open tasks, so asking for running
      instances removes nothing. */
  lemma WorklistIsOpenWork(views: Views, db: Database, actorID: ActorID, scope: Scope, key: TaskKey, rounded: Rounding)
    requires Projected(views, db, rounded) && C.AllSound(db) && actorID != EMPTY
    ensures key in MatchingTasks(views, Worklist, actorID, scope) <==> OpenWork(db, actorID, scope, key, rounded)
  {
    hide I.Sound, Projected, TimesOf;
    if key in MatchingTasks(views, Worklist, actorID, scope) {
      ListedTask(views, db, Worklist, actorID, scope, key, rounded);
    }
    if OpenWork(db, actorID, scope, key, rounded) {
      var i: nat, times :| TaskOf(db, key, i, times, rounded)
        && db[key.instanceID].tasks[i].status.Active? && db[key.instanceID].tasks[i].assignee == actorID;
      OpenIsConcrete(db[key.instanceID], i);
      ProjectedTask(views, db, key, i, times, rounded);
      assert Matches(views, Worklist, actorID, scope, (key.instanceID, key.taskID));
    }
  }

  lemma OpenIsConcrete(s: Snapshot, i: nat)
    requires I.Sound(s) && i < |s.tasks| && s.tasks[i].status.Active? && s.tasks[i].assignee != EMPTY
    ensures Concrete(s.tasks[i]) && s.status.Running?
  {
  }

  /** A selected row is a task of the aggregate it names. */
  lemma ListedTask(views: Views, db: Database, view: View, actorID: ActorID, scope: Scope, key: TaskKey,
                   rounded: Rounding)
    requires Projected(views, db, rounded) && key in MatchingTasks(views, view, actorID, scope)
    ensures scope.Some? ==> key.instanceID in scope.value
    ensures exists i: nat, times :: TaskOf(db, key, i, times, rounded)
              && db[key.instanceID].tasks[i].assignee == actorID
              && (view.Worklist? ==> db[key.instanceID].tasks[i].status.Active?)
              && (view.Participated? ==>
                    db[key.instanceID].tasks[i].status.Done? || db[key.instanceID].tasks[i].status.Closed?)
  {
    var ref := (key.instanceID, key.taskID);
    assert Matches(views, view, actorID, scope, ref);
    assert RowGrounded(views, db, ref);
    assert InstanceProjected(views, db[ref.0], rounded);
    var times :| TimesOf(db[ref.0].audit, times)
        && RowOf(views.instances[ref.0], db[ref.0], times, rounded);
    assert TaskOf(db, key, views.participation[ref].ordinal, times, rounded);
  }

  lemma ProjectedTask(views: Views, db: Database, key: TaskKey, i: nat, times: Times, rounded: Rounding)
    requires Projected(views, db, rounded) && TaskOf(db, key, i, times, rounded)
               && Concrete(db[key.instanceID].tasks[i])
    ensures (key.instanceID, key.taskID) in views.participation && key.instanceID in views.instances
    ensures FactOf(views.participation[(key.instanceID, key.taskID)], i, db[key.instanceID].tasks[i])
    ensures RowOf(views.instances[key.instanceID], db[key.instanceID], times, rounded)
  {
    var s := db[key.instanceID];
    assert TaskProjected(views, s, i);
    assert InstanceProjected(views, s, rounded);
    var stored :| TimesOf(s.audit, stored) && RowOf(views.instances[s.id], s, stored, rounded);
    TimesUnique(s.audit, stored, times);
  }

  /** Decided work of the actor, read from the aggregates alone. */
  ghost predicate DecidedWork(db: Database, actorID: ActorID, scope: Scope, key: TaskKey, rounded: Rounding) {
    && (scope.Some? ==> key.instanceID in scope.value)
    && exists i: nat, times :: TaskOf(db, key, i, times, rounded)
         && (db[key.instanceID].tasks[i].status.Done? || db[key.instanceID].tasks[i].status.Closed?)
         && db[key.instanceID].tasks[i].assignee == actorID
  }

  lemma ParticipatedIsDecidedWork(views: Views, db: Database, actorID: ActorID, scope: Scope, key: TaskKey,
                                  rounded: Rounding)
    requires Projected(views, db, rounded) && C.AllSound(db) && actorID != EMPTY
    ensures key in MatchingTasks(views, Participated, actorID, scope) <==> DecidedWork(db, actorID, scope, key, rounded)
  {
    hide I.Sound, Projected, TimesOf;
    if key in MatchingTasks(views, Participated, actorID, scope) {
      ListedTask(views, db, Participated, actorID, scope, key, rounded);
    }
    if DecidedWork(db, actorID, scope, key, rounded) {
      var i: nat, times :| TaskOf(db, key, i, times, rounded)
        && (db[key.instanceID].tasks[i].status.Done? || db[key.instanceID].tasks[i].status.Closed?)
        && db[key.instanceID].tasks[i].assignee == actorID;
      OwnedIsConcrete(db[key.instanceID], i);
      ProjectedTask(views, db, key, i, times, rounded);
      assert Matches(views, Participated, actorID, scope, (key.instanceID, key.taskID));
    }
  }

  lemma OwnedIsConcrete(s: Snapshot, i: nat)
    requires I.Sound(s) && i < |s.tasks| && s.tasks[i].assignee != EMPTY
    ensures Concrete(s.tasks[i])
  {
    assert I.TaskSound(s.tasks[i]);
  }

  /** The instances an actor started, read from the aggregates alone. */
  ghost predicate StartedBy(db: Database, actorID: ActorID, scope: Scope, key: InstanceKey, rounded: Rounding) {
    && (scope.Some? ==> key.instanceID in scope.value)
    && key.instanceID in db && db[key.instanceID].initiator == actorID
    && exists times :: TimesOf(db[key.instanceID].audit, times) && rounded(times.orderAt) == key.at
  }

  lemma InitiatedIsStarted(views: Views, db: Database, actorID: ActorID, scope: Scope, key: InstanceKey,
                           rounded: Rounding)
    requires Projected(views, db, rounded)
    ensures key in MatchingInstances(views, actorID, scope) <==> StartedBy(db, actorID, scope, key, rounded)
  {
    hide TimesOf;
    var id := key.instanceID;
    if id in db {
      assert InstanceProjected(views, db[id], rounded);
      var stored :| TimesOf(db[id].audit, stored)
          && RowOf(views.instances[id], db[id], stored, rounded);
      forall times | TimesOf(db[id].audit, times) ensures times == stored { TimesUnique(db[id].audit, times, stored); }
    }
  }

  /* Shown items, read from the aggregates */

  ghost predicate ShowsTimes(startedAt: Option<Time>, lastAuditAt: Option<Time>, audit: seq<AuditRecord>,
                             rounded: Rounding) {
    exists times :: TimesOf(audit, times)
      && startedAt == (if times.startedAt.None? then None else Some(rounded(times.startedAt.value)))
      && lastAuditAt == (if times.lastAuditAt.None? then None else Some(rounded(times.lastAuditAt.value)))
  }

  /** The item is that task of that aggregate: who asked owns it, and every other column is the aggregate's own. */
  ghost predicate ShowsWork(db: Database, rounded: Rounding, actorID: ActorID, relation: Relation, key: TaskKey,
                            item: TaskItem)
  {
    && key.instanceID in db
    && item.instanceID == key.instanceID && item.taskID == key.taskID
    && item.actorID == actorID && item.relation == relation
    && var s := db[key.instanceID];
       && item.definitionID == s.definition.id && item.definitionVersion == s.definition.version
       && item.instanceStatus == s.status && item.initiator == s.initiator
       && ShowsTimes(item.startedAt, item.lastAuditAt, s.audit, rounded)
       && (exists t :: t in s.tasks
             && t.id == key.taskID && t.assignee == actorID
             && item.nodeID == t.nodeID && item.taskStatus == t.status && item.outcome == t.outcome)
       && (relation == Candidate ==> item.taskStatus.Active?)
       && (relation == Participant ==> item.taskStatus.Done? || item.taskStatus.Closed?)
  }

  ghost predicate ShowsInstanceOf(db: Database, rounded: Rounding, actorID: ActorID, key: InstanceKey,
                                  item: InstanceItem) {
    && key.instanceID in db && item.instanceID == key.instanceID && item.initiator == actorID
    && var s := db[key.instanceID];
       && item.definitionID == s.definition.id && item.definitionVersion == s.definition.version
       && item.instanceStatus == s.status && item.initiator == s.initiator && item.currentNodeID == s.currentNodeID
       && ShowsTimes(item.startedAt, item.lastAuditAt, s.audit, rounded)
  }

  ghost predicate ShowsAllWork(db: Database, rounded: Rounding, actorID: ActorID, relation: Relation,
                               keys: seq<TaskKey>,
                               items: seq<TaskItem>)
  {
    |items| == |keys| && forall i :: 0 <= i < |keys| ==> ShowsWork(db, rounded, actorID, relation, keys[i], items[i])
  }

  ghost predicate ShowsAllStarted(db: Database, rounded: Rounding, actorID: ActorID, keys: seq<InstanceKey>,
                                  items: seq<InstanceItem>)
  {
    |items| == |keys| && forall i :: 0 <= i < |keys| ==> ShowsInstanceOf(db, rounded, actorID, keys[i], items[i])
  }

  lemma ItemShowsWork(views: Views, db: Database, view: View, actorID: ActorID, scope: Scope, key: TaskKey,
                      item: TaskItem,
                      rounded: Rounding)
    requires Projected(views, db, rounded) && key in MatchingTasks(views, view, actorID, scope)
    requires ShowsTask(views, key, RelationOf(view), item)
    ensures ShowsWork(db, rounded, actorID, RelationOf(view), key, item)
  {
    hide TimesOf;
    var ref := (key.instanceID, key.taskID);
    assert Matches(views, view, actorID, scope, ref);
    assert RowGrounded(views, db, ref);
    assert InstanceProjected(views, db[ref.0], rounded);
    var times :| TimesOf(db[ref.0].audit, times) && RowOf(views.instances[ref.0], db[ref.0], times, rounded);
    var t := db[ref.0].tasks[views.participation[ref].ordinal];
    assert t in db[ref.0].tasks;
  }

  lemma ItemShowsInstance(views: Views, db: Database, actorID: ActorID, scope: Scope, key: InstanceKey,
                          item: InstanceItem,
                          rounded: Rounding)
    requires Projected(views, db, rounded) && key in MatchingInstances(views, actorID, scope)
    requires ShowsInstance(views, key, item)
    ensures ShowsInstanceOf(db, rounded, actorID, key, item)
  {
    hide TimesOf;
    var id := key.instanceID;
    assert InstanceProjected(views, db[id], rounded);
    var times :| TimesOf(db[id].audit, times) && RowOf(views.instances[id], db[id], times, rounded);
  }

  /** Every item of an answered page is work of the actor who asked, in an instance the scope allows. */
  lemma PageShowsWork(views: Views, db: Database, less: Collation, codec: Codec, view: View, actorID: ActorID,
                      scope: Scope,
                      limit: int, after: string, page: TokenPage<TaskItem>, i: nat, rounded: Rounding)
    requires Projected(views, db, rounded) && i < |page.items|
    requires TaskAnswer(views, less, codec, view, actorID, scope, limit, after, page)
    ensures exists key :: ShowsWork(db, rounded, actorID, RelationOf(view), key, page.items[i])
    ensures scope.Some? ==> page.items[i].instanceID in scope.value
  {
    hide Projected, TaskAfter, ShowsWork, TaskBefore;
    AnswerLimit(views, less, codec, view, actorID, scope, limit, after, page);
    var s := MatchingTasks(views, view, actorID, scope);
    var keys :|
      && IsPage(s, TaskAfter(after, codec).value, LimitOf(limit), TaskBefore(less), keys,
                TaskAfter(page.next, codec).value)
      && ShowsTasks(views, keys, RelationOf(view), page.items);
    PageWithin(s, TaskAfter(after, codec).value, LimitOf(limit), TaskBefore(less), keys,
               TaskAfter(page.next, codec).value);
    assert ShowsTask(views, keys[i], RelationOf(view), page.items[i]) && keys[i] in keys;
    ItemShowsWork(views, db, view, actorID, scope, keys[i], page.items[i], rounded);
  }

  lemma PageShowsInstances(views: Views, db: Database, less: Collation, codec: Codec, actorID: ActorID, scope: Scope,
                           limit: int, after: string, page: TokenPage<InstanceItem>, i: nat, rounded: Rounding)
    requires Projected(views, db, rounded) && i < |page.items|
    requires InstanceAnswer(views, less, codec, actorID, scope, limit, after, page)
    ensures exists key :: ShowsInstanceOf(db, rounded, actorID, key, page.items[i])
    ensures scope.Some? ==> page.items[i].instanceID in scope.value
  {
    hide Projected, InstanceAfter, ShowsInstanceOf, InstanceBefore;
    InstanceAnswerParts(views, less, codec, actorID, scope, limit, after, page);
    var s := MatchingInstances(views, actorID, scope);
    var keys :|
      && IsPage(s, InstanceAfter(after, codec).value, LimitOf(limit), InstanceBefore(less), keys,
                InstanceAfter(page.next, codec).value)
      && ShowsInstances(views, keys, page.items);
    PageWithin(s, InstanceAfter(after, codec).value, LimitOf(limit), InstanceBefore(less), keys,
               InstanceAfter(page.next, codec).value);
    assert ShowsInstance(views, keys[i], page.items[i]) && keys[i] in keys;
    ItemShowsInstance(views, db, actorID, scope, keys[i], page.items[i], rounded);
  }

  /** A page holds as many items as were asked for, 50 when no number was, and fewer only when it is the last. */
  ghost predicate Sized(limit: int, items: nat, last: bool) {
    && 0 <= limit <= 200
    && items <= (if limit == 0 then 50 else limit)
    && (!last ==> items == if limit == 0 then 50 else limit)
  }

  lemma TaskPageSize(views: Views, less: Collation, codec: Codec, view: View, actorID: ActorID, scope: Scope,
                     limit: int,
                 after: string, page: TokenPage<TaskItem>)
    requires TaskAnswer(views, less, codec, view, actorID, scope, limit, after, page)
    ensures Sized(limit, |page.items|, page.next == "")
  {
    hide TaskAfter, TaskBefore, ShowsTask;
    AnswerLimit(views, less, codec, view, actorID, scope, limit, after, page);
  }

  lemma InstancePageSize(views: Views, less: Collation, codec: Codec, actorID: ActorID, scope: Scope, limit: int,
                         after: string, page: TokenPage<InstanceItem>)
    requires InstanceAnswer(views, less, codec, actorID, scope, limit, after, page)
    ensures Sized(limit, |page.items|, page.next == "")
  {
    hide InstanceBefore, ShowsInstance;
    InstanceAnswerParts(views, less, codec, actorID, scope, limit, after, page);
  }

  /** Latest first; instances, then tasks, in ascending order where times tie. */
  ghost predicate NewestFirst(keys: seq<TaskKey>, less: Collation) {
    forall i, j :: 0 <= i < j < |keys| ==>
      || keys[i].at > keys[j].at
      || (keys[i].at == keys[j].at && less(keys[i].instanceID, keys[j].instanceID))
      || (keys[i].at == keys[j].at && keys[i].instanceID == keys[j].instanceID && less(keys[i].taskID, keys[j].taskID))
  }

  ghost predicate NewestInstancesFirst(keys: seq<InstanceKey>, less: Collation) {
    forall i, j :: 0 <= i < j < |keys| ==>
      keys[i].at > keys[j].at || (keys[i].at == keys[j].at && less(keys[i].instanceID, keys[j].instanceID))
  }

  lemma AscendingIsNewestFirst(keys: seq<TaskKey>, less: Collation)
    requires Ascending(keys, TaskBefore(less))
    ensures NewestFirst(keys, less)
  {
  }

  lemma AscendingInstances(keys: seq<InstanceKey>, less: Collation)
    requires Ascending(keys, InstanceBefore(less))
    ensures NewestInstancesFirst(keys, less)
  {
  }

  /* Chains of real queries */

  /** A client that asks with each answer's token for the next page, with any allowed limits. */
  ghost predicate TaskChain(views: Views, less: Collation, codec: Codec, view: View, actorID: ActorID, scope: Scope,
                            after: string, limits: seq<int>, pages: seq<TokenPage<TaskItem>>)
    decreases |pages|
  {
    && |limits| == |pages| > 0
    && TaskAnswer(views, less, codec, view, actorID, scope, limits[0], after, pages[0])
    && (|pages| > 1 ==>
          pages[0].next != "" && TaskChain(views, less, codec, view, actorID, scope, pages[0].next, limits[1..],
                                           pages[1..]))
  }

  ghost predicate InstanceChain(views: Views, less: Collation, codec: Codec, actorID: ActorID, scope: Scope,
                                after: string, limits: seq<int>, pages: seq<TokenPage<InstanceItem>>)
    decreases |pages|
  {
    && |limits| == |pages| > 0
    && InstanceAnswer(views, less, codec, actorID, scope, limits[0], after, pages[0])
    && (|pages| > 1 ==>
          pages[0].next != "" && InstanceChain(views, less, codec, actorID, scope, pages[0].next, limits[1..],
                                               pages[1..]))
  }

  function AllItems<Item>(pages: seq<TokenPage<Item>>): seq<Item> {
    if pages == [] then [] else pages[0].items + AllItems(pages[1..])
  }

  function Limits(limits: seq<int>): (r: seq<nat>)
    requires forall i :: 0 <= i < |limits| ==> LimitAllowed(limits[i])
    ensures |r| == |limits| && forall i :: 0 <= i < |r| ==> r[i] == LimitOf(limits[i]) && r[i] > 0
  {
    seq(|limits|, i requires 0 <= i < |limits| && LimitAllowed(limits[i]) => PageSize(limits[i]))
  }

  lemma {:induction false} TaskChainLimits(views: Views, less: Collation, codec: Codec, view: View, actorID: ActorID,
                                           scope: Scope,
                                           after: string, limits: seq<int>, pages: seq<TokenPage<TaskItem>>)
    requires TaskChain(views, less, codec, view, actorID, scope, after, limits, pages)
    ensures |limits| == |pages| > 0
    ensures forall i :: 0 <= i < |limits| ==> LimitAllowed(limits[i])
    decreases |pages|
  {
    hide TaskAnswer;
    AnswerLimit(views, less, codec, view, actorID, scope, limits[0], after, pages[0]);
    if |pages| > 1 {
      TaskChainLimits(views, less, codec, view, actorID, scope, pages[0].next, limits[1..], pages[1..]);
      assert forall i :: 0 < i < |limits| ==> limits[i] == limits[1..][i - 1];
    }
  }

  lemma AnswerLimit(views: Views, less: Collation, codec: Codec, view: View, actorID: ActorID, scope: Scope, limit: int,
                    after: string, page: TokenPage<TaskItem>)
    requires TaskAnswer(views, less, codec, view, actorID, scope, limit, after, page)
    ensures LimitAllowed(limit) && TaskAfter(after, codec).Success? && TaskAfter(page.next, codec).Success?
    ensures page.next != "" <==> TaskAfter(page.next, codec).value.Some?
    ensures exists keys ::
              && IsPage(MatchingTasks(views, view, actorID, scope), TaskAfter(after, codec).value, LimitOf(limit),
                        TaskBefore(less),
                        keys, TaskAfter(page.next, codec).value)
              && ShowsTasks(views, keys, RelationOf(view), page.items)
  {
  }

  lemma ShowsTogether(views: Views, a: seq<TaskKey>, b: seq<TaskKey>, relation: Relation, x: seq<TaskItem>,
                      y: seq<TaskItem>)
    requires ShowsTasks(views, a, relation, x) && ShowsTasks(views, b, relation, y)
    ensures ShowsTasks(views, a + b, relation, x + y)
  {
  }

  /** A chain of queries is a chain of pages over the matching keys, and shows exactly their items. */
  lemma {:induction false} TaskChainFollows(views: Views, less: Collation, codec: Codec, view: View, actorID: ActorID,
                                            scope: Scope,
                                            after: string, limits: seq<int>, pages: seq<TokenPage<TaskItem>>)
    returns (keys: seq<seq<TaskKey>>)
    requires TaskChain(views, less, codec, view, actorID, scope, after, limits, pages)
    requires forall i :: 0 <= i < |limits| ==> LimitAllowed(limits[i])
    ensures TaskAfter(after, codec).Success? && TaskAfter(pages[|pages| - 1].next, codec).Success?
    ensures Followed(MatchingTasks(views, view, actorID, scope), TaskAfter(after, codec).value, Limits(limits),
                     TaskBefore(less),
                     keys, TaskAfter(pages[|pages| - 1].next, codec).value)
    ensures ShowsTasks(views, Flatten(keys), RelationOf(view), AllItems(pages))
    decreases |pages|
  {
    hide TaskAnswer, IsPage, ShowsTasks, MatchingTasks, TaskBefore, TaskAfter;
    var s := MatchingTasks(views, view, actorID, scope);
    var relation := RelationOf(view);
    AnswerLimit(views, less, codec, view, actorID, scope, limits[0], after, pages[0]);
    var start, reached := TaskAfter(after, codec).value, TaskAfter(pages[0].next, codec).value;
    var first :|
      && IsPage(s, start, LimitOf(limits[0]), TaskBefore(less), first, reached)
      && ShowsTasks(views, first, relation, pages[0].items);
    if |pages| == 1 {
      keys := [first];
      assert Limits(limits)[1..] == [] && keys[1..] == [] && pages[1..] == [];
      assert first + [] == first && pages[0].items + [] == pages[0].items;
      assert Flatten(keys[1..]) == [] && AllItems(pages[1..]) == [];
      assert PageThen(s, start, Limits(limits), TaskBefore(less), keys, reached, reached);
    } else {
      var rest := TaskChainFollows(views, less, codec, view, actorID, scope, pages[0].next, limits[1..], pages[1..]);
      keys := [first] + rest;
      assert keys[1..] == rest && Limits(limits)[1..] == Limits(limits[1..]);
      assert pages[1..][|pages[1..]| - 1] == pages[|pages| - 1];
      ShowsTogether(views, first, Flatten(rest), relation, pages[0].items, AllItems(pages[1..]));
      assert PageThen(s, start, Limits(limits), TaskBefore(less), keys,
                      TaskAfter(pages[|pages| - 1].next, codec).value, reached);
    }
  }

  lemma {:induction false} TaskChainProgress(views: Views, less: Collation, codec: Codec, view: View, actorID: ActorID,
                                             scope: Scope,
                                            after: string, limits: seq<int>, pages: seq<TokenPage<TaskItem>>)
    requires TaskChain(views, less, codec, view, actorID, scope, after, limits, pages)
    ensures |AllItems(pages)| >= |pages| - 1
    decreases |pages|
  {
    hide TaskAnswer, IsPage, ShowsTasks, MatchingTasks, TaskBefore, TaskAfter;
    if |pages| == 1 {
    } else {
      AnswerLimit(views, less, codec, view, actorID, scope, limits[0], after, pages[0]);
      var keys :|
        && IsPage(MatchingTasks(views, view, actorID, scope), TaskAfter(after, codec).value, LimitOf(limits[0]),
                  TaskBefore(less),
                  keys, TaskAfter(pages[0].next, codec).value)
        && ShowsTasks(views, keys, RelationOf(view), pages[0].items);
      ContinuationIsRow(MatchingTasks(views, view, actorID, scope), TaskAfter(after, codec).value, LimitOf(limits[0]),
                        TaskBefore(less), keys, TaskAfter(pages[0].next, codec).value);
      TaskCount(views, keys, RelationOf(view), pages[0].items);
      TaskChainProgress(views, less, codec, view, actorID, scope, pages[0].next, limits[1..], pages[1..]);
    }
  }

  lemma TaskCount(views: Views, keys: seq<TaskKey>, relation: Relation, items: seq<TaskItem>)
    requires ShowsTasks(views, keys, relation, items)
    ensures |items| == |keys|
  {
  }

  /** No chain is longer than its rows, finished or not: every page but the last shows at least one of them. */
  lemma TaskChainEnds(views: Views, less: Collation, codec: Codec, view: View, actorID: ActorID, scope: Scope,
                      limits: seq<int>, pages: seq<TokenPage<TaskItem>>)
    requires StrictTotal(less) && TaskChain(views, less, codec, view, actorID, scope, "", limits, pages)
    ensures |pages| <= |MatchingTasks(views, view, actorID, scope)| + 1
  {
    hide TaskChain, ShowsTasks, MatchingTasks, TaskBefore, Followed, StrictTotal, Enumerates;
    TaskOrder(less);
    TaskChainLimits(views, less, codec, view, actorID, scope, "", limits, pages);
    var followed := TaskChainFollows(views, less, codec, view, actorID, scope, "", limits, pages);
    var s := MatchingTasks(views, view, actorID, scope);
    var keys := InOrder(s, TaskBefore(less));
    PagesEnumerate(s, None, Limits(limits), TaskBefore(less), followed,
                   TaskAfter(pages[|pages| - 1].next, codec).value, keys);
    EnumeratedCount(keys, s, TaskBefore(less));
    TaskCount(views, Flatten(followed), RelationOf(view), AllItems(pages));
    TaskChainProgress(views, less, codec, view, actorID, scope, "", limits, pages);
  }

  /** The keys shown, each once and in order, are exactly those with the property. */
  ghost predicate ShowsExactly(views: Views, less: Collation, relation: Relation, items: seq<TaskItem>,
                               keys: seq<TaskKey>,
                               matching: set<TaskKey>)
  {
    Enumerates(keys, matching, TaskBefore(less)) && ShowsTasks(views, keys, relation, items)
  }

  /** Following tokens from the first page to the page without token shows every matching row once, in order, and no
      other. */
  lemma WholeTaskChain(views: Views, less: Collation, codec: Codec, view: View, actorID: ActorID, scope: Scope,
                       limits: seq<int>, pages: seq<TokenPage<TaskItem>>) returns (keys: seq<TaskKey>)
    requires StrictTotal(less) && TaskChain(views, less, codec, view, actorID, scope, "", limits, pages)
    requires pages[|pages| - 1].next == ""
    ensures ShowsExactly(views, less, RelationOf(view), AllItems(pages), keys,
                         MatchingTasks(views, view, actorID, scope))
  {
    hide TaskChain, ShowsTasks, MatchingTasks, TaskBefore, Followed, StrictTotal, Enumerates;
    TaskOrder(less);
    TaskChainLimits(views, less, codec, view, actorID, scope, "", limits, pages);
    var followed := TaskChainFollows(views, less, codec, view, actorID, scope, "", limits, pages);
    var s := MatchingTasks(views, view, actorID, scope);
    keys := InOrder(s, TaskBefore(less));
    PagesEnumerate(s, None, Limits(limits), TaskBefore(less), followed, None, keys);
  }

  lemma ChainShowsWork(views: Views, db: Database, less: Collation, view: View, actorID: ActorID, scope: Scope,
                       items: seq<TaskItem>, keys: seq<TaskKey>, rounded: Rounding)
    requires Projected(views, db, rounded)
    requires ShowsExactly(views, less, RelationOf(view), items, keys, MatchingTasks(views, view, actorID, scope))
    ensures ShowsAllWork(db, rounded, actorID, RelationOf(view), keys, items)
  {
    hide Projected, ShowsWork, MatchingTasks, TaskBefore, ShowsTask;
    forall i | 0 <= i < |keys| ensures ShowsWork(db, rounded, actorID, RelationOf(view), keys[i], items[i]) {
      assert keys[i] in keys;
      ItemShowsWork(views, db, view, actorID, scope, keys[i], items[i], rounded);
    }
  }

  /** Following worklist tokens to the last page shows the actor's open tasks: each once, in order, and nothing else. */
  lemma WholeWorklist(views: Views, db: Database, less: Collation, codec: Codec, actorID: ActorID, scope: Scope,
                      limits: seq<int>, pages: seq<TokenPage<TaskItem>>, rounded: Rounding) returns (keys: seq<TaskKey>)
    requires StrictTotal(less) && Projected(views, db, rounded) && C.AllSound(db) && actorID != EMPTY
    requires TaskChain(views, less, codec, Worklist, actorID, scope, "", limits, pages) && pages[|pages| - 1].next == ""
    ensures NewestFirst(keys, less) && ShowsAllWork(db, rounded, actorID, Candidate, keys, AllItems(pages))
    ensures forall key :: key in keys <==> OpenWork(db, actorID, scope, key, rounded)
  {
    keys := WholeTaskChain(views, less, codec, Worklist, actorID, scope, limits, pages);
    ChainShowsWork(views, db, less, Worklist, actorID, scope, AllItems(pages), keys, rounded);
    AscendingIsNewestFirst(keys, less);
    hide Projected, C.AllSound, OpenWork, MatchingTasks, TaskChain, StrictTotal, TaskBefore, ShowsTasks;
    forall key: TaskKey ensures key in keys <==> OpenWork(db, actorID, scope, key, rounded) {
      WorklistIsOpenWork(views, db, actorID, scope, key, rounded);
    }
  }

  /** The same for the actor's decided tasks. */
  lemma WholeParticipation(views: Views, db: Database, less: Collation, codec: Codec, actorID: ActorID, scope: Scope,
                           limits: seq<int>, pages: seq<TokenPage<TaskItem>>, rounded: Rounding)
                               returns (keys: seq<TaskKey>)
    requires StrictTotal(less) && Projected(views, db, rounded) && C.AllSound(db) && actorID != EMPTY
    requires TaskChain(views, less, codec, Participated, actorID, scope, "", limits, pages)
               && pages[|pages| - 1].next == ""
    ensures NewestFirst(keys, less) && ShowsAllWork(db, rounded, actorID, Participant, keys, AllItems(pages))
    ensures forall key :: key in keys <==> DecidedWork(db, actorID, scope, key, rounded)
  {
    keys := WholeTaskChain(views, less, codec, Participated, actorID, scope, limits, pages);
    ChainShowsWork(views, db, less, Participated, actorID, scope, AllItems(pages), keys, rounded);
    AscendingIsNewestFirst(keys, less);
    hide Projected, C.AllSound, DecidedWork, MatchingTasks, TaskChain, StrictTotal, TaskBefore, ShowsTasks;
    forall key: TaskKey ensures key in keys <==> DecidedWork(db, actorID, scope, key, rounded) {
      ParticipatedIsDecidedWork(views, db, actorID, scope, key, rounded);
    }
  }

  lemma InstanceAnswerParts(views: Views, less: Collation, codec: Codec, actorID: ActorID, scope: Scope, limit: int,
                            after: string, page: TokenPage<InstanceItem>)
    requires InstanceAnswer(views, less, codec, actorID, scope, limit, after, page)
    ensures LimitAllowed(limit) && InstanceAfter(after, codec).Success? && InstanceAfter(page.next, codec).Success?
    ensures page.next != "" <==> InstanceAfter(page.next, codec).value.Some?
    ensures exists keys ::
              && IsPage(MatchingInstances(views, actorID, scope), InstanceAfter(after, codec).value, LimitOf(limit),
                        InstanceBefore(less), keys, InstanceAfter(page.next, codec).value)
              && ShowsInstances(views, keys, page.items)
  {
  }

  lemma {:induction false} InstanceChainLimits(views: Views, less: Collation, codec: Codec, actorID: ActorID,
                                               scope: Scope,
                                               after: string, limits: seq<int>, pages: seq<TokenPage<InstanceItem>>)
    requires InstanceChain(views, less, codec, actorID, scope, after, limits, pages)
    ensures |limits| == |pages| > 0
    ensures forall i :: 0 <= i < |limits| ==> LimitAllowed(limits[i])
    decreases |pages|
  {
    hide InstanceAnswer;
    InstanceAnswerParts(views, less, codec, actorID, scope, limits[0], after, pages[0]);
    if |pages| > 1 {
      InstanceChainLimits(views, less, codec, actorID, scope, pages[0].next, limits[1..], pages[1..]);
      assert forall i :: 0 < i < |limits| ==> limits[i] == limits[1..][i - 1];
    }
  }

  lemma ShowsInstancesTogether(views: Views, a: seq<InstanceKey>, b: seq<InstanceKey>, x: seq<InstanceItem>,
                               y: seq<InstanceItem>)
    requires ShowsInstances(views, a, x) && ShowsInstances(views, b, y)
    ensures ShowsInstances(views, a + b, x + y)
  {
  }

  lemma {:induction false} InstanceChainFollows(views: Views, less: Collation, codec: Codec, actorID: ActorID,
                                                scope: Scope,
                                                after: string, limits: seq<int>, pages: seq<TokenPage<InstanceItem>>)
    returns (keys: seq<seq<InstanceKey>>)
    requires InstanceChain(views, less, codec, actorID, scope, after, limits, pages)
    requires forall i :: 0 <= i < |limits| ==> LimitAllowed(limits[i])
    ensures InstanceAfter(after, codec).Success? && InstanceAfter(pages[|pages| - 1].next, codec).Success?
    ensures Followed(MatchingInstances(views, actorID, scope), InstanceAfter(after, codec).value, Limits(limits),
                     InstanceBefore(less),
                     keys, InstanceAfter(pages[|pages| - 1].next, codec).value)
    ensures ShowsInstances(views, Flatten(keys), AllItems(pages))
    decreases |pages|
  {
    hide InstanceAnswer, IsPage, ShowsInstances, MatchingInstances, InstanceBefore, InstanceAfter;
    var s := MatchingInstances(views, actorID, scope);
    InstanceAnswerParts(views, less, codec, actorID, scope, limits[0], after, pages[0]);
    var start, reached := InstanceAfter(after, codec).value, InstanceAfter(pages[0].next, codec).value;
    var first :|
      && IsPage(s, start, LimitOf(limits[0]), InstanceBefore(less), first, reached)
      && ShowsInstances(views, first, pages[0].items);
    if |pages| == 1 {
      keys := [first];
      assert Limits(limits)[1..] == [] && keys[1..] == [] && pages[1..] == [];
      assert first + [] == first && pages[0].items + [] == pages[0].items;
      assert Flatten(keys[1..]) == [] && AllItems(pages[1..]) == [];
      assert PageThen(s, start, Limits(limits), InstanceBefore(less), keys, reached, reached);
    } else {
      var rest := InstanceChainFollows(views, less, codec, actorID, scope, pages[0].next, limits[1..], pages[1..]);
      keys := [first] + rest;
      assert keys[1..] == rest && Limits(limits)[1..] == Limits(limits[1..]);
      assert pages[1..][|pages[1..]| - 1] == pages[|pages| - 1];
      ShowsInstancesTogether(views, first, Flatten(rest), pages[0].items, AllItems(pages[1..]));
      assert PageThen(s, start, Limits(limits), InstanceBefore(less), keys,
                      InstanceAfter(pages[|pages| - 1].next, codec).value,
                      reached);
    }
  }

  lemma {:induction false} InstanceChainProgress(views: Views, less: Collation, codec: Codec, actorID: ActorID,
                                                 scope: Scope,
                                            after: string, limits: seq<int>, pages: seq<TokenPage<InstanceItem>>)
    requires InstanceChain(views, less, codec, actorID, scope, after, limits, pages)
    ensures |AllItems(pages)| >= |pages| - 1
    decreases |pages|
  {
    hide InstanceAnswer, IsPage, ShowsInstances, MatchingInstances, InstanceBefore, InstanceAfter;
    if |pages| == 1 {
    } else {
      InstanceAnswerParts(views, less, codec, actorID, scope, limits[0], after, pages[0]);
      var keys :|
        && IsPage(MatchingInstances(views, actorID, scope), InstanceAfter(after, codec).value, LimitOf(limits[0]),
                  InstanceBefore(less),
                  keys, InstanceAfter(pages[0].next, codec).value)
        && ShowsInstances(views, keys, pages[0].items);
      ContinuationIsRow(MatchingInstances(views, actorID, scope), InstanceAfter(after, codec).value, LimitOf(limits[0]),
                        InstanceBefore(less), keys, InstanceAfter(pages[0].next, codec).value);
      InstanceCount(views, keys, pages[0].items);
      InstanceChainProgress(views, less, codec, actorID, scope, pages[0].next, limits[1..], pages[1..]);
    }
  }

  lemma InstanceCount(views: Views, keys: seq<InstanceKey>, items: seq<InstanceItem>)
    requires ShowsInstances(views, keys, items)
    ensures |items| == |keys|
  {
  }

  /** No chain is longer than its rows, finished or not: every page but the last shows at least one of them. */
  lemma InstanceChainEnds(views: Views, less: Collation, codec: Codec, actorID: ActorID, scope: Scope,
                      limits: seq<int>, pages: seq<TokenPage<InstanceItem>>)
    requires StrictTotal(less) && InstanceChain(views, less, codec, actorID, scope, "", limits, pages)
    ensures |pages| <= |MatchingInstances(views, actorID, scope)| + 1
  {
    hide InstanceChain, ShowsInstances, MatchingInstances, InstanceBefore, Followed, StrictTotal, Enumerates;
    InstanceOrder(less);
    InstanceChainLimits(views, less, codec, actorID, scope, "", limits, pages);
    var followed := InstanceChainFollows(views, less, codec, actorID, scope, "", limits, pages);
    var s := MatchingInstances(views, actorID, scope);
    var keys := InOrder(s, InstanceBefore(less));
    PagesEnumerate(s, None, Limits(limits), InstanceBefore(less), followed,
                   InstanceAfter(pages[|pages| - 1].next, codec).value, keys);
    EnumeratedCount(keys, s, InstanceBefore(less));
    InstanceCount(views, Flatten(followed), AllItems(pages));
    InstanceChainProgress(views, less, codec, actorID, scope, "", limits, pages);
  }

  lemma StartedAreShown(views: Views, db: Database, less: Collation, actorID: ActorID, scope: Scope,
                        items: seq<InstanceItem>, keys: seq<InstanceKey>, rounded: Rounding)
    requires Projected(views, db, rounded) && ShowsInstances(views, keys, items)
    requires Enumerates(keys, MatchingInstances(views, actorID, scope), InstanceBefore(less))
    ensures ShowsAllStarted(db, rounded, actorID, keys, items) && NewestInstancesFirst(keys, less)
  {
    AscendingInstances(keys, less);
    hide Projected, ShowsInstanceOf, MatchingInstances, InstanceBefore, ShowsInstance, NewestInstancesFirst;
    forall i | 0 <= i < |keys| ensures ShowsInstanceOf(db, rounded, actorID, keys[i], items[i]) {
      assert keys[i] in keys;
      ItemShowsInstance(views, db, actorID, scope, keys[i], items[i], rounded);
    }
  }

  /** Following initiated tokens to the last page shows the instances the actor started: each once, in order, no
      other. */
  lemma WholeInitiated(views: Views, db: Database, less: Collation, codec: Codec, actorID: ActorID, scope: Scope,
                       limits: seq<int>, pages: seq<TokenPage<InstanceItem>>, rounded: Rounding)
                           returns (keys: seq<InstanceKey>)
    requires StrictTotal(less) && Projected(views, db, rounded)
    requires InstanceChain(views, less, codec, actorID, scope, "", limits, pages) && pages[|pages| - 1].next == ""
    ensures NewestInstancesFirst(keys, less) && ShowsAllStarted(db, rounded, actorID, keys, AllItems(pages))
    ensures forall key :: key in keys <==> StartedBy(db, actorID, scope, key, rounded)
  {
    hide InstanceChain, ShowsInstances, MatchingInstances, InstanceBefore, Followed, StrictTotal, Projected, StartedBy;
    InstanceOrder(less);
    InstanceChainLimits(views, less, codec, actorID, scope, "", limits, pages);
    var followed := InstanceChainFollows(views, less, codec, actorID, scope, "", limits, pages);
    var s := MatchingInstances(views, actorID, scope);
    keys := InOrder(s, InstanceBefore(less));
    PagesEnumerate(s, None, Limits(limits), InstanceBefore(less), followed, None, keys);
    assert Enumerates(keys, s, InstanceBefore(less)) && ShowsInstances(views, keys, AllItems(pages));
    StartedAreShown(views, db, less, actorID, scope, AllItems(pages), keys, rounded);
    forall key: InstanceKey ensures key in keys <==> StartedBy(db, actorID, scope, key, rounded) {
      InitiatedIsStarted(views, db, actorID, scope, key, rounded);
    }
  }

  /* The order of code points is one such collation */

  predicate CodePointLess(a: Name, b: Name) {
    b != [] && (a == [] || a[0] < b[0] || (a[0] == b[0] && CodePointLess(a[1..], b[1..])))
  }

  lemma {:induction false} CodePointTransitive(a: Name, b: Name, c: Name)
    requires CodePointLess(a, b) && CodePointLess(b, c)
    ensures CodePointLess(a, c)
  {
    if a != [] && a[0] == b[0] && b[0] == c[0] { CodePointTransitive(a[1..], b[1..], c[1..]); }
  }

  lemma {:induction false} CodePointTotal(a: Name, b: Name)
    ensures a == b || CodePointLess(a, b) || CodePointLess(b, a)
    ensures !(CodePointLess(a, b) && a == b)
  {
    if a != [] && b != [] && a[0] == b[0] {
      CodePointTotal(a[1..], b[1..]);
      assert a == [a[0]] + a[1..] && b == [b[0]] + b[1..];
    }
  }

  lemma CodePointCollation()
    ensures StrictTotal(CodePointLess)
  {
    forall a, b ensures a == b || CodePointLess(a, b) || CodePointLess(b, a) { CodePointTotal(a, b); }
    forall a ensures !CodePointLess(a, a) { CodePointTotal(a, a); }
    forall a, b, c | CodePointLess(a, b) && CodePointLess(b, c) ensures CodePointLess(a, c) {
      CodePointTransitive(a, b, c);
    }
  }
}
