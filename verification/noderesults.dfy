/** Validation of handler results before any fact of the aggregate changes. */
module NodeResults {
  import opened Workflow
  import opened Graphs
  import opened Transitions

  /** One validated aggregate position and its proposed value. */
  datatype Replacement = Replacement(index: nat, task: Task)

  /** The replacements cover the node's positions, in aggregate order, with the last proposal for each. */
  ghost predicate Covers(replacements: seq<Replacement>, tasks: seq<Task>, nodeID: NodeID, proposals: seq<Task>) {
    && (forall k :: 0 <= k < |replacements| ==>
          && replacements[k].index < |tasks|
          && tasks[replacements[k].index].nodeID == nodeID
          && LastProposal(proposals, tasks[replacements[k].index].id) == Some(replacements[k].task))
    && (forall i :: 0 <= i < |tasks| && tasks[i].nodeID == nodeID ==>
          exists k :: 0 <= k < |replacements| && replacements[k].index == i)
  }

  /** The proposals still unmatched after reading a prefix of the aggregate's tasks. */
  ghost predicate Unmatched(updates: map<TaskID, Task>, proposals: seq<Task>, seen: seq<Task>, nodeID: NodeID) {
    forall id {:trigger LastProposal(proposals, id)} {:trigger id in updates} ::
      && (id in updates <==> LastProposal(proposals, id).Some? && !TaskAt(seen, nodeID, id))
      && (id in updates ==> updates[id] == LastProposal(proposals, id).value)
  }

  lemma TaskAtMore(seen: seq<Task>, t: Task, nodeID: NodeID, id: TaskID)
    ensures TaskAt(seen + [t], nodeID, id) <==> TaskAt(seen, nodeID, id) || (t.nodeID == nodeID && t.id == id)
  {
    assert t in seen + [t];
    assert forall u :: u in seen + [t] <==> u in seen || u == t;
  }

  lemma MatchOne(updates: map<TaskID, Task>, proposals: seq<Task>, seen: seq<Task>, nodeID: NodeID, t: Task)
    requires Unmatched(updates, proposals, seen, nodeID)
    ensures t.nodeID != nodeID ==> Unmatched(updates, proposals, seen + [t], nodeID)
    ensures t.nodeID == nodeID ==> Unmatched(updates - {t.id}, proposals, seen + [t], nodeID)
  {
    forall id ensures TaskAt(seen + [t], nodeID, id)
        <==> TaskAt(seen, nodeID, id) || (t.nodeID == nodeID && t.id == id) {
      TaskAtMore(seen, t, nodeID, id);
    }
  }

  lemma LastMore(proposals: seq<Task>, k: nat, id: TaskID)
    requires k < |proposals|
    ensures LastProposal(proposals[..k + 1], id) ==
            if proposals[k].id == id then Some(proposals[k]) else LastProposal(proposals[..k], id)
  {
    assert proposals[..k + 1][..k] == proposals[..k];
  }

  /** The map holds the last proposal of a prefix for every identity it proposes. */
  ghost predicate LastByID(updates: map<TaskID, Task>, proposals: seq<Task>) {
    forall id {:trigger LastProposal(proposals, id)} ::
      && (id in updates <==> LastProposal(proposals, id).Some?)
      && (id in updates ==> updates[id] == LastProposal(proposals, id).value)
  }

  lemma IndexProposal(updates: map<TaskID, Task>, proposals: seq<Task>, k: nat)
    requires k < |proposals| && LastByID(updates, proposals[..k])
    ensures LastByID(updates[proposals[k].id := proposals[k]], proposals[..k + 1])
  {
    var more := updates[proposals[k].id := proposals[k]];
    forall id
      ensures id in more <==> LastProposal(proposals[..k + 1], id).Some?
      ensures id in more ==> more[id] == LastProposal(proposals[..k + 1], id).value
    {
      LastMore(proposals, k, id);
      assert LastProposal(proposals[..k], id).Some? <==> id in updates;
    }
  }

  lemma CoversMore(replacements: seq<Replacement>, seen: seq<Task>, nodeID: NodeID, proposals: seq<Task>, t: Task)
    requires Covers(replacements, seen, nodeID, proposals)
    ensures t.nodeID != nodeID ==> Covers(replacements, seen + [t], nodeID, proposals)
    ensures t.nodeID == nodeID && LastProposal(proposals, t.id).Some? ==>
              Covers(replacements + [Replacement(|seen|, LastProposal(proposals, t.id).value)], seen + [t], nodeID,
                     proposals)
  {
    if t.nodeID == nodeID && LastProposal(proposals, t.id).Some? {
      var more := replacements + [Replacement(|seen|, LastProposal(proposals, t.id).value)];
      forall i | 0 <= i < |seen + [t]| && (seen + [t])[i].nodeID == nodeID
        ensures exists k :: 0 <= k < |more| && more[k].index == i
      {
        if i < |seen| {
          assert seen[i].nodeID == nodeID;
          var k :| 0 <= k < |replacements| && replacements[k].index == i;
          assert more[k].index == i;
        } else {
          assert more[|replacements|].index == i;
        }
      }
    }
  }

  /** The part of an acceptable view that a prefix of the aggregate decides. */
  ghost predicate ViewSoFar(seen: seq<Task>, nodeID: NodeID, proposals: seq<Task>) {
    && (forall i :: 0 <= i < |seen| && seen[i].nodeID == nodeID ==> Proposed(proposals, seen[i]))
    && (forall i: nat, j: nat {:trigger SameNodeTask(seen, nodeID, i, j)} ::
          i < j < |seen| ==> !SameNodeTask(seen, nodeID, i, j))
  }

  lemma ViewMore(seen: seq<Task>, nodeID: NodeID, proposals: seq<Task>, t: Task)
    requires ViewSoFar(seen, nodeID, proposals)
    ensures ViewSoFar(seen + [t], nodeID, proposals) <==>
            (t.nodeID == nodeID ==> Proposed(proposals, t) && !TaskAt(seen, nodeID, t.id))
  {
    var all := seen + [t];
    forall i: nat, j: nat | i < j < |seen| ensures !SameNodeTask(all, nodeID, i, j) {
      assert !SameNodeTask(seen, nodeID, i, j);
    }
    if t.nodeID == nodeID && TaskAt(seen, nodeID, t.id) {
      var u :| u in seen && u.nodeID == nodeID && u.id == t.id;
      var i: nat :| i < |seen| && seen[i] == u;
      assert SameNodeTask(all, nodeID, i, |seen|);
    }
    if ViewSoFar(all, nodeID, proposals) && t.nodeID == nodeID {
      assert all[|seen|] == t;
    }
    if t.nodeID == nodeID ==> Proposed(proposals, t) && !TaskAt(seen, nodeID, t.id) {
      forall i: nat, j: nat | i < j < |all| ensures !SameNodeTask(all, nodeID, i, j) {
        if j == |seen| { assert all[i] in seen; }
      }
    }
  }

  lemma ViewRefused(tasks: seq<Task>, k: nat, nodeID: NodeID, proposals: seq<Task>)
    requires k <= |tasks| && !ViewSoFar(tasks[..k], nodeID, proposals)
    ensures !ViewAllowed(tasks, nodeID, proposals)
  {
    if ViewAllowed(tasks, nodeID, proposals) {
      forall i: nat, j: nat | i < j < k ensures !SameNodeTask(tasks[..k], nodeID, i, j) {
        assert !SameNodeTask(tasks, nodeID, i, j);
      }
      forall i | 0 <= i < k && tasks[..k][i].nodeID == nodeID ensures Proposed(proposals, tasks[..k][i]) {
        assert tasks[i].nodeID == nodeID;
      }
    }
  }

  lemma ViewDecided(updates: map<TaskID, Task>, tasks: seq<Task>, nodeID: NodeID, proposals: seq<Task>)
    requires Unmatched(updates, proposals, tasks, nodeID) && ViewSoFar(tasks, nodeID, proposals)
    requires forall p :: p in proposals ==> p.id != EMPTY && p.nodeID == nodeID
    ensures ViewAllowed(tasks, nodeID, proposals) <==> updates == map[]
  {
    if updates == map[] {
      forall p | p in proposals ensures TaskAt(tasks, nodeID, p.id) {
        assert LastProposal(proposals, p.id).Some?;
      }
    } else {
      var id :| id in updates;
      assert LastProposal(proposals, id).Some?;
      var p := LastProposal(proposals, id).value;
      assert p in proposals && !TaskAt(tasks, nodeID, p.id);
    }
  }

  /** Indexes the proposals, then consumes each current-node position exactly once. */
  method PrepareNodeTaskReplacements(tasks: seq<Task>, nodeID: NodeID, proposals: seq<Task>)
    returns (r: Result<seq<Replacement>>)
    ensures r.Success? <==> ViewAllowed(tasks, nodeID, proposals)
    ensures r.Failure? ==> r.error == InvalidNodeResult
    ensures r.Success? ==> Covers(r.value, tasks, nodeID, proposals)
  {
    hide ViewAllowed, TaskAt, ViewSoFar, Covers, Proposed, LastByID;
    var updates: map<TaskID, Task> := map[];
    NothingIndexed();
    assert proposals[..0] == [];
    for k := 0 to |proposals|
      invariant forall i :: 0 <= i < k ==> proposals[i].id != EMPTY && proposals[i].nodeID == nodeID
      invariant LastByID(updates, proposals[..k])
    {
      var task := proposals[k];
      if task.id == EMPTY || task.nodeID != nodeID {
        BadProposal(tasks, nodeID, proposals, k);
        return Failure(InvalidNodeResult);
      }
      IndexProposal(updates, proposals, k);
      updates := updates[task.id := task];
    }
    assert proposals[..|proposals|] == proposals;
    NothingMatched(updates, proposals, nodeID);

    var replacements: seq<Replacement> := [];
    var index := 0;
    assert tasks[..0] == [];
    while index < |tasks|
      invariant 0 <= index <= |tasks|
      invariant Unmatched(updates, proposals, tasks[..index], nodeID)
      invariant ViewSoFar(tasks[..index], nodeID, proposals)
      invariant Covers(replacements, tasks[..index], nodeID, proposals)
    {
      var current := tasks[index];
      ghost var seen := tasks[..index];
      PrefixStep(tasks, index);
      ViewMore(seen, nodeID, proposals, current);
      if !ViewSoFar(seen + [current], nodeID, proposals) { ViewRefused(tasks, index + 1, nodeID, proposals); }
      MatchOne(updates, proposals, seen, nodeID, current);
      CoversMore(replacements, seen, nodeID, proposals, current);
      ProposedMeans(proposals, current);
      if current.nodeID == nodeID {
        if current.id !in updates {
          return Failure(InvalidNodeResult);
        }
        var updated := updates[current.id];
        if !LegalAdvance(current, updated) {
          return Failure(InvalidNodeResult);
        }
        replacements := replacements + [Replacement(index, updated)];
        updates := updates - {updated.id};
      }
      index := index + 1;
    }
    assert tasks[..index] == tasks;
    ViewDecided(updates, tasks, nodeID, proposals);
    if |updates| != 0 {
      return Failure(InvalidNodeResult);
    }
    return Success(replacements);
  }

  lemma ProposedMeans(proposals: seq<Task>, t: Task)
    ensures Proposed(proposals, t) <==>
            LastProposal(proposals, t.id).Some? && LegalAdvance(t, LastProposal(proposals, t.id).value)
  {
  }

  lemma BadProposal(tasks: seq<Task>, nodeID: NodeID, proposals: seq<Task>, k: nat)
    requires k < |proposals| && (proposals[k].id == EMPTY || proposals[k].nodeID != nodeID)
    ensures !ViewAllowed(tasks, nodeID, proposals)
  {
    assert proposals[k] in proposals;
  }

  lemma NothingIndexed()
    ensures LastByID(map[], [])
  {
  }

  lemma NothingMatched(updates: map<TaskID, Task>, proposals: seq<Task>, nodeID: NodeID)
    requires LastByID(updates, proposals)
    ensures Unmatched(updates, proposals, [], nodeID)
    ensures ViewSoFar([], nodeID, proposals) && Covers([], [], nodeID, proposals)
  {
  }

  /* The three stages */

  method ValidateActivationTaskDrafts(tasks: seq<Task>) returns (ok: bool)
    ensures ok <==> DraftsAllowed(tasks)
  {
    for i := 0 to |tasks|
      invariant forall k :: 0 <= k < i ==> DraftAllowed(tasks[k])
    {
      if tasks[i].id != EMPTY || tasks[i].assignee == EMPTY || !tasks[i].status.Active? || tasks[i].outcome != EMPTY {
        return false;
      }
    }
    return true;
  }

  method PrepareActivation(nodeID: NodeID, result: NodeResult) returns (r: Result<()>)
    ensures r == Need(ActivationAllowed(nodeID, result), InvalidNodeResult)
  {
    if !FieldsAllowed(nodeID, result) { return Failure(InvalidNodeResult); }
    if result.disposition.Waiting? && |result.tasks| == 0 { return Failure(InvalidNodeResult); }
    if !result.disposition.Waiting? && |result.tasks| != 0 { return Failure(InvalidNodeResult); }
    var ok := ValidateActivationTaskDrafts(result.tasks);
    return if ok then Success(()) else Failure(InvalidNodeResult);
  }

  method PrepareReturn(nodeID: NodeID, result: NodeResult) returns (r: Result<()>)
    ensures r == Need(ReturnAllowed(nodeID, result), InvalidReturnTarget)
  {
    if !FieldsAllowed(nodeID, result) { return Failure(InvalidReturnTarget); }
    if !result.disposition.Waiting? || |result.tasks| == 0 { return Failure(InvalidReturnTarget); }
    var ok := ValidateActivationTaskDrafts(result.tasks);
    return if ok then Success(()) else Failure(InvalidReturnTarget);
  }

  /** Active work is left at the node exactly when some replacement is active. */
  lemma ActiveReplacement(replacements: seq<Replacement>, tasks: seq<Task>, nodeID: NodeID, proposals: seq<Task>)
    requires ViewAllowed(tasks, nodeID, proposals) && Covers(replacements, tasks, nodeID, proposals)
    ensures ActiveAt(ReplaceNodeTasks(tasks, nodeID, proposals), nodeID) <==>
            exists k :: 0 <= k < |replacements| && replacements[k].task.status.Active?
  {
    var after := ReplaceNodeTasks(tasks, nodeID, proposals);
    if ActiveAt(after, nodeID) {
      var i :| 0 <= i < |after| && after[i].nodeID == nodeID && after[i].status.Active?;
      assert after[i] == ReplaceTask(tasks[i], nodeID, proposals);
      assert tasks[i].nodeID == nodeID;
      var k :| 0 <= k < |replacements| && replacements[k].index == i;
      assert replacements[k].task.status.Active?;
    }
    if k :| 0 <= k < |replacements| && replacements[k].task.status.Active? {
      var i := replacements[k].index;
      assert Proposed(proposals, tasks[i]);
      assert after[i] == ReplaceTask(tasks[i], nodeID, proposals);
    }
  }

  method PrepareCommand(tasks: seq<Task>, nodeID: NodeID, result: NodeResult) returns (r: Result<seq<Replacement>>)
    ensures r.Success? <==> CommandAllowed(tasks, nodeID, result)
    ensures r.Failure? ==> r.error == InvalidNodeResult
    ensures r.Success? ==> Covers(r.value, tasks, nodeID, result.tasks)
  {
    hide ViewAllowed, Covers, ActiveAt;
    if !FieldsAllowed(nodeID, result) { return Failure(InvalidNodeResult); }
    r := PrepareNodeTaskReplacements(tasks, nodeID, result.tasks);
    if r.Failure? { return; }
    var replacements := r.value;
    ActiveReplacement(replacements, tasks, nodeID, result.tasks);
    var hasActiveTask := false;
    for k := 0 to |replacements|
      invariant hasActiveTask <==> exists j :: 0 <= j < k && replacements[j].task.status.Active?
    {
      if replacements[k].task.status.Active? { hasActiveTask := true; }
    }
    if result.disposition.Waiting? && !hasActiveTask { return Failure(InvalidNodeResult); }
    if !result.disposition.Waiting? && hasActiveTask { return Failure(InvalidNodeResult); }
  }
}
