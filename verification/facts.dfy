/** The aggregate as the engine mutates it: one candidate per command, changed only through its facts. */
module Facts {
  import opened Workflow
  import opened Transitions
  import opened NodeResults

  class Instance {
    const id: InstanceID
    const definition: Definition
    var status: InstanceStatus
    const initiator: ActorID
    var currentNodeID: NodeID
    const data: RawMessage
    var nodeState: RawMessage
    var tasks: seq<Task>
    var audit: seq<AuditRecord>
    var version: nat

    /** Detaches an aggregate from a snapshot: later changes to either are invisible to the other. */
    constructor Clone(s: Snapshot)
      ensures Value() == s
    {
      id, definition, status, initiator := s.id, s.definition, s.status, s.initiator;
      currentNodeID, data, nodeState := s.currentNodeID, s.data, s.nodeState;
      tasks, audit, version := s.tasks, s.audit, s.version;
    }

    function Value(): Snapshot
      reads this
    {
      Snapshot(id, definition, status, initiator, currentNodeID, data, nodeState, tasks, audit, version)
    }
  }

  class InstanceFacts {
    const instance: Instance

    constructor (candidate: Instance)
      ensures instance == candidate
    {
      instance := candidate;
    }

    method AppendAudit(record: AuditRecord, host: Host)
      modifies instance`audit
      ensures instance.Value() == Append(old(instance.Value()), record, host)
    {
      instance.audit := instance.audit + [record.(at := host.clock(|instance.audit|))];
    }

    method EnterNode(nodeID: NodeID, host: Host)
      modifies instance
      ensures instance.Value() == Transitions.EnterNode(old(instance.Value()), nodeID, host)
    {
      instance.currentNodeID := nodeID;
      instance.nodeState := Absent;
      AppendAudit(AuditRecord(NodeEntered, nodeID := nodeID), host);
    }

    method SetNodeState(state: RawMessage)
      modifies instance`nodeState
      ensures instance.Value() == old(instance.Value()).(nodeState := state)
    {
      instance.nodeState := state;
    }

    method Complete(host: Host)
      modifies instance
      ensures instance.Value() == Transitions.Complete(old(instance.Value()), host)
    {
      instance.status := Completed;
      AppendAudit(AuditRecord(InstanceCompleted, nodeID := instance.currentNodeID), host);
    }

    method RejectNode(host: Host)
      modifies instance
      ensures instance.Value() == Transitions.RejectNode(old(instance.Value()), host)
    {
      AppendAudit(AuditRecord(NodeRejected, nodeID := instance.currentNodeID), host);
    }

    method RejectInstance(host: Host)
      modifies instance
      ensures instance.Value() == Transitions.RejectInstance(old(instance.Value()), host)
    {
      instance.status := Rejected;
      AppendAudit(AuditRecord(InstanceRejected, nodeID := instance.currentNodeID), host);
    }

    method Withdraw()
      modifies instance
      ensures instance.Value() == old(instance.Value()).(status := Withdrawn, tasks := CloseActive(old(instance.tasks)))
    {
      instance.status := Withdrawn;
      ghost var before := instance.tasks;
      for index := 0 to |instance.tasks|
        modifies instance`tasks
        invariant |instance.tasks| == |before|
        invariant forall i :: 0 <= i < index ==> instance.tasks[i] == CloseTask(before[i])
        invariant forall i :: index <= i < |before| ==> instance.tasks[i] == before[i]
      {
        if instance.tasks[index].status.Active? {
          instance.tasks := instance.tasks[index := instance.tasks[index].(status := Closed)];
        }
      }
    }

    /** Appends one active task per draft; an entropy failure leaves a candidate the caller discards. */
    method ActivateTasks(nodeID: NodeID, drafts: seq<Task>, host: Host) returns (r: Result<()>)
      modifies instance`tasks
      ensures r.Success? <==> |drafts| <= |host.ids|
      ensures r.Failure? ==> r.error == EntropyFailed
      ensures r.Success? ==>
                instance.tasks == Transitions.ActivateTasks(old(instance.tasks), nodeID, drafts, host.ids).value
    {
      ghost var before := instance.tasks;
      for k := 0 to |drafts|
        modifies instance`tasks
        invariant k <= |host.ids|
        invariant |instance.tasks| == |before| + k
        invariant forall i :: 0 <= i < |before| ==> instance.tasks[i] == before[i]
        invariant forall i :: 0 <= i < k ==> instance.tasks[|before| + i] == Bind(drafts[i], nodeID, host.ids[i])
      {
        if k == |host.ids| {
          return Failure(EntropyFailed);
        }
        var task := drafts[k].(id := host.ids[k], nodeID := nodeID);
        instance.tasks := instance.tasks + [task];
      }
      ghost var after := Transitions.ActivateTasks(before, nodeID, drafts, host.ids).value;
      forall i | 0 <= i < |after| ensures after[i] == instance.tasks[i] {
        if i >= |before| {
          assert after[|before| + (i - |before|)] == Bind(drafts[i - |before|], nodeID, host.ids[i - |before|]);
        }
      }
      return Success(());
    }

    method ReturnTo(target: NodeID, result: NodeResult, host: Host) returns (r: Result<()>)
      modifies instance
      ensures r.Success? <==> |result.tasks| <= |host.ids|
      ensures r.Failure? ==> r.error == EntropyFailed
      ensures r.Success? ==>
                var open := CloseActiveAt(old(instance.tasks), old(instance.currentNodeID));
                var closed := old(instance.Value()).(tasks := open);
                var entered := Transitions.EnterNode(closed, target, host);
                instance.Value() == entered.(
                  tasks := Transitions.ActivateTasks(entered.tasks, target, result.tasks, host.ids).value,
                  nodeState := result.state)
    {
      var source := instance.currentNodeID;
      ghost var before := instance.tasks;
      for index := 0 to |instance.tasks|
        modifies instance`tasks
        invariant |instance.tasks| == |before|
        invariant forall i :: 0 <= i < index ==>
                    instance.tasks[i] == if before[i].nodeID == source then CloseTask(before[i]) else before[i]
        invariant forall i :: index <= i < |before| ==> instance.tasks[i] == before[i]
      {
        if instance.tasks[index].nodeID == source && instance.tasks[index].status.Active? {
          instance.tasks := instance.tasks[index := instance.tasks[index].(status := Closed)];
        }
      }
      assert instance.tasks == CloseActiveAt(before, source);
      EnterNode(target, host);
      SetNodeState(result.state);
      r := ActivateTasks(target, result.tasks, host);
    }

    method Transfer(current: Task, newAssignee: ActorID, host: Host) returns (r: Result<()>)
      modifies instance`tasks
      ensures r.Success? <==> host.ids != [] && FindTask(old(instance.tasks), current.id).Some?
      ensures host.ids == [] ==> r == Failure(EntropyFailed) && instance.tasks == old(instance.tasks)
      ensures r.Success? ==>
                var at := FindTask(old(instance.tasks), current.id).value;
                current.nodeID == old(instance.tasks)[at].nodeID ==>
                  instance.tasks == TransferTask(old(instance.tasks), at, newAssignee, host.ids[0])
    {
      if |host.ids| == 0 {
        return Failure(EntropyFailed);
      }
      var replacement := Task(host.ids[0], current.nodeID, newAssignee, Active, EMPTY);
      for index := 0 to |instance.tasks|
        invariant instance.tasks == old(instance.tasks)
        invariant forall i :: 0 <= i < index ==> instance.tasks[i].id != current.id
      {
        if instance.tasks[index].id == current.id {
          instance.tasks := instance.tasks[index := instance.tasks[index].(status := Closed)];
          instance.tasks := instance.tasks + [replacement];
          return Success(());
        }
      }
      return Failure(TaskNotTransferable);
    }

    method ApplyNodeTaskReplacements(replacements: seq<Replacement>, ghost nodeID: NodeID, ghost proposals: seq<Task>)
      requires Covers(replacements, instance.tasks, nodeID, proposals)
      modifies instance`tasks
      ensures instance.tasks == ReplaceNodeTasks(old(instance.tasks), nodeID, proposals)
    {
      ghost var before := instance.tasks;
      for k := 0 to |replacements|
        modifies instance`tasks
        invariant |instance.tasks| == |before|
        invariant forall i :: 0 <= i < |before| ==>
                    instance.tasks[i] == before[i] || instance.tasks[i] == ReplaceTask(before[i], nodeID, proposals)
        invariant forall j :: 0 <= j < k ==>
                    instance.tasks[replacements[j].index]
                        == ReplaceTask(before[replacements[j].index], nodeID, proposals)
      {
        instance.tasks := instance.tasks[replacements[k].index := replacements[k].task];
      }
      forall i | 0 <= i < |before| ensures instance.tasks[i] == ReplaceTask(before[i], nodeID, proposals) {
        if before[i].nodeID == nodeID {
          var k :| 0 <= k < |replacements| && replacements[k].index == i;
        }
      }
    }

    method AdvanceVersion() returns (r: Result<()>)
      modifies instance`version
      ensures r.Success? <==> Transitions.AdvanceVersion(old(instance.Value())).Success?
      ensures r.Success? ==> instance.Value() == Transitions.AdvanceVersion(old(instance.Value())).value
      ensures r.Failure? ==> r.error == VersionOverflow
    {
      if instance.version == MAX_UINT64 {
        return Failure(VersionOverflow);
      }
      instance.version := instance.version + 1;
      return Success(());
    }
  }
}
