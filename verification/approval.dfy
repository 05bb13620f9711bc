/** The official approval node: or-sign and countersign decisions, and what a round conserves while the engine runs
    it. */
module Approvals {
  import opened Workflow
  import opened Graphs
  import opened Compiler
  import opened Transitions
  import opened Invariants
  import opened Navigation
  import L = CommandLaws

  const APPROVE := "approve"
  const REJECT := "reject"
  const APPROVED: Outcome := "approved"
  const REJECTED: Outcome := "rejected"
  const MODE_ANY := "any"
  const MODE_ALL := "all"

  /** The decoded configuration: exactly one of static assignees and a role resolved by the host. */
  datatype Config = Config(mode: string, assignees: seq<ActorID>, policy: Option<Name>, rejectedOutcome: Outcome)

  datatype Refusal =
    | TaskNotActive | UnsupportedCommand
    | UnsupportedMode | UnsupportedRejection | AmbiguousSource | EmptyRole
    | NoAssignees | EmptyAssignee | DuplicateAssignee
    | AdapterRequired | ResolutionFailed

  datatype Answer<+T> = Answered(value: T) | Refused(why: Refusal)

  /** How the engine sees a handler's answer: any refusal ends the command. */
  function ToEngine(a: Answer<NodeResult>): Result<NodeResult> {
    if a.Answered? then Success(a.value) else Failure(HandlerFailed)
  }

  /* Configuration */

  ghost predicate Population(assignees: seq<ActorID>) {
    EMPTY !in assignees && Distinct(assignees)
  }

  ghost predicate ConfigValid(c: Config) {
    && (c.mode == MODE_ANY || c.mode == MODE_ALL)
    && (c.rejectedOutcome == EMPTY || c.rejectedOutcome == REJECTED)
    && (match c.policy
        case Some(role) => role != EMPTY && c.assignees == []
        case None => c.assignees != [] && Population(c.assignees))
  }

  /** The first offending actor decides what is reported. */
  ghost predicate FirstFault(assignees: seq<ActorID>, k: nat, why: Refusal) {
    && k < |assignees| && Population(assignees[..k])
    && ((assignees[k] == EMPTY && why == EmptyAssignee)
        || (assignees[k] != EMPTY && assignees[k] in assignees[..k] && why == DuplicateAssignee))
  }

  method ValidateAssignees(assignees: seq<ActorID>) returns (r: Answer<()>)
    ensures r.Answered? <==> assignees != [] && Population(assignees)
    ensures assignees == [] ==> r == Refused(NoAssignees)
    ensures r.Refused? && assignees != [] ==> exists k: nat :: FirstFault(assignees, k, r.why)
  {
    if |assignees| == 0 {
      return Refused(NoAssignees);
    }
    var seen: set<ActorID> := {};
    for i := 0 to |assignees|
      invariant seen == set a | a in assignees[..i]
      invariant Population(assignees[..i])
    {
      if assignees[i] == EMPTY {
        assert FirstFault(assignees, i, EmptyAssignee);
        return Refused(EmptyAssignee);
      }
      if assignees[i] in seen {
        assert FirstFault(assignees, i, DuplicateAssignee);
        return Refused(DuplicateAssignee);
      }
      assert assignees[..i + 1] == assignees[..i] + [assignees[i]];
      seen := seen + {assignees[i]};
    }
    assert assignees[..|assignees|] == assignees;
    return Answered(());
  }

  method CheckConfig(c: Config) returns (r: Answer<Config>)
    ensures r.Answered? <==> ConfigValid(c)
    ensures r.Answered? ==> r.value == c
  {
    if c.mode != MODE_ANY && c.mode != MODE_ALL {
      return Refused(UnsupportedMode);
    }
    if c.rejectedOutcome != EMPTY && c.rejectedOutcome != REJECTED {
      return Refused(UnsupportedRejection);
    }
    if (|c.assignees| == 0) == c.policy.None? {
      return Refused(AmbiguousSource);
    }
    if c.policy.Some? {
      return if c.policy.value == EMPTY then Refused(EmptyRole) else Answered(c);
    }
    var checked := ValidateAssignees(c.assignees);
    return if checked.Refused? then Refused(checked.why) else Answered(c);
  }

  function Draft(assignee: ActorID): Task { Task(EMPTY, EMPTY, assignee, Active, EMPTY) }

  /** The actors a round is frozen to: the static ones, or what the directory answers now. */
  ghost function Resolved(c: Config, organization: Option<(Name, RawMessage) -> Option<seq<ActorID>>>,
                          data: RawMessage): Answer<seq<ActorID>>
  {
    if c.policy.None? then Answered(c.assignees)
    else if organization.None? then Refused(AdapterRequired)
    else if organization.value(c.policy.value, data).None? then Refused(ResolutionFailed)
    else Answered(organization.value(c.policy.value, data).value)
  }

  /** Opens a round with one active task for each resolved actor; whatever it opens, the engine accepts. */
  method ActivateConfig(c: Config, organization: Option<(Name, RawMessage) -> Option<seq<ActorID>>>, data: RawMessage)
    returns (r: Answer<NodeResult>)
    requires ConfigValid(c)
    ensures r.Answered? <==> Resolved(c, organization, data).Answered? && Resolved(c, organization, data).value != []
                             && Population(Resolved(c, organization, data).value)
    ensures r.Answered? ==>
              var actors := Resolved(c, organization, data).value;
              && |r.value.tasks| == |actors|
              && (forall i :: 0 <= i < |actors| ==>
                  r.value.tasks[i].assignee == actors[i] && r.value.tasks[i].status.Active?)
              && forall id :: id != EMPTY ==> ActivationAllowed(id, r.value) && ReturnAllowed(id, r.value)
    ensures Resolved(c, organization, data).Refused? ==> r == Refused(Resolved(c, organization, data).why)
  {
    var assignees := c.assignees;
    if c.policy.Some? {
      if organization.None? {
        return Refused(AdapterRequired);
      }
      var resolved := organization.value(c.policy.value, data);
      if resolved.None? {
        return Refused(ResolutionFailed);
      }
      assignees := resolved.value;
      var checked := ValidateAssignees(assignees);
      if checked.Refused? {
        return Refused(checked.why);
      }
    }
    var tasks: seq<Task> := [];
    for i := 0 to |assignees|
      invariant |tasks| == i
      invariant forall k :: 0 <= k < i ==> tasks[k] == Draft(assignees[k])
    {
      tasks := tasks + [Draft(assignees[i])];
    }
    return Answered(NodeResult(Waiting, EMPTY, Absent, tasks));
  }

  /* Decisions */

  predicate HasActive(tasks: seq<Task>) { exists i :: 0 <= i < |tasks| && tasks[i].status.Active? }

  /** One command on the complete view of the node's tasks, all rounds included. */
  function Decide(c: Config, command: Command, tasks: seq<Task>): Answer<NodeResult> {
    match FindTask(tasks, command.taskID)
    case None => Refused(TaskNotActive)
    case Some(i) =>
      if tasks[i].assignee != command.actorID || !tasks[i].status.Active? then Refused(TaskNotActive)
      else if command.name == APPROVE then
        var decided := tasks[i := tasks[i].(status := Done, outcome := APPROVED)];
        if c.mode == MODE_ALL && HasActive(decided) then Answered(NodeResult(Waiting, EMPTY, Absent, decided))
        else Answered(NodeResult(Continue, APPROVED, Absent, CloseActive(decided)))
      else if command.name == REJECT then
        var decided := tasks[i := tasks[i].(status := Done, outcome := REJECTED)];
        Answered(NodeResult(Reject, c.rejectedOutcome, Absent, CloseActive(decided)))
      else Refused(UnsupportedCommand)
  }

  method HasActiveTask(tasks: array<Task>) returns (active: bool)
    ensures active <==> HasActive(tasks[..])
  {
    for i := 0 to tasks.Length
      invariant forall k :: 0 <= k < i ==> !tasks[k].status.Active?
    {
      if tasks[i].status.Active? {
        assert tasks[..][i].status.Active?;
        return true;
      }
    }
    return false;
  }

  method CloseActiveTasks(tasks: array<Task>)
    modifies tasks
    ensures tasks[..] == CloseActive(old(tasks[..]))
  {
    for i := 0 to tasks.Length
      invariant forall k :: 0 <= k < i ==> tasks[k] == CloseTask(old(tasks[k]))
      invariant forall k :: i <= k < tasks.Length ==> tasks[k] == old(tasks[k])
    {
      if tasks[i].status.Active? {
        tasks[i] := tasks[i].(status := Closed);
      }
    }
  }

  lemma FoundAt(tasks: seq<Task>, id: TaskID, i: nat)
    requires i < |tasks| && tasks[i].id == id && forall k :: 0 <= k < i ==> tasks[k].id != id
    ensures FindTask(tasks, id) == Some(i)
  {
  }

  method HandleConfig(c: Config, command: Command, inputTasks: seq<Task>) returns (r: Answer<NodeResult>)
    ensures r == Decide(c, command, inputTasks)
  {
    var tasks := new Task[|inputTasks|](i requires 0 <= i < |inputTasks| => inputTasks[i]);
    assert tasks[..] == inputTasks;
    var taskIndex := -1;
    for i := 0 to tasks.Length
      invariant tasks[..] == inputTasks && taskIndex == -1
      invariant forall k :: 0 <= k < i ==> inputTasks[k].id != command.taskID
    {
      if tasks[i].id == command.taskID {
        FoundAt(inputTasks, command.taskID, i);
        taskIndex := i;
        break;
      }
    }
    if taskIndex < 0 || tasks[taskIndex].assignee != command.actorID || !tasks[taskIndex].status.Active? {
      return Refused(TaskNotActive);
    }
    if command.name == APPROVE {
      tasks[taskIndex] := tasks[taskIndex].(status := Done, outcome := APPROVED);
      assert tasks[..] == inputTasks[taskIndex := inputTasks[taskIndex].(status := Done, outcome := APPROVED)];
      var waits := HasActiveTask(tasks);
      if c.mode == MODE_ALL && waits {
        return Answered(NodeResult(Waiting, EMPTY, Absent, tasks[..]));
      }
      CloseActiveTasks(tasks);
      return Answered(NodeResult(Continue, APPROVED, Absent, tasks[..]));
    } else if command.name == REJECT {
      tasks[taskIndex] := tasks[taskIndex].(status := Done, outcome := REJECTED);
      assert tasks[..] == inputTasks[taskIndex := inputTasks[taskIndex].(status := Done, outcome := REJECTED)];
      CloseActiveTasks(tasks);
      return Answered(NodeResult(Reject, c.rejectedOutcome, Absent, tasks[..]));
    } else {
      return Refused(UnsupportedCommand);
    }
  }

  /** What a decision does to each task, wherever it stands. */
  function Decided(t: Task, id: TaskID, outcome: Outcome, closing: bool): Task {
    if t.id == id then t.(status := Done, outcome := outcome) else if closing then CloseTask(t) else t
  }

  function Verdict(command: Command): Outcome { if command.name == APPROVE then APPROVED else REJECTED }

  ghost predicate IsDecided(before: seq<Task>, after: seq<Task>, command: Command, closing: bool) {
    && |after| == |before|
    && forall i :: 0 <= i < |before| ==> after[i] == Decided(before[i], command.taskID, Verdict(command), closing)
  }

  lemma DecideMaps(c: Config, command: Command, tasks: seq<Task>)
    requires UniqueTasks(tasks) && Decide(c, command, tasks).Answered?
    ensures var r := Decide(c, command, tasks).value;
            && IsDecided(tasks, r.tasks, command, !r.disposition.Waiting?)
            && (r.disposition.Waiting? <==> c.mode == MODE_ALL && command.name == APPROVE && HasActive(r.tasks))
  {
    var r := Decide(c, command, tasks).value;
    var at := FindTask(tasks, command.taskID).value;
    forall i | 0 <= i < |tasks|
        ensures r.tasks[i] == Decided(tasks[i], command.taskID, Verdict(command), !r.disposition.Waiting?) {
      if i < at { assert !SameTaskID(tasks, i, at); }
      if at < i { assert !SameTaskID(tasks, at, i); }
    }
  }

  /* Acceptance by the engine */

  lemma {:induction false} ViewUnique(tasks: seq<Task>, nodeID: NodeID)
    requires UniqueTasks(tasks)
    ensures UniqueTasks(NodeTasks(tasks, nodeID))
  {
    if tasks == [] {
    } else {
      var init := tasks[..|tasks| - 1];
      forall i: nat, j: nat | i < j < |init| ensures !SameTaskID(init, i, j) { assert !SameTaskID(tasks, i, j); }
      ViewUnique(init, nodeID);
      var view := NodeTasks(tasks, nodeID);
      forall i: nat, j: nat | i < j < |view| ensures !SameTaskID(view, i, j) {
        var earlier := NodeTasks(init, nodeID);
        if j < |earlier| {
          assert !SameTaskID(earlier, i, j);
        } else {
          assert earlier[i] in init;
          var k :| 0 <= k < |init| && init[k] == earlier[i];
          assert !SameTaskID(tasks, k, |tasks| - 1);
        }
      }
    }
  }

  lemma {:induction false} LastOfView(view: seq<Task>, proposals: seq<Task>, i: nat)
    requires UniqueTasks(view) && |proposals| == |view| && i < |view|
    requires forall k :: 0 <= k < |view| ==> proposals[k].id == view[k].id
    ensures LastProposal(proposals, view[i].id) == Some(proposals[i])
  {
    var last := |view| - 1;
    if i < last {
      assert !SameTaskID(view, i, last);
      forall a: nat, b: nat | a < b < last ensures !SameTaskID(view[..last], a, b) { assert !SameTaskID(view, a, b); }
      LastOfView(view[..last], proposals[..last], i);
    }
  }

  lemma SameTask(tasks: seq<Task>, i: nat, j: nat)
    requires UniqueTasks(tasks) && i < |tasks| && j < |tasks| && tasks[i].id == tasks[j].id
    ensures i == j
  {
    assert i < j ==> !SameTaskID(tasks, i, j);
    assert j < i ==> !SameTaskID(tasks, j, i);
  }

  /** The task at a position is open and belongs to the actor of the command. */
  ghost predicate Owns(tasks: seq<Task>, command: Command, i: nat) {
    i < |tasks| && tasks[i].id == command.taskID && tasks[i].assignee == command.actorID && tasks[i].status == Active
  }

  /** Somebody else is still asked. */
  ghost predicate OthersOpen(tasks: seq<Task>, i: nat) {
    exists j :: 0 <= j < |tasks| && j != i && tasks[j].status == Active
  }

  /** The decided task carries the verdict; of the others, the open ones stay open or are all closed. */
  ghost predicate Marks(tasks: seq<Task>, after: seq<Task>, i: nat, verdict: Outcome, closing: bool)
    requires i < |tasks|
  {
    && |after| == |tasks| && after[i] == tasks[i].(status := Done, outcome := verdict)
    && forall j :: 0 <= j < |tasks| && j != i ==>
         after[j] == if closing && tasks[j].status == Active then tasks[j].(status := Closed) else tasks[j]
  }

  /** What the owner of an open task is answered. */
  ghost predicate AnswersOwner(c: Config, command: Command, tasks: seq<Task>, i: nat, a: Answer<NodeResult>)
    requires i < |tasks|
  {
    if command.name == "approve" then
      && a.Answered? && a.value.state == Absent
      && if c.mode == "all" && OthersOpen(tasks, i)
         then a.value.disposition == Waiting && a.value.outcome == ""
             && Marks(tasks, a.value.tasks, i, "approved", false)
         else a.value.disposition == Continue && a.value.outcome == "approved"
              && Marks(tasks, a.value.tasks, i, "approved", true)
    else if command.name == "reject" then
      && a.Answered? && a.value.state == Absent
      && a.value.disposition == Reject && a.value.outcome == c.rejectedOutcome
      && Marks(tasks, a.value.tasks, i, "rejected", true)
    else a == Refused(UnsupportedCommand)
  }

  /** The owner of an open task is answered by command and mode; nobody else is. */
  lemma DecidesAsAsked(c: Config, command: Command, tasks: seq<Task>)
    requires UniqueTasks(tasks)
    ensures (exists i: nat :: Owns(tasks, command, i)) || Decide(c, command, tasks) == Refused(TaskNotActive)
    ensures forall i: nat :: Owns(tasks, command, i) ==> AnswersOwner(c, command, tasks, i, Decide(c, command, tasks))
  {
    var found := FindTask(tasks, command.taskID);
    if found.Some? && tasks[found.value].assignee == command.actorID && tasks[found.value].status.Active? {
      assert Owns(tasks, command, found.value);
    }
    forall i: nat | Owns(tasks, command, i) ensures AnswersOwner(c, command, tasks, i, Decide(c, command, tasks)) {
      SameTask(tasks, i, found.value);
      OwnerAnswered(c, command, tasks, i);
    }
  }

  lemma OwnerAnswered(c: Config, command: Command, tasks: seq<Task>, i: nat)
    requires Owns(tasks, command, i) && FindTask(tasks, command.taskID) == Some(i)
    ensures AnswersOwner(c, command, tasks, i, Decide(c, command, tasks))
  {
    hide FindTask;
    var approved := tasks[i := tasks[i].(status := Done, outcome := APPROVED)];
    if OthersOpen(tasks, i) {
      var j :| 0 <= j < |tasks| && j != i && tasks[j].status == Active;
      assert approved[j].status.Active?;
    }
  }

  /** Each task of the node is found by its own decided version, a legal advance of it. */
  lemma DecisionLands(s: Snapshot, c: Config, command: Command, i: nat)
    requires TasksSound(s.tasks) && i < |s.tasks| && s.tasks[i].nodeID == s.currentNodeID
    requires Decide(c, command, NodeTasks(s.tasks, s.currentNodeID)).Answered?
    ensures var r := Decide(c, command, NodeTasks(s.tasks, s.currentNodeID)).value;
            && LastProposal(r.tasks, s.tasks[i].id)
                 == Some(Decided(s.tasks[i], command.taskID, Verdict(command), !r.disposition.Waiting?))
            && Proposed(r.tasks, s.tasks[i])
  {
    hide Decide, UniqueTasks, NodeTasks, LastProposal, FindTask;
    var view := NodeTasks(s.tasks, s.currentNodeID);
    var r := Decide(c, command, view).value;
    ViewUnique(s.tasks, s.currentNodeID);
    DecideMaps(c, command, view);
    DecideTouchesActive(c, command, view);
    assert s.tasks[i] in view;
    var x :| 0 <= x < |view| && view[x] == s.tasks[i];
    if view[x].id == command.taskID { SameTask(view, x, FindTask(view, command.taskID).value); }
    LastOfView(view, r.tasks, x);
  }

  lemma DecideTouchesActive(c: Config, command: Command, tasks: seq<Task>)
    requires Decide(c, command, tasks).Answered?
    ensures FindTask(tasks, command.taskID).Some? && tasks[FindTask(tasks, command.taskID).value].id == command.taskID
    ensures tasks[FindTask(tasks, command.taskID).value].status.Active?
  {
  }

  lemma DecisionNames(s: Snapshot, c: Config, command: Command, p: Task)
    requires TasksSound(s.tasks)
    requires Decide(c, command, NodeTasks(s.tasks, s.currentNodeID)).Answered?
    requires p in Decide(c, command, NodeTasks(s.tasks, s.currentNodeID)).value.tasks
    ensures p.id != EMPTY && p.nodeID == s.currentNodeID && TaskAt(s.tasks, s.currentNodeID, p.id)
  {
    var view := NodeTasks(s.tasks, s.currentNodeID);
    ViewUnique(s.tasks, s.currentNodeID);
    DecideMaps(c, command, view);
    var tasks := Decide(c, command, view).value.tasks;
    var x :| 0 <= x < |tasks| && tasks[x] == p;
    assert view[x] in s.tasks && view[x].nodeID == s.currentNodeID && view[x].id == p.id;
  }

  lemma DecisionWaits(s: Snapshot, c: Config, command: Command)
    requires TasksSound(s.tasks)
    requires Decide(c, command, NodeTasks(s.tasks, s.currentNodeID)).Answered?
    requires var r := Decide(c, command, NodeTasks(s.tasks, s.currentNodeID)).value;
             forall i :: 0 <= i < |s.tasks| && s.tasks[i].nodeID == s.currentNodeID ==>
               LastProposal(r.tasks, s.tasks[i].id)
                   == Some(Decided(s.tasks[i], command.taskID, Verdict(command), !r.disposition.Waiting?))
    ensures var r := Decide(c, command, NodeTasks(s.tasks, s.currentNodeID)).value;
            r.disposition.Waiting? <==> ActiveAt(ReplaceNodeTasks(s.tasks, s.currentNodeID, r.tasks), s.currentNodeID)
  {
    hide Decide, NodeTasks, FindTask, LastProposal;
    var view := NodeTasks(s.tasks, s.currentNodeID);
    var r := Decide(c, command, view).value;
    var after := ReplaceNodeTasks(s.tasks, s.currentNodeID, r.tasks);
    ViewUnique(s.tasks, s.currentNodeID);
    DecideMaps(c, command, view);
    hide UniqueTasks, TasksSound;
    if r.disposition.Waiting? {
      var x :| 0 <= x < |r.tasks| && r.tasks[x].status.Active?;
      assert view[x] in s.tasks;
      var i :| 0 <= i < |s.tasks| && s.tasks[i] == view[x];
      assert after[i] == r.tasks[x];
    }
  }

  lemma DecisionFields(c: Config, command: Command, view: seq<Task>, nodeID: NodeID)
    requires Decide(c, command, view).Answered? && nodeID != EMPTY
    ensures FieldsAllowed(nodeID, Decide(c, command, view).value)
  {
  }

  lemma NodeTasksDiffer(tasks: seq<Task>, nodeID: NodeID)
    requires TasksSound(tasks)
    ensures forall i: nat, j: nat {:trigger SameNodeTask(tasks, nodeID, i, j)} :: i < j < |tasks| ==>
              !SameNodeTask(tasks, nodeID, i, j)
  {
    forall i: nat, j: nat | i < j < |tasks| ensures !SameNodeTask(tasks, nodeID, i, j) {
      assert !SameTaskID(tasks, i, j);
    }
  }

  /** On a sound instance every decision of the handler is a view the engine accepts, written to exactly the node's
      tasks. */
  lemma DecisionAccepted(s: Snapshot, c: Config, command: Command)
    requires TasksSound(s.tasks) && s.currentNodeID != EMPTY
    requires Decide(c, command, NodeTasks(s.tasks, s.currentNodeID)).Answered?
    ensures var r := Decide(c, command, NodeTasks(s.tasks, s.currentNodeID)).value;
            && CommandAllowed(s.tasks, s.currentNodeID, r)
            && forall i :: 0 <= i < |s.tasks| ==>
                 ReplaceNodeTasks(s.tasks, s.currentNodeID, r.tasks)[i]
                 == if s.tasks[i].nodeID == s.currentNodeID
                     then Decided(s.tasks[i], command.taskID, Verdict(command), !r.disposition.Waiting?)
                    else s.tasks[i]
  {
    hide Decide, NodeTasks, TasksSound, Proposed, Decided, FieldsAllowed, TaskAt, SameNodeTask, LastProposal, ActiveAt;
    var nodeID := s.currentNodeID;
    var r := Decide(c, command, NodeTasks(s.tasks, nodeID)).value;
    DecisionFields(c, command, NodeTasks(s.tasks, nodeID), nodeID);
    NodeTasksDiffer(s.tasks, nodeID);
    forall i | 0 <= i < |s.tasks| && s.tasks[i].nodeID == nodeID
      ensures LastProposal(r.tasks, s.tasks[i].id)
                == Some(Decided(s.tasks[i], command.taskID, Verdict(command), !r.disposition.Waiting?))
      ensures Proposed(r.tasks, s.tasks[i])
    {
      DecisionLands(s, c, command, i);
    }
    forall p | p in r.tasks ensures p.id != EMPTY && p.nodeID == nodeID && TaskAt(s.tasks, nodeID, p.id) {
      DecisionNames(s, c, command, p);
    }
    DecisionWaits(s, c, command);
  }

  /* Rounds */

  /** How many tasks have the status and outcome. */
  function Tally(tasks: seq<Task>, status: TaskStatus, outcome: Outcome): nat {
    if tasks == [] then 0
    else
      var last := tasks[|tasks| - 1];
      Tally(tasks[..|tasks| - 1], status, outcome) + (if last.status == status && last.outcome == outcome then 1 else 0)
  }

  function One(t: Task, status: TaskStatus, outcome: Outcome): nat {
    if t.status == status && t.outcome == outcome then 1 else 0
  }

  lemma {:induction false} TallyUpdate(tasks: seq<Task>, i: nat, t: Task, status: TaskStatus, outcome: Outcome)
    requires i < |tasks|
    ensures Tally(tasks[i := t], status, outcome) + One(tasks[i], status, outcome)
              == Tally(tasks, status, outcome) + One(t, status, outcome)
  {
    var init := tasks[..|tasks| - 1];
    if i < |init| {
      assert tasks[i := t][..|tasks| - 1] == init[i := t];
      TallyUpdate(init, i, t, status, outcome);
    } else {
      assert tasks[i := t][..|tasks| - 1] == init;
    }
  }

  lemma {:induction false} TallyClosed(tasks: seq<Task>, status: TaskStatus, outcome: Outcome)
    ensures status.Active? ==> Tally(CloseActive(tasks), status, outcome) == 0
    ensures status.Done? ==> Tally(CloseActive(tasks), status, outcome) == Tally(tasks, status, outcome)
  {
    if tasks == [] {
    } else {
      assert CloseActive(tasks)[..|tasks| - 1] == CloseActive(tasks[..|tasks| - 1]);
      TallyClosed(tasks[..|tasks| - 1], status, outcome);
    }
  }

  lemma {:induction false} TallyAll(tasks: seq<Task>, status: TaskStatus, outcome: Outcome)
    requires forall i :: 0 <= i < |tasks| ==> One(tasks[i], status, outcome) == 1
    ensures Tally(tasks, status, outcome) == |tasks|
  {
    if tasks == [] {
    } else {
      TallyAll(tasks[..|tasks| - 1], status, outcome);
    }
  }

  lemma {:induction false} TallyNone(tasks: seq<Task>, status: TaskStatus, outcome: Outcome)
    requires forall i :: 0 <= i < |tasks| ==> One(tasks[i], status, outcome) == 0
    ensures Tally(tasks, status, outcome) == 0
  {
    if tasks == [] {
    } else {
      TallyNone(tasks[..|tasks| - 1], status, outcome);
    }
  }

  lemma {:induction false} TallySome(tasks: seq<Task>, i: nat, status: TaskStatus, outcome: Outcome)
    requires i < |tasks| && One(tasks[i], status, outcome) == 1
    ensures Tally(tasks, status, outcome) > 0
  {
    if i == |tasks| - 1 {
    } else {
      TallySome(tasks[..|tasks| - 1], i, status, outcome);
    }
  }

  lemma TallyUniform(tasks: seq<Task>, status: TaskStatus, outcome: Outcome)
    ensures (forall i :: 0 <= i < |tasks| ==> One(tasks[i], status, outcome) == 1) ==>
              Tally(tasks, status, outcome) == |tasks|
    ensures (forall i :: 0 <= i < |tasks| ==> One(tasks[i], status, outcome) == 0)
              <==> Tally(tasks, status, outcome) == 0
  {
    hide Tally;
    if forall i :: 0 <= i < |tasks| ==> One(tasks[i], status, outcome) == 1 {
      TallyAll(tasks, status, outcome);
    }
    if i :| 0 <= i < |tasks| && One(tasks[i], status, outcome) == 1 {
      TallySome(tasks, i, status, outcome);
    } else {
      TallyNone(tasks, status, outcome);
    }
  }

  /** The tasks from a position on, activated together for a fixed number of actors. */
  datatype Round = Round(base: nat, size: nat)

  function Open(tasks: seq<Task>): nat { Tally(tasks, Active, EMPTY) }
  function Approved(tasks: seq<Task>): nat { Tally(tasks, Done, APPROVED) }

  predicate InProgress(t: Task, nodeID: NodeID) {
    t.nodeID == nodeID && (t.status.Active? || t.status.Closed? || (t.status.Done? && t.outcome == APPROVED))
  }

  /** Conservation: each of the round's actors is still represented by an open task or has approved, however often
      the tasks changed hands, and nothing older is open. */
  ghost predicate Conserved(s: Snapshot, c: Config, round: Round) {
    && round.base <= |s.tasks|
    && (forall i :: 0 <= i < round.base ==> !s.tasks[i].status.Active?)
    && (forall i :: round.base <= i < |s.tasks| ==> InProgress(s.tasks[i], s.currentNodeID))
    && Open(s.tasks[round.base..]) + Approved(s.tasks[round.base..]) == round.size
    && (c.mode != MODE_ALL ==> Approved(s.tasks[round.base..]) == 0)
  }

  /* Opening a round */

  lemma ActivationOpens(c: Config, after: Snapshot, earlier: seq<Task>, drafts: seq<Task>, ids: seq<TaskID>)
    requires NoWork(earlier) && DraftsAllowed(drafts) && |drafts| <= |ids|
    requires after.tasks == ActivateTasks(earlier, after.currentNodeID, drafts, ids).value
    ensures Conserved(after, c, Round(|earlier|, |drafts|))
  {
    var tasks := after.tasks[|earlier|..];
    forall i | 0 <= i < |tasks|
        ensures tasks[i] == Bind(drafts[i], after.currentNodeID, ids[i]) && DraftAllowed(drafts[i]) {
    }
    TallyUniform(tasks, Active, EMPTY);
    TallyUniform(tasks, Done, APPROVED);
  }

  /** An advance leaves earlier tasks alone and ends with the tasks of the node it waits at. */
  lemma {:induction false} AdvanceAppends(d: Definition, s: Snapshot, outcome: Outcome, host: Host)
    requires ValidGraph(d) && s.status.Running? && Advance(d, s, outcome, host).Success?
    ensures var r := Advance(d, s, outcome, host).value;
            if !r.status.Running? then r.tasks == s.tasks else
              && host.activate(r.currentNodeID).Success?
              && var drafts := host.activate(r.currentNodeID).value.tasks;
                 && DraftsAllowed(drafts) && |drafts| <= |host.ids|
                 && r.tasks == ActivateTasks(s.tasks, r.currentNodeID, drafts, host.ids).value
    decreases Below(d, s.currentNodeID)
  {
    hide ValidGraph, DraftsAllowed, FieldsAllowed;
    var target := Route(d, s.currentNodeID, outcome).value;
    if FindNode(d, target).value.kind != End {
      var entered := EnterNode(s, target, host);
      var result := host.activate(target).value;
      var tasks := ActivateTasks(entered.tasks, target, result.tasks, host.ids).value;
      var applied := entered.(tasks := tasks, nodeState := result.state);
      EdgeDescends(d, s.currentNodeID, target);
      if result.disposition.Waiting? {
      } else {
        assert tasks == s.tasks;
        if result.disposition.Continue? {
          AdvanceAppends(d, applied, result.outcome, host);
        } else if result.outcome != EMPTY {
          AdvanceAppends(d, RejectNode(applied, host), result.outcome, host);
        }
      }
    }
  }

  function DraftCount(r: Snapshot, host: Host): nat {
    if host.activate(r.currentNodeID).Success? then |host.activate(r.currentNodeID).value.tasks| else 0
  }

  /** The round that is current after a command: a new one whenever the command entered a node. */
  function NextRound(round: Round, s: Snapshot, r: Snapshot, host: Host): Round {
    var size := DraftCount(r, host);
    if Entered(r.audit) == Entered(s.audit) || size > |r.tasks| then round else Round(|r.tasks| - size, size)
  }

  type Configs = NodeID -> Option<Config>

  ghost predicate RoundKept(s: Snapshot, configs: Configs, round: Round) {
    s.status.Running? && configs(s.currentNodeID).Some? ==> Conserved(s, configs(s.currentNodeID).value, round)
  }

  /** At approval nodes commands are answered by the approval handler; everything else stays arbitrary. */
  ghost predicate AnsweredByApproval(s: Snapshot, request: Request, host: Host, configs: Configs) {
    request.Handle? && configs(s.currentNodeID).Some? ==>
      host.handle == ToEngine(Decide(configs(s.currentNodeID).value, request.command,
                                     NodeTasks(s.tasks, s.currentNodeID)))
  }

  lemma AdvanceOpens(configs: Configs, round: Round, s: Snapshot, from: Snapshot, outcome: Outcome, host: Host)
    requires Travelling(from) && Advance(from.definition, from, outcome, host).Success?
    requires Entered(from.audit) == Entered(s.audit)
    ensures var r := Advance(from.definition, from, outcome, host).value;
            RoundKept(r, configs, NextRound(round, s, r, host))
  {
    var d := from.definition;
    hide ValidGraph, TasksSound, LogSound, IsWalk, Conserved, NoWork, DraftsAllowed, Advance;
    var r := Advance(d, from, outcome, host).value;
    AdvanceAppends(d, from, outcome, host);
    PathRecorded(d, from, outcome, host);
    if r.status.Running? && configs(r.currentNodeID).Some? {
      ActivationOpens(configs(r.currentNodeID).value, r, from.tasks, host.activate(r.currentNodeID).value.tasks,
                      host.ids);
    }
  }

  /* Keeping a round */

  lemma TransferConserves(s: Snapshot, c: Config, round: Round, at: nat, newAssignee: ActorID, id: TaskID)
    requires Conserved(s, c, round) && TasksSound(s.tasks)
    requires at < |s.tasks| && s.tasks[at].status.Active? && s.tasks[at].nodeID == s.currentNodeID
    ensures Conserved(s.(tasks := TransferTask(s.tasks, at, newAssignee, id)), c, round)
    ensures Approved(TransferTask(s.tasks, at, newAssignee, id)[round.base..]) == Approved(s.tasks[round.base..])
  {
    var before := s.tasks[round.base..];
    var closed := s.tasks[at].(status := Closed);
    var replacement := Task(id, s.tasks[at].nodeID, newAssignee, Active, EMPTY);
    var p := at - round.base;
    var moved := before[p := closed];
    var after := TransferTask(s.tasks, at, newAssignee, id);
    assert after[round.base..] == moved + [replacement];
    assert (moved + [replacement])[..|moved|] == moved;
    assert TaskSound(s.tasks[at]);
    TallyUpdate(before, p, closed, Active, EMPTY);
    TallyUpdate(before, p, closed, Done, APPROVED);
  }

  /** Within the round, a decision marks one task and, when it ends the round, closes the open ones. */
  lemma DecidedRound(s: Snapshot, c: Config, command: Command, round: Round) returns (p: nat)
    requires TasksSound(s.tasks) && Conserved(s, c, round) && s.currentNodeID != EMPTY
    requires Decide(c, command, NodeTasks(s.tasks, s.currentNodeID)).Answered?
    ensures var r := Decide(c, command, NodeTasks(s.tasks, s.currentNodeID)).value;
            var before := s.tasks[round.base..];
            var after := ReplaceNodeTasks(s.tasks, s.currentNodeID, r.tasks);
            && p < |before| && before[p].status.Active? && before[p].id == command.taskID && before[p].outcome == EMPTY
            && var marked := before[p := before[p].(status := Done, outcome := Verdict(command))];
               after[round.base..] == if r.disposition.Waiting? then marked else CloseActive(marked)
  {
    hide Decide, CommandAllowed, LastProposal, ReplaceTask, NodeTasks, UniqueTasks, FindTask, Tally;
    var view := NodeTasks(s.tasks, s.currentNodeID);
    var r := Decide(c, command, view).value;
    DecisionAccepted(s, c, command);
    DecideTouchesActive(c, command, view);
    var found := view[FindTask(view, command.taskID).value];
    assert found in s.tasks;
    var at :| 0 <= at < |s.tasks| && s.tasks[at] == found;
    assert TaskSound(s.tasks[at]);
    p := at - round.base;
    forall i | 0 <= i < |s.tasks| && i != at ensures s.tasks[i].id != command.taskID {
      SameTaskElsewhere(s.tasks, i, at);
    }
    MarkedRound(s.tasks, ReplaceNodeTasks(s.tasks, s.currentNodeID, r.tasks), round.base, p, s.currentNodeID,
                command.taskID, Verdict(command), !r.disposition.Waiting?);
  }

  lemma MarkedRound(tasks: seq<Task>, after: seq<Task>, base: nat, p: nat, nodeID: NodeID, id: TaskID,
                    outcome: Outcome, closing: bool)
    requires |after| == |tasks| && base + p < |tasks| && tasks[base + p].id == id
    requires forall i :: 0 <= i < |tasks| && i != base + p ==> tasks[i].id != id
    requires forall i :: base <= i < |tasks| ==> tasks[i].nodeID == nodeID
    requires forall i :: 0 <= i < |tasks| ==>
               after[i] == if tasks[i].nodeID == nodeID then Decided(tasks[i], id, outcome, closing) else tasks[i]
    ensures var before := tasks[base..];
            var marked := before[p := before[p].(status := Done, outcome := outcome)];
            after[base..] == if closing then CloseActive(marked) else marked
  {
    var before := tasks[base..];
    var marked := before[p := before[p].(status := Done, outcome := outcome)];
    var expected := if closing then CloseActive(marked) else marked;
    forall i | 0 <= i < |before| ensures after[base..][i] == expected[i] {
      assert tasks[base + i] == before[i];
    }
  }

  /** Marking one open task of a round, alone or together with closing the others. */
  lemma MarkCounts(before: seq<Task>, p: nat, outcome: Outcome)
    requires p < |before| && before[p].status.Active? && before[p].outcome == EMPTY && outcome != EMPTY
    ensures var marked := before[p := before[p].(status := Done, outcome := outcome)];
            && Open(marked) + 1 == Open(before)
            && Tally(marked, Done, outcome) == Tally(before, Done, outcome) + 1
            && Approved(marked) == Approved(before) + (if outcome == APPROVED then 1 else 0)
            && Tally(CloseActive(marked), Done, outcome) == Tally(marked, Done, outcome)
            && Approved(CloseActive(marked)) == Approved(marked)
  {
    var done := before[p].(status := Done, outcome := outcome);
    TallyUpdate(before, p, done, Active, EMPTY);
    TallyUpdate(before, p, done, Done, outcome);
    TallyUpdate(before, p, done, Done, APPROVED);
    TallyClosed(before[p := done], Done, APPROVED);
    TallyClosed(before[p := done], Done, outcome);
  }

  lemma WaitingParts(s: Snapshot, c: Config, command: Command, round: Round)
    requires TasksSound(s.tasks) && Conserved(s, c, round) && s.currentNodeID != EMPTY && command.name == APPROVE
    requires Decide(c, command, NodeTasks(s.tasks, s.currentNodeID)).Answered?
    requires Decide(c, command, NodeTasks(s.tasks, s.currentNodeID)).value.disposition.Waiting?
    ensures var after := ReplaceNodeTasks(s.tasks, s.currentNodeID,
                                          Decide(c, command, NodeTasks(s.tasks, s.currentNodeID)).value.tasks);
            && (forall i :: 0 <= i < round.base ==> !after[i].status.Active?)
            && (forall i :: round.base <= i < |after| ==> InProgress(after[i], s.currentNodeID))
  {
    hide Decide, CommandAllowed, NodeTasks, TasksSound, Tally, ReplaceTask, LastProposal;
    DecisionAccepted(s, c, command);
  }

  /** An approval that leaves the round open turns one open task into one approval. */
  lemma WaitingConserves(s: Snapshot, c: Config, command: Command, round: Round)
    requires TasksSound(s.tasks) && Conserved(s, c, round) && s.currentNodeID != EMPTY
    requires Decide(c, command, NodeTasks(s.tasks, s.currentNodeID)).Answered?
    requires Decide(c, command, NodeTasks(s.tasks, s.currentNodeID)).value.disposition.Waiting?
    ensures var after := ReplaceNodeTasks(s.tasks, s.currentNodeID,
                                          Decide(c, command, NodeTasks(s.tasks, s.currentNodeID)).value.tasks);
            && Conserved(s.(tasks := after), c, round)
            && Approved(after[round.base..]) == Approved(s.tasks[round.base..]) + 1
  {
    hide Decide, CommandAllowed, NodeTasks, TasksSound, Tally, ReplaceTask, LastProposal, InProgress;
    WaitingMeansAll(c, command, NodeTasks(s.tasks, s.currentNodeID));
    var p := DecidedRound(s, c, command, round);
    MarkCounts(s.tasks[round.base..], p, APPROVED);
    WaitingParts(s, c, command, round);
  }

  lemma WaitingMeansAll(c: Config, command: Command, tasks: seq<Task>)
    requires Decide(c, command, tasks).Answered? && Decide(c, command, tasks).value.disposition.Waiting?
    ensures c.mode == MODE_ALL && command.name == APPROVE
  {
  }

  /** What a finished round looks like: nothing open, and under countersign an approving end has every approval;
      under or-sign, and after any rejection, exactly one decision ended it. */
  ghost predicate Finished(c: Config, verdict: Outcome, tasks: seq<Task>, approvedBefore: nat, size: nat) {
    && NoWork(tasks)
    && (verdict == APPROVED && c.mode == MODE_ALL ==> Approved(tasks) == size)
    && (verdict == APPROVED && c.mode != MODE_ALL ==> Approved(tasks) == 1)
    && (verdict == APPROVED ==> Approved(tasks) == approvedBefore + 1)
    && (verdict == REJECTED ==> Tally(tasks, Done, REJECTED) == 1 && Approved(tasks) == approvedBefore)
    && (forall t :: t in tasks ==>
        t.status.Closed? || (t.status.Done? && (t.outcome == APPROVED || t.outcome == verdict)))
  }

  lemma SameTaskElsewhere(tasks: seq<Task>, i: nat, j: nat)
    requires UniqueTasks(tasks) && i < |tasks| && j < |tasks| && i != j
    ensures tasks[i].id != tasks[j].id
  {
    if tasks[i].id == tasks[j].id { SameTask(tasks, i, j); }
  }

  lemma SoundIsUnique(tasks: seq<Task>)
    requires TasksSound(tasks)
    ensures UniqueTasks(tasks)
  {
  }

  /** Countersign goes on only when no other task of the node is open. */
  lemma NobodyLeft(s: Snapshot, c: Config, command: Command, i: nat)
    requires TasksSound(s.tasks) && c.mode == MODE_ALL && command.name == APPROVE
    requires Decide(c, command, NodeTasks(s.tasks, s.currentNodeID)).Answered?
    requires !Decide(c, command, NodeTasks(s.tasks, s.currentNodeID)).value.disposition.Waiting?
    requires i < |s.tasks| && s.tasks[i].nodeID == s.currentNodeID && s.tasks[i].id != command.taskID
    ensures !s.tasks[i].status.Active?
  {
    var view := NodeTasks(s.tasks, s.currentNodeID);
    assert s.tasks[i] in view;
    var x :| 0 <= x < |view| && view[x] == s.tasks[i];
    var at := FindTask(view, command.taskID).value;
    var decided := view[at := view[at].(status := Done, outcome := APPROVED)];
    assert decided[x] == view[x];
  }

  lemma MarkedFinishes(c: Config, before: seq<Task>, p: nat, verdict: Outcome, nodeID: NodeID, size: nat)
    requires verdict == APPROVED || verdict == REJECTED
    requires p < |before| && before[p].status.Active? && before[p].outcome == EMPTY
    requires forall i :: 0 <= i < |before| ==> InProgress(before[i], nodeID)
    requires Open(before) + Approved(before) == size && (c.mode != MODE_ALL ==> Approved(before) == 0)
    requires verdict == APPROVED && c.mode == MODE_ALL ==>
               forall i :: 0 <= i < |before| && i != p ==> !before[i].status.Active?
    ensures Finished(c, verdict, CloseActive(before[p := before[p].(status := Done, outcome := verdict)]),
                     Approved(before), size)
  {
    hide Tally;
    var marked := before[p := before[p].(status := Done, outcome := verdict)];
    MarkCounts(before, p, verdict);
    NoRejection(before, nodeID);
    TallyUniform(marked, Active, EMPTY);
  }

  lemma OthersDecided(s: Snapshot, c: Config, command: Command, round: Round, p: nat)
    requires TasksSound(s.tasks) && Conserved(s, c, round) && c.mode == MODE_ALL && command.name == APPROVE
    requires Decide(c, command, NodeTasks(s.tasks, s.currentNodeID)).Answered?
    requires !Decide(c, command, NodeTasks(s.tasks, s.currentNodeID)).value.disposition.Waiting?
    requires round.base + p < |s.tasks| && s.tasks[round.base + p].id == command.taskID
    ensures var before := s.tasks[round.base..]; forall i :: 0 <= i < |before| && i != p ==> !before[i].status.Active?
  {
    hide Decide, NodeTasks, TasksSound, Tally;
    var before := s.tasks[round.base..];
    forall i | 0 <= i < |before| && i != p ensures !before[i].status.Active? {
      SameTaskElsewhere(s.tasks, round.base + p, round.base + i) by { SoundIsUnique(s.tasks); }
      NobodyLeft(s, c, command, round.base + i);
    }
  }

  lemma RoundParts(s: Snapshot, c: Config, round: Round)
    requires Conserved(s, c, round)
    ensures round.base <= |s.tasks|
    ensures var tasks := s.tasks[round.base..];
            && (forall i :: 0 <= i < |tasks| ==> InProgress(tasks[i], s.currentNodeID))
            && Open(tasks) + Approved(tasks) == round.size && (c.mode != MODE_ALL ==> Approved(tasks) == 0)
  {
    hide InProgress, Tally;
  }

  lemma EndingFinishes(s: Snapshot, c: Config, command: Command, round: Round)
    requires TasksSound(s.tasks) && Conserved(s, c, round) && s.currentNodeID != EMPTY
    requires Decide(c, command, NodeTasks(s.tasks, s.currentNodeID)).Answered?
    requires !Decide(c, command, NodeTasks(s.tasks, s.currentNodeID)).value.disposition.Waiting?
    ensures var after := ReplaceNodeTasks(s.tasks, s.currentNodeID,
                                          Decide(c, command, NodeTasks(s.tasks, s.currentNodeID)).value.tasks);
            Finished(c, Verdict(command), after[round.base..], Approved(s.tasks[round.base..]), round.size)
  {
    hide Decide, CommandAllowed, NodeTasks, TasksSound, Tally, ReplaceTask, LastProposal, Finished, Conserved,
         InProgress;
    RoundParts(s, c, round);
    var p := DecidedRound(s, c, command, round);
    var before := s.tasks[round.base..];
    if Verdict(command) == APPROVED && c.mode == MODE_ALL {
      assert s.tasks[round.base + p] == before[p];
      OthersDecided(s, c, command, round, p);
    }
    MarkedFinishes(c, before, p, Verdict(command), s.currentNodeID, round.size);
  }

  lemma NoRejection(tasks: seq<Task>, nodeID: NodeID)
    requires forall i :: 0 <= i < |tasks| ==> InProgress(tasks[i], nodeID)
    ensures Tally(tasks, Done, REJECTED) == 0
  {
    TallyUniform(tasks, Done, REJECTED);
  }

  /* Whole runs */

  lemma HandleKeepsRound(configs: Configs, s: Snapshot, command: Command, host: Host, round: Round)
    requires Sound(s) && s.status.Running? && Fresh(host.ids, s.tasks) && HandleCommand(s, command, host).Success?
    requires AnsweredByApproval(s, Handle(command), host, configs) && RoundKept(s, configs, round)
    ensures var r := HandleCommand(s, command, host).value; RoundKept(r, configs, NextRound(round, s, r, host))
  {
    hide Sound, Fresh, Conserved, ValidGraph, TasksSound, LogSound, Decide, CommandAllowed, Travelling, Advance;
    hide WorkConfined, Placed, Evolves, ReplaceTask, LastProposal, Entered, DraftCount;
    var result := host.handle.value;
    var applied := L.Handled(s, command, result, host);
    ViewApplied(s, command, result, host);
    EnteredMore(s, CommandRecord(s, command), host);
    if result.disposition.Waiting? {
      if configs(s.currentNodeID).Some? {
        WaitingConserves(s, configs(s.currentNodeID).value, command, round) by { SoundTasks(s); }
        ConservedBy(s.(tasks := applied.tasks), applied, configs(s.currentNodeID).value, round);
      }
    } else if result.disposition.Continue? {
      AdvanceOpens(configs, round, s, applied, result.outcome, host);
    } else if result.outcome != EMPTY {
      RejectedTravels(applied, host);
      EnteredMore(applied, AuditRecord(NodeRejected, nodeID := applied.currentNodeID), host);
      AdvanceOpens(configs, round, s, RejectNode(applied, host), result.outcome, host);
    }
  }

  lemma SoundTasks(s: Snapshot)
    requires Sound(s)
    ensures TasksSound(s.tasks) && WorkConfined(s) && ValidGraph(s.definition)
    ensures s.status.Running? ==> s.currentNodeID != EMPTY
  {
  }

  lemma ConservedBy(s: Snapshot, r: Snapshot, c: Config, round: Round)
    requires Conserved(s, c, round) && r.tasks == s.tasks && r.currentNodeID == s.currentNodeID
    ensures Conserved(r, c, round)
  {
  }

  lemma ReturnEnters(s: Snapshot, actorID: ActorID, target: NodeID, reason: string, host: Host)
    requires ReturnInstance(s, actorID, target, reason, host).Success?
    ensures host.activate(target).Success?
    ensures var r := ReturnInstance(s, actorID, target, reason, host).value;
            var drafts := host.activate(target).value.tasks;
            && r.currentNodeID == target && DraftsAllowed(drafts) && |drafts| <= |host.ids|
            && r.tasks == ActivateTasks(CloseActiveAt(s.tasks, s.currentNodeID), target, drafts, host.ids).value
            && Entered(r.audit) == Entered(s.audit) + [target]
  {
    hide ReturnTarget, Compilable, DraftsAllowed, FieldsAllowed;
    var record := ReturnRecord(s, target, actorID, reason);
    EnteredMore(s, record, host);
    EnteredMore(Append(s, record, host).(tasks := CloseActiveAt(s.tasks, s.currentNodeID), currentNodeID := target,
                                         nodeState := Absent),
                AuditRecord(NodeEntered, nodeID := target), host);
  }

  lemma ReturnKeepsRound(configs: Configs, s: Snapshot, actorID: ActorID, target: NodeID, reason: string, host: Host,
                         round: Round)
    requires Sound(s) && s.status.Running? && ReturnInstance(s, actorID, target, reason, host).Success?
    ensures var r := ReturnInstance(s, actorID, target, reason, host).value;
            RoundKept(r, configs, NextRound(round, s, r, host))
  {
    hide Sound, Conserved, ReturnInstance, DraftsAllowed;
    SoundTasks(s);
    ReturnEnters(s, actorID, target, reason, host);
    ClosedAtSource(s);
    if configs(target).Some? {
      ActivationOpens(configs(target).value, ReturnInstance(s, actorID, target, reason, host).value,
                      CloseActiveAt(s.tasks, s.currentNodeID), host.activate(target).value.tasks, host.ids);
    }
  }

  /** Every successful command keeps the current round or opens the next one. */
  lemma TurnKeepsRound(configs: Configs, s: Snapshot, request: Request, host: Host, round: Round)
    requires Sound(s) && Fresh(host.ids, s.tasks) && Execute(s, request, host).Success?
    requires AnsweredByApproval(s, request, host, configs) && RoundKept(s, configs, round)
    ensures var r := Execute(s, request, host).value; RoundKept(r, configs, NextRound(round, s, r, host))
  {
    hide Sound, Fresh, Conserved, TasksSound, HandleCommand, ReturnInstance, AnsweredByApproval, Entered, ValidGraph;
    var next := Transition(s, request, host).value;
    match request {
      case Handle(c) => HandleKeepsRound(configs, s, c, host, round);
      case Withdraw(_, actor) =>
      case Return(_, actor, target, reason) => ReturnKeepsRound(configs, s, actor, target, reason, host, round);
      case Transfer(_, taskID, actor, assignee, reason) =>
        SoundTasks(s);
        var at := FindTask(s.tasks, taskID).value;
        EnteredMore(s, TransferRecord(s, s.tasks[at], actor, assignee, reason), host);
        if configs(s.currentNodeID).Some? {
          TransferConserves(s, configs(s.currentNodeID).value, round, at, assignee, host.ids[0]);
          ConservedBy(s.(tasks := next.tasks), next, configs(s.currentNodeID).value, round);
        }
    }
    assert RoundKept(next, configs, NextRound(round, s, next, host));
    var r := Execute(s, request, host).value;
    if r.status.Running? && configs(r.currentNodeID).Some? {
      ConservedBy(next, r, configs(r.currentNodeID).value, NextRound(round, s, r, host));
    }
  }

  datatype Turn = Turn(request: Request, host: Host)

  /** An instance through any sequence of commands; those that fail change nothing. */
  ghost function Play(s: Snapshot, round: Round, turns: seq<Turn>): (Snapshot, Round) {
    if turns == [] then (s, round) else
    var (now, current) := Play(s, round, turns[..|turns| - 1]);
    var turn := turns[|turns| - 1];
    var r := Execute(now, turn.request, turn.host);
    if r.Failure? then (now, current) else (r.value, NextRound(current, now, r.value, turn.host))
  }

  ghost predicate Faithful(configs: Configs, s: Snapshot, round: Round, turns: seq<Turn>) {
    turns == [] ||
    var now := Play(s, round, turns[..|turns| - 1]).0;
    var turn := turns[|turns| - 1];
    && Faithful(configs, s, round, turns[..|turns| - 1])
    && Fresh(turn.host.ids, now.tasks)
    && AnsweredByApproval(now, turn.request, turn.host, configs)
  }

  /** From the start of an instance, through any mix of decisions, transfers, returns and withdrawals, the round at an
      approval node is conserved; revisiting a node opens a new round that older ones do not touch. */
  lemma {:induction false} RoundsConserved(configs: Configs, d: Definition, start: StartRequest, host: Host,
                                           turns: seq<Turn>)
    requires Fresh(host.ids, []) && StartInstance(d, start, host).Success?
    requires var s := StartInstance(d, start, host).value; Faithful(configs, s, Round(0, DraftCount(s, host)), turns)
    ensures var s := StartInstance(d, start, host).value;
            var (now, round) := Play(s, Round(0, DraftCount(s, host)), turns);
            Sound(now) && RoundKept(now, configs, round)
  {
    hide Sound, Fresh, StartInstance, Execute, RoundKept, AnsweredByApproval;
    var s := StartInstance(d, start, host).value;
    var first := Round(0, DraftCount(s, host));
    if turns == [] {
      StartSound(d, start, host);
      StartOpens(configs, d, start, host);
    } else {
      var init := turns[..|turns| - 1];
      var turn := turns[|turns| - 1];
      RoundsConserved(configs, d, start, host, init);
      var (now, round) := Play(s, first, init);
      if Execute(now, turn.request, turn.host).Success? {
        ExecuteSound(now, turn.request, turn.host);
        TurnKeepsRound(configs, now, turn.request, turn.host, round);
      }
    }
  }

  lemma StartOpens(configs: Configs, d: Definition, start: StartRequest, host: Host)
    requires StartInstance(d, start, host).Success?
    ensures var s := StartInstance(d, start, host).value; RoundKept(s, configs, Round(0, DraftCount(s, host)))
  {
    hide Conserved;
    var from := StartSnapshot(d, start, StartID(d), host);
    var s := StartInstance(d, start, host).value;
    AdvanceAppends(d, from, EMPTY, host);
    if s.status.Running? && configs(s.currentNodeID).Some? {
      ActivationOpens(configs(s.currentNodeID).value, s, [], host.activate(s.currentNodeID).value.tasks, host.ids);
    }
  }

  /** Whatever follows a decision appends: the decided tasks stay as the decision left them. */
  lemma DecisionStays(s: Snapshot, command: Command, host: Host)
    requires ValidGraph(s.definition) && s.status.Running? && Execute(s, Handle(command), host).Success?
    ensures host.handle.Success?
    ensures var r := Execute(s, Handle(command), host).value;
            && |s.tasks| <= |r.tasks|
            && r.tasks[..|s.tasks|] == ReplaceNodeTasks(s.tasks, s.currentNodeID, host.handle.value.tasks)
            && (host.handle.value.disposition.Waiting? ==> |r.tasks| == |s.tasks| && r.currentNodeID == s.currentNodeID)
  {
    hide ValidGraph, Advance, CommandAllowed, ReplaceTask;
    var result := host.handle.value;
    var applied := L.Handled(s, command, result, host);
    if result.disposition.Continue? {
      AdvanceAppends(s.definition, applied, result.outcome, host);
    } else if !result.disposition.Waiting? && result.outcome != EMPTY {
      AdvanceAppends(s.definition, RejectNode(applied, host), result.outcome, host);
    }
  }

  lemma DecisionCommits(s: Snapshot, command: Command, host: Host, c: Config)
    requires Execute(s, Handle(command), host).Success?
    requires host.handle == ToEngine(Decide(c, command, NodeTasks(s.tasks, s.currentNodeID)))
    ensures Decide(c, command, NodeTasks(s.tasks, s.currentNodeID)) == Answered(host.handle.value)
    ensures CommandAllowed(s.tasks, s.currentNodeID, host.handle.value)
  {
  }

  lemma StillOpen(s: Snapshot, c: Config, round: Round, result: NodeResult)
    requires TasksSound(s.tasks) && CommandAllowed(s.tasks, s.currentNodeID, result) && result.disposition.Waiting?
    requires Conserved(s.(tasks := ReplaceNodeTasks(s.tasks, s.currentNodeID, result.tasks)), c, round)
    ensures Open(ReplaceNodeTasks(s.tasks, s.currentNodeID, result.tasks)[round.base..]) > 0
  {
    hide Proposed, TaskAt, LastProposal, ReplaceTask, InProgress, UniqueTasks;
    var after := ReplaceNodeTasks(s.tasks, s.currentNodeID, result.tasks);
    ReplaceKeeps(s.tasks, s.currentNodeID, result.tasks);
    var i :| 0 <= i < |after| && after[i].nodeID == s.currentNodeID && after[i].status.Active?;
    assert TaskSound(after[i]) && after[i] == after[round.base..][i - round.base];
    TallyUniform(after[round.base..], Active, EMPTY);
  }

  /** The instance left the node on the edge of an outcome. */
  ghost predicate LeftOn(s: Snapshot, r: Snapshot, outcome: Outcome) {
    && Route(s.definition, s.currentNodeID, outcome).Some?
    && L.EntersFirst(s, r, Route(s.definition, s.currentNodeID, outcome).value)
  }

  /** The instance entered no node, so it stayed where it was. */
  ghost predicate Stayed(s: Snapshot, r: Snapshot) {
    r.currentNodeID == s.currentNodeID && Entered(r.audit) == Entered(s.audit)
  }

  /** Where a committed decision leads: it stays, ends the instance, or leaves by the edge of its verdict, with a record
      of the rejection before it when it rejects. */
  ghost predicate Routed(c: Config, s: Snapshot, command: Command, r: Snapshot, waits: bool) {
    && |r.audit| > |s.audit|
    && if waits then
         r.status == Running && Stayed(s, r) && |r.audit| == |s.audit| + 1
       else if command.name == "approve" then
         LeftOn(s, r, "approved") && |r.audit| > |s.audit| + 1 && r.audit[|s.audit| + 1].action == NodeEntered
       else if c.rejectedOutcome == "" then
         r.status == InstanceStatus.Rejected && Stayed(s, r) && |r.audit| == |s.audit| + 2
       else
         && LeftOn(s, r, c.rejectedOutcome)
         && |r.audit| > |s.audit| + 2 && r.audit[|s.audit| + 1].action == NodeRejected
         && r.audit[|s.audit| + 1].nodeID == s.currentNodeID && r.audit[|s.audit| + 2].action == NodeEntered
  }

  /** Countersign waits exactly while approvals are still missing; whatever ends the round leaves it finished and the
      instance where the verdict leads, so under countersign the approving edge is taken with every approval only. */
  ghost predicate Settles(c: Config, s: Snapshot, command: Command, r: Snapshot, round: Round) {
    && round.base <= |s.tasks| <= |r.tasks|
    && (command.name == "approve" || command.name == "reject")
    && var before := Approved(s.tasks[round.base..]);
       var waits := c.mode == "all" && command.name == "approve" && before + 1 < round.size;
       && Routed(c, s, command, r, waits)
       && if waits
          then Conserved(r, c, round) && Approved(r.tasks[round.base..]) == before + 1
          else Finished(c, Verdict(command), r.tasks[round.base..|s.tasks|], before, round.size)
  }

  /** What a committed decision answered, by command and mode. */
  lemma DecisionAnswers(c: Config, command: Command, tasks: seq<Task>)
    requires UniqueTasks(tasks) && Decide(c, command, tasks).Answered?
    ensures var a := Decide(c, command, tasks).value;
            && (command.name == "approve" || command.name == "reject")
            && (a.disposition.Waiting? ==> c.mode == "all" && command.name == "approve")
            && (!a.disposition.Waiting? && command.name == "approve" ==>
                a.disposition.Continue? && a.outcome == "approved")
            && (command.name == "reject" ==> a.disposition.Reject? && a.outcome == c.rejectedOutcome)
  {
    DecidesAsAsked(c, command, tasks);
    var i: nat :| Owns(tasks, command, i);
  }

  /** A decision that was committed was obeyed. */
  lemma DecisionRouted(s: Snapshot, c: Config, command: Command, host: Host)
    requires Sound(s) && Execute(s, Handle(command), host).Success?
    requires Decide(c, command, NodeTasks(s.tasks, s.currentNodeID)) == Answered(host.handle.value)
    requires host.handle.Success?
    ensures Routed(c, s, command, Execute(s, Handle(command), host).value, host.handle.value.disposition.Waiting?)
  {
    hide Sound, Execute, Decide, UniqueTasks, NodeTasks, L.CompleteView, L.Rewritten, L.EndsFromThere,
         L.SameButProgress;
    hide L.EntersFirst, Entered;
    SoundTasks(s);
    SoundIsUnique(s.tasks);
    ViewUnique(s.tasks, s.currentNodeID);
    DecisionAnswers(c, command, NodeTasks(s.tasks, s.currentNodeID));
    L.HandleObeys(s, command, host);
  }

  /** What one committed decision means for the round it belongs to, in the snapshot that is finally stored. */
  lemma RoundDecides(configs: Configs, s: Snapshot, command: Command, host: Host, round: Round)
    requires Sound(s) && s.status.Running? && Fresh(host.ids, s.tasks)
    requires RoundKept(s, configs, round) && configs(s.currentNodeID).Some?
    requires AnsweredByApproval(s, Handle(command), host, configs) && Execute(s, Handle(command), host).Success?
    ensures Settles(configs(s.currentNodeID).value, s, command, Execute(s, Handle(command), host).value, round)
  {
    hide Sound, Fresh, ValidGraph, TasksSound, Decide, Execute, Finished, Tally, ReplaceTask, CommandAllowed,
         InProgress, Routed, UniqueTasks;
    var c := configs(s.currentNodeID).value;
    var view := NodeTasks(s.tasks, s.currentNodeID);
    var r := Execute(s, Handle(command), host).value;
    SoundTasks(s);
    DecisionStays(s, command, host);
    var after := ReplaceNodeTasks(s.tasks, s.currentNodeID, host.handle.value.tasks);
    DecisionCommits(s, command, host, c);
    DecisionRouted(s, c, command, host);
    SoundIsUnique(s.tasks);
    ViewUnique(s.tasks, s.currentNodeID);
    DecisionAnswers(c, command, view);
    if host.handle.value.disposition.Waiting? {
      WaitingConserves(s, c, command, round);
      StillOpen(s, c, round, host.handle.value);
      assert r.tasks == after;
      ConservedBy(s.(tasks := after), r, c, round);
    } else {
      EndingFinishes(s, c, command, round);
      assert r.tasks[round.base..|s.tasks|] == after[round.base..];
      FinishedCounts(c, Verdict(command), after[round.base..], Approved(s.tasks[round.base..]), round.size);
    }
  }

  lemma FinishedCounts(c: Config, verdict: Outcome, tasks: seq<Task>, approvedBefore: nat, size: nat)
    requires Finished(c, verdict, tasks, approvedBefore, size)
    ensures verdict == APPROVED && c.mode == MODE_ALL ==> approvedBefore + 1 == size
  {
  }

  /* Distinct owners hold at activation only */

  ghost predicate SharedOwner(tasks: seq<Task>, nodeID: NodeID, i: nat, j: nat)
    requires i < |tasks| && j < |tasks|
  {
    && tasks[i].nodeID == nodeID && tasks[j].nodeID == nodeID
    && tasks[i].status.Active? && tasks[j].status.Active? && tasks[i].assignee == tasks[j].assignee
  }

  ghost predicate OwnersDistinct(tasks: seq<Task>, nodeID: NodeID) {
    forall i: nat, j: nat {:trigger SharedOwner(tasks, nodeID, i, j)} :: i < j < |tasks| ==>
        !SharedOwner(tasks, nodeID, i, j)
  }

  /** Another open task of the node belongs to the actor already. */
  ghost predicate Holds(tasks: seq<Task>, nodeID: NodeID, at: nat, actor: ActorID) {
    exists j :: 0 <= j < |tasks| && j != at && tasks[j].nodeID == nodeID && tasks[j].status.Active?
        && tasks[j].assignee == actor
  }

  /** A transfer keeps one open task per actor exactly when the new owner held none: nothing checks that. */
  lemma TransferOwners(tasks: seq<Task>, nodeID: NodeID, at: nat, newAssignee: ActorID, id: TaskID)
    requires at < |tasks| && tasks[at].nodeID == nodeID && tasks[at].status.Active? && OwnersDistinct(tasks, nodeID)
    ensures OwnersDistinct(TransferTask(tasks, at, newAssignee, id), nodeID) <==> !Holds(tasks, nodeID, at, newAssignee)
  {
    var after := TransferTask(tasks, at, newAssignee, id);
    if Holds(tasks, nodeID, at, newAssignee) {
      var j: nat :| j < |tasks| && j != at && tasks[j].nodeID == nodeID && tasks[j].status.Active?
          && tasks[j].assignee == newAssignee;
      assert SharedOwner(after, nodeID, j, |tasks|);
    } else {
      forall i: nat, j: nat | i < j < |after| ensures !SharedOwner(after, nodeID, i, j) {
        assert j < |tasks| ==> !SharedOwner(tasks, nodeID, i, j);
      }
    }
  }

  /** Two open tasks of different owners, and a valid request to transfer the one to the owner of the other. */
  ghost predicate Doubling(s: Snapshot, i: nat, j: nat, actorID: ActorID, reason: string) {
    && i < |s.tasks| && j < |s.tasks|
    && s.tasks[i].status.Active? && s.tasks[j].status.Active? && s.tasks[i].assignee != s.tasks[j].assignee
    && Boundary(Transfer(s.id, s.tasks[i].id, actorID, s.tasks[j].assignee, reason)).Success?
  }

  /** Every sound running instance with such tasks accepts the authorized transfer, and then one actor holds two. */
  lemma TransferSharesOwner(s: Snapshot, i: nat, j: nat, actorID: ActorID, reason: string, host: Host)
    requires Sound(s) && s.status.Running? && s.version < MAX_UINT64
    requires Doubling(s, i, j, actorID, reason) && host.authorized && host.ids != []
    ensures var r := Execute(s, Transfer(s.id, s.tasks[i].id, actorID, s.tasks[j].assignee, reason), host);
            r.Success? && !OwnersDistinct(r.value.tasks, r.value.currentNodeID)
  {
    SoundTasks(s);
    FoundByID(s.tasks, i);
    hide Sound, TasksSound, UniqueTasks, ValidGraph, FindTask, WorkConfined, HandleCommand, ReturnInstance,
         WithdrawInstance;
    assert s.tasks[i].nodeID == s.currentNodeID && s.tasks[j].nodeID == s.currentNodeID by { AtCurrentNode(s); }
    var after := TransferTask(s.tasks, i, s.tasks[j].assignee, host.ids[0]);
    assert SharedOwner(after, s.currentNodeID, j, |s.tasks|);
    assert !OwnersDistinct(after, s.currentNodeID);
    hide OwnersDistinct, SharedOwner, Execute, Boundary;
    TransferRuns(s, i, actorID, s.tasks[j].assignee, reason, host);
  }

  lemma TransferRuns(s: Snapshot, i: nat, actorID: ActorID, newAssignee: ActorID, reason: string, host: Host)
    requires s.status.Running? && s.version < MAX_UINT64 && host.authorized && host.ids != []
    requires i < |s.tasks| && FindTask(s.tasks, s.tasks[i].id) == Some(i)
    requires s.tasks[i].status.Active? && s.tasks[i].nodeID == s.currentNodeID
    ensures var r := Execute(s, Transfer(s.id, s.tasks[i].id, actorID, newAssignee, reason), host);
            && r.Success? && r.value.currentNodeID == s.currentNodeID
            && r.value.tasks == TransferTask(s.tasks, i, newAssignee, host.ids[0])
  {
    hide HandleCommand, ReturnInstance, WithdrawInstance, FindTask;
  }

  lemma AtCurrentNode(s: Snapshot)
    requires WorkConfined(s)
    ensures forall k :: 0 <= k < |s.tasks| && s.tasks[k].status.Active? ==> s.tasks[k].nodeID == s.currentNodeID
  {
  }

  lemma FoundByID(tasks: seq<Task>, i: nat)
    requires TasksSound(tasks) && i < |tasks|
    ensures FindTask(tasks, tasks[i].id) == Some(i)
  {
    SameTask(tasks, FindTask(tasks, tasks[i].id).value, i);
  }
}
