# Verification model of easy-workflow

This project models the approval-workflow engine as a state machine over one durable aggregate, together
with everything the engine's promises rest on, and proves those promises for every input and every run.

| files | what they model |
|---|---|
| `workflow.dfy`, `graphs.dfy` | the shared data (tasks, audit records, snapshots, handler results, the host's answers) and walks, cycles and orders of directed graphs |
| `compiler.dfy`, `analysis.dfy` | which definitions are executable, and the compiler that decides it with indexes, Kahn's check and two breadth-first searches |
| `transitions.dfy`, `noderesults.dfy`, `facts.dfy`, `engine.dfy` | the five commands: as functions of a snapshot, and as the imperative code that mutates a candidate and equals those functions |
| `invariants.dfy`, `navigation.dfy` | what every stored instance satisfies, what every command keeps, and why navigation ends |
| `chronicle.dfy`, `laws.dfy` | what callers may rely on: who may act, when exactly a command succeeds, what it leaves behind, and the story its audit tells |
| `store.dfy`, `concurrency.dfy`, `accounting.dfy` | the compare-and-swap store, any interleaving of any number of clients on it, and what the audit accounts for |
| `approval.dfy` | or-sign and countersign rounds running on the engine |
| `tables.dfy`, `mysql.dfy`, `postgres.dfy`, `refinement.dfy` | the two SQL stores as data refinements of the in-memory store |
| `projection.dfy`, `paging.dfy`, `queries.dfy` | the PostgreSQL read model, keyset pagination, and agreement with the aggregates |
| `deployment.dfy` | whole runs on any of the three stores: serializability, rounds, and what queries then show |
| `witness.dfy` | one definition carried through the compiler, a start and a transfer |
| `surrogates.dfy`, `jsonstrict.dfy` | the strict JSON boundary: surrogate escapes and duplicate member names |
| `pointers.dfy`, `condition.dfy`, `conditionlaws.dfy`, `faults.dfy` | the condition node: JSON Pointers, order-independent rule evaluation, what is chosen in the values of the data, and when the reported error depends on order |

Handlers, policies, the organization directory, the identity generator and the clock are oracles: a `Host`
record holds every answer that outside code gives while one command runs, so a statement over all hosts is a
statement over all handlers. The generator is assumed fresh: identities are non-empty, pairwise different and
unused by the instance. One store call, and one SQL transaction, is one atomic step.

Main results:

- **Whole runs.** In every interleaving the store equals the serial run of the accepted writes, each of which
  was computed from exactly the snapshot it replaced; versions count writes and never recur; every stored
  instance satisfies the task, placement and audit invariants (`Concurrency.Serializable`). The same holds on
  every store, whatever else it refuses (`Deployment.SerializableOn`), and there the approval rounds of each
  instance are conserved (`Deployment.RoundsOfRun`) and the worklist is exactly the open work
  (`Deployment.WholeWorklistOfRun`).
- **The audit accounts for the version.** Each successful command leaves exactly one record naming who asked for
  what, so in every run a stored version is the number of commands its audit records (`Accounting.RunAccounted`).
- **Everything stored was somebody's to ask for.** In every interleaving on every store, each handled command came
  from the owner of an open task at the node the instance was at, each other command was authorized by the policy,
  and what was stored is what was asked and what handlers answered (`CommandLaws.EveryRunIsAsAsked`,
  `Deployment.AsAskedOn`). Each of the five operations has its exact condition of success.
- **The audit tells the story.** The records of an advance determine each other through the handlers' answers and
  the declared edges, from the first node entered to the record that closes it (`Chronicles.AdvanceStory`); an advance
  succeeds exactly when every node it comes to can be entered (`Chronicles.AdvanceSucceeds`).
- **Navigation ends.** On every definition the compiler accepts, the unbounded advance loop enters at most
  |nodes| - 1 nodes, none twice and never the Start, whether it then succeeds or fails, and cannot meet a missing
  node or handler.
- **The compiler is exact**, independent of declaration and map order.
- **Approval rounds conserve** their frozen population through approvals, transfers and returns, and each committed
  decision leads where its verdict says: under countersign the approving edge is taken with every approval only
  (`Approvals.RoundDecides`, in whole runs `Deployment.DecisionsOfRun`).
- **The SQL stores refine** the in-memory store although they write suffixes and batches; where they refuse more,
  the exact condition on texts, lengths and index entries is stated.
- **Pagination is complete**: following real tokens shows every matching row once, in order; the worklist, the
  participations and the initiated instances agree with the aggregates, column by column.
- **The JSON scanners, the pointer parser and the rule evaluator** equal their declarative specifications; what
  a rule chooses is also stated in the values of the data (`ConditionLaws.NumbersMonotone`,
  `ConditionLaws.RuleIsItsExpressions`, `ConditionLaws.ConfigIsItsRules`).

Four findings where the code does less, or accepts more, than a reader may expect:

- A transfer may give an actor a second open task of the same round. Owners stay distinct exactly when the new
  owner held none (`Approvals.TransferOwners`); whenever two open tasks have different owners, the authorized
  transfer from one owner to the other succeeds (`Approvals.TransferSharesOwner`); a definition, a start and a
  transfer that get there from an empty store are exhibited (`Witness.OwnerShared`).
- Permuting condition rules never changes the outcome (`Conditions.OrderFree`) but can change which error is
  reported (`Conditions.FaultDependsOnOrder`). The reported error is independent of the order exactly when all
  erring expressions err alike, for rules, for expressions in a rule, for members of a collection and for rules and
  expressions together (`Faults.RuleOrderImmaterial`, `Faults.ExpressionOrderImmaterial`,
  `Faults.MemberOrderImmaterial`, `Faults.OrderImmaterial`).
- Persisted audit action texts identify actions only because one command name is reserved
  (`Workflow.ActionTextCollides`).
- Saving never checks that the version grew: two different candidates that carry the version they expect are both
  accepted (`Stores.VersionRecurs`). After an accepted save, further saves that expect the same version are refused
  exactly when the saved candidate carried another version (`Stores.StaleSaveRefused`); when every candidate carries
  a later one, as those of commands do, no left version is ever accepted again (`Stores.LeftForGood`,
  `Concurrency.HistoryEvolves`).

## Model

| member | source | states |
|---|---|---|
| Workflow.ActionTextCollides | instance_facts.go:13-36 | Two different audit actions have the same persisted text exactly when one is the built-in transfer and the other a handler command with the reserved name |
| Graphs.AcyclicHasEntry | compiler.go:307-335 | In an acyclic graph every non-empty set of nodes has a member with no predecessor in the set: why Kahn's loop can only stop early on a cycle |
| Graphs.TopologicalAcyclic | compiler.go:307-335 | A list holding every edge's source before its target, over all nodes, rules out cycles |
| Compiler.StartHasNoPredecessor | compiler.go:185-226 | No accepted definition has an edge into Start, although nothing checks that directly |
| Compiler.ReachableMeansOnlySource | compiler.go:340-360 | With valid nodes, edges and no cycle, all nodes are reachable from Start if and only if Start is the only node without predecessor |
| Compiler.ReachEndMeansSinksEnd | compiler.go:365-388 | With valid nodes, edges and no cycle, every node reaches an End if and only if every node without successor is an End |
| Compiler.WalkBounded | compiler.go:185-226 | A walk of an accepted definition repeats no node, has at most as many nodes as are declared and never returns to Start |
| Compiler.OrderIndependent | definition.go:30-42 | Permuting nodes and edges changes neither verdict, nor the start node, nor any route or node lookup |
| Analysis.DefinitionAnalysis.IndexNodes | compiler.go:231-263 | Succeeds if and only if node IDs are non-empty and unique, kinds are given, one Start and some End exist; the indexes then answer for exactly these nodes |
| Analysis.DefinitionAnalysis.IndexEdges | compiler.go:269-302 | Succeeds if and only if every edge joins declared nodes, leaves no End and has a unique source and outcome; the indexes, predecessor lists and in-degrees are then those of the edge list |
| Analysis.DefinitionAnalysis.ValidateAcyclic | compiler.go:307-335 | Kahn's loop, seeded in any order and counting parallel edges singly, succeeds if and only if the graph has no cycle |
| Analysis.DefinitionAnalysis.ValidateReachable | compiler.go:340-360 | The forward search succeeds if and only if every node is reached from Start |
| Analysis.DefinitionAnalysis.ValidateCanReachEnd | compiler.go:365-388 | The search over reversed edges succeeds if and only if every node is reached from some End |
| Analysis.AnalyzeDefinition | compiler.go:185-226 | Accepts exactly the valid graphs: sound and complete |
| Analysis.CheckConfigs | compiler.go:104-118 | Every node's configuration is JSON by syntax; what the strict boundary refuses beyond syntax is left to the handlers |
| Analysis.PrepareHandlers | compiler.go:76-181 | Succeeds if and only if every business node has a registered handler that accepts its configuration; then exactly these nodes are prepared |
| Analysis.CompileDefinition | compiler.go:76-181 | Succeeds if and only if the definition is executable, and the plan then answers as the definition does |
| Analysis.PlanAnswers | compiler.go:402-441 | On a compiled plan every route leads to a declared node, and every business node has its prepared handler |
| NodeResults.PrepareNodeTaskReplacements | node_result_application.go:250-293 | The map-and-delete loop accepts exactly the complete legal views: each proposal names a task of the node, and the last proposal per identity is a legal advance of it; the replacements are exactly these last proposals |
| NodeResults.PrepareActivation | node_result_application.go:158-247 | An activation result is accepted if and only if its fields are allowed and it waits exactly when it brings drafts without identity, with owner, active and undecided |
| NodeResults.PrepareReturn | node_result_application.go:158-247 | A return target's result must in addition wait with at least one draft |
| NodeResults.PrepareCommand | node_result_application.go:194-347 | A command result is accepted if and only if its view is complete and legal and it waits exactly when open work remains at the node |
| Facts.InstanceFacts.EnterNode | instance_facts.go:151-158 | Moves the candidate to the node, clears node state and records the entry |
| Facts.InstanceFacts.Withdraw | instance_facts.go:195-204 | Ends the candidate and closes every open task, leaving decided ones |
| Facts.InstanceFacts.ActivateTasks | instance_facts.go:268-283 | Appends one task per draft with the next identities, or fails when the generator does |
| Facts.InstanceFacts.ReturnTo | instance_facts.go:209-223 | Closes the source node's open tasks, enters the target and activates its drafts |
| Facts.InstanceFacts.Transfer | instance_facts.go:229-252 | Closes one task and appends its replacement for the new owner |
| Facts.InstanceFacts.ApplyNodeTaskReplacements | instance_facts.go:257-262 | Rewrites exactly the positions the view names |
| Facts.InstanceFacts.AdvanceVersion | instance_facts.go:301-310 | Adds one to the version or refuses overflow of 64 bits |
| Engines.ValidateCommandTask | engine.go:208-222 | The first task with the identity is open and owned by the actor; `CommandLaws.OnlyOwnersAreHeard` says what that means for callers |
| Engines.HasEnteredNode | engine.go:487-495 | The audit holds an entry of the node |
| Engines.Engine.Advance | engine.go:526-569 | The unbounded loop terminates on every compiled plan and equals the recursive specification, failures included; whatever it answers, the candidate has entered exactly the nodes of the path |
| Engines.Engine.HandleTransition | engine.go:141-203 | The candidate after the command is the specified one, and each failure is the specified one |
| Engines.Engine.WithdrawTransition | engine.go:228-262 | The same for withdrawal |
| Engines.Engine.ReturnTransition | engine.go:391-435 | The same for return |
| Engines.Engine.TransferTransition | engine.go:351-386 | The same for transfer |
| Engines.Engine.ExecuteInstanceCommand | engine.go:443-481 | Answer and store contents equal one atomic command on the database: a failing command changes nothing, a successful one replaces one instance |
| Engines.Engine.StartInstance | engine.go:79-110 | Answer and store contents equal one atomic start |
| Invariants.AdvanceSound | engine.go:526-569 | Whatever handlers answer, a successful advance ends at an End completed, at a business node rejected, or waiting there with open work, and rewrites no history |
| Invariants.StartSound | engine.go:79-110 | Every started instance is sound, at version one |
| Invariants.ViewApplied | node_result_application.go:353-406 | An accepted view either leaves open work at the current node or leaves none anywhere |
| Invariants.ReturnArrives | engine.go:391-435 | A return keeps the invariant, and its entry of an earlier node is lawful in the log because the return record precedes it |
| Invariants.TransferArrives | engine.go:351-386 | A transfer keeps the invariant |
| Invariants.ExecuteSound | engine.go:443-481 | Every successful command keeps the invariant (running means waiting at a business node with open work only there; terminal means none; task identities unique; outcome exactly on completed tasks; status and node equal the fold over the audit), adds one to the version, lengthens the audit, only appends tasks and freezes decided ones |
| Navigation.AdvanceTerminates | engine.go:526-569 | Every advance, successful or failing, enters at most all but one of the nodes, each once, along edges, never Start and never the node it left; it enters none exactly when it finds no route |
| Navigation.PathRecorded | engine.go:526-569 | A successful advance records exactly the nodes of that path and ends at the last |
| Navigation.AdvanceFailures | engine.go:526-569 | An advance can fail only for a missing route, a handler, its result or the identity generator: never a missing node or handler |
| Navigation.RouteLeadsToBusinessOrEnd | compiler.go:428-441 | Every route of an accepted definition leads to a declared node other than Start |
| Chronicles.AdvanceStory | engine.go:526-569 | A successful advance begins with the node its outcome leads to along a declared edge; after each entry the next record is the completion at an End, the entry the handler's outcome leads to, or its rejection; the last record is a completion, a rejection, or the entry of a node whose handler waits with drafts |
| Chronicles.AdvanceSucceeds | engine.go:526-569 | An advance succeeds if and only if its outcome leads on and every node it comes to is an End or has a handler whose answer can be carried out |
| CommandLaws.OnlyOwnersAreHeard | engine.go:141-222 | A handled command is the owner's of an open task at the current node; without such a task a running instance answers an invalid command |
| CommandLaws.OwnersAreHeard | engine.go:141-222 | The owner of such a task gets past that check: what then fails is the definition or the handler |
| CommandLaws.DenialStops | engine.go:228-348 | A withdrawal, return or transfer the policy denies fails and stores nothing |
| CommandLaws.MalformedStops | engine.go:228-519 | A request that names too little, gives a blank reason, carries a payload that is no JSON or uses the reserved command name fails and stores nothing; all others are judged by what is stored |
| CommandLaws.FailureStoresNothing | engine.go:443-481 | Whatever fails stores nothing; an unknown instance is not found, and a known one is not started again |
| CommandLaws.OnlyTheNamedInstance | engine.go:443-481 | A command leaves every instance it does not name as it was |
| CommandLaws.HandleSucceeds | engine.go:141-203 | A handled command succeeds if and only if the instance runs, its actor owns an open task at the node, the definition is executable, the handler answers acceptably, every node that follows can be entered and the version can grow |
| CommandLaws.WithdrawSucceeds | engine.go:228-262 | A withdrawal succeeds if and only if the instance runs, the policy allows it and the version can grow |
| CommandLaws.ReturnSucceeds | engine.go:391-435 | A return succeeds if and only if, besides, the definition is executable, the target is another business node entered before, and its handler waits with drafts for which there are identities |
| CommandLaws.TransferSucceeds | engine.go:351-386 | A transfer succeeds if and only if, besides, the named task is open at the current node and there is an identity |
| CommandLaws.StartSucceeds | engine.go:79-110 | A start succeeds if and only if the request is complete, the definition is executable and every node it comes to can be entered |
| CommandLaws.StartCarries | instance_facts.go:50-69 | A started instance carries the requested identity, initiator, data and definition, at version one |
| CommandLaws.StartHasItsRoute | compiler.go:76-181 | An executable definition has exactly one edge out of its Start, the unconditional one a start follows |
| CommandLaws.StartLeaves | engine.go:79-110 | A started instance follows that edge, its audit tells the story, and its tasks and node state are the last handler's |
| CommandLaws.AdvanceLeaves | engine.go:526-569 | An advance ends waiting with the last handler's drafts and state, completed without state, or rejected with the last handler's state; earlier tasks stay |
| CommandLaws.HandleObeys | node_result_application.go:353-406 | Whatever the handler answers, a successful command obeys it: it waits with the new state, follows the edge of the outcome (after a rejection record if it rejects), or ends; the last proposal for each task of the node is stored and nothing else changes |
| CommandLaws.WithdrawLeaves | instance_facts.go:195-204 | A withdrawn instance stays at its node with every open task closed, every other kept, and one record more |
| CommandLaws.ReturnLeaves | instance_facts.go:209-223 | A returned instance stands at the target with its handler's drafts opened, its state stored and the open tasks left behind closed |
| CommandLaws.TransferLeaves | instance_facts.go:229-252 | A transfer closes the named task and opens one for the new owner at the same node; every other task stays |
| CommandLaws.EveryRunIsAsAsked | engine.go:141-203 | In every interleaving each accepted write was entitled (owner, authorized actor or initiator) and left its instance as its request and its handlers' answers say |
| Stores.MemoryStore.Create | store.go:63-94 | Stores a detached copy under a new non-empty identity, or answers the specified error and changes nothing |
| Stores.MemoryStore.Load | store.go:100-127 | Answers a caller-owned copy that shares nothing with the store |
| Stores.MemoryStore.Save | store.go:135-172 | Replaces the stored copy exactly when it exists at the expected version and its audit is a prefix of the candidate's |
| Stores.StaleSaveRefused | store.go:135-172 | After an accepted save, every further save expecting the same version conflicts if and only if the saved candidate carried another version |
| Stores.AuditOnlyGrows | store.go:135-172 | Whatever saves are tried, no instance is lost, untouched ones stay, and each stored audit only continues |
| Stores.LeftForGood | store.go:135-172 | When candidates carry later versions than they expect, a version once left conflicts after any further saves |
| Stores.VersionRecurs | store.go:135-172 | Two different candidates carrying the version they expect are both accepted, so the version recurs with other content |
| Concurrency.VersionsCount | instance_facts.go:301-310 | An instance's version is the number of accepted writes to it |
| Concurrency.HistoryEvolves | store.go:135-172 | Between any two points of a log an instance only evolves, and equal versions mean equal snapshots: no version recurs with other content |
| Concurrency.SaveFindsLoaded | engine.go:443-481 | A save that succeeds finds exactly the snapshot its client loaded |
| Concurrency.StepConsistent | engine.go:443-481 | Each step of any client keeps the store equal to the serial run of the accepted writes |
| Concurrency.Serializable | engine.go:443-481 | For every sequence of steps: the store is the serial run of the accepted writes, each succeeds there, and every stored instance is sound |
| Concurrency.OneWinner | store.go:135-172 | Of two clients that loaded one version, the second to save meets a version conflict and changes nothing |
| Concurrency.Undisturbed | engine.go:443-481 | A client nobody interleaves with does exactly what one command does: the bridge from interleaved steps to commands |
| Deployment.SerializableOn | engine.go:443-481 | In every interleaving on every store: it holds the serial run of the accepted writes, each succeeds there, every stored instance is sound, and versions count recorded commands |
| Deployment.RunIsServed | postgres/store.go:146-185 | The read model of any run on PostgreSQL projects aggregates that all passed the checks of their writes |
| Deployment.WorklistOfRun | postgres/projection_task.go:18-34 | After any run on PostgreSQL the worklist rows are exactly the actor's open tasks |
| Deployment.ParticipationOfRun | postgres/projection_task.go:38-53 | After any run on PostgreSQL the participation rows are exactly the actor's completed and closed tasks |
| Deployment.WholeWorklistOfRun | postgres/projection_task.go:100-105 | After any run, following worklist tokens to the last page shows the actor's open tasks, each once, newest instance first, with the aggregates' own columns, and nothing else |
| Deployment.WholeParticipationOfRun | postgres/projection_task.go:125-130 | The same for the actor's decided tasks |
| Deployment.RoundsInLog | approval/approval.go:258-304 | In every log of accepted writes, whatever other instances do in between, each instance's approval round is conserved |
| Deployment.RoundsOfRun | approval/approval.go:258-304 | In every interleaving on every store each stored instance is sound and its approval round conserved |
| Deployment.AsAskedOn | engine.go:141-203 | On every store and in every interleaving each accepted write was entitled and left its instance as its request and its handlers' answers say |
| Deployment.DecisionsInLog | approval/approval.go:258-304 | Every decision in a log of accepted writes settles its round and leads where its verdict says |
| Deployment.DecisionsOfRun | approval/approval.go:258-304 | The same in every interleaving on every store |
| Accounting.ExecuteRecords | instance_facts.go:85-146 | The first record a successful command adds names it (who, which task or node, previous and new owner, reason, abandoned node state); whatever follows is consequence and no command record; the version moves by one |
| Accounting.StartRecords | instance_facts.go:50-69 | A started instance's audit begins with the initiator's start and records no other command |
| Accounting.RunAccounted | instance_facts.go:301-310 | In every interleaving each stored version equals the number of command records in its audit |
| Approvals.ValidateAssignees | approval/approval.go:348-368 | Accepts exactly non-empty lists of distinct non-empty actors; otherwise the first offending actor decides the error |
| Approvals.CheckConfig | approval/approval.go:312-342 | Accepts exactly the configurations with a known mode, an allowed rejection outcome and one valid assignment source |
| Approvals.ActivateConfig | approval/approval.go:187-219 | Succeeds exactly for a resolvable valid population; opens one active task per actor, and the engine accepts the result at any node |
| Approvals.HasActiveTask | approval/approval.go:371-378 | Some task of the array is active |
| Approvals.CloseActiveTasks | approval/approval.go:381-387 | Closes, in place, exactly the active tasks |
| Approvals.HandleConfig | approval/approval.go:258-304 | The in-place handler equals the decision function, which `Approvals.DecidesAsAsked` tells by owner, command and mode |
| Approvals.DecidesAsAsked | approval/approval.go:258-304 | Only the owner of an open task is answered: an approval waits under countersign while others are open and otherwise continues as approved, closing them; a rejection rejects with the configured outcome; other commands are refused |
| Approvals.DecisionRouted | approval/approval.go:290-298 | A committed approving end leaves first along the edge of approved; a rejection ends the instance where it is, or is recorded and leaves along the edge of its configured outcome |
| Approvals.DecisionAccepted | approval/approval.go:258-304 | On a sound instance every decision is a view the engine accepts and rewrites exactly the node's tasks as decided |
| Approvals.TransferConserves | instance_facts.go:229-252 | A transfer keeps the number of open plus approved tasks of the round |
| Approvals.WaitingConserves | approval/approval.go:258-304 | An approval that leaves the round open turns one open task into one approval |
| Approvals.EndingFinishes | approval/approval.go:258-304 | A decision that ends a round leaves nothing open; an approving countersign end has as many approvals as actors were frozen, an or-sign end exactly one, a rejection exactly one rejection |
| Approvals.TurnKeepsRound | approval/approval.go:258-304 | Every successful command keeps the current round conserved or opens the next one |
| Approvals.RoundsConserved | approval/approval.go:258-304 | From the start of an instance through any commands, the round at an approval node is conserved, and older rounds at the node do not interfere |
| Approvals.RoundDecides | approval/approval.go:258-304 | A committed decision waits if and only if countersign still misses approvals; otherwise its round is finished (with every approval under countersign, with one under or-sign), stays as decided, and the instance leaves by the edge of its verdict or ends |
| Approvals.TransferOwners | instance_facts.go:229-252 | A transfer keeps owners distinct if and only if the new owner held no other open task of the node |
| Approvals.TransferSharesOwner | engine.go:351-386 | Every sound running instance with two open tasks of different owners accepts the authorized transfer to the other owner, who then holds two |
| Witness.GraphIsValid | compiler.go:185-226 | A start, one approval and an end form an accepted definition |
| Witness.Starts | engine.go:79-110 | That definition starts and waits with one open task for each signer |
| Witness.OwnerShared | engine.go:312-348 | From an empty store, a start and one authorized transfer store an instance in which one actor holds two open tasks of the round |
| Tables.TasksReplaced | mysql/store.go:226-237 | Deleting and inserting task rows stores the new tasks, and violates uniqueness exactly when their identities repeat |
| Tables.AuditAppended | mysql/store.go:226-237 | Inserting only the suffix at its offset stores the whole audit |
| Tables.ChildrenReplaced | postgres/store.go:212-224 | Replacing the child rows succeeds if and only if the aggregate satisfies the schema, and the tables then hold exactly the new aggregates |
| Tables.LoadSnapshot | mysql/codec.go:212-268 | Three ordered reads rebuild the aggregate written last |
| MySQL.InsertRows | mysql/store.go:280-302 | Inserting in batches of 500 succeeds exactly when one statement would and stores the same rows |
| MySQL.Store.Create | mysql/store.go:71-102 | Answers and stores as the shared contract behind this adapter's checks of values, lengths and dates and the schema's task uniqueness; failures roll back |
| MySQL.Store.Save | mysql/store.go:138-177 | The same for saving, whether or not the connection counts an unchanged row as affected |
| MySQL.Store.ClassifyFailedCAS | mysql/store.go:204-223 | Zero affected rows mean a missing instance, a stale version or an unchanged row, told apart exactly |
| MySQL.Store.Load | mysql/store.go:109-130 | Answers the stored aggregate |
| Postgres.Store.Create | postgres/store.go:70-107 | Answers and stores as the shared contract behind the schema, the dates, texts and index entries that can be held, and the paging preflight; keeps the read model equal to the aggregates; failures roll back |
| Postgres.Store.Save | postgres/store.go:146-185 | The same for saving |
| Postgres.Store.Load | postgres/store.go:114-138 | Answers the stored aggregate, or refuses an identity that is no text |
| Refinement.SameTrace | store.go:63-172 | Any sequence of calls whose candidates an adapter can hold and whose identities it can bind is answered alike by all three stores, answer for answer and aggregate for aggregate |
| Refinement.EngineFitsSchema | engine.go:443-481 | What a command saves always satisfies the constraints on tasks and audit; it is stored exactly when it keeps within the adapter's limits on dates, lengths, texts, index entries and tokens |
| Refinement.StartFitsSchema | engine.go:79-110 | The same for starting |
| Projections.ProjectionAuditTimes | postgres/projection_write.go:129-150 | The first dated start, the last dated record, and a fixed order key when nothing is dated |
| Projections.TokensRoundTrip | postgres/projection_task.go:360-391 | A token that was handed out decodes to the key it was made from, and no text decodes in both query families |
| Projections.ValidateContinuationKeys | postgres/projection_write.go:105-122 | Passes if and only if every row the aggregate projects to can end a page at the time derived for it |
| Projections.PageableAsKept | postgres/projection_write.go:105-122 | What passed can still be paged at the time the server keeps if and only if that time is not the zero time and the tokens at it fit |
| Projections.RoundedAway | postgres/projection_write.go:105-122 | A record dated one nanosecond after the zero time passes, and a server that keeps whole microseconds has no position for it |
| Projections.BuildParticipation | postgres/projection_write.go:69-81 | One row for exactly each concrete task, in order |
| Projections.ReplaceQueryProjection | postgres/projection_write.go:41-98 | Succeeds if and only if the aggregate is pageable, and the views then project exactly the new aggregates |
| Projections.ProjectedOnce | postgres/projection_write.go:41-98 | The aggregates determine every row of the views |
| Paging.EnumeratedOnce | postgres/projection_task.go:18-34 | A set of keys is enumerated in one way by a strict total order |
| Paging.BeyondPage | postgres/projection_task.go:18-34 | What lies beyond a page's last key is exactly the rest |
| Paging.PagesEnumerate | postgres/projection_task.go:193-290 | Following continuations with any positive limits yields a prefix of the ordered rows, all of them exactly when no continuation is left |
| Queries.TaskOrder | postgres/projection_task.go:18-34 | The three-way predicate selects exactly what the three-column order puts after the cursor, and that order is strict and total |
| Queries.InstanceOrder | postgres/projection_instance.go:18-29 | The same for the two-column order |
| Queries.QueryTaskProjection | postgres/projection_task.go:193-290 | Returns a page of the matching rows after the cursor, each item showing its row column by column, and its continuation, unless a parameter is no text |
| Queries.QueryInstanceProjection | postgres/projection_instance.go:113-192 | The same for initiated instances |
| Queries.PrepareQuery | postgres/projection_query.go:39-69 | Accepts exactly a named actor with no limit or one from 1 to 200 |
| Queries.TaskPage | postgres/projection_task.go:162-185 | A task page is the page after the token, with a token that decodes to its last row; it fails for inputs that can be checked before the call, or because the stored time of its last row has no token, and never the latter when rounding lost no position |
| Queries.TaskPageSize | postgres/projection_query.go:39-69 | A page holds at most the requested number of items, 50 when none was requested and never over 200, and fewer only when it is the last |
| Queries.InstancePageSize | postgres/projection_query.go:39-69 | The same for initiated instances |
| Queries.PageShowsWork | postgres/projection_task.go:193-290 | Every item of a page is a task of the actor who asked: its owner, task, node, status and outcome, and initiator, definition, version, status and times of its instance, are the aggregate's own |
| Queries.PageShowsInstances | postgres/projection_instance.go:113-192 | Every item of a page is an instance the actor started, with the aggregate's own columns |
| Queries.TokenAccepted | postgres/projection_task.go:320-342 | A token that was handed out is accepted by the next query for the same rows, with any allowed limit |
| Queries.InitiatedPage | postgres/projection_instance.go:86-106 | The same for initiated instances |
| Queries.InstanceTokenAccepted | postgres/projection_instance.go:228-246 | The same for tokens of initiated instances |
| Queries.WorklistIsOpenWork | postgres/projection_task.go:18-34 | For everything the engine stores the worklist is exactly the actor's open tasks, so the running filter removes nothing |
| Queries.ParticipatedIsDecidedWork | postgres/projection_task.go:38-53 | For everything the engine stores the participations are exactly the actor's completed and closed tasks |
| Queries.InitiatedIsStarted | postgres/projection_instance.go:18-29 | The initiated rows are exactly the stored instances the actor started |
| Queries.WholeTaskChain | postgres/projection_task.go:162-290 | Following tokens from the first page to the page without one, with any allowed limits, shows every matching row once, in order, and no other |
| Queries.TaskChainEnds | postgres/projection_task.go:276-289 | No chain of task queries, finished or not, is longer than the number of matching rows plus one |
| Queries.InstanceChainEnds | postgres/projection_instance.go:182-191 | The same for initiated instances |
| Queries.WholeWorklist | postgres/projection_task.go:100-105 | Following worklist tokens to the last page shows the actor's open tasks, each once, newest instance first, with the aggregates' own columns, and nothing else |
| Queries.WholeParticipation | postgres/projection_task.go:125-130 | The same for the actor's decided tasks |
| Queries.WholeInitiated | postgres/projection_instance.go:86-106 | The same for the instances the actor started |
| Queries.CodePointCollation | postgres/projection_task.go:28-33 | The order of code points is one of the text orders the paging results hold for |
| Surrogates.DecodeHexEscape | internal/jsonstrict/jsonstrict.go:130-149 | Accepts exactly four hexadecimal digits, and shifting and or-ing 16 bits yields their base-16 value without loss |
| Surrogates.PairIsCharacter | internal/jsonstrict/jsonstrict.go:78-127 | Two values are a high and a low surrogate if and only if together they encode a character beyond the first 65536 (section 2.1 of RFC 2781) |
| Surrogates.ConsumableIsPaired | internal/jsonstrict/jsonstrict.go:78-127 | Consuming escapes from the front decides whether every surrogate is directly paired |
| Surrogates.ValidateEscapedSurrogates | internal/jsonstrict/jsonstrict.go:78-127 | The index-jumping scan stays in bounds and accepts exactly the texts whose strings have complete escapes and directly paired surrogates (sections 7 and 8.2 of RFC 8259) |
| JsonStrict.ScansValue | internal/jsonstrict/jsonstrict.go:315-389 | From a value's tokens and anything after them the scan consumes exactly the value, or refuses it for a repeated name at some depth (section 4 of RFC 8259) |
| JsonStrict.AcceptsExactly | internal/jsonstrict/jsonstrict.go:292-389 | On any token stream the scan consumes everything if and only if the stream is one value with distinct names throughout |
| JsonStrict.RunValue | internal/jsonstrict/jsonstrict.go:315-328 | The decoder-driven scan terminates and stands where the specification leaves off |
| JsonStrict.RunObject | internal/jsonstrict/jsonstrict.go:334-365 | The same inside an object, with the set of seen names |
| JsonStrict.RunArray | internal/jsonstrict/jsonstrict.go:371-389 | The same inside an array |
| JsonStrict.ValidateUniqueValue | internal/jsonstrict/jsonstrict.go:292-309 | Accepts exactly the tokens of one unambiguous value with nothing after it |
| Pointers.ParsePointer | condition/condition.go:497-526 | The parsing loops equal the specification |
| Pointers.PointerBijection | condition/condition.go:497-526 | A pointer parses to a token list if and only if the list is not empty and the pointer is its escaped rendering (sections 3 and 4 of RFC 6901) |
| Pointers.AcceptedWhenGrammatical | condition/condition.go:497-526 | Rejected are exactly the strings without leading slash or with a tilde that begins no escape |
| Conditions.LookupField | condition/condition.go:532-549 | Follows object members only, along the parsed pointer |
| Conditions.CompareCollection | condition/condition.go:689-739 | Membership of one, any or all candidates, by type and by exact numeric value |
| Conditions.EvaluateCollection | condition/condition.go:465-491 | The first unsupported member decides the error; otherwise membership decides |
| Conditions.EvaluateRule | condition/condition.go:316-334 | Errs with the first failing expression; otherwise counting equals for-all or exists over the expressions |
| Conditions.ActivateConfig | condition/condition.go:204-243 | Selects an outcome if and only if nothing errs and one rule alone holds with it, or none holds and it is the non-empty default; each error is the specified one; the engine accepts every answer |
| ConditionLaws.FieldByName | condition/condition.go:497-549 | A pointer leads through the member of its first name, and nowhere in anything but an object |
| ConditionLaws.NumbersCompare | condition/condition.go:399-434 | A rule of one numeric comparison is chosen for exactly the values its operator is named for |
| ConditionLaws.NumbersMonotone | condition/condition.go:399-434 | Raising a value never turns a lower bound off, lowering it never an upper bound, and values that parse alike are treated alike |
| ConditionLaws.NumbersTrichotomy | condition/condition.go:399-434 | Exactly one of less, equal and greater is chosen; the inclusive operators are their disjunctions and inequality the negation of equality |
| ConditionLaws.StrictIsSatisfiable | condition/condition.go:399-434 | An object whose member lies beyond the bound is chosen by the strict operators |
| ConditionLaws.NumbersOnly | condition/condition.go:399-434 | A numeric comparison is in error if and only if one of its sides is no number with a value |
| ConditionLaws.TextsMatch | condition/condition.go:368-392 | Prefix, suffix and containment are chosen by what can be put before and after the part; inequality is the negation of equality |
| ConditionLaws.FlagsMatch | condition/condition.go:440-459 | Equality and inequality of flags are chosen for opposite data |
| ConditionLaws.MembersContain | condition/condition.go:752-770 | Texts and flags are members as they are, numbers by value, anything else never |
| ConditionLaws.CandidatesSplit | condition/condition.go:689-739 | Any of the candidates is one of them alone, all of them each of them alone |
| ConditionLaws.RuleIsItsExpressions | condition/condition.go:316-334 | An all-rule is chosen when each of its expressions would be alone; an any-rule when one would be and none is in error |
| ConditionLaws.ConfigIsItsRules | condition/condition.go:204-243 | Without errors: two rules that would each be chosen alone exclude every choice, one decides whatever the default, none leaves the default |
| Conditions.OrderFree | condition/condition.go:204-243 | Permuting rules, expressions, comparison candidates and members of arrays in the data, at every depth, changes neither the selected outcome nor whether an expression errs |
| Conditions.FaultDependsOnOrder | condition/condition.go:223-227 | One concrete pair of rules whose order changes the reported error |
| Faults.RuleOrderImmaterial | condition/condition.go:223-227 | The reported error survives every reordering of the rules if and only if all erring rules err alike |
| Faults.ExpressionOrderImmaterial | condition/condition.go:316-334 | Within a rule it survives every reordering if and only if all erring expressions err alike |
| Faults.MemberOrderImmaterial | condition/condition.go:465-491 | Within a collection it survives every reordering if and only if all unsupported members fault alike |
| Faults.OrderImmaterial | condition/condition.go:204-334 | Reordering rules and expressions together keeps the reported error if and only if all erring expressions of the configuration err alike |
| Conditions.CheckConfig | condition/condition.go:274-298 | Accepts exactly the complete rules over grammatical pointers and supported typed comparisons |
| ConditionLaws.AcceptedIsDecidable | condition/condition.go:555-658 | A scalar comparison is accepted if and only if some field value lets it be decided, a membership if and only if some collection has the member |
| ConditionLaws.CandidatesAccepted | condition/condition.go:555-658 | Several candidates are accepted if and only if there are some and each is accepted alone |
| Conditions.RunNeverInvalid | condition/condition.go:336-362 | A checked configuration never turns out invalid while it is evaluated, whatever the data |

## Left out

- Nil receivers, nil arguments and nil handlers, and the difference between nil and empty slices: the model has no nil.
- Cancellation: a cancelled call fails and changes nothing, which is the same as a client that abandons its command.
- Timestamps: the clock is arbitrary, a time is an instant without location or monotonic reading, and how PostgreSQL rounds stored times is an arbitrary function.
- Error text and wrapping: only error classes are kept; all refusals of a handler are one class to the engine.
- Approvals.ActivateConfig: the decoding of configuration bytes is not modelled; configurations are decoded values.
- Definition publication, the registry, the builder and the legacy handler adapter: thin, and they would only add easy members.
- Pre-existing rows that no store call wrote, such as rows backfilled by migrations.
- Postgres.Store.Save: how large an index entry may be is an arbitrary predicate per index, and text that is no Unicode at all, which both servers refuse, cannot be expressed.
- SQL drivers, isolation levels, connection pools and rollback timeouts: one transaction commits as a whole or changes nothing.
- Row encodings: payload columns hold decoded values because what can be encoded reads back as it was; dates outside the years 0 to 9999 are the only values that cannot. Decoding failures of stored rows are not modelled.
- Stores.MemoryStore.Save: locking is not modelled, each call is one atomic step.
- Tables.SoundIsSchemaValid: audit actions are the engine's own, so an aggregate with an empty action text cannot be expressed.
- Projections.TokensRoundTrip: the text form of a token is an arbitrary partial codec that reads back what it writes; its base64 and JSON details are left out, its length bound is not.
- Queries.TaskPage: the deprecated cursor interface runs the same query without tokens and is not modelled separately.
- Surrogates.ValidateEscapedSurrogates: the check that bytes are valid UTF-8 precedes it and is not modelled.
- JsonStrict.ValidateUniqueValue: the tokenizer is not modelled, and the reflection-based comparison with a typed schema is left out.
- Conditions.ActivateConfig: exact decimal parsing is an arbitrary partial function from number text to numbers.
- Concurrency.Serializable: the identity generator is assumed fresh for the snapshot a command loaded.
