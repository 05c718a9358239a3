# Termior: child-task orchestration, repo map, automation and protocol cores

A Dafny model of the stateful cores of Termior, an agent workbench, with proofs of what they promise.  Each core is a
file of specification functions with lemmas about them and, where the program updates an object in place, a class whose
methods are proved to compute those functions.

- **Child-task runtime** (`TaskGraph`, `Scheduler`, `SchedulerProperty`, `RuntimeState`, `RuntimeInvariant`,
  `RuntimeRuns`, `RuntimeHistory`, `Runtime`, `RuntimeWitnesses`, `TaskTree`, `OutputSchema`).  The dependency graph
  with its on-line cycle test, the slot scheduler, and `OrchestrationRuntime` as a state machine.  Threads are replaced
  by their effect: a set of live workers, any of which may report anything at any later time, a completion channel, and
  spawns that may be refused.  A history of submissions, launches and deletions makes statements about whole runs
  possible.
- **Repo map** (`RepoIndex`, `RepoChange`, `RepoSweep`, `ScoreBoard`, `RepoMap`, `DependencyEdge`, `RepoSlice`,
  `RepoQuery`, `RefreshProtocol`).  Slots, free list, path map and six inverted indexes edited in place; outlines shared
  by content digest; batched sweeps; queries from term scores over dependency edges and the bonus for recent changes to
  the token-budgeted slice; and the refresh protocol as an interleaving of callers and one worker.  Hashing, parsing and
  the disk are given functions.
- **Automation host** (`ScheduleGrid`, `DedupeWindow`, `ClaimQueue`, `RunHistory`, `Automation`, `Digits`).  Interval
  schedules, catch-up policy, windowed dedupe, trimming and claiming.
- **Agent loop** (`Agent`).  Asking the provider, running tool calls, suspending at an approval gate, resuming.
- **Permission profiles** (`Permissions`), **line codec and reader** (`LineCodec`) and **context planner**
  (`ContextPlan`).

`Names`, `Json`, `StableSort` and `Reachability` hold the shared notions: names in code-point order, JSON values, a
stable sort, and paths and cycles in a finite graph.

Claims that look natural but are false of the code are kept as lemmas too, each with the condition under which it
holds:

- blocking does not spread to grand-dependents, so an idle run need not be settled (`BlockingDoesNotSpread`; exact
  condition in `SettledIffNoDeadEnd`);
- a task can be launched although a dependency it declared never succeeded, its failed record having been deleted
  (`DeletedBlockerReleases`; exactly the deletion of a record that has not succeeded does this, `LaunchIsDueIff`);
- more workers than the global cap can be alive after a cancellation (`WorkersExceedCap`; exact condition in
  `InFlightCount`);
- cancelling in the task-tree snapshot may stop more than cancelling in the runtime (`SnapshotStopsMore`; exact
  condition in `CancelCommutesIff`);
- a stored scheduler snapshot need not survive restoring (`SnapshotUndoesRestore`, an if-and-only-if);
- two files of equal content but different languages share one outline, so a file may be shown with the outline of
  another language, depending on the order of the listing (`OrderDecidesOutline`, `OrderMatters`; exact condition in
  `OwnOutlineIff`);
- the status can read idle while a coalesced refresh request is unserved (`IdleWhileUnserved`; exactly the runs in which
  no request comes while the status reads idle or is being published are free of it, `BusyThroughoutIff`);
- the announced next run is the anchor itself when asked before it, which is never recorded (`AnnouncedIsRecordedIff`);
- permission entry ids can collide when a key spells an entry below another key (`IdsCanCollide`; without such keys they
  never do, `ProfileIdsDistinct`, and exactly keys that do not extend each other are safe side by side, `SafeKeysIff`);
- a bad line discards the values of earlier lines of the same push and leaves complete lines behind it pending
  (`BadLineDiscardsEarlierValues`, `GoodLineStaysPending`; what is delivered in general is `FailureDelivers`);
- a category may exceed its budget, by a required item or by a cut one (`CutItemIgnoresCategory`; exact condition in
  `CategoryOverIff`, a condition on the items alone in `CategoryKeepsBudget`), and the mark behind a cut text costs
  tokens that no entry counts (`CutTextWithinTokens`).

Verify with `dafny verify dfyconfig.toml`.

## Model

| member | source | states |
|---|---|---|
| `Reachability.NewEdgeAcyclic` | crates/termior-ai/src/orchestration.rs:168-186 | testing whether the new edge's target already reaches its source is exact: the graph stays acyclic iff it does not |
| `TaskGraphs.TaskGraph.Reachable` | crates/termior-ai/src/orchestration.rs:258-275 | the explicit-stack search terminates on every graph, cyclic or not, and answers true iff a path exists |
| `TaskGraphs.TaskGraph.AddDependency` | crates/termior-ai/src/orchestration.rs:168-186 | a cycle is refused before a missing node; a refused call changes nothing; an accepted one appends the relation and keeps an acyclic graph acyclic |
| `TaskGraphs.TaskGraph.Refresh` | crates/termior-ai/src/orchestration.rs:187-228 | the loop that reads the node map it is updating computes the simultaneous update of all nodes, on every graph that holds the prerequisites of its pending nodes |
| `TaskGraphs.RefreshOne` | crates/termior-ai/src/orchestration.rs:187-228 | judging one more node on the half-updated map extends the simultaneous update, whatever was judged before |
| `TaskGraphs.RefreshIdempotent` | crates/termior-ai/src/orchestration.rs:187-228 | a second refresh changes nothing |
| `TaskGraphs.TaskGraph.CancelDescendants` | crates/termior-ai/src/orchestration.rs:229-257 | exactly the transitive dependents of the root are cancelled, each according to its state and the confirmed-stopped set |
| `TaskGraphs.TaskGraph.CollectDescendants` | crates/termior-ai/src/orchestration.rs:229-257 | the worklist collects exactly the nodes reached through at least one relation |
| `TaskGraphs.InDescendants` | crates/termior-ai/src/orchestration.rs:229-257 | in an acyclic graph the collected set is what the root reaches, the root itself aside |
| `TaskGraphs.InWithDescendants` | crates/termior-ai/src/orchestration.rs:942-958 | the root together with its collected descendants is exactly what the root reaches |
| `TaskGraphs.DescendantsSmallest` | crates/termior-ai/src/orchestration.rs:229-257 | the descendants are the smallest set that holds the root's dependents and is closed under taking dependents |
| `SchedulerProperties.EnqueueSorts` | crates/termior-ai/src/orchestration.rs:968-972 | after an enqueue the queue is sorted and holds exactly the old tasks and the new one |
| `Schedulers.Scheduler.NextReady` | crates/termior-ai/src/orchestration.rs:973-981 | starts the first task of the queue that nothing holds back, or none when every task is held back |
| `StableSort.SortIsStable` | crates/termior-ai/src/orchestration.rs:968-972 | the library sort used for the queue keeps the input order of elements that tie |
| `StableSort.SortForgetsOrder` | crates/termior-ai/src/context_engine.rs:378-383 | under an order without ties the sorted list depends on the elements only, not on their input order |
| `SchedulerProperties.StartKeepsCaps` | crates/termior-ai/src/orchestration.rs:973-1021 | starting the task that was picked overfills no provider, workspace, environment or global slot group |
| `SchedulerProperties.RunsKeepShape` | crates/termior-ai/src/orchestration.rs:959-1042 | after any sequence of operations the queue is sorted by priority and sequence and running is keyed by task id |
| `SchedulerProperties.RunsKeepCaps` | crates/termior-ai/src/orchestration.rs:959-1042 | over any run that never lowers the global cap all four slot caps hold |
| `SchedulerProperties.BackoffHoldsBack` | crates/termior-ai/src/orchestration.rs:973-1042 | whatever operations follow, no task of a provider that was backed off is picked before the time given unless the provider is backed off anew |
| `Schedulers.Scheduler.SetProviderBackoff` | crates/termior-ai/src/orchestration.rs:1039-1042 | until the time given every task of the provider is held back for its backoff, and what holds back any other task does not change |
| `SchedulerProperties.RestoreUndoesSnapshot` | crates/termior-ai/src/orchestration.rs:1044-1065 | restoring the snapshot of a scheduler gives back that scheduler |
| `Schedulers.Scheduler.Snapshot` | crates/termior-ai/src/orchestration.rs:1044-1052 | writes the snapshot that restoring turns back into the same scheduler |
| `SchedulerProperties.SnapshotUndoesRestore` | crates/termior-ai/src/orchestration.rs:1044-1065 | a stored snapshot survives restoring iff its running tasks are listed once each in id order |
| `SchedulerProperties.RestartReportsRunning` | crates/termior-ai/src/orchestration.rs:1066-1082 | a restart keeps the queue, frees every slot and reports every running task exactly once |
| `OutputSchemas.SubagentSchemaAccepts` | crates/termior-ai/src/orchestration.rs:71-79 | the schema every subagent task gets accepts exactly the objects with a text answer, a list of text evidence and nothing else |
| `OutputSchemas.ConformsMeans` | crates/termior-ai/src/orchestration.rs:1222-1284 | what validation against that schema amounts to: both required keys, no other key, and every field conforming |
| `RuntimeInvariants.StepKeepsInvariant` | crates/termior-ai/src/orchestration.rs:673-844 | every submit, tick, cancellation, deletion, cap change and late report keeps the invariant: ready iff queued exactly once, running iff holding a slot, in flight iff a token, a specification and a state running or unknown, succeeded iff a validated result is stored |
| `RuntimeInvariants.TickIsDefined` | crates/termior-ai/src/orchestration.rs:703-768 | in such a state a tick finds every specification and node it indexes, at every step of its three phases |
| `RuntimeInvariants.CancelTreeNodes` | crates/termior-ai/src/orchestration.rs:814-830 | the two passes of a tree cancellation act as one update on the root and its descendants: running becomes unknown, settled states stay, the rest is cancelled |
| `RuntimeLogs.RelaunchNeedsDeletion` | crates/termior-ai/src/orchestration.rs:703-768 | between two launches of one task its record was deleted |
| `RuntimeRuns.RunsKeepInvariant` | crates/termior-ai/src/orchestration.rs:649-844 | the invariant holds in every state of every run |
| `RuntimeRuns.TickNeverPanics` | crates/termior-ai/src/orchestration.rs:703-768 | no tick of any run indexes a missing key |
| `RuntimeRuns.LaunchedAtMostOnce` | crates/termior-ai/src/orchestration.rs:703-768 | over every run a submitted task is launched at most once until its record is deleted |
| `RuntimeRuns.LaunchedAfterPrerequisites` | crates/termior-ai/src/orchestration.rs:703-768 | over every run a launched task has, for each relation still in the graph, a prerequisite that succeeded with a stored result that passed validation |
| `RuntimeRuns.LaunchedAfterDeclaredDependencies` | crates/termior-ai/src/orchestration.rs:673-768 | in any state of a run a launched task has a validated success for each declared dependency whose record was not deleted after its submission |
| `RuntimeHistories.LaunchIsDueIff` | crates/termior-ai/src/orchestration.rs:673-812 | over every run, the record a declared dependency had when its task was submitted has succeeded by the task's launch iff no step in between deleted it before it had |
| `RuntimeRuns.GraphStaysAcyclic` | crates/termior-ai/src/orchestration.rs:673-701 | over every run the relations stay acyclic |
| `RuntimeRuns.SuccessIsFinal` | crates/termior-ai/src/orchestration.rs:703-830 | a success and its result survive every step except the deletion of its own record |
| `RuntimeRuns.TickLogsLaunches` | crates/termior-ai/src/orchestration.rs:703-768 | a tick extends the history by launches only, and what it launched is running when it returns |
| `RuntimeRuns.TickIsMaximal` | crates/termior-ai/src/orchestration.rs:703-768 | after a tick nothing is left to refresh and every task still queued is held back by a slot or a backoff |
| `RuntimeRuns.SettledIffNoDeadEnd` | crates/termior-ai/src/orchestration.rs:832-844 | an idle refreshed run is settled iff no queued task waits on a blocked or stale prerequisite |
| `RuntimeRuns.DeadEndBehind` | crates/termior-ai/src/orchestration.rs:187-228 | behind every queued task of an idle run, some ancestor waits directly on a blocked or stale node |
| `RuntimeRuns.IdleAfterTick` | crates/termior-ai/src/orchestration.rs:703-768 | when a tick leaves no slot taken, with positive caps and no backoff, nothing is ready or running |
| `RuntimeRuns.InFlightCount` | crates/termior-ai/src/orchestration.rs:814-830 | live workers and unread reports are one for one the tasks holding slots and the cancelled ones still in flight; both together stay within the global cap iff the cancelled ones fit in the free slots, and the live workers iff they fit in the free slots and the unread reports |
| `RuntimeRuns.RunsRespectCaps` | crates/termior-ai/src/orchestration.rs:703-844 | over every run that never lowers the global cap the tasks holding slots respect all four caps |
| `RuntimeWitnesses.BlockingDoesNotSpread` | crates/termior-ai/src/orchestration.rs:187-228 | a reachable idle and refreshed state that is not settled: the task behind a blocked one is still queued |
| `RuntimeWitnesses.DeletedBlockerReleases` | crates/termior-ai/src/orchestration.rs:795-812 | a reachable state in which a task was launched although a declared dependency has no result, its failed record having been deleted |
| `RuntimeWitnesses.WorkersExceedCap` | crates/termior-ai/src/orchestration.rs:814-830 | a reachable state with two live workers under a global cap of one |
| `RuntimeWitnesses.SnapshotStopsMore` | crates/termior-ai/src/orchestration.rs:627-647 | a reachable state in which cancelling in the snapshot stops a task the runtime leaves alone, a deleted dependency having been submitted anew |
| `OrchestrationRuntimes.OrchestrationRuntime.SubmitTask` | crates/termior-ai/src/orchestration.rs:673-701 | a submission is refused before anything is touched or goes through as specified; adding its relations never fails |
| `OrchestrationRuntimes.OrchestrationRuntime.WorkerFinishes` | crates/termior-ai/src/orchestration.rs:745-768 | a live worker may send any report at any time: it enters the channel behind the others and the invariant is kept |
| `OrchestrationRuntimes.OrchestrationRuntime.TickOnce` | crates/termior-ai/src/orchestration.rs:703-768 | the three phases in place equal the tick of the state machine |
| `OrchestrationRuntimes.OrchestrationRuntime.ReapCompletions` | crates/termior-ai/src/orchestration.rs:704-720 | draining the channel handles every completion in order |
| `OrchestrationRuntimes.OrchestrationRuntime.PromoteReady` | crates/termior-ai/src/orchestration.rs:722-736 | exactly the nodes the refresh made ready are queued, in key order |
| `OrchestrationRuntimes.OrchestrationRuntime.FillSlots` | crates/termior-ai/src/orchestration.rs:738-767 | the launch loop starts tasks until none may start, a refused spawn reporting failure through the channel |
| `OrchestrationRuntimes.OrchestrationRuntime.DescendantsIncluding` | crates/termior-ai/src/orchestration.rs:942-958 | the depth-first search over the relations returns exactly what the root reaches |
| `OrchestrationRuntimes.OrchestrationRuntime.Cancel` | crates/termior-ai/src/orchestration.rs:814-830 | the root and its descendants leave the scheduler, their tokens are cancelled and their states updated as specified |
| `OrchestrationRuntimes.OrchestrationRuntime.CancelChild` | crates/termior-ai/src/orchestration.rs:779-785 | an unknown task is refused, any other is cancelled with its tree |
| `OrchestrationRuntimes.OrchestrationRuntime.CancelEverything` | crates/termior-ai/src/orchestration.rs:787-792 | every specified task's tree is cancelled, in key order |
| `OrchestrationRuntimes.OrchestrationRuntime.DeleteRecord` | crates/termior-ai/src/orchestration.rs:795-812 | a missing or undeletable record is refused unchanged; otherwise the record goes with its relations, queue entry, slot, result and token |
| `TaskTrees.TaskTreeSnapshot.DescendantTaskIds` | crates/termior-ai/src/orchestration.rs:627-647 | scanning the list until nothing is added finds exactly what the root reaches over the listed dependencies |
| `TaskTrees.TaskTreeSnapshot.CancelChild` | crates/termior-ai/src/orchestration.rs:456-463 | the listed root and everything it reaches are cancelled, an unlisted root is refused |
| `TaskTrees.TaskTreeSnapshot.DeleteRecord` | crates/termior-ai/src/orchestration.rs:474-488 | the first node with the id decides whether it can be deleted; then every node with the id goes, also as a dependency |
| `TaskTrees.RuntimeWithinTree` | crates/termior-ai/src/orchestration.rs:627-647 | the snapshot never cancels less than the runtime |
| `TaskTrees.CancelCommutesIff` | crates/termior-ai/src/orchestration.rs:456-463 | cancelling then taking the tree equals taking the tree then cancelling iff every task only the snapshot reaches has settled |
| `TaskTrees.CancelCommutes` | crates/termior-ai/src/orchestration.rs:456-463 | with relations matching the live declarations both searches find the same tasks and both orders agree |
| `TaskTrees.MatchingUnlessReplaced` | crates/termior-ai/src/orchestration.rs:795-812 | relations match the live declarations iff no dependency was deleted, and submitted anew, after its dependent was submitted |
| `TaskTrees.DeleteAgreesUpToDependencies` | crates/termior-ai/src/orchestration.rs:474-488 | deleting in the runtime and in the snapshot leave the same nodes, except that the runtime still lists the deleted id as a declared dependency |
| `RepoIndexes.SwapRemoveMembers` | crates/termior-ai/src/repo_map.rs:756-765 | removing by moving the last element leaves exactly the other ids, once each |
| `RepoIndexes.AddAgrees` | crates/termior-ai/src/repo_map.rs:652-685 | posting an entry's keys keeps an index in agreement with the live entries |
| `RepoIndexes.RemoveAgrees` | crates/termior-ai/src/repo_map.rs:687-715 | unposting an entry's keys keeps the agreement and leaves no empty posting list |
| `RepoIndexes.InsertCoherent` | crates/termior-ai/src/repo_map.rs:652-685 | after an insertion, slot reuse included, all six indexes, the path map and the free list agree, and the entries are the old ones plus the new |
| `RepoIndexes.RemoveCoherent` | crates/termior-ai/src/repo_map.rs:687-715 | after a removal they still agree, and the entries are the old ones without that path |
| `RepoMaps.RepoMap.InsertEntry` | crates/termior-ai/src/repo_map.rs:652-685 | the in-place insertion computes that result |
| `RepoMaps.RepoMap.RemoveEntry` | crates/termior-ai/src/repo_map.rs:687-715 | the in-place removal computes that result and says whether the path was there |
| `RepoMaps.RepoMap.Apply` | crates/termior-ai/src/repo_map.rs:603-637 | a batch changes the entries like the plain map and takes one new generation exactly when content changed |
| `RepoChanges.ApplyKeepsBound` | crates/termior-ai/src/repo_map.rs:603-637 | the map's generation never decreases and bounds every entry's |
| `RepoChanges.BatchingIrrelevant` | crates/termior-ai/src/repo_map.rs:603-637 | however a change list is cut into batches the entries are the same apart from generation numbers, which never decrease |
| `RepoMaps.RepoMap.Sweep` | crates/termior-ai/src/repo_map.rs:968-1023 | afterwards the indexed paths are exactly the listed ones that were not skipped, each file unchanged or as inspected with the outline on file for its content; outlines stay on file exactly while an entry or a holder outside the map uses them, whatever was indexed before and in whatever order vanished paths are removed |
| `RepoMaps.RepoMap.Refresh` | crates/termior-ai/src/repo_map.rs:385-394 | the sweep that holds its copy of the outlines to the end drops none that was on file before it, and leaves what no entry uses to the next sweep |
| `RepoSweeps.StagedWithoutVanished` | crates/termior-ai/src/repo_map.rs:968-1023 | removing what the sweep did not see from what it staged leaves exactly the listed, kept paths |
| `RepoSweeps.StageOne` | crates/termior-ai/src/repo_map.rs:968-1023 | inspecting one more file with the outlines learned so far, and applying the change it asks for, gives what is staged with that file |
| `RepoSweeps.LearnedFromFirst` | crates/termior-ai/src/repo_map.rs:806-921 | a digest not on file gets the outline that the first listed file needing it parses to |
| `RepoSweeps.SweepMatches` | crates/termior-ai/src/repo_map.rs:968-1023 | if every entry had the outline on file for its digest before the sweep, every entry has after it |
| `RepoSweeps.OwnOutlineIff` | crates/termior-ai/src/repo_map.rs:806-921 | a new or changed file gets the outline of its own language iff that is on file for its content or what the first listed file of that content parses to |
| `RepoSweeps.OrderDecidesOutline` | crates/termior-ai/src/repo_map.rs:806-921 | two new files of equal content get the outline of the one listed first, so the order of the listing decides |
| `RepoSweeps.OrderMatters` | crates/termior-ai/src/repo_map.rs:806-921 | on an empty map two one-byte files of different languages: listing them the other way round gives the second another outline |
| `RepoMaps.RepoMap.ScoreTerms` | crates/termior-ai/src/repo_map.rs:508-545 | scoring by probing the indexes gives every live entry the points and terms of a scan over all entries, coverage bonus included, and scores no dead slot |
| `RepoMaps.ProbedExact` | crates/termior-ai/src/repo_map.rs:508-535 | the probes of one term give each entry the best symbol hit, the best path hit and the reference hit |
| `RepoMaps.AccumulateExact` | crates/termior-ai/src/repo_map.rs:536-545 | adding one term's hits extends the scan's scores by that term |
| `ScoreBoards.Hit` | crates/termior-ai/src/repo_map.rs:513-522 | the loop over a posting list raises one field of exactly the listed entries to the larger of old and new points, whatever the order or repetitions of the list |
| `DependencyEdges.AddDependencyEdges` | crates/termior-ai/src/repo_map.rs:548-577 | every entry gains the points a scan would give it: two for each pair of a best-ranked seed and a name it refers to that the entry and at most two others define, up to three pairs; no other score changes |
| `DependencyEdges.BestSeeds` | crates/termior-ai/src/repo_map.rs:549-554 | the seeds are the eight best-scored entries, best first |
| `DependencyEdges.SeedsUnique` | crates/termior-ai/src/repo_map.rs:549-554 | the seeds do not depend on the iteration order of the score map |
| `DependencyEdges.OneMoreLink` | crates/termior-ai/src/repo_map.rs:555-571 | bumping the other files on one name's posting list keeps every count equal to the number of pairs leading to that file |
| `RepoQueries.Slice` | crates/termior-ai/src/repo_map.rs:412-502 | without terms or budget the slice is empty; otherwise it is the greedy slice of the entries that match a term or that a seed leads to, ranked by the points a scan of the live entries gives them: term hits with coverage, dependency pairs and the bonus for a change since the first sweep |
| `RepoSlices.SliceRanked` | crates/termior-ai/src/repo_map.rs:446-502 | the loop takes candidates in rank order until the last, the two-hundredth or the end of the budget, and not less |
| `RepoSlices.RenderEntry` | crates/termior-ai/src/repo_map.rs:458-485 | an entry shows its header, the most symbols that fit, at most twelve, and the count of the rest when it fits too |
| `RepoSlices.SliceWithinBudget` | crates/termior-ai/src/repo_map.rs:446-502 | the tokens stay within the budget and pay for the whole rendered text; candidates are shown, stale or out of budget, exactly one of the three |
| `RepoSlices.SliceIsMaximal` | crates/termior-ai/src/repo_map.rs:446-502 | a current candidate among the first two hundred that is not shown has a header that does not fit in what is left, and only current candidates are shown |
| `RepoSlices.SliceUnique` | crates/termior-ai/src/repo_map.rs:446-502 | a ranking and a budget have one slice |
| `RepoSlices.RankingDeterministic` | crates/termior-ai/src/repo_map.rs:436-445 | the ranking is by points and then path, and does not depend on the iteration order of the score map |
| `RepoSlices.JoinWithinCost` | crates/termior-ai/src/repo_map.rs:251-258 | the estimate of joined lines is at most the sum of the lines' estimates |
| `RepoQueries.AnswerUnique` | crates/termior-ai/src/repo_map.rs:412-502 | a query against a coherent map has one answer, whatever order the hash maps are iterated in |
| `RepoQueries.ShownIsReached` | crates/termior-ai/src/repo_map.rs:412-502 | every file shown is live and current, and matches a term or defines a name one of the best matches refers to |
| `RefreshProtocols.RunsKeepInvariant` | crates/termior-ai/src/repo_map.rs:1523-1605 | in every interleaving the flag says exactly whether a request came after it was last cleared, and a set flag means a sweep is certain to come |
| `RefreshProtocols.NoRequestLost` | crates/termior-ai/src/repo_map.rs:1447-1452 | in every interleaving a request not yet followed by a sweep keeps the flag set and a sweep coming, unless the sweep that serves it is about to read the map or the service is being dropped |
| `RefreshProtocols.QuietMeansServed` | crates/termior-ai/src/repo_map.rs:1523-1544 | when the worker waits, the channel is empty and no caller is inside, every request has been followed by a sweep |
| `RefreshProtocols.BusyWhileUnserved` | crates/termior-ai/src/repo_map.rs:1546-1584 | in every state of a run with an unserved request the status reads busy or some caller is between its swap and its mark |
| `RefreshProtocols.IdleWhileUnserved` | crates/termior-ai/src/repo_map.rs:1447-1452 | an interleaving in which a coalesced request is unserved while the status reads idle |
| `RefreshProtocols.BusyThroughoutIff` | crates/termior-ai/src/repo_map.rs:1447-1584 | over every run the status reads busy whenever a request is unserved iff no request came while it read idle, or after the worker last read the flag clear and before it published |
| `ScheduleGrids.CollectInstants` | crates/termior-ai/src/automation.rs:959-985 | the successor iteration yields the specified instants |
| `ScheduleGrids.InstantsExact` | crates/termior-ai/src/automation.rs:959-985 | the missed instants are exactly the grid points after the anchor in the half-open interval, ascending |
| `ScheduleGrids.InstantsSplit` | crates/termior-ai/src/automation.rs:959-985 | checking at an intermediate time neither loses nor repeats an instant |
| `ScheduleGrids.AnnouncedIsRecordedIff` | crates/termior-ai/src/automation.rs:847-869 | the announced next run is the next instant to be recorded iff the time asked about is not before the anchor |
| `ScheduleGrids.CatchUpIsSuffix` | crates/termior-ai/src/automation.rs:987-1001 | the catch-up policy always selects the latest instants, none, one or up to its limit |
| `AutomationManagers.AutomationManager.PollDue` | crates/termior-ai/src/automation.rs:491-524 | a poll makes one run row for each instant since the last check of each automation observed before, with its policy status, records them one after the other, trimming each time, and returns exactly the queued ones; a first observation records nothing |
| `AutomationManagers.AutomationManager.CatchUp` | crates/termior-ai/src/automation.rs:297-345 | a missing or disabled automation is an error; otherwise every missed instant gets its run row in order, a duplicate iff its key is still remembered, else with its policy status; the rows are recorded one after the other and the queued ones returned |
| `AutomationManagers.FreshCatchUp` | crates/termior-ai/src/automation.rs:297-345 | instants none of whose keys is remembered all get their policy status: none is a duplicate of another |
| `AutomationManagers.CheckExtendsRecord` | crates/termior-ai/src/automation.rs:491-524 | one check extends an automation's record by exactly the instants since the last one and touches no other's |
| `AutomationManagers.RecordedOnceEach` | crates/termior-ai/src/automation.rs:491-524 | over any run of polls every grid point since the first observation is recorded exactly once, in order, and nothing else is |
| `AutomationManagers.AutomationManager.TriggerManual` | crates/termior-ai/src/automation.rs:248-268 | a missing or disabled automation is an error that changes nothing; otherwise one manual run is recorded beside the schedule, whose record stays |
| `AutomationManagers.AutomationManager.Remember` | crates/termior-ai/src/automation.rs:896-929 | a key is new iff it was not remembered within the window; the keys afterwards are those of the window and the new one without the oldest beyond the maximum, equally old ones in key order |
| `DedupeWindows.EvictedKeepsNewest` | crates/termior-ai/src/automation.rs:896-929 | eviction keeps exactly the newest keys, as many as fit |
| `DedupeWindows.RememberedAgain` | crates/termior-ai/src/automation.rs:896-929 | while the clock moves on a key just remembered is found again: eviction never takes it |
| `AutomationManagers.ScheduleKeyInjective` | crates/termior-ai/src/automation.rs:297-345 | schedule keys identify automation and instant, whatever the ids contain |
| `AutomationManagers.RunIdInjective` | crates/termior-ai/src/automation.rs:931-957 | run ids identify automation and sequence number |
| `AutomationManagers.AutomationManager.ClaimQueued` | crates/termior-ai/src/automation.rs:561-640 | the in-place pass computes the specified claims and returns the runs it started, once each, in the order they were considered |
| `RunHistory.TrimKeepsUnfinished` | crates/termior-ai/src/automation.rs:452-489 | trimming keeps every unfinished run, in order, and shrinks to the limit or to the unfinished runs |
| `RunHistory.DropsFirstFinished` | crates/termior-ai/src/automation.rs:452-489 | dropping by id drops exactly the oldest finished runs |
| `ClaimQueues.ClaimOrderCovers` | crates/termior-ai/src/automation.rs:561-640 | the order by creation time and run id lists every queued run once |
| `ClaimQueues.ClaimOrderSorted` | crates/termior-ai/src/automation.rs:561-640 | of two positions of the order the run at the earlier one was created before the other, or at the same time with the smaller run id |
| `ClaimQueues.ClaimsOnlyStart` | crates/termior-ai/src/automation.rs:561-640 | claiming only moves queued runs to running |
| `ClaimQueues.ClaimedAreStarted` | crates/termior-ai/src/automation.rs:561-640 | the returned runs are exactly those that were queued and are running after the pass |
| `ClaimQueues.ClaimsAreMaximal` | crates/termior-ai/src/automation.rs:561-640 | a run still queued at the end is still held back by the disk, its budget, the host cap or its own cap |
| `ClaimQueues.ClaimsRespectHostCap` | crates/termior-ai/src/automation.rs:561-640 | the number of running runs stays within the host cap, or where it was if that was more |
| `ClaimQueues.ClaimsRespectOwnCap` | crates/termior-ai/src/automation.rs:561-640 | an automation's running runs grow only up to the concurrency of its own template |
| `ClaimQueues.NoOvertaking` | crates/termior-ai/src/automation.rs:561-640 | when a run was claimed, one created before it, or at the same time with a smaller run id, that is still queued lacks a budget or is at the cap of its own template |
| `ClaimQueues.CountMeaning` | crates/termior-ai/src/automation.rs:561-640 | the counted runs are the running ones, of the host and of one automation |
| `AgentLoops.Agent.Run` | crates/termior-ai/src/agent.rs:89-100 | a chain starts: the provider is asked at most the step limit, only when every call of the chain has its result; each call is executed at most once and gated calls only when approved |
| `AgentLoops.Agent.Resume` | crates/termior-ai/src/agent.rs:102-134 | the same holds when a suspended chain goes on, over the whole chain, and a refused call is never executed |
| `AgentLoops.Agent.Drive` | crates/termior-ai/src/agent.rs:136-216 | the ask-and-process loop keeps all of that; running out of steps means the limit was used up; the conversation only grows |
| `AgentLoops.Agent.ProcessCurrentCalls` | crates/termior-ai/src/agent.rs:228-292 | one pass answers every call without a result or stops at the first gated one, with every call before it answered; that one is neither executed nor refused |
| `AgentLoops.Agent.Decide` | crates/termior-ai/src/agent.rs:113-133 | the pending call is answered; it is executed, with its normalized arguments, iff approved and valid, and any other decision appends a failure result |
| `AgentLoops.ExecutedIff` | crates/termior-ai/src/agent.rs:228-292 | in an answered message with distinct call ids the executed calls are exactly those with valid arguments and a known tool that the user did not refuse |
| `AgentLoops.OncePerCallId` | crates/termior-ai/src/agent.rs:228-292 | with distinct call ids in a message no call id is executed twice |
| `AgentLoops.ExecuteStep` | crates/termior-ai/src/agent.rs:228-292 | executing an open call once, with its arguments, and appending its outcome keeps every chain property |
| `AgentLoops.AnswerKeepsEarned` | crates/termior-ai/src/agent.rs:228-292 | a result for one call never counts as the result of another that still has to be run |
| `Permissions.CollectEntries` | crates/termior-agent-host/src/codex.rs:563-584 | the entries below a path are the specified ids in visiting order |
| `Permissions.PermissionEntries` | crates/termior-agent-host/src/codex.rs:549-561 | every entry id of the profile is listed as often as it occurs, in order |
| `Permissions.GrantAt` | crates/termior-agent-host/src/codex.rs:605-638 | following the same keys in request and grant reaches a unit and exactly the selected part of it |
| `Permissions.ProfileGrantAt` | crates/termior-agent-host/src/codex.rs:640-658 | the same for the whole profile an approval grants |
| `Permissions.EmptyGrantIff` | crates/termior-agent-host/src/codex.rs:640-677 | the empty profile is granted iff the request was denied or none of its entries chosen |
| `Permissions.GrantWithinRequest` | crates/termior-agent-host/src/codex.rs:640-677 | a grant is the request with array elements and fields left out |
| `Permissions.MoreIdsGrantMore` | crates/termior-agent-host/src/codex.rs:640-658 | choosing more grants more, and ids that are no entry of the profile change nothing |
| `Permissions.AllIdsGrantAll` | crates/termior-agent-host/src/codex.rs:640-658 | choosing every entry grants the request without empty arrays and the objects these emptied |
| `Permissions.IdsCanCollide` | crates/termior-agent-host/src/codex.rs:563-584 | a well-formed profile whose two entries share one id |
| `Permissions.ProfileIdsDistinct` | crates/termior-agent-host/src/codex.rs:549-584 | with distinct keys, none of which spells an entry below another key of the same object, all entries have distinct ids; dots and brackets are otherwise free |
| `Permissions.UnmixedIdsDistinct` | crates/termior-agent-host/src/codex.rs:563-584 | the same below any path, for the objects that are listed field by field |
| `Permissions.SafeKeysIff` | crates/termior-agent-host/src/codex.rs:549-584 | two keys never lead to a shared id, whatever unmixed values stand below them, iff neither is the other followed by a dot or by an item number in brackets |
| `LineCodecs.JsonRpcLineCodec.Push` | crates/termior-agent-host/src/transport.rs:21-37 | a push succeeds iff every complete line can be read, then returns their values and keeps the rest; at the first bad line it loses the values before it and keeps every byte after it, complete lines included |
| `LineCodecs.FramingSplits` | crates/termior-agent-host/src/transport.rs:21-37 | cutting a byte stream anywhere cuts its lines accordingly |
| `LineCodecs.ChunkingIrrelevant` | crates/termior-agent-host/src/transport.rs:21-37 | for every chunking all pushes succeed iff every complete line of the stream can be read, and then the values and pending bytes are those of a single push and nothing pending holds a newline |
| `LineCodecs.ReadStdout` | crates/termior-agent-host/src/transport.rs:270-298 | the reader loop pushes the chunks through one codec and delivers as the specified session says, up to the first failed push |
| `LineCodecs.FailureDelivers` | crates/termior-agent-host/src/transport.rs:270-298 | with an unreadable line the reader delivers exactly the values of the stream before the first chunk whose push fails |
| `LineCodecs.BadLineDiscardsEarlierValues` | crates/termior-agent-host/src/transport.rs:21-37 | a bad line behind a good one loses the good value when read in one chunk, and not when read in two |
| `LineCodecs.GoodLineStaysPending` | crates/termior-agent-host/src/transport.rs:21-37 | a good line behind a bad one in the same push stays pending with its newline |
| `LineCodecs.SentIsReceived` | crates/termior-agent-host/src/transport.rs:246-298 | the reader delivers whatever was sent, in order and complete, however the stream is cut, for a serializer without raw newlines (section 7 of RFC 8259) |
| `ContextPlans.ContextAssembler.MakePlan` | crates/termior-ai/src/context_engine.rs:365-433 | planning fails iff the required items alone are over the limit; otherwise the entries follow from the sorted items and their tokens sum to a total within the limit |
| `ContextPlans.RequiredAreIncluded` | crates/termior-ai/src/context_engine.rs:365-433 | in a plan every required item is included whole |
| `ContextPlans.PlanCoversItems` | crates/termior-ai/src/context_engine.rs:365-433 | every item is entered exactly once |
| `ContextPlans.PlanForgetsOrder` | crates/termior-ai/src/context_engine.rs:378-383 | with distinct ids the plan and the refusal are the same for every permutation of the items |
| `ContextPlans.InlineExcludedOnlyWhenFull` | crates/termior-ai/src/context_engine.rs:384-433 | an inline item is excluded, or gets less than it asked for, only when the plan uses the whole limit |
| `ContextPlans.IncludedWithinCategory` | crates/termior-ai/src/context_engine.rs:384-433 | an optional item is included whole only while its category stays within its budget |
| `ContextPlans.CutItemIgnoresCategory` | crates/termior-ai/src/context_engine.rs:384-433 | a cut item may take a category over its budget |
| `ContextPlans.StepOverIff` | crates/termior-ai/src/context_engine.rs:384-433 | an item takes its category over the budget iff it is required and fits the limit but not the category, or it is inline, is not taken whole, and what the limit leaves for it is more than its category has left |
| `ContextPlans.CategoryOverIff` | crates/termior-ai/src/context_engine.rs:384-433 | a plan has a category over its budget iff one of its items takes it over |
| `ContextPlans.CategoryKeepsBudget` | crates/termior-ai/src/context_engine.rs:384-433 | a category without required and inline items keeps its budget, whatever the other categories hold |
| `ContextPlans.CutTextWithinTokens` | crates/termior-ai/src/context_engine.rs:324-357 | the text of a cut entry stays within its tokens iff nothing was cut off; otherwise the mark adds thirteen |

## Left out

- Display: labels, queue-reason texts, usage and cost rollups, approval summaries, permission labels, audit rows.
- Persistence, clocks and the file system: writing succeeds, time is an argument, the disk is a function during one
  sweep.
- Worker threads and panics: a worker is a member of a set until its report enters the channel, with any content.
- Integer widths: tokens, times, priorities, sequence and generation numbers are unbounded naturals, so saturation and
  wrap-around at 64 bits are not modelled.
- `validate_against_parent`, aggregate budgets, the integration queue and the write-lease table: settled by reading one
  or two branches.
- Provider backoff is part of the scheduler; the runtime never sets it, so runs of the runtime have none.
- Splitting a query into terms, and the text of headers and symbol lines of a slice: what an entry displays is given;
  the flags and symbols listed beside an entry's text are not modelled.
- Counters of a refresh, cancelled sweeps, and rescans of single paths (`refresh_paths`).  Equal digests stand for
  equal content.
- The bit mask of matched terms is a set of term indices.
- Local-time schedules, repo-event triggers, template changes, retries, completion of runs and recovery after a restart.
- Streaming and message texts of the agent: a provider answers with one message or an error.
- Transport processes, request matching and timeouts; memory store, compaction and reference resolution of the context
  engine.
- Permissions.ProfileIdsDistinct: for one given profile one direction only; keys that extend each other collide for some
  values below them (`SafeKeysIff`) and not for others.
