/**
 Runs that show where the obvious claims about the runtime stop being true.

 Every lemma takes arbitrary distinct task names and gives the run step by step.
 */
module RuntimeWitnesses {
  import opened Names
  import opened JsonValues
  import opened Reachability
  import opened TaskTypes
  import opened TaskGraphs
  import opened Schedulers
  import opened SchedulerProperties
  import opened RuntimeStates
  import opened RuntimeLogs
  import opened RuntimeInvariants
  import opened RuntimeRuns
  import opened TaskTrees
  import Sorting = StableSort

  function Plain(id: Name, dependencies: seq<Name>): ChildTaskSpec {
    ChildTaskSpec(id, dependencies, id, id, id, 0, Null)
  }

  function Task(id: Name, sequence: nat): ScheduledTask {
    Scheduled(Plain(id, []), 0, sequence)
  }

  function OneSlot(): SlotLimits {
    SlotLimits(1, 1, 1, 1)
  }

  function Related(prerequisite: Name, dependent: Name): TaskRelation {
    TaskRelation(prerequisite, dependent, OnSucceeded)
  }

  // ---- small computations ----

  lemma EnqueueOne(q: Sched, t: ScheduledTask)
    requires q.ready == []
    ensures Enqueue(q, t).ready == [t]
  {
    assert [] + [t] == [t];
    assert [t][..0] == [];
    assert Sorting.Sort(QueueLeq, [t][..0]) == [];
    assert Sorting.Insert(QueueLeq, [], t) == [t];
  }

  lemma SortedSingle(x: Name)
    ensures SortedNames({x}) == [x]
  {
    AscendingUnique([x], SortedNames({x}));
  }

  lemma NothingFresh(s: State)
    requires TickDefined(s) && FreshlyReady(s.graph) == {}
    ensures Promote(s) == s.(graph := Refreshed(s.graph))
  {
    NoMembers(SortedNames({}));
  }

  lemma EnqueueFreshOne(s: State, x: Name)
    requires x in s.specs
    ensures EnqueueFresh(s, [x]) == QueueFirst(s, x)
  {
    assert [x][1..] == [];
    assert EnqueueFresh(QueueFirst(s, x), []) == QueueFirst(s, x);
  }

  lemma OneFresh(s: State, x: Name)
    requires TickDefined(s) && FreshlyReady(s.graph) == {x} && x in s.specs
    ensures Promote(s) == QueueFirst(s.(graph := Refreshed(s.graph)), x)
  {
    SortedSingle(x);
    EnqueueFreshOne(s.(graph := Refreshed(s.graph)), x);
  }

  lemma FillNothing(s: State, now: nat)
    requires s.sched.ready == []
    ensures Fill(s, now, {}) == s
  {
  }

  /** With the only slot free, a lone queued task is launched. */
  lemma FillOne(s: State, t: ScheduledTask, now: nat)
    requires s.sched.ready == [t] && t.id in s.specs
    requires s.sched.running == map[] && s.sched.limits == OneSlot() && s.sched.backoffUntil == map[]
    ensures Fill(s, now, {}) == Launch(s, 0, {})
  {
    NothingHoldsBack(s.sched, t, now);
    assert Launch(s, 0, {}).sched.ready == [];
    FillNothing(Launch(s, 0, {}), now);
  }

  // ---- a failed task, the task it blocks, and the task behind that ----

  function AfterSubmits(a: Name, b: Name, c: Name): State {
    State(Graph(map[a := Ready, b := Queued, c := Queued], [Related(a, b), Related(b, c)]),
          Sched(OneSlot(), [Task(a, 1)], map[], map[]),
          map[a := Plain(a, []), b := Plain(b, [a]), c := Plain(c, [b])],
          map[], map[], 3, [], {}, [Submitted(a), Submitted(b), Submitted(c)])
  }

  function AfterLaunch(a: Name, b: Name, c: Name): State {
    AfterSubmits(a, b, c).(
      graph := Graph(map[a := Running, b := Queued, c := Queued], [Related(a, b), Related(b, c)]),
      sched := Sched(OneSlot(), [], map[a := Task(a, 1)], map[]),
      tokens := map[a := false],
      workers := {a},
      log := [Submitted(a), Submitted(b), Submitted(c), Launched(a)])
  }

  function AfterFailure(a: Name, b: Name, c: Name): State {
    AfterSubmits(a, b, c).(
      graph := Graph(map[a := Failed, b := Blocked, c := Queued], [Related(a, b), Related(b, c)]),
      sched := Sched(OneSlot(), [], map[], map[]),
      log := [Submitted(a), Submitted(b), Submitted(c), Launched(a)])
  }

  function AfterDeletion(a: Name, b: Name, c: Name): State {
    AfterFailure(a, b, c).(
      graph := Graph(map[b := Blocked, c := Queued], [Related(b, c)]),
      specs := map[b := Plain(b, [a]), c := Plain(c, [b])],
      log := [Submitted(a), Submitted(b), Submitted(c), Launched(a), Deleted(a)])
  }

  lemma SubmitsReach(a: Name, b: Name, c: Name)
    requires a != b && a != c && b != c
    ensures Submit(Submit(Submit(Initial(OneSlot()), Plain(a, []), 0), Plain(b, [a]), 0), Plain(c, [b]), 0)
            == AfterSubmits(a, b, c)
  {
    var s1 := Submit(Initial(OneSlot()), Plain(a, []), 0);
    EnqueueOne(NewSched(OneSlot()), Task(a, 1));
    assert RelationsFor(Plain(a, [])) == [];
    assert s1 == State(Graph(map[a := Ready], []), Sched(OneSlot(), [Task(a, 1)], map[], map[]), map[a := Plain(a, [])],
                       map[], map[], 1, [], {}, [Submitted(a)]);
    var s2 := Submit(s1, Plain(b, [a]), 0);
    assert RelationsFor(Plain(b, [a])) == [Related(a, b)];
    assert s2 == s1.(graph := Graph(map[a := Ready, b := Queued], [Related(a, b)]),
                     specs := map[a := Plain(a, []), b := Plain(b, [a])],
                     nextSequence := 2, log := [Submitted(a), Submitted(b)]);
    assert RelationsFor(Plain(c, [b])) == [Related(b, c)];
  }

  lemma NothingToRefresh(a: Name, b: Name, c: Name)
    requires a != b && a != c && b != c
    ensures TickDefined(AfterSubmits(a, b, c)) && Promote(AfterSubmits(a, b, c)) == AfterSubmits(a, b, c)
  {
    var s := AfterSubmits(a, b, c);
    assert Related(a, b) in s.graph.relations && Related(b, c) in s.graph.relations;
    assert Refreshed(s.graph).nodes == s.graph.nodes;
    NothingFresh(s);
  }

  lemma FirstLaunch(a: Name, b: Name, c: Name)
    requires a != b && a != c && b != c
    ensures Launch(AfterSubmits(a, b, c), 0, {}) == AfterLaunch(a, b, c)
  {
    var s := AfterSubmits(a, b, c);
    var s' := Launch(s, 0, {});
    assert s'.sched.ready == [] && s'.log == s.log + [Launched(a)];
    assert s'.graph.nodes == map[a := Running, b := Queued, c := Queued];
    assert s'.sched.running == map[a := Task(a, 1)];
    assert s'.workers == {a};
  }

  lemma FirstTick(a: Name, b: Name, c: Name)
    requires a != b && a != c && b != c
    ensures TickDefined(AfterSubmits(a, b, c)) && Tick(AfterSubmits(a, b, c), 0, {}) == AfterLaunch(a, b, c)
  {
    NothingToRefresh(a, b, c);
    FillOne(AfterSubmits(a, b, c), Task(a, 1), 0);
    FirstLaunch(a, b, c);
  }

  function AfterReport(a: Name, b: Name, c: Name): State {
    AfterLaunch(a, b, c).(inbox := [Completion(a, NoResult)], workers := {})
  }

  function AfterReaping(a: Name, b: Name, c: Name): State {
    AfterFailure(a, b, c).(graph := Graph(map[a := Failed, b := Queued, c := Queued], [Related(a, b), Related(b, c)]))
  }

  lemma FailureIsReported(a: Name, b: Name, c: Name)
    ensures DeliverReport(AfterLaunch(a, b, c), a, NoResult) == AfterReport(a, b, c)
  {
    assert [] + [Completion(a, NoResult)] == [Completion(a, NoResult)];
  }

  lemma FailureIsReaped(a: Name, b: Name, c: Name)
    requires a != b && a != c && b != c
    ensures TickDefined(AfterReport(a, b, c)) && Reap(AfterReport(a, b, c)) == AfterReaping(a, b, c)
  {
    var s := AfterReport(a, b, c);
    assert Related(a, b) in s.graph.relations && Related(b, c) in s.graph.relations;
    assert s.inbox[1..] == [];
    var r := ReapOne(s);
    assert r.graph.nodes == map[a := Failed, b := Queued, c := Queued];
    assert r.sched.running == map[];
    assert r.tokens == map[];
    assert r == AfterReaping(a, b, c);
    assert Reap(r) == r;
  }

  lemma FailureBlocks(a: Name, b: Name, c: Name)
    requires a != b && a != c && b != c
    ensures TickDefined(AfterReaping(a, b, c)) && Promote(AfterReaping(a, b, c)) == AfterFailure(a, b, c)
  {
    var s := AfterReaping(a, b, c);
    assert Related(a, b) in s.graph.relations && Related(b, c) in s.graph.relations;
    assert Refreshed(s.graph).nodes == map[a := Failed, b := Blocked, c := Queued];
    NothingFresh(s);
  }

  lemma FailureTick(a: Name, b: Name, c: Name)
    requires a != b && a != c && b != c
    ensures TickDefined(AfterReport(a, b, c)) && Tick(AfterReport(a, b, c), 0, {}) == AfterFailure(a, b, c)
  {
    FailureIsReaped(a, b, c);
    FailureBlocks(a, b, c);
    FillNothing(AfterFailure(a, b, c), 0);
  }

  lemma RelationDropped(a: Name, b: Name, c: Name)
    requires a != b && a != c && b != c
    ensures RelationsWithout([Related(a, b), Related(b, c)], a) == [Related(b, c)]
  {
    var rest := [Related(b, c)];
    assert [Related(a, b), Related(b, c)][1..] == rest;
    assert rest[1..] == [];
    assert RelationsWithout(rest, a) == rest;
  }

  lemma DeletionStep(a: Name, b: Name, c: Name)
    requires a != b && a != c && b != c
    ensures Delete(AfterFailure(a, b, c), a) == AfterDeletion(a, b, c)
  {
    var s := AfterFailure(a, b, c);
    RelationDropped(a, b, c);
    assert s.graph.nodes - {a} == map[b := Blocked, c := Queued];
    assert s.specs - {a} == map[b := Plain(b, [a]), c := Plain(c, [b])];
    assert Remove(s.sched, a) == s.sched;
    assert Drop(s, a) == AfterDeletion(a, b, c);
    assert NodeOf(s, a) == TreeNode(a, [], Failed, false);
  }

  /** The queued state of the released task. */
  function AfterRelease(a: Name, b: Name, c: Name): State {
    var s := AfterDeletion(a, b, c);
    QueueFirst(s.(graph := Graph(map[b := Ready, c := Queued], [Related(b, c)])), b)
  }

  lemma ReleaseFresh(a: Name, b: Name, c: Name)
    requires a != b && a != c && b != c
    ensures TickDefined(AfterDeletion(a, b, c)) && Promote(AfterDeletion(a, b, c)) == AfterRelease(a, b, c)
  {
    var s := AfterDeletion(a, b, c);
    RefreshedChain(b, c);
    assert FreshlyReady(s.graph) == {b};
    OneFresh(s, b);
  }

  /** A blocked task without prerequisites becomes ready; the one behind it stays queued. */
  lemma RefreshedChain(b: Name, c: Name)
    requires b != c
    ensures var g := Graph(map[b := Blocked, c := Queued], [Related(b, c)]);
            EndpointsPresent(g) && Refreshed(g) == Graph(map[b := Ready, c := Queued], [Related(b, c)])
  {
    var g := Graph(map[b := Blocked, c := Queued], [Related(b, c)]);
    assert Related(b, c) in g.relations;
    assert Refreshed(g).nodes == map[b := Ready, c := Queued];
  }

  /** What launching the only queued task shows; specifications and results stay. */
  lemma LaunchFirst(s: State, t: ScheduledTask)
    requires s.sched.ready == [t]
    ensures var s' := Launch(s, 0, {});
            && t.id in s'.graph.nodes && s'.graph.nodes[t.id] == Running && LaunchedSince(s'.log, t.id)
            && s'.specs == s.specs && s'.results == s.results
  {
    LogAppend(s.log, Launched(t.id));
  }

  lemma ReleaseTick(a: Name, b: Name, c: Name)
    requires a != b && a != c && b != c
    ensures var s := AfterDeletion(a, b, c);
            && TickDefined(s)
            && var s' := Tick(s, 0, {});
               && b in s'.graph.nodes && s'.graph.nodes[b] == Running && LaunchedSince(s'.log, b)
               && s'.specs == s.specs && s'.results == s.results
  {
    var s, p := AfterDeletion(a, b, c), AfterRelease(a, b, c);
    ReleaseFresh(a, b, c);
    var t := Scheduled(s.specs[b], 0, s.nextSequence + 1);
    EnqueueOne(s.sched, t);
    FillOne(p, t, 0);
    LaunchFirst(p, t);
  }

  lemma SubmitsReachable(a: Name, b: Name, c: Name)
    requires a != b && a != c && b != c
    ensures Reachable(OneSlot(), AfterSubmits(a, b, c))
  {
    var s0 := Initial(OneSlot());
    var s1 := Submit(s0, Plain(a, []), 0);
    var s2 := Submit(s1, Plain(b, [a]), 0);
    InitialReachable(OneSlot());
    StepReachable(OneSlot(), s0, DoSubmit(Plain(a, []), 0), s1);
    StepReachable(OneSlot(), s1, DoSubmit(Plain(b, [a]), 0), s2);
    SubmitsReach(a, b, c);
    StepReachable(OneSlot(), s2, DoSubmit(Plain(c, [b]), 0), AfterSubmits(a, b, c));
  }

  lemma FailureReachable(a: Name, b: Name, c: Name)
    requires a != b && a != c && b != c
    ensures Reachable(OneSlot(), AfterFailure(a, b, c))
  {
    SubmitsReachable(a, b, c);
    FirstTick(a, b, c);
    StepReachable(OneSlot(), AfterSubmits(a, b, c), DoTick(0, {}), AfterLaunch(a, b, c));
    FailureIsReported(a, b, c);
    StepReachable(OneSlot(), AfterLaunch(a, b, c), WorkerReports(a, NoResult), AfterReport(a, b, c));
    FailureTick(a, b, c);
    StepReachable(OneSlot(), AfterReport(a, b, c), DoTick(0, {}), AfterFailure(a, b, c));
  }

  /**
   A reachable state that is idle and refreshed and yet not settled: the failed task blocks its dependent, and the task
   behind that one waits for ever.
   */
  lemma BlockingDoesNotSpread(a: Name, b: Name, c: Name)
    requires a != b && a != c && b != c
    ensures Reachable(OneSlot(), AfterFailure(a, b, c))
    ensures Idle(AfterFailure(a, b, c)) && UpToDate(AfterFailure(a, b, c).graph) && !IsSettled(AfterFailure(a, b, c))
  {
    FailureReachable(a, b, c);
    FailureIsIdle(a, b, c);
  }

  lemma FailureIsIdle(a: Name, b: Name, c: Name)
    requires a != b && a != c && b != c
    ensures Idle(AfterFailure(a, b, c)) && UpToDate(AfterFailure(a, b, c).graph) && !IsSettled(AfterFailure(a, b, c))
  {
    var s := AfterFailure(a, b, c);
    assert Related(a, b) in s.graph.relations && Related(b, c) in s.graph.relations;
    assert Refreshed(s.graph).nodes == s.graph.nodes;
    assert s.graph.nodes[c] == Queued;
  }

  /**
   A run that launches a task whose declared dependency never succeeded: deleting the failed record drops the relation,
   and the blocked task becomes ready.
   */
  lemma DeletedBlockerReleases(a: Name, b: Name, c: Name)
    requires a != b && a != c && b != c
    ensures exists s :: Reachable(OneSlot(), s) && LaunchedSince(s.log, b)
                        && b in s.specs && a in s.specs[b].dependencies && a !in s.results
  {
    FailureReachable(a, b, c);
    DeletionStep(a, b, c);
    StepReachable(OneSlot(), AfterFailure(a, b, c), DoDelete(a), AfterDeletion(a, b, c));
    ReleaseTick(a, b, c);
    var s := Tick(AfterDeletion(a, b, c), 0, {});
    StepReachable(OneSlot(), AfterDeletion(a, b, c), DoTick(0, {}), s);
    assert s.specs[b].dependencies == [a];
  }

  // ---- a deleted dependency submitted anew ----

  /** The failed task was deleted and a new one submitted under its name. */
  function AfterReplacement(a: Name, b: Name, c: Name): State {
    Submit(AfterDeletion(a, b, c), Plain(a, []), 0)
  }

  lemma ReplacementReachable(a: Name, b: Name, c: Name)
    requires a != b && a != c && b != c
    ensures Reachable(OneSlot(), AfterReplacement(a, b, c))
  {
    FailureReachable(a, b, c);
    DeletionStep(a, b, c);
    StepReachable(OneSlot(), AfterFailure(a, b, c), DoDelete(a), AfterDeletion(a, b, c));
    StepReachable(OneSlot(), AfterDeletion(a, b, c), DoSubmit(Plain(a, []), 0), AfterReplacement(a, b, c));
  }

  lemma ReplacementRelations(a: Name, b: Name, c: Name)
    requires a != b && a != c && b != c
    ensures var s := AfterReplacement(a, b, c);
            && s.graph.relations == [Related(b, c)] && b in s.graph.nodes && s.graph.nodes[b] == Blocked
            && b in s.specs && s.specs[b] == Plain(b, [a])
  {
    assert RelationsFor(Plain(a, [])) == [];
    assert [Related(b, c)] + [] == [Related(b, c)];
  }

  lemma NotRelated(a: Name, b: Name, c: Name)
    requires a != b && b != c
    ensures b !in WithDescendants([Related(b, c)], a)
  {
    var relations := [Related(b, c)];
    InWithDescendants(relations, a, b);
    if Reaches(EdgesOf(relations), a, b) {
      ReachedIsDependent(relations, a, b);
    }
  }

  lemma StillDeclared(s: State, a: Name, b: Name)
    requires b in s.specs && a in s.specs[b].dependencies
    ensures TreeReaches(s, a, b)
  {
    TreeEdges(s, a, b);
    ReachesSelf(NodeEdges(TreeOf(s)), b);
    ReachesPrepend(NodeEdges(TreeOf(s)), a, b, b);
  }

  lemma ReachableInvariant(limits: SlotLimits, s: State)
    requires Reachable(limits, s)
    ensures Invariant(s)
  {
    var states, actions :| IsRun(limits, states, actions) && states[|actions|] == s;
    RunsKeepInvariant(limits, states, actions, |actions|);
  }

  /**
   Cancelling in the snapshot and in the runtime can differ: the blocked task still declares the name of its deleted
   dependency, so cancelling the new task of that name stops it in the snapshot and not in the runtime.
   */
  lemma SnapshotStopsMore(a: Name, b: Name, c: Name, ids: set<Name>)
    requires a != b && a != c && b != c
    requires forall x :: x in ids <==> TreeReaches(AfterReplacement(a, b, c), a, x)
    ensures var s := AfterReplacement(a, b, c);
            && Reachable(OneSlot(), s) && b in ids && b !in WithDescendants(s.graph.relations, a)
            && TreeOf(CancelTree(s, a)) != CancelNodes(TreeOf(s), ids)
  {
    var s := AfterReplacement(a, b, c);
    ReplacementReachable(a, b, c);
    ReachableInvariant(OneSlot(), s);
    ReplacementRelations(a, b, c);
    NotRelated(a, b, c);
    StillDeclared(s, a, b);
    DiffersWhenUnsettled(s, a, ids, b);
  }

  // ---- a cancelled worker and its successor ----

  function AloneLaunched(a: Name): State {
    State(Graph(map[a := Running], []), Sched(OneSlot(), [], map[a := Task(a, 1)], map[]), map[a := Plain(a, [])],
          map[], map[a := false], 1, [], {a}, [Submitted(a), Launched(a)])
  }

  function AloneCancelled(a: Name): State {
    AloneLaunched(a).(graph := Graph(map[a := Unknown], []), sched := NewSched(OneSlot()), tokens := map[a := true])
  }

  function SuccessorQueued(a: Name, b: Name): State {
    State(Graph(map[a := Unknown, b := Ready], []), Sched(OneSlot(), [Task(b, 2)], map[], map[]),
          map[a := Plain(a, []), b := Plain(b, [])],
          map[], map[a := true], 2, [], {a}, [Submitted(a), Launched(a), Submitted(b)])
  }

  function AloneSubmitted(a: Name): State {
    State(Graph(map[a := Ready], []), Sched(OneSlot(), [Task(a, 1)], map[], map[]), map[a := Plain(a, [])],
          map[], map[], 1, [], {}, [Submitted(a)])
  }

  lemma SubmitAlone(a: Name)
    ensures Submit(Initial(OneSlot()), Plain(a, []), 0) == AloneSubmitted(a)
  {
    EnqueueOne(NewSched(OneSlot()), Task(a, 1));
    assert RelationsFor(Plain(a, [])) == [];
  }

  lemma RefreshedAlone(a: Name)
    ensures Refreshed(Graph(map[a := Ready], [])).nodes == map[a := Ready]
  {
  }

  lemma LaunchAlone(a: Name)
    ensures TickDefined(AloneSubmitted(a)) && Tick(AloneSubmitted(a), 0, {}) == AloneLaunched(a)
  {
    var s := AloneSubmitted(a);
    RefreshedAlone(a);
    NothingFresh(s);
    FillOne(s, Task(a, 1), 0);
  }

  lemma AloneReachable(a: Name)
    ensures Reachable(OneSlot(), AloneLaunched(a))
  {
    InitialReachable(OneSlot());
    SubmitAlone(a);
    StepReachable(OneSlot(), Initial(OneSlot()), DoSubmit(Plain(a, []), 0), AloneSubmitted(a));
    LaunchAlone(a);
    StepReachable(OneSlot(), AloneSubmitted(a), DoTick(0, {}), AloneLaunched(a));
  }

  lemma CancelAlone(a: Name)
    ensures CancelTree(AloneLaunched(a), a) == AloneCancelled(a)
  {
    var s := AloneLaunched(a);
    assert Descendants(s.graph.relations, a) == {};
    ReachesSelf(EdgesOf(s.graph.relations), a);
    InWithDescendants(s.graph.relations, a, a);
    assert WithDescendants(s.graph.relations, a) == {a};
    assert CancelledIn(s.graph.nodes, {}, {}) == s.graph.nodes;
  }

  lemma SubmitSuccessor(a: Name, b: Name)
    requires a != b
    ensures Submit(AloneCancelled(a), Plain(b, []), 0) == SuccessorQueued(a, b)
  {
    EnqueueOne(NewSched(OneSlot()), Task(b, 2));
    assert RelationsFor(Plain(b, [])) == [];
  }

  lemma LaunchSuccessor(a: Name, b: Name)
    requires a != b
    ensures TickDefined(SuccessorQueued(a, b)) && Tick(SuccessorQueued(a, b), 0, {}).workers == {a, b}
    ensures Tick(SuccessorQueued(a, b), 0, {}).sched.limits == OneSlot()
  {
    var s := SuccessorQueued(a, b);
    assert Refreshed(s.graph).nodes == s.graph.nodes;
    NothingFresh(s);
    FillOne(s, Task(b, 2), 0);
  }

  /** Slot caps do not bound live workers: cancelling frees the slot while the worker is still there. */
  lemma WorkersExceedCap(a: Name, b: Name)
    requires a != b
    ensures exists s :: Reachable(OneSlot(), s) && s.sched.limits.global == 1 && |s.workers| == 2
  {
    AloneReachable(a);
    CancelAlone(a);
    StepReachable(OneSlot(), AloneLaunched(a), DoCancelTree(a), AloneCancelled(a));
    SubmitSuccessor(a, b);
    StepReachable(OneSlot(), AloneCancelled(a), DoSubmit(Plain(b, []), 0), SuccessorQueued(a, b));
    LaunchSuccessor(a, b);
    var s := Tick(SuccessorQueued(a, b), 0, {});
    StepReachable(OneSlot(), SuccessorQueued(a, b), DoTick(0, {}), s);
    assert |s.workers| == 2;
  }
}
