/** What holds over every run of the orchestration runtime. */
module RuntimeRuns {
  import opened Names
  import opened JsonValues
  import opened Reachability
  import opened TaskTypes
  import opened TaskGraphs
  import opened Schedulers
  import opened SchedulerProperties
  import opened RuntimeStates
  import opened RuntimeLogs
  import opened RuntimeInvariants

  lemma {:induction false} RunsKeepInvariant(limits: SlotLimits, states: seq<State>, actions: seq<Action>, i: nat)
    requires IsRun(limits, states, actions) && i < |states|
    ensures Invariant(states[i])
  {
    if i == 0 {
      InitialInvariant(limits);
    } else {
      RunsKeepInvariant(limits, states, actions, i - 1);
      assert Step(states[i - 1], actions[i - 1], states[i]);
      StepKeepsInvariant(states[i - 1], actions[i - 1], states[i]);
    }
  }

  /** In every reachable state a tick finds every specification and node it indexes. */
  lemma TickNeverPanics(limits: SlotLimits, states: seq<State>, actions: seq<Action>, i: nat)
    requires IsRun(limits, states, actions) && i < |states|
    ensures TickDefined(states[i])
  {
    RunsKeepInvariant(limits, states, actions, i);
    TickIsDefined(states[i]);
  }

  /** Over every run, a task is launched again only after its record was deleted. */
  lemma LaunchedAtMostOnce(limits: SlotLimits, states: seq<State>, actions: seq<Action>, n: nat, i: nat, j: nat,
                           id: Name)
    requires IsRun(limits, states, actions) && n < |states|
    requires i < j < |states[n].log| && states[n].log[i] == states[n].log[j] == Launched(id)
    ensures exists k :: i < k < j && states[n].log[k] == Deleted(id)
  {
    RunsKeepInvariant(limits, states, actions, n);
    RelaunchNeedsDeletion(states[n].log, i, j, id);
  }

  /**
   Over every run, a launched task whose record is still there has, for every relation into it, a prerequisite that
   succeeded with a stored result that passed validation.
   */
  lemma LaunchedAfterPrerequisites(limits: SlotLimits, states: seq<State>, actions: seq<Action>, n: nat,
                                   r: TaskRelation)
    requires IsRun(limits, states, actions) && n < |states|
    requires r in states[n].graph.relations && LaunchedSince(states[n].log, r.dependent)
    ensures var s := states[n];
            && r.prerequisite in s.graph.nodes && s.graph.nodes[r.prerequisite] == Succeeded
            && r.prerequisite in s.results && r.prerequisite in s.specs
            && s.results[r.prerequisite].ValidateFor(s.specs[r.prerequisite]) == Ok
  {
    RunsKeepInvariant(limits, states, actions, n);
  }

  /**
   The same for declared dependencies: it holds for every one whose record was not deleted after the task was submitted.
   `DeletedBlockerReleases` shows that the condition is needed.
   */
  lemma LaunchedAfterDeclaredDependencies(
    limits: SlotLimits, states: seq<State>, actions: seq<Action>, n: nat, id: Name, d: Name)
    requires IsRun(limits, states, actions) && n < |states|
    requires id in states[n].specs && d in states[n].specs[id].dependencies && LaunchedSince(states[n].log, id)
    requires !DeletedSince(states[n].log, d, id)
    ensures var s := states[n];
            && d in s.graph.nodes && s.graph.nodes[d] == Succeeded && d in s.results && d in s.specs
            && s.results[d].ValidateFor(s.specs[d]) == Ok
  {
    RunsKeepInvariant(limits, states, actions, n);
    var s := states[n];
    assert Edge(d, id) in EdgesOf(s.graph.relations);
    EdgeMeaning(s.graph.relations, d, id);
    var r :| r in s.graph.relations && r.prerequisite == d && r.dependent == id;
    LaunchedAfterPrerequisites(limits, states, actions, n, r);
  }

  /** Over every run the dependency graph has no cycle. */
  lemma GraphStaysAcyclic(limits: SlotLimits, states: seq<State>, actions: seq<Action>, n: nat)
    requires IsRun(limits, states, actions) && n < |states|
    ensures Acyclic(EdgesOf(states[n].graph.relations))
  {
    RunsKeepInvariant(limits, states, actions, n);
  }

  // ---- a success is final ----

  ghost predicate HasSucceeded(s: State, id: Name, result: ChildTaskResult) {
    id in s.graph.nodes && s.graph.nodes[id] == Succeeded && id in s.results && s.results[id] == result
  }

  lemma ReapOneKeepsSuccess(s: State, s': State, id: Name, result: ChildTaskResult)
    requires FlightMatches(s) && ReapsNext(s, s') && HasSucceeded(s, id, result)
    ensures HasSucceeded(s', id, result)
  {
    FirstInInbox(s.inbox);
    assert s.inbox[0].id in s.tokens && s.inbox[0].id != id;
  }

  lemma ReapingKeepsFlight(trace: seq<State>, i: nat)
    requires IsReaping(trace) && Invariant(trace[0]) && i < |trace|
    ensures FlightMatches(trace[i])
  {
    ReapingKeepsInvariant(trace, i);
  }

  lemma {:induction false} ReapingKeepsSuccess(trace: seq<State>, id: Name, result: ChildTaskResult, i: nat)
    requires IsReaping(trace) && Invariant(trace[0]) && HasSucceeded(trace[0], id, result) && i < |trace|
    ensures HasSucceeded(trace[i], id, result)
  {
    if i > 0 {
      ReapingKeepsSuccess(trace, id, result, i - 1);
      ReapingKeepsFlight(trace, i - 1);
      ReapOneKeepsSuccess(trace[i - 1], trace[i], id, result);
    }
  }

  lemma ReapKeepsSuccess(s: State, id: Name, result: ChildTaskResult)
    requires Invariant(s) && TickDefined(s) && HasSucceeded(s, id, result)
    ensures HasSucceeded(Reap(s), id, result)
  {
    var trace := ReapingOf(s);
    ReapingKeepsSuccess(trace, id, result, |trace| - 1);
  }

  lemma LaunchKeepsSuccess(s: State, index: nat, refused: set<Name>, id: Name, result: ChildTaskResult)
    requires Invariant(s) && index < |s.sched.ready| && HasSucceeded(s, id, result)
    ensures HasSucceeded(Launch(s, index, refused), id, result)
  {
    QueuedIsReady(s, index);
  }

  lemma {:induction false} FillingKeepsSuccess(
      trace: seq<State>, now: nat, refused: set<Name>, id: Name, result: ChildTaskResult, i: nat)
    requires IsFilling(trace, now, refused) && Invariant(trace[0]) && HasSucceeded(trace[0], id, result) && i < |trace|
    ensures HasSucceeded(trace[i], id, result)
  {
    if i > 0 {
      FillingKeepsSuccess(trace, now, refused, id, result, i - 1);
      FillingKeepsInvariant(trace, now, refused, i - 1);
      assert LaunchesNext(trace[i - 1], trace[i], now, refused);
      LaunchKeepsSuccess(trace[i - 1], NextIndex(trace[i - 1].sched, now), refused, id, result);
    }
  }

  lemma FillKeepsSuccess(s: State, now: nat, refused: set<Name>, id: Name, result: ChildTaskResult)
    requires Invariant(s) && HasSucceeded(s, id, result)
    ensures HasSucceeded(Fill(s, now, refused), id, result)
  {
    var trace := FillingOf(s, now, refused);
    FillingKeepsSuccess(trace, now, refused, id, result, |trace| - 1);
  }

  lemma PromoteKeepsSuccess(s: State, id: Name, result: ChildTaskResult)
    requires TickDefined(s) && HasSucceeded(s, id, result)
    ensures HasSucceeded(Promote(s), id, result)
  {
    RefreshMoves(s.graph);
    var r := s.(graph := Refreshed(s.graph));
    EnqueueFreshKeepsRest(r, SortedNames(FreshlyReady(s.graph)));
    assert HasSucceeded(r, id, result);
  }

  lemma TickKeepsSuccess(s: State, now: nat, refused: set<Name>, id: Name, result: ChildTaskResult)
    requires Invariant(s) && TickDefined(s) && HasSucceeded(s, id, result)
    ensures HasSucceeded(Tick(s, now, refused), id, result)
  {
    ReapKeepsInvariant(s);
    ReapKeepsSuccess(s, id, result);
    PromoteKeepsInvariant(Reap(s));
    PromoteKeepsSuccess(Reap(s), id, result);
    FillKeepsSuccess(Promote(Reap(s)), now, refused, id, result);
  }

  lemma {:induction false} CancelEachKeepsSuccess(s: State, ids: seq<Name>, id: Name, result: ChildTaskResult)
    requires Invariant(s) && HasSucceeded(s, id, result)
    ensures HasSucceeded(CancelEach(s, ids), id, result)
    decreases |ids|
  {
    if |ids| > 0 {
      CancelTreeKeepsInvariant(s, ids[0]);
      CancelKeepsSuccess(s, ids[0], id, result);
      CancelEachKeepsSuccess(CancelTree(s, ids[0]), ids[1..], id, result);
    }
  }

  lemma SubmitKeepsSuccess(s: State, spec: ChildTaskSpec, priority: nat, id: Name, result: ChildTaskResult)
    requires Registered(s) && HasSucceeded(s, id, result)
    ensures HasSucceeded(Submit(s, spec, priority), id, result)
  {
  }

  lemma CancelKeepsSuccess(s: State, root: Name, id: Name, result: ChildTaskResult)
    requires Invariant(s) && HasSucceeded(s, id, result)
    ensures HasSucceeded(CancelTree(s, root), id, result)
  {
    CancelTreeNodes(s, root);
    assert CancelTree(s, root).results == s.results;
  }

  lemma DeleteKeepsSuccess(s: State, root: Name, id: Name, result: ChildTaskResult)
    requires HasSucceeded(s, id, result) && root != id
    ensures HasSucceeded(Delete(s, root), id, result)
  {
  }

  /** A success, with its stored result, survives every step but the deletion of its own record. */
  lemma SuccessIsFinal(s: State, action: Action, s': State, id: Name, result: ChildTaskResult)
    requires Invariant(s) && Step(s, action, s') && HasSucceeded(s, id, result) && action != DoDelete(id)
    ensures HasSucceeded(s', id, result)
  {
    match action
    case DoSubmit(spec, priority) => SubmitKeepsSuccess(s, spec, priority, id, result);
    case DoTick(now, refused) => TickKeepsSuccess(s, now, refused, id, result);
    case DoCancelTree(root) => CancelKeepsSuccess(s, root, id, result);
    case DoCancelAll => CancelEachKeepsSuccess(s, SortedNames(s.specs.Keys), id, result);
    case DoDelete(root) => DeleteKeepsSuccess(s, root, id, result);
    case DoSetGlobal(cap) =>
    case WorkerReports(_, _) =>
  }

  // ---- ticks ----

  /** The history grew by launches only, of tasks that are running now. */
  ghost predicate OnlyLaunches(s: State, s': State) {
    && |s.log| <= |s'.log| && s'.log[..|s.log|] == s.log
    && forall k :: |s.log| <= k < |s'.log| ==>
         s'.log[k].Launched? && s'.log[k].id in s'.graph.nodes && s'.graph.nodes[s'.log[k].id] == Running
  }

  lemma LaunchLogs(s: State, mid: State, index: nat, refused: set<Name>)
    requires OnlyLaunches(s, mid) && index < |mid.sched.ready|
    ensures OnlyLaunches(s, Launch(mid, index, refused))
  {
    var after := Launch(mid, index, refused);
    assert after.log == mid.log + [Launched(mid.sched.ready[index].id)];
    assert after.log[..|s.log|] == mid.log[..|s.log|];
    forall k | |s.log| <= k < |mid.log| ensures after.log[k] == mid.log[k] {
    }
  }

  lemma {:induction false} FillingLogsLaunches(trace: seq<State>, now: nat, refused: set<Name>, i: nat)
    requires IsFilling(trace, now, refused) && i < |trace|
    ensures OnlyLaunches(trace[0], trace[i])
  {
    if i > 0 {
      FillingLogsLaunches(trace, now, refused, i - 1);
      assert LaunchesNext(trace[i - 1], trace[i], now, refused);
      LaunchLogs(trace[0], trace[i - 1], NextIndex(trace[i - 1].sched, now), refused);
    }
  }

  lemma FillLogsLaunches(s: State, now: nat, refused: set<Name>)
    requires Invariant(s)
    ensures OnlyLaunches(s, Fill(s, now, refused))
  {
    var trace := FillingOf(s, now, refused);
    FilledLogsLaunches(trace, now, refused, s, Fill(s, now, refused));
  }

  lemma FilledLogsLaunches(trace: seq<State>, now: nat, refused: set<Name>, s: State, after: State)
    requires FillsTo(trace, now, refused, s, after)
    ensures OnlyLaunches(s, after)
  {
    FillingLogsLaunches(trace, now, refused, |trace| - 1);
  }

  lemma {:induction false} ReapingKeepsRest(trace: seq<State>, i: nat)
    requires IsReaping(trace) && i < |trace|
    ensures trace[i].log == trace[0].log && trace[i].specs == trace[0].specs
    ensures trace[i].sched.limits == trace[0].sched.limits && trace[i].sched.backoffUntil == trace[0].sched.backoffUntil
  {
    if i > 0 {
      ReapingKeepsRest(trace, i - 1);
      assert ReapsNext(trace[i - 1], trace[i]);
    }
  }

  lemma ReapKeepsRest(s: State)
    requires TickDefined(s)
    ensures Reap(s).log == s.log && Reap(s).specs == s.specs
    ensures Reap(s).sched.limits == s.sched.limits && Reap(s).sched.backoffUntil == s.sched.backoffUntil
  {
    var trace := ReapingOf(s);
    ReapingKeepsRest(trace, |trace| - 1);
  }

  lemma {:induction false} EnqueueFreshKeepsRest(s: State, ids: seq<Name>)
    requires forall id :: id in ids ==> id in s.specs
    ensures EnqueueFresh(s, ids).log == s.log && EnqueueFresh(s, ids).graph == s.graph
    ensures EnqueueFresh(s, ids).results == s.results && EnqueueFresh(s, ids).specs == s.specs
    ensures EnqueueFresh(s, ids).sched.limits == s.sched.limits && EnqueueFresh(s, ids).sched.running == s.sched.running
    ensures EnqueueFresh(s, ids).sched.backoffUntil == s.sched.backoffUntil
    decreases |ids|
  {
    if |ids| > 0 {
      EnqueueFreshKeepsRest(QueueFirst(s, ids[0]), ids[1..]);
    }
  }

  /** A tick extends the history with exactly its launches, and what it launched is running when it returns. */
  lemma TickLogsLaunches(s: State, now: nat, refused: set<Name>)
    requires Invariant(s) && TickDefined(s)
    ensures OnlyLaunches(s, Tick(s, now, refused))
  {
    ReapKeepsInvariant(s);
    ReapKeepsRest(s);
    var r := Reap(s);
    PromoteKeepsInvariant(r);
    EnqueueFreshKeepsRest(r.(graph := Refreshed(r.graph)), SortedNames(FreshlyReady(r.graph)));
    FillLogsLaunches(Promote(r), now, refused);
  }

  /** The graph has nothing left to refresh. */
  ghost predicate UpToDate(g: Graph) {
    EndpointsPresent(g) && Refreshed(g) == g
  }

  lemma LaunchStaysUpToDate(s: State, index: nat, refused: set<Name>)
    requires UpToDate(s.graph) && index < |s.sched.ready|
    requires s.sched.ready[index].id in s.graph.nodes && s.graph.nodes[s.sched.ready[index].id] == Ready
    ensures UpToDate(Launch(s, index, refused).graph)
  {
    var id := s.sched.ready[index].id;
    var before, after := s.graph.nodes, s.graph.nodes[id := Running];
    var relations := s.graph.relations;
    assert Launch(s, index, refused).graph == Graph(after, relations);
    forall x | x in after ensures NextState(after, relations, x) == after[x] {
      assert Refreshed(s.graph).nodes[x] == NextState(before, relations, x);
      forall r | r in relations
        ensures Fails(before[r.prerequisite]) <==> Fails(after[r.prerequisite])
        ensures Meets(r.condition, before[r.prerequisite]) <==> Meets(r.condition, after[r.prerequisite])
      {
      }
    }
    assert Refreshed(Graph(after, relations)).nodes == after;
  }

  lemma QueuedIsReady(s: State, index: nat)
    requires Invariant(s) && index < |s.sched.ready|
    ensures s.sched.ready[index].id in s.graph.nodes && s.graph.nodes[s.sched.ready[index].id] == Ready
  {
    assert s.sched.ready[index] in s.sched.ready;
    assert s.sched.ready[index].id in QueuedIds(s.sched.ready) + {};
  }

  lemma {:induction false} FillingStaysUpToDate(trace: seq<State>, now: nat, refused: set<Name>, i: nat)
    requires IsFilling(trace, now, refused) && Invariant(trace[0]) && UpToDate(trace[0].graph) && i < |trace|
    ensures UpToDate(trace[i].graph)
    ensures trace[i].sched.limits == trace[0].sched.limits && trace[i].sched.backoffUntil == trace[0].sched.backoffUntil
  {
    if i > 0 {
      FillingStaysUpToDate(trace, now, refused, i - 1);
      FillingKeepsInvariant(trace, now, refused, i - 1);
      assert LaunchesNext(trace[i - 1], trace[i], now, refused);
      var index := NextIndex(trace[i - 1].sched, now);
      QueuedIsReady(trace[i - 1], index);
      LaunchStaysUpToDate(trace[i - 1], index, refused);
    }
  }

  /** Filling the slots stops only when something holds back every task still queued. */
  lemma FillIsMaximal(s: State, now: nat, refused: set<Name>)
    requires Invariant(s) && UpToDate(s.graph)
    ensures UpToDate(Fill(s, now, refused).graph)
    ensures forall t :: t in Fill(s, now, refused).sched.ready ==> Reason(Fill(s, now, refused).sched, t, now).Some?
    ensures Fill(s, now, refused).sched.limits == s.sched.limits
    ensures Fill(s, now, refused).sched.backoffUntil == s.sched.backoffUntil
  {
    var trace := FillingOf(s, now, refused);
    FillingStaysUpToDate(trace, now, refused, |trace| - 1);
    var last := trace[|trace| - 1];
    assert IsNext(last.sched, now, |last.sched.ready|);
  }

  /** After a tick nothing is left to refresh and every queued task is held back by a slot or a backoff. */
  lemma TickIsMaximal(s: State, now: nat, refused: set<Name>)
    requires Invariant(s) && TickDefined(s)
    ensures var s' := Tick(s, now, refused);
            && UpToDate(s'.graph)
            && (forall t :: t in s'.sched.ready ==> Reason(s'.sched, t, now).Some?)
            && s'.sched.limits == s.sched.limits && s'.sched.backoffUntil == s.sched.backoffUntil
  {
    ReapKeepsInvariant(s);
    ReapKeepsRest(s);
    var r := Reap(s);
    PromoteKeepsInvariant(r);
    EnqueueFreshKeepsRest(r.(graph := Refreshed(r.graph)), SortedNames(FreshlyReady(r.graph)));
    RefreshIdempotent(r.graph);
    FillIsMaximal(Promote(r), now, refused);
  }

  // ---- settling ----

  predicate Final(state: NodeState) {
    state in {Succeeded, Failed, Cancelled, Unknown, Blocked, Stale}
  }

  /** `is_settled`. */
  predicate IsSettled(s: State) {
    forall id :: id in s.graph.nodes ==> Final(s.graph.nodes[id])
  }

  ghost predicate Idle(s: State) {
    forall id :: id in s.graph.nodes ==> s.graph.nodes[id] != Ready && s.graph.nodes[id] != Running
  }

  /** A queued task waits on a prerequisite that is blocked or stale, and so will never succeed on its own. */
  ghost predicate WaitsOnDeadEnd(s: State, r: TaskRelation) {
    && r in s.graph.relations && r.prerequisite in s.graph.nodes && r.dependent in s.graph.nodes
    && s.graph.nodes[r.dependent] == Queued
    && s.graph.nodes[r.prerequisite] in {Blocked, Stale}
  }

  /** What keeps a queued task queued: a prerequisite that neither succeeded nor failed. */
  lemma QueuedWaits(s: State, id: Name) returns (r: TaskRelation)
    requires Registered(s) && UpToDate(s.graph) && Idle(s) && id in s.graph.nodes && s.graph.nodes[id] == Queued
    ensures r in s.graph.relations && r.dependent == id && r.prerequisite in s.graph.nodes
    ensures s.graph.nodes[r.prerequisite] in {Queued, Blocked, Stale}
  {
    assert Refreshed(s.graph).nodes[id] == NextState(s.graph.nodes, s.graph.relations, id) == Queued;
    r :| r in s.graph.relations && r.dependent == id && !Meets(r.condition, s.graph.nodes[r.prerequisite]);
    assert !Fails(s.graph.nodes[r.prerequisite]);
  }

  /** Walking back from a queued task through queued prerequisites ends at a dead end, because there is no cycle. */
  lemma {:induction false} DeadEndBehind(s: State, id: Name) returns (r: TaskRelation)
    requires Registered(s) && Acyclic(EdgesOf(s.graph.relations)) && UpToDate(s.graph) && Idle(s)
    requires id in s.graph.nodes && s.graph.nodes[id] == Queued
    ensures WaitsOnDeadEnd(s, r) && Reaches(EdgesOf(s.graph.relations), r.dependent, id)
    decreases Ancestors(EdgesOf(s.graph.relations), s.graph.nodes.Keys, id)
  {
    var edges := EdgesOf(s.graph.relations);
    r := QueuedWaits(s, id);
    if s.graph.nodes[r.prerequisite] == Queued {
      var e := Edge(r.prerequisite, id);
      assert e in edges;
      AncestorsShrink(edges, s.graph.nodes.Keys, e);
      r := DeadEndBehind(s, e.source);
      ReachesAppend(edges, r.dependent, e.source, id);
    } else {
      ReachesSelf(edges, id);
    }
  }

  /**
   An idle, refreshed run is settled exactly when no queued task waits on a blocked or stale one.  Blocking does not
   spread, so `is_settled` can stay false for ever.
   */
  lemma SettledIffNoDeadEnd(s: State)
    requires Invariant(s) && UpToDate(s.graph) && Idle(s)
    ensures IsSettled(s) <==> !exists r :: WaitsOnDeadEnd(s, r)
  {
    if !IsSettled(s) {
      var id :| id in s.graph.nodes && !Final(s.graph.nodes[id]);
      assert s.graph.nodes[id] == Queued;
      var r := DeadEndBehind(s, id);
    }
  }

  predicate PositiveLimits(limits: SlotLimits) {
    limits.global > 0 && limits.perProvider > 0 && limits.perWorkspace > 0 && limits.perEnvironment > 0
  }

  lemma NothingHoldsBack(q: Sched, t: ScheduledTask, now: nat)
    requires q.running == map[] && PositiveLimits(q.limits)
    requires t.provider in q.backoffUntil ==> q.backoffUntil[t.provider] <= now
    ensures Reason(q, t, now).None?
  {
    assert OnProvider(q.running, t.provider) == {};
    assert OnWorkspace(q.running, t.workspace) == {};
    assert OnEnvironment(q.running, t.environment) == {};
  }

  /** If no slot is taken after a tick, with every cap positive and no provider backing off, the run is idle. */
  lemma IdleAfterTick(s: State, now: nat, refused: set<Name>)
    requires Invariant(s) && TickDefined(s) && PositiveLimits(s.sched.limits)
    requires forall p :: p in s.sched.backoffUntil ==> s.sched.backoffUntil[p] <= now
    requires Tick(s, now, refused).sched.running == map[]
    ensures Idle(Tick(s, now, refused)) && UpToDate(Tick(s, now, refused).graph)
  {
    var s' := Tick(s, now, refused);
    TickIsMaximal(s, now, refused);
    TickKeepsInvariant(s, now, refused);
    forall t | t in s'.sched.ready ensures false {
      NothingHoldsBack(s'.sched, t, now);
    }
    assert QueuedIds(s'.sched.ready) == {};
    forall id | id in s'.graph.nodes ensures s'.graph.nodes[id] != Ready && s'.graph.nodes[id] != Running {
      assert id !in QueuedIds(s'.sched.ready) + {};
    }
  }

  // ---- cancellation and slots ----

  ghost function UnknownInFlight(s: State): set<Name> {
    set id | id in s.tokens && id in s.graph.nodes && s.graph.nodes[id] == Unknown
  }

  lemma DisjointSizes(a: set<Name>, b: set<Name>)
    requires a !! b
    ensures |a + b| == |a| + |b|
  {
  }

  lemma FlightSplits(s: State)
    requires SlotsMatch(s) && FlightMatches(s)
    ensures s.tokens.Keys == s.sched.running.Keys + UnknownInFlight(s)
    ensures s.sched.running.Keys !! UnknownInFlight(s)
    ensures s.tokens.Keys == s.workers + InboxIds(s.inbox) && s.workers !! InboxIds(s.inbox)
    ensures forall i, j :: 0 <= i < j < |s.inbox| ==> s.inbox[i].id != s.inbox[j].id
  {
  }

  lemma {:induction false} InboxSize(inbox: seq<Completion>)
    requires forall i, j :: 0 <= i < j < |inbox| ==> inbox[i].id != inbox[j].id
    ensures |InboxIds(inbox)| == |inbox|
  {
    if |inbox| > 0 {
      var init, last := inbox[..|inbox| - 1], inbox[|inbox| - 1];
      InboxSize(init);
      assert inbox == init + [last];
      assert InboxIds(inbox) == InboxIds(init) + {last.id};
      forall c | c in init ensures c.id != last.id {
        var i :| 0 <= i < |init| && init[i] == c;
        assert inbox[i].id != inbox[|inbox| - 1].id;
      }
    }
  }

  /**
   The live workers and unread reports are, one for one, the tasks holding slots and the cancelled ones still in flight.
   So all that is in flight stays within the global cap exactly if the cancelled tasks fit into the free slots, and the
   live workers do exactly if the cancelled tasks fit into the free slots and the unread reports.
   */
  lemma InFlightCount(s: State)
    requires Invariant(s)
    ensures s.tokens.Keys == s.sched.running.Keys + UnknownInFlight(s) == s.workers + InboxIds(s.inbox)
    ensures |s.tokens| == |s.workers| + |s.inbox| == |s.sched.running| + |UnknownInFlight(s)|
    ensures |s.workers| + |s.inbox| <= s.sched.limits.global
       <==> |UnknownInFlight(s)| <= s.sched.limits.global - |s.sched.running|
    ensures |s.workers| <= s.sched.limits.global
       <==> |UnknownInFlight(s)| <= s.sched.limits.global - |s.sched.running| + |s.inbox|
  {
    FlightSplits(s);
    InboxSize(s.inbox);
    var holding, unknown, flying := s.sched.running.Keys, UnknownInFlight(s), s.tokens.Keys;
    DisjointSizes(holding, unknown);
    DisjointSizes(s.workers, InboxIds(s.inbox));
    assert |s.tokens| == |flying| && |s.sched.running| == |holding|;
  }

  lemma {:induction false} ReapingKeepsCaps(trace: seq<State>, i: nat)
    requires IsReaping(trace) && WithinCaps(trace[0].sched) && i < |trace|
    ensures WithinCaps(trace[i].sched)
  {
    if i > 0 {
      ReapingKeepsCaps(trace, i - 1);
      assert ReapsNext(trace[i - 1], trace[i]);
      FewerRunningKeepsCaps(trace[i - 1].sched, trace[i].sched);
    }
  }

  lemma ReapKeepsCaps(s: State)
    requires TickDefined(s) && WithinCaps(s.sched)
    ensures WithinCaps(Reap(s).sched)
  {
    var trace := ReapingOf(s);
    ReapingKeepsCaps(trace, |trace| - 1);
  }

  lemma SameRunningKeepsCaps(q: Sched, q': Sched)
    requires WithinCaps(q) && q'.running == q.running && q'.limits == q.limits
    ensures WithinCaps(q')
  {
  }

  lemma {:induction false} FillingKeepsCaps(trace: seq<State>, now: nat, refused: set<Name>, i: nat)
    requires IsFilling(trace, now, refused) && WithinCaps(trace[0].sched) && i < |trace|
    ensures WithinCaps(trace[i].sched)
  {
    if i > 0 {
      FillingKeepsCaps(trace, now, refused, i - 1);
      assert LaunchesNext(trace[i - 1], trace[i], now, refused);
      StartKeepsCaps(trace[i - 1].sched, now, NextIndex(trace[i - 1].sched, now));
    }
  }

  lemma FillKeepsCaps(s: State, now: nat, refused: set<Name>)
    requires Invariant(s) && WithinCaps(s.sched)
    ensures WithinCaps(Fill(s, now, refused).sched)
  {
    var trace := FillingOf(s, now, refused);
    FilledKeepsCaps(trace, now, refused, s, Fill(s, now, refused));
  }

  lemma FilledKeepsCaps(trace: seq<State>, now: nat, refused: set<Name>, s: State, after: State)
    requires FillsTo(trace, now, refused, s, after) && WithinCaps(s.sched)
    ensures WithinCaps(after.sched)
  {
    FillingKeepsCaps(trace, now, refused, |trace| - 1);
  }

  lemma TickKeepsCaps(s: State, now: nat, refused: set<Name>)
    requires Invariant(s) && TickDefined(s) && WithinCaps(s.sched)
    ensures WithinCaps(Tick(s, now, refused).sched)
  {
    ReapKeepsInvariant(s);
    ReapKeepsCaps(s);
    var r := Reap(s);
    PromoteKeepsInvariant(r);
    EnqueueFreshKeepsRest(r.(graph := Refreshed(r.graph)), SortedNames(FreshlyReady(r.graph)));
    SameRunningKeepsCaps(r.sched, Promote(r).sched);
    FillKeepsCaps(Promote(r), now, refused);
  }

  lemma {:induction false} CancelEachKeepsCaps(s: State, ids: seq<Name>)
    requires WithinCaps(s.sched)
    ensures WithinCaps(CancelEach(s, ids).sched)
    decreases |ids|
  {
    if |ids| > 0 {
      CancelTreeKeepsCaps(s, ids[0]);
      CancelEachKeepsCaps(CancelTree(s, ids[0]), ids[1..]);
    }
  }

  lemma SubmitKeepsCaps(s: State, spec: ChildTaskSpec, priority: nat)
    requires WithinCaps(s.sched)
    ensures WithinCaps(Submit(s, spec, priority).sched)
  {
    SameRunningKeepsCaps(s.sched, Submit(s, spec, priority).sched);
  }

  lemma CancelTreeKeepsCaps(s: State, root: Name)
    requires WithinCaps(s.sched)
    ensures WithinCaps(CancelTree(s, root).sched)
  {
    FewerRunningKeepsCaps(s.sched, CancelTree(s, root).sched);
  }

  lemma DeleteKeepsCaps(s: State, id: Name)
    requires WithinCaps(s.sched)
    ensures WithinCaps(Delete(s, id).sched)
  {
    if DeleteOutcome(s, id) == Ok {
      FewerRunningKeepsCaps(s.sched, Remove(s.sched, id));
    }
  }

  lemma StepKeepsCaps(s: State, action: Action, s': State)
    requires Invariant(s) && WithinCaps(s.sched) && Step(s, action, s')
    requires action.DoSetGlobal? ==> Clamp(action.cap) >= s.sched.limits.global
    ensures WithinCaps(s'.sched)
  {
    match action
    case DoSubmit(spec, priority) => SubmitKeepsCaps(s, spec, priority);
    case DoTick(now, refused) => TickKeepsCaps(s, now, refused);
    case DoCancelTree(root) => CancelTreeKeepsCaps(s, root);
    case DoCancelAll => CancelEachKeepsCaps(s, SortedNames(s.specs.Keys));
    case DoDelete(id) => DeleteKeepsCaps(s, id);
    case DoSetGlobal(cap) => PerformKeepsCaps(s.sched, SetsGlobal(cap));
    case WorkerReports(id, report) =>
  }

  lemma RunStepKeepsCaps(limits: SlotLimits, states: seq<State>, actions: seq<Action>, i: nat)
    requires IsRun(limits, states, actions) && i < |actions| && WithinCaps(states[i].sched)
    requires actions[i].DoSetGlobal? ==> Clamp(actions[i].cap) >= states[i].sched.limits.global
    ensures WithinCaps(states[i + 1].sched)
  {
    RunsKeepInvariant(limits, states, actions, i);
    StepKeepsCaps(states[i], actions[i], states[i + 1]);
  }

  /** Over every run that never lowers the global cap, the tasks holding slots respect every cap. */
  lemma {:induction false} RunsRespectCaps(limits: SlotLimits, states: seq<State>, actions: seq<Action>, i: nat)
    requires IsRun(limits, states, actions) && i < |states|
    requires forall k :: 0 <= k < |actions| && actions[k].DoSetGlobal? ==>
               Clamp(actions[k].cap) >= states[k].sched.limits.global
    ensures WithinCaps(states[i].sched)
  {
    if i == 0 {
      NewWithinCaps(limits);
    } else {
      RunsRespectCaps(limits, states, actions, i - 1);
      RunStepKeepsCaps(limits, states, actions, i - 1);
    }
  }
}
