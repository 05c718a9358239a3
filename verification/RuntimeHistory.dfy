/**
 What a launch says about the declared dependencies of a task, exactly.

 `LaunchedAfterPrerequisites` speaks of the relations still in the graph.  Deleting the record of a dependency takes its
 relation away, so the claim about declared dependencies needs the history of the run: here the steps themselves.
 */
module RuntimeHistories {
  import opened Names
  import opened JsonValues
  import opened Reachability
  import opened TaskTypes
  import opened TaskGraphs
  import opened Schedulers
  import opened RuntimeStates
  import opened RuntimeLogs
  import opened RuntimeInvariants
  import opened RuntimeRuns

  /** Step `p` submits the task, and the submission is accepted. */
  ghost predicate SubmittedAt(states: seq<State>, actions: seq<Action>, p: nat, spec: ChildTaskSpec)
    requires |states| == |actions| + 1
  {
    p < |actions| && actions[p].DoSubmit? && actions[p].spec == spec && SubmitOutcome(states[p], spec) == Ok
  }

  /** Step `k` deletes the record. */
  ghost predicate DeletedAt(states: seq<State>, actions: seq<Action>, k: nat, id: Name)
    requires |states| == |actions| + 1
  {
    k < |actions| && actions[k] == DoDelete(id) && DeleteOutcome(states[k], id) == Ok
  }

  /** Step `m` launches the task. */
  ghost predicate LaunchedAt(states: seq<State>, actions: seq<Action>, m: nat, id: Name)
    requires |states| == |actions| + 1
  {
    m < |actions| && LaunchesIn(states[m], states[m + 1], id)
  }

  /** The history grew by a launch of the task. */
  ghost predicate LaunchesIn(s: State, s': State, id: Name) {
    |s.log| <= |s'.log| && Launched(id) in s'.log[|s.log|..]
  }

  /** No step from `p` up to `q` deletes the record. */
  ghost predicate Survives(states: seq<State>, actions: seq<Action>, id: Name, p: nat, q: nat)
    requires |states| == |actions| + 1
  {
    forall k :: p <= k < q ==> !DeletedAt(states, actions, k, id)
  }

  ghost predicate SucceededIn(s: State, d: Name) {
    d in s.graph.nodes && s.graph.nodes[d] == Succeeded
  }

  /** The record of `d` that was there in state `p` was seen to have succeeded, in some state up to `m`. */
  ghost predicate SucceededBy(states: seq<State>, actions: seq<Action>, d: Name, p: nat, m: nat)
    requires |states| == |actions| + 1
  {
    exists q :: p <= q <= m < |states| && SucceededIn(states[q], d) && Survives(states, actions, d, p, q)
  }

  /** Step `k` deletes the record of `d` that was there in state `p`, and it has not succeeded. */
  ghost predicate DropsUnmet(states: seq<State>, actions: seq<Action>, d: Name, p: nat, k: nat)
    requires |states| == |actions| + 1
  {
    DeletedAt(states, actions, k, d) && Survives(states, actions, d, p, k) && !SucceededIn(states[k], d)
  }

  // ---- one step ----

  lemma TickKeepsSpecs(s: State, now: nat, refused: set<Name>)
    requires Invariant(s) && TickDefined(s)
    ensures Tick(s, now, refused).specs == s.specs
  {
    ReapKeepsInvariant(s);
    ReapKeepsRest(s);
    var r := Reap(s);
    EnqueueFreshKeepsRest(r.(graph := Refreshed(r.graph)), SortedNames(FreshlyReady(r.graph)));
    PromoteKeepsInvariant(r);
    var trace := FillingOf(Promote(r), now, refused);
    FillingKeepsSpecs(trace, now, refused, |trace| - 1);
  }

  lemma {:induction false} FillingKeepsSpecs(trace: seq<State>, now: nat, refused: set<Name>, i: nat)
    requires IsFilling(trace, now, refused) && i < |trace|
    ensures trace[i].specs == trace[0].specs
  {
    if i > 0 {
      FillingKeepsSpecs(trace, now, refused, i - 1);
      assert LaunchesNext(trace[i - 1], trace[i], now, refused);
    }
  }

  lemma {:induction false} CancelEachKeepsRest(s: State, ids: seq<Name>)
    ensures CancelEach(s, ids).specs == s.specs && CancelEach(s, ids).log == s.log
    decreases |ids|
  {
    if |ids| > 0 {
      CancelEachKeepsRest(CancelTree(s, ids[0]), ids[1..]);
    }
  }

  /** Launches say nothing about deletions. */
  lemma {:induction false} LaunchesDropNothing(log: seq<LogEntry>, n: nat, d: Name, id: Name)
    requires n <= |log| && forall k :: n <= k < |log| ==> log[k].Launched?
    ensures DeletedSince(log, d, id) <==> DeletedSince(log[..n], d, id)
  {
    if n < |log| {
      LaunchesDropNothing(log[..|log| - 1], n, d, id);
      assert log[..|log| - 1][..n] == log[..n];
    } else {
      assert log[..n] == log;
    }
  }

  /** The task is there with its specification, and `d` has not been deleted since. */
  ghost predicate StillDepends(s: State, spec: ChildTaskSpec, d: Name) {
    spec.taskId in s.specs && s.specs[spec.taskId] == spec && !DeletedSince(s.log, d, spec.taskId)
  }

  lemma SubmitDepends(s: State, spec: ChildTaskSpec, priority: nat, d: Name)
    requires SubmitOutcome(s, spec) == Ok
    ensures StillDepends(Submit(s, spec, priority), spec, d)
  {
    LogAppend(s.log, Submitted(spec.taskId));
  }

  lemma OtherSubmitDepends(s: State, other: ChildTaskSpec, priority: nat, spec: ChildTaskSpec, d: Name)
    requires StillDepends(s, spec, d)
    ensures StillDepends(Submit(s, other, priority), spec, d)
  {
    LogAppend(s.log, Submitted(other.taskId));
  }

  lemma DeleteDepends(s: State, id: Name, spec: ChildTaskSpec, d: Name)
    requires StillDepends(s, spec, d) && (DeleteOutcome(s, id) == Ok ==> id != d && id != spec.taskId)
    ensures StillDepends(Delete(s, id), spec, d)
  {
    LogAppend(s.log, Deleted(id));
  }

  lemma TickDepends(s: State, now: nat, refused: set<Name>, spec: ChildTaskSpec, d: Name)
    requires Invariant(s) && TickDefined(s) && StillDepends(s, spec, d)
    ensures StillDepends(Tick(s, now, refused), spec, d)
  {
    TickKeepsSpecs(s, now, refused);
    TickLogsLaunches(s, now, refused);
    LaunchesDropNothing(Tick(s, now, refused).log, |s.log|, d, spec.taskId);
  }

  lemma StepDepends(s: State, action: Action, s': State, spec: ChildTaskSpec, d: Name)
    requires Invariant(s) && Step(s, action, s') && StillDepends(s, spec, d)
    requires action.DoDelete? && DeleteOutcome(s, action.id) == Ok ==> action.id != d && action.id != spec.taskId
    ensures StillDepends(s', spec, d)
  {
    match action
    case DoSubmit(other, priority) => OtherSubmitDepends(s, other, priority, spec, d);
    case DoTick(now, refused) => TickDepends(s, now, refused, spec, d);
    case DoCancelTree(_) =>
    case DoCancelAll => CancelEachKeepsRest(s, SortedNames(s.specs.Keys));
    case DoDelete(id) => DeleteDepends(s, id, spec, d);
    case DoSetGlobal(_) =>
    case WorkerReports(_, _) =>
  }

  // ---- runs ----

  lemma {:induction false} RunDepends(
      limits: SlotLimits, states: seq<State>, actions: seq<Action>, p: nat, n: nat, spec: ChildTaskSpec, d: Name)
    requires IsRun(limits, states, actions) && SubmittedAt(states, actions, p, spec) && p < n < |states|
    requires Survives(states, actions, spec.taskId, p, n) && Survives(states, actions, d, p, n)
    ensures StillDepends(states[n], spec, d)
  {
    if n == p + 1 {
      SubmitDepends(states[p], spec, actions[p].priority, d);
    } else {
      var i := n - 1;
      RunDepends(limits, states, actions, p, i, spec, d);
      RunsKeepInvariant(limits, states, actions, i);
      assert !DeletedAt(states, actions, i, d) && !DeletedAt(states, actions, i, spec.taskId);
      StepDepends(states[i], actions[i], states[n], spec, d);
    }
  }

  /** A success is still there as long as the record is. */
  lemma {:induction false} SuccessSurvives(
      limits: SlotLimits, states: seq<State>, actions: seq<Action>, d: Name, q: nat, n: nat)
    requires IsRun(limits, states, actions) && q <= n < |states|
    requires SucceededIn(states[q], d) && Survives(states, actions, d, q, n)
    ensures SucceededIn(states[n], d)
  {
    if q < n {
      var i := n - 1;
      SuccessSurvives(limits, states, actions, d, q, i);
      RunsKeepInvariant(limits, states, actions, i);
      assert !DeletedAt(states, actions, i, d);
      assert Step(states[i], actions[i], states[i + 1]);
      SuccessStep(states[i], actions[i], states[n], d);
    }
  }

  lemma SuccessStep(s: State, action: Action, s': State, d: Name)
    requires Invariant(s) && Step(s, action, s') && SucceededIn(s, d)
    requires action == DoDelete(d) ==> DeleteOutcome(s, d) != Ok
    ensures SucceededIn(s', d)
  {
    if action != DoDelete(d) {
      assert d in s.results;
      SuccessIsFinal(s, action, s', d, s.results[d]);
    }
  }

  lemma EntryCounts(log: seq<LogEntry>, n: nat, id: Name)
    requires n <= |log| && Launched(id) in log[n..] && forall k :: n <= k < |log| ==> log[k].Launched?
    ensures LaunchedSince(log, id)
  {
    var i :| 0 <= i < |log[n..]| && log[n..][i] == Launched(id);
    StillLaunched(log, n + i, id);
  }

  /** Nothing else writes a launch into the history. */
  lemma OnlyTicksLaunch(s: State, action: Action, s': State, id: Name)
    requires Step(s, action, s') && LaunchesIn(s, s', id)
    ensures action.DoTick?
  {
    if action.DoCancelAll? {
      CancelEachKeepsRest(s, SortedNames(s.specs.Keys));
    }
  }

  /** Right after a step that launched it, a task counts as launched. */
  lemma LaunchCounts(s: State, action: Action, s': State, id: Name)
    requires Invariant(s) && Step(s, action, s') && LaunchesIn(s, s', id)
    ensures LaunchedSince(s'.log, id) && action.DoTick?
  {
    OnlyTicksLaunch(s, action, s', id);
    TickLogsLaunches(s, action.now, action.refused);
    EntryCounts(s'.log, |s.log|, id);
  }

  lemma RunLaunchCounts(limits: SlotLimits, states: seq<State>, actions: seq<Action>, m: nat, id: Name)
    requires IsRun(limits, states, actions) && LaunchedAt(states, actions, m, id)
    ensures LaunchedSince(states[m + 1].log, id) && !actions[m].DoDelete?
  {
    RunsKeepInvariant(limits, states, actions, m);
    assert Step(states[m], actions[m], states[m + 1]);
    LaunchCounts(states[m], actions[m], states[m + 1], id);
  }

  lemma SurvivesOneMore(states: seq<State>, actions: seq<Action>, id: Name, p: nat, m: nat)
    requires |states| == |actions| + 1 && m < |actions| && Survives(states, actions, id, p, m) && !actions[m].DoDelete?
    ensures Survives(states, actions, id, p, m + 1)
  {
  }

  /** If no step before the launch deleted the dependency, it has succeeded when the launching step returns. */
  lemma UndeletedSucceeds(limits: SlotLimits, states: seq<State>, actions: seq<Action>, p: nat, m: nat,
                          spec: ChildTaskSpec, d: Name)
    requires IsRun(limits, states, actions) && SubmittedAt(states, actions, p, spec) && p < m
    requires LaunchedAt(states, actions, m, spec.taskId) && Survives(states, actions, spec.taskId, p, m)
    requires d in spec.dependencies && Survives(states, actions, d, p, m)
    ensures SucceededIn(states[m + 1], d) && Survives(states, actions, d, p, m + 1)
  {
    RunLaunchCounts(limits, states, actions, m, spec.taskId);
    SurvivesOneMore(states, actions, d, p, m);
    SurvivesOneMore(states, actions, spec.taskId, p, m);
    RunDepends(limits, states, actions, p, m + 1, spec, d);
    LaunchedAfterDeclaredDependencies(limits, states, actions, m + 1, spec.taskId, d);
  }

  /** The first deletion among the steps from `p` on. */
  lemma {:induction false} FirstDeletion(states: seq<State>, actions: seq<Action>, d: Name, p: nat, q: nat)
    returns (k: nat)
    requires |states| == |actions| + 1 && p <= q && !Survives(states, actions, d, p, q)
    ensures p <= k < q && DeletedAt(states, actions, k, d) && Survives(states, actions, d, p, k)
  {
    if Survives(states, actions, d, p, q - 1) {
      k := q - 1;
    } else {
      k := FirstDeletion(states, actions, d, p, q - 1);
    }
  }

  /**
   Over every run, when a task is launched, each dependency it declared has succeeded, exactly if no step since the
   submission deleted the record of that dependency before it had.  `DeletedBlockerReleases` is a run where one did.
   */
  lemma LaunchIsDueIff(limits: SlotLimits, states: seq<State>, actions: seq<Action>, p: nat, m: nat,
                       spec: ChildTaskSpec, d: Name)
    requires IsRun(limits, states, actions) && SubmittedAt(states, actions, p, spec) && p < m
    requires LaunchedAt(states, actions, m, spec.taskId) && Survives(states, actions, spec.taskId, p, m)
    requires d in spec.dependencies
    ensures SucceededBy(states, actions, d, p, m + 1)
       <==> !exists k :: p <= k < m && DropsUnmet(states, actions, d, p, k)
  {
    if k :| p <= k < m && DropsUnmet(states, actions, d, p, k) {
      if q :| p <= q <= m + 1 < |states| && SucceededIn(states[q], d) && Survives(states, actions, d, p, q) {
        assert q <= k;
        SuccessSurvives(limits, states, actions, d, q, k);
      }
    } else if Survives(states, actions, d, p, m) {
      UndeletedSucceeds(limits, states, actions, p, m, spec, d);
    } else {
      var k := FirstDeletion(states, actions, d, p, m);
      assert !DropsUnmet(states, actions, d, p, k);
      assert SucceededIn(states[k], d);
    }
  }
}
