/** What every scheduler operation keeps. */
module SchedulerProperties {
  import opened Names
  import opened JsonValues
  import opened Schedulers
  import Sorting = StableSort

  ghost predicate Sorted(s: Sched) {
    Sorting.SortedBy(QueueLeq, s.ready)
  }

  /** `running` is indexed by task id. */
  ghost predicate Keyed(s: Sched) {
    forall id :: id in s.running ==> s.running[id].id == id
  }

  /** All four slot caps hold. */
  ghost predicate WithinCaps(s: Sched) {
    && |s.running| <= s.limits.global
    && (forall p :: |OnProvider(s.running, p)| <= s.limits.perProvider)
    && (forall w :: |OnWorkspace(s.running, w)| <= s.limits.perWorkspace)
    && (forall e :: |OnEnvironment(s.running, e)| <= s.limits.perEnvironment)
  }

  lemma QueueOrder()
    ensures Sorting.TotalPreorder(QueueLeq)
  {
  }

  lemma EnqueueSorts(s: Sched, task: ScheduledTask)
    ensures Sorted(Enqueue(s, task))
    ensures multiset(Enqueue(s, task).ready) == multiset(s.ready) + multiset{task}
  {
    QueueOrder();
    Sorting.SortSorted(QueueLeq, s.ready + [task]);
    Sorting.SortPermutes(QueueLeq, s.ready + [task]);
  }

  lemma SmallerSet(a: set<Name>, b: set<Name>)
    requires a <= b
    ensures |a| <= |b|
  {
    if a != b {
      assert b == a + (b - a);
    }
  }

  lemma OneMore(a: set<Name>, b: set<Name>, x: Name)
    requires a <= b + {x}
    ensures |a| <= |b| + 1
  {
    SmallerSet(a, b + {x});
  }

  lemma ProviderGroupGrows(running: map<Name, ScheduledTask>, task: ScheduledTask, x: Name)
    ensures |OnProvider(running[task.id := task], x)| <= |OnProvider(running, x)| + if x == task.provider then 1 else 0
  {
    var before, after := OnProvider(running, x), OnProvider(running[task.id := task], x);
    if x == task.provider {
      OneMore(after, before, task.id);
    } else {
      SmallerSet(after, before);
    }
  }

  lemma WorkspaceGroupGrows(running: map<Name, ScheduledTask>, task: ScheduledTask, x: Name)
    ensures |OnWorkspace(running[task.id := task], x)|
            <= |OnWorkspace(running, x)| + if x == task.workspace then 1 else 0
  {
    var before, after := OnWorkspace(running, x), OnWorkspace(running[task.id := task], x);
    if x == task.workspace {
      OneMore(after, before, task.id);
    } else {
      SmallerSet(after, before);
    }
  }

  lemma EnvironmentGroupGrows(running: map<Name, ScheduledTask>, task: ScheduledTask, x: Name)
    ensures |OnEnvironment(running[task.id := task], x)|
            <= |OnEnvironment(running, x)| + if x == task.environment then 1 else 0
  {
    var before, after := OnEnvironment(running, x), OnEnvironment(running[task.id := task], x);
    if x == task.environment {
      OneMore(after, before, task.id);
    } else {
      SmallerSet(after, before);
    }
  }

  lemma ProviderCapKept(
      running: map<Name, ScheduledTask>, task: ScheduledTask, after: map<Name, ScheduledTask>, cap: nat)
    requires after == running[task.id := task] && forall x :: |OnProvider(running, x)| <= cap
    requires |OnProvider(running, task.provider)| < cap
    ensures forall x :: |OnProvider(after, x)| <= cap
  {
    forall x ensures |OnProvider(after, x)| <= cap {
      ProviderGroupGrows(running, task, x);
    }
  }

  lemma WorkspaceCapKept(
      running: map<Name, ScheduledTask>, task: ScheduledTask, after: map<Name, ScheduledTask>, cap: nat)
    requires after == running[task.id := task] && forall x :: |OnWorkspace(running, x)| <= cap
    requires |OnWorkspace(running, task.workspace)| < cap
    ensures forall x :: |OnWorkspace(after, x)| <= cap
  {
    forall x ensures |OnWorkspace(after, x)| <= cap {
      WorkspaceGroupGrows(running, task, x);
    }
  }

  lemma EnvironmentCapKept(
      running: map<Name, ScheduledTask>, task: ScheduledTask, after: map<Name, ScheduledTask>, cap: nat)
    requires after == running[task.id := task] && forall x :: |OnEnvironment(running, x)| <= cap
    requires |OnEnvironment(running, task.environment)| < cap
    ensures forall x :: |OnEnvironment(after, x)| <= cap
  {
    forall x ensures |OnEnvironment(after, x)| <= cap {
      EnvironmentGroupGrows(running, task, x);
    }
  }

  /** What nothing held back: every group of the task has a free slot. */
  lemma FreeSlots(s: Sched, task: ScheduledTask, now: nat)
    requires Reason(s, task, now).None?
    ensures |s.running| < s.limits.global && |OnProvider(s.running, task.provider)| < s.limits.perProvider
    ensures |OnWorkspace(s.running, task.workspace)| < s.limits.perWorkspace
    ensures |OnEnvironment(s.running, task.environment)| < s.limits.perEnvironment
  {
  }

  /** Starting the task `next_ready` picks never overfills a slot group. */
  lemma StartKeepsCaps(s: Sched, now: nat, index: nat)
    requires WithinCaps(s) && index < |s.ready| && IsNext(s, now, index)
    ensures WithinCaps(Start(s, index))
  {
    var task, s' := s.ready[index], Start(s, index);
    FreeSlots(s, task, now);
    OneMore(s'.running.Keys, s.running.Keys, task.id);
    ProviderCapKept(s.running, task, s'.running, s.limits.perProvider);
    WorkspaceCapKept(s.running, task, s'.running, s.limits.perWorkspace);
    EnvironmentCapKept(s.running, task, s'.running, s.limits.perEnvironment);
  }

  /** Freeing a slot keeps the caps. */
  lemma FewerRunningKeepsCaps(s: Sched, s': Sched)
    requires WithinCaps(s) && s'.limits == s.limits
    requires s'.running.Keys <= s.running.Keys && forall id :: id in s'.running ==> s'.running[id] == s.running[id]
    ensures WithinCaps(s')
  {
    SmallerSet(s'.running.Keys, s.running.Keys);
    forall p ensures |OnProvider(s'.running, p)| <= s.limits.perProvider {
      SmallerSet(OnProvider(s'.running, p), OnProvider(s.running, p));
    }
    forall w ensures |OnWorkspace(s'.running, w)| <= s.limits.perWorkspace {
      SmallerSet(OnWorkspace(s'.running, w), OnWorkspace(s.running, w));
    }
    forall e ensures |OnEnvironment(s'.running, e)| <= s.limits.perEnvironment {
      SmallerSet(OnEnvironment(s'.running, e), OnEnvironment(s.running, e));
    }
  }

  lemma StartKeepsSorted(s: Sched, index: nat)
    requires Sorted(s) && index < |s.ready|
    ensures Sorted(Start(s, index))
  {
    var r := Start(s, index).ready;
    forall i, j | 0 <= i < j < |r| ensures QueueLeq(r[i], r[j]) {
      var i', j' := if i < index then i else i + 1, if j < index then j else j + 1;
      assert r[i] == s.ready[i'] && r[j] == s.ready[j'];
    }
  }

  lemma {:induction false} WithoutKeepsSorted(tasks: seq<ScheduledTask>, id: Name)
    requires Sorting.SortedBy(QueueLeq, tasks)
    ensures Sorting.SortedBy(QueueLeq, Without(tasks, id))
  {
    if |tasks| > 0 {
      WithoutKeepsSorted(tasks[1..], id);
      var rest := Without(tasks[1..], id);
      forall j | 0 <= j < |rest| ensures QueueLeq(tasks[0], rest[j]) {
        assert rest[j] in tasks[1..];
        var k :| 0 <= k < |tasks[1..]| && tasks[1..][k] == rest[j];
        assert QueueLeq(tasks[0], tasks[k + 1]);
      }
    }
  }

  // ---- runs ----

  datatype Operation =
    | Enqueues(task: ScheduledTask)
    | AsksNext(now: nat)
    | Finishes(id: Name)
    | Removes(id: Name)
    | BacksOff(provider: Name, until: nat)
    | SetsGlobal(cap: nat)

  function Perform(s: Sched, op: Operation): Sched {
    match op
    case Enqueues(task) => Enqueue(s, task)
    case AsksNext(now) =>
      var index := NextIndex(s, now);
      if index < |s.ready| then Start(s, index) else s
    case Finishes(id) => Finish(s, id)
    case Removes(id) => Remove(s, id)
    case BacksOff(provider, until) => SetBackoff(s, provider, until)
    case SetsGlobal(cap) => SetGlobal(s, cap)
  }

  function PerformAll(s: Sched, ops: seq<Operation>): Sched {
    if |ops| == 0 then s else Perform(PerformAll(s, ops[..|ops| - 1]), ops[|ops| - 1])
  }

  /** The operation leaves the global cap at least where it is. */
  predicate KeepsRoom(s: Sched, op: Operation) {
    op.SetsGlobal? ==> Clamp(op.cap) >= s.limits.global
  }

  ghost predicate NeverLowers(s: Sched, ops: seq<Operation>) {
    forall i :: 0 <= i < |ops| ==> KeepsRoom(PerformAll(s, ops[..i]), ops[i])
  }

  lemma PerformKeepsShape(s: Sched, op: Operation)
    requires Sorted(s) && Keyed(s)
    ensures Sorted(Perform(s, op)) && Keyed(Perform(s, op))
  {
    match op
    case Enqueues(task) => EnqueueSorts(s, task);
    case AsksNext(now) =>
      var index := NextIndex(s, now);
      if index < |s.ready| {
        StartKeepsSorted(s, index);
      }
    case Removes(id) => WithoutKeepsSorted(s.ready, id);
    case _ =>
  }

  lemma PerformKeepsCaps(s: Sched, op: Operation)
    requires WithinCaps(s) && KeepsRoom(s, op)
    ensures WithinCaps(Perform(s, op))
  {
    match op
    case AsksNext(now) =>
      var index := NextIndex(s, now);
      if index < |s.ready| {
        StartKeepsCaps(s, now, index);
      }
    case Finishes(id) => FewerRunningKeepsCaps(s, Finish(s, id));
    case Removes(id) => FewerRunningKeepsCaps(s, Remove(s, id));
    case Enqueues(task) => assert Perform(s, op).running == s.running;
    case BacksOff(_, _) => assert Perform(s, op).running == s.running;
    case SetsGlobal(_) => assert Perform(s, op).running == s.running;
  }

  /** Over every run the queue stays in priority order and `running` stays indexed by id. */
  lemma {:induction false} RunsKeepShape(limits: SlotLimits, ops: seq<Operation>)
    ensures Sorted(PerformAll(NewSched(limits), ops)) && Keyed(PerformAll(NewSched(limits), ops))
  {
    if |ops| > 0 {
      RunsKeepShape(limits, ops[..|ops| - 1]);
      PerformKeepsShape(PerformAll(NewSched(limits), ops[..|ops| - 1]), ops[|ops| - 1]);
    }
  }

  /** Only backing off again changes how long a provider is backed off. */
  lemma {:induction false} BackoffStays(s: Sched, provider: Name, ops: seq<Operation>)
    requires provider in s.backoffUntil
    requires forall i :: 0 <= i < |ops| && ops[i].BacksOff? ==> ops[i].provider != provider
    ensures var s' := PerformAll(s, ops);
            provider in s'.backoffUntil && s'.backoffUntil[provider] == s.backoffUntil[provider]
  {
    if |ops| > 0 {
      BackoffStays(s, provider, ops[..|ops| - 1]);
    }
  }

  /**
   Whatever happens after a provider was backed off, none of its tasks is started before the time given, unless it is
   backed off anew.
   */
  lemma BackoffHoldsBack(s: Sched, provider: Name, until: nat, ops: seq<Operation>, now: nat, index: nat)
    requires forall i :: 0 <= i < |ops| && ops[i].BacksOff? ==> ops[i].provider != provider
    requires now < until && IsNext(PerformAll(SetBackoff(s, provider, until), ops), now, index)
    ensures var s' := PerformAll(SetBackoff(s, provider, until), ops);
            index < |s'.ready| ==> s'.ready[index].provider != provider
  {
    BackoffStays(SetBackoff(s, provider, until), provider, ops);
  }

  lemma NewWithinCaps(limits: SlotLimits)
    ensures WithinCaps(NewSched(limits))
  {
    var s := NewSched(limits);
    forall p
      ensures OnProvider(s.running, p) == {} && OnWorkspace(s.running, p) == {} && OnEnvironment(s.running, p) == {}
    {
    }
  }

  /** Over every run that never lowers the global cap, no slot group is overfilled. */
  lemma {:induction false} RunsKeepCaps(limits: SlotLimits, ops: seq<Operation>)
    requires NeverLowers(NewSched(limits), ops)
    ensures WithinCaps(PerformAll(NewSched(limits), ops))
  {
    if |ops| == 0 {
      NewWithinCaps(limits);
    } else {
      var init := ops[..|ops| - 1];
      forall i | 0 <= i < |init| ensures KeepsRoom(PerformAll(NewSched(limits), init[..i]), init[i]) {
        assert init[..i] == ops[..i];
      }
      RunsKeepCaps(limits, init);
      PerformKeepsCaps(PerformAll(NewSched(limits), init), ops[|ops| - 1]);
    }
  }

  // ---- snapshots ----

  lemma {:induction false} ByIdMeaning(tasks: seq<ScheduledTask>)
    requires forall i, j :: 0 <= i < j < |tasks| ==> tasks[i].id != tasks[j].id
    ensures forall id :: id in ById(tasks) <==> exists i :: 0 <= i < |tasks| && tasks[i].id == id
    ensures forall i :: 0 <= i < |tasks| ==> tasks[i].id in ById(tasks) && ById(tasks)[tasks[i].id] == tasks[i]
  {
    if |tasks| > 0 {
      var init := tasks[..|tasks| - 1];
      ByIdMeaning(init);
      forall id ensures id in ById(tasks) <==> exists i :: 0 <= i < |tasks| && tasks[i].id == id {
        if id in ById(init) {
          var i :| 0 <= i < |init| && init[i].id == id;
          assert tasks[i].id == id;
        }
      }
      forall i | 0 <= i < |tasks| ensures tasks[i].id in ById(tasks) && ById(tasks)[tasks[i].id] == tasks[i] {
        if i < |init| {
          assert init[i] == tasks[i];
        }
      }
    }
  }

  /** Restoring a snapshot gives back the scheduler it was taken from. */
  lemma RestoreUndoesSnapshot(s: Sched)
    requires Keyed(s)
    ensures RestoreOf(SnapshotOf(s)) == s
  {
    var ids, tasks := SortedNames(s.running.Keys), SnapshotOf(s).running;
    AscendingDistinct(ids);
    forall i | 0 <= i < |ids| ensures tasks[i].id == ids[i] && tasks[i] == s.running[ids[i]] {
      assert ids[i] in ids;
    }
    ByIdMeaning(tasks);
    var back := ById(tasks);
    forall id ensures id in back <==> id in s.running {
      if id in s.running {
        assert id in ids;
        var i :| 0 <= i < |ids| && ids[i] == id;
        assert tasks[i].id == id;
      }
    }
    forall id | id in s.running ensures back[id] == s.running[id] {
      assert id in ids;
      var i :| 0 <= i < |ids| && ids[i] == id;
      assert back[tasks[i].id] == tasks[i];
    }
    assert back == s.running;
  }

  lemma {:induction false} ByIdKeyed(tasks: seq<ScheduledTask>)
    ensures forall id :: id in ById(tasks) ==> ById(tasks)[id].id == id
  {
    if |tasks| > 0 {
      ByIdKeyed(tasks[..|tasks| - 1]);
    }
  }

  function IdsOf(tasks: seq<ScheduledTask>): (r: seq<Name>)
    ensures |r| == |tasks| && forall i :: 0 <= i < |r| ==> r[i] == tasks[i].id
  {
    seq(|tasks|, i requires 0 <= i < |tasks| => tasks[i].id)
  }

  lemma SnapshotIds(s: Sched)
    requires Keyed(s)
    ensures IdsOf(SnapshotOf(s).running) == SortedNames(s.running.Keys)
  {
    var ids := SortedNames(s.running.Keys);
    forall i | 0 <= i < |ids| ensures SnapshotOf(s).running[i].id == ids[i] {
      assert ids[i] in ids;
    }
  }

  lemma RestoredIds(tasks: seq<ScheduledTask>)
    requires Ascending(IdsOf(tasks))
    ensures SortedNames(ById(tasks).Keys) == IdsOf(tasks)
    ensures forall i :: 0 <= i < |tasks| ==> tasks[i].id in ById(tasks) && ById(tasks)[tasks[i].id] == tasks[i]
  {
    var names := IdsOf(tasks);
    AscendingDistinct(names);
    ByIdMeaning(tasks);
    AscendingUnique(names, SortedNames(ById(tasks).Keys));
  }

  /** A stored snapshot survives restoring exactly when its running tasks are listed once each, in id order. */
  lemma SnapshotUndoesRestore(snapshot: SchedulerSnapshot)
    ensures SnapshotOf(RestoreOf(snapshot)) == snapshot <==> Ascending(IdsOf(snapshot.running))
  {
    var s, tasks := RestoreOf(snapshot), snapshot.running;
    ByIdKeyed(tasks);
    SnapshotIds(s);
    if Ascending(IdsOf(tasks)) {
      RestoredIds(tasks);
      forall i | 0 <= i < |tasks| ensures SnapshotOf(s).running[i] == tasks[i] {
        assert IdsOf(tasks)[i] == tasks[i].id;
      }
      assert SnapshotOf(s).running == tasks;
    }
  }

  /** A restart forgets nothing but the slots: the queue is kept and every running task is reported once. */
  lemma RestartReportsRunning(s: Sched)
    requires Keyed(s)
    ensures RestartOf(SnapshotOf(s)).0 == s.(running := map[])
    ensures RestartOf(SnapshotOf(s)).1 == SortedNames(s.running.Keys)
  {
    SnapshotIds(s);
    assert RestartOf(SnapshotOf(s)).1 == IdsOf(SnapshotOf(s).running);
  }
}
