/**
 The slot-limited priority scheduler (orchestration.rs, `Scheduler`).

 `Sched` is its state as a value; the class updates it in place.  Slot caps bound `running`; the ready queue
 is kept sorted by priority, highest first, then by sequence number.
 */
module Schedulers {
  import opened Names
  import opened JsonValues
  import Sorting = StableSort

  datatype SlotLimits = SlotLimits(global: nat, perProvider: nat, perWorkspace: nat, perEnvironment: nat)

  datatype QueueReason = ProviderSlot | WorkspaceSlot | EnvironmentSlot | GlobalSlot | ProviderBackoff

  datatype ScheduledTask = ScheduledTask(
    id: Name, provider: Name, workspace: Name, environment: Name, priority: nat, sequence: nat)

  datatype Sched = Sched(
    limits: SlotLimits,
    ready: seq<ScheduledTask>,
    running: map<Name, ScheduledTask>,
    backoffUntil: map<Name, nat>)

  function NewSched(limits: SlotLimits): Sched {
    Sched(limits, [], map[], map[])
  }

  // ---- queue order ----

  predicate QueueLeq(a: ScheduledTask, b: ScheduledTask) {
    a.priority > b.priority || (a.priority == b.priority && a.sequence <= b.sequence)
  }

  function Enqueue(s: Sched, task: ScheduledTask): Sched {
    s.(ready := Sorting.Sort(QueueLeq, s.ready + [task]))
  }

  // ---- slots ----

  function OnProvider(running: map<Name, ScheduledTask>, provider: Name): set<Name> {
    set id | id in running && running[id].provider == provider
  }

  function OnWorkspace(running: map<Name, ScheduledTask>, workspace: Name): set<Name> {
    set id | id in running && running[id].workspace == workspace
  }

  function OnEnvironment(running: map<Name, ScheduledTask>, environment: Name): set<Name> {
    set id | id in running && running[id].environment == environment
  }

  /** Why a ready task cannot start now; the first obstacle in the order they are checked. */
  function Reason(s: Sched, task: ScheduledTask, now: nat): Option<QueueReason> {
    if task.provider in s.backoffUntil && s.backoffUntil[task.provider] > now then Some(ProviderBackoff)
    else if |s.running| >= s.limits.global then Some(GlobalSlot)
    else if |OnProvider(s.running, task.provider)| >= s.limits.perProvider then Some(ProviderSlot)
    else if |OnWorkspace(s.running, task.workspace)| >= s.limits.perWorkspace then Some(WorkspaceSlot)
    else if |OnEnvironment(s.running, task.environment)| >= s.limits.perEnvironment then Some(EnvironmentSlot)
    else None
  }

  /** `index` is the position `next_ready` picks: the first task nothing holds back, or the queue length. */
  ghost predicate IsNext(s: Sched, now: nat, index: nat) {
    && index <= |s.ready|
    && (forall i :: 0 <= i < index ==> Reason(s, s.ready[i], now).Some?)
    && (index < |s.ready| ==> Reason(s, s.ready[index], now).None?)
  }

  function NextIndex(s: Sched, now: nat, from: nat := 0): (index: nat)
    requires from <= |s.ready|
    requires forall i :: 0 <= i < from ==> Reason(s, s.ready[i], now).Some?
    ensures IsNext(s, now, index)
    decreases |s.ready| - from
  {
    if from == |s.ready| || Reason(s, s.ready[from], now).None? then from else NextIndex(s, now, from + 1)
  }

  lemma NextIsUnique(s: Sched, now: nat, i: nat, j: nat)
    requires IsNext(s, now, i) && IsNext(s, now, j)
    ensures i == j
  {
  }

  /** Takes the task at `index` out of the queue and gives it a slot. */
  function Start(s: Sched, index: nat): Sched
    requires index < |s.ready|
  {
    s.(ready := s.ready[..index] + s.ready[index + 1..], running := s.running[s.ready[index].id := s.ready[index]])
  }

  function Finish(s: Sched, id: Name): Sched {
    s.(running := s.running - {id})
  }

  function Without(tasks: seq<ScheduledTask>, id: Name): (r: seq<ScheduledTask>)
    ensures forall t :: t in r <==> t in tasks && t.id != id
  {
    if |tasks| == 0 then [] else
      assert tasks == [tasks[0]] + tasks[1..];
      (if tasks[0].id == id then [] else [tasks[0]]) + Without(tasks[1..], id)
  }

  function Remove(s: Sched, id: Name): Sched {
    s.(ready := Without(s.ready, id), running := s.running - {id})
  }

  function Clamp(cap: nat): nat {
    if cap < 1 then 1 else if cap > 64 then 64 else cap
  }

  function SetGlobal(s: Sched, cap: nat): Sched {
    s.(limits := s.limits.(global := Clamp(cap)))
  }

  function SetBackoff(s: Sched, provider: Name, until: nat): Sched {
    s.(backoffUntil := s.backoffUntil[provider := until])
  }

  // ---- snapshots ----

  datatype SchedulerSnapshot = SchedulerSnapshot(
    limits: SlotLimits, ready: seq<ScheduledTask>, running: seq<ScheduledTask>, backoffUntil: map<Name, nat>)

  function SnapshotOf(s: Sched): SchedulerSnapshot {
    var ids := SortedNames(s.running.Keys);
    SchedulerSnapshot(s.limits, s.ready,
      seq(|ids|, i requires 0 <= i < |ids| => assert ids[i] in ids; s.running[ids[i]]),
      s.backoffUntil)
  }

  function ById(tasks: seq<ScheduledTask>): map<Name, ScheduledTask> {
    if |tasks| == 0 then map[]
    else ById(tasks[..|tasks| - 1])[tasks[|tasks| - 1].id := tasks[|tasks| - 1]]
  }

  function RestoreOf(snapshot: SchedulerSnapshot): Sched {
    Sched(snapshot.limits, snapshot.ready, ById(snapshot.running), snapshot.backoffUntil)
  }

  /** `restore_after_restart`: the running tasks are reported as interrupted instead of being resumed. */
  function RestartOf(snapshot: SchedulerSnapshot): (Sched, seq<Name>) {
    (Sched(snapshot.limits, snapshot.ready, map[], snapshot.backoffUntil),
     seq(|snapshot.running|, i requires 0 <= i < |snapshot.running| => snapshot.running[i].id))
  }

  class Scheduler {
    var limits: SlotLimits
    var ready: seq<ScheduledTask>
    var running: map<Name, ScheduledTask>
    var backoffUntil: map<Name, nat>

    ghost function Value(): Sched
      reads this
    {
      Sched(limits, ready, running, backoffUntil)
    }

    constructor (limits: SlotLimits)
      ensures Value() == NewSched(limits)
    {
      this.limits, ready, running, backoffUntil := limits, [], map[], map[];
    }

    constructor Restore(snapshot: SchedulerSnapshot)
      ensures Value() == RestoreOf(snapshot)
    {
      limits, ready, backoffUntil := snapshot.limits, snapshot.ready, snapshot.backoffUntil;
      running := ById(snapshot.running);
    }

    method Snapshot() returns (snapshot: SchedulerSnapshot)
      ensures snapshot == SnapshotOf(Value())
    {
      snapshot := SnapshotOf(Sched(limits, ready, running, backoffUntil));
    }

    method EnqueueTask(task: ScheduledTask)
      modifies this
      ensures Value() == Enqueue(old(Value()), task)
    {
      ready := ready + [task];
      ready := Sorting.Sort(QueueLeq, ready);
    }

    /** Scans the queue for the first task that can start, and starts it. */
    method NextReady(now: nat) returns (task: Option<ScheduledTask>)
      modifies this
      ensures task.Some? ==> exists i: nat :: i < |old(ready)| && IsNext(old(Value()), now, i)
                                              && task.value == old(ready)[i] && Value() == Start(old(Value()), i)
      ensures task.None? ==> IsNext(old(Value()), now, |ready|) && Value() == old(Value())
    {
      var i := 0;
      while i < |ready|
        invariant 0 <= i <= |ready|
        invariant Value() == old(Value())
        invariant forall j :: 0 <= j < i ==> Reason(Value(), ready[j], now).Some?
      {
        if Reason(Sched(limits, ready, running, backoffUntil), ready[i], now).None? {
          var picked := ready[i];
          assert IsNext(old(Value()), now, i);
          ready := ready[..i] + ready[i + 1..];
          running := running[picked.id := picked];
          return Some(picked);
        }
        i := i + 1;
      }
      return None;
    }

    method FinishTask(id: Name)
      modifies this
      ensures Value() == Finish(old(Value()), id)
    {
      running := running - {id};
    }

    method RemoveTask(id: Name)
      modifies this
      ensures Value() == Remove(old(Value()), id)
    {
      ready := Without(ready, id);
      running := running - {id};
    }

    method SetGlobalConcurrency(cap: nat)
      modifies this
      ensures Value() == SetGlobal(old(Value()), cap)
    {
      limits := limits.(global := Clamp(cap));
    }

    /** Holds back the provider's tasks until the time given, and no others. */
    method SetProviderBackoff(provider: Name, until: nat)
      modifies this
      ensures Value() == SetBackoff(old(Value()), provider, until)
      ensures forall task: ScheduledTask, now: nat :: task.provider == provider && now < until ==>
                Reason(Value(), task, now) == Some(ProviderBackoff)
      ensures forall task: ScheduledTask, now: nat :: task.provider != provider ==>
                Reason(Value(), task, now) == Reason(old(Value()), task, now)
    {
      backoffUntil := backoffUntil[provider := until];
    }
  }
}
