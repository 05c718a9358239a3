/** Claiming queued automation runs under the host's limits (automation.rs, `claim_queued`). */
module ClaimQueues {
  import opened Names
  import Sorting = StableSort

  datatype RunStatus = Queued | Running | Completed | Failed | WaitingUser | Duplicate | Coalesced | Missed

  datatype AutomationRun = AutomationRun(
    runId: Name,
    automationId: Name,
    maxConcurrency: nat,
    maxModelSteps: nat,
    maxWallClockMs: nat,
    dedupeKey: Name,
    scheduledFor: nat,
    createdAt: nat,
    status: RunStatus)

  datatype HostLimits = HostLimits(maxConcurrency: nat, diskUsedBytes: nat, diskBudgetBytes: nat)

  ghost function RunningAt(runs: seq<AutomationRun>): set<nat> {
    set i: nat | i < |runs| && runs[i].status == Running
  }

  ghost function OwnRunningAt(runs: seq<AutomationRun>, automation: Name): set<nat> {
    set i: nat | i < |runs| && runs[i].automationId == automation && runs[i].status == Running
  }

  /** `iter().filter(..).count()`, with `None` for every automation. */
  function Count(runs: seq<AutomationRun>, automation: Name, all: bool): nat {
    if |runs| == 0 then 0
    else
      var last := runs[|runs| - 1];
      Count(runs[..|runs| - 1], automation, all)
      + if last.status == Running && (all || last.automationId == automation) then 1 else 0
  }

  lemma LastRunning(runs: seq<AutomationRun>, automation: Name)
    requires |runs| > 0
    ensures var init, n := runs[..|runs| - 1], |runs| - 1;
            && RunningAt(runs) == RunningAt(init) + (if runs[n].status == Running then {n} else {})
            && OwnRunningAt(runs, automation) == OwnRunningAt(init, automation)
                 + (if runs[n].automationId == automation && runs[n].status == Running then {n} else {})
  {
    var init := runs[..|runs| - 1];
    assert forall i :: 0 <= i < |init| ==> init[i] == runs[i];
  }

  lemma {:induction false} CountMeaning(runs: seq<AutomationRun>, automation: Name)
    ensures Count(runs, automation, true) == |RunningAt(runs)|
    ensures Count(runs, automation, false) == |OwnRunningAt(runs, automation)|
  {
    if |runs| > 0 {
      CountMeaning(runs[..|runs| - 1], automation);
      LastRunning(runs, automation);
    }
  }

  predicate DiskBlocked(limits: HostLimits) {
    limits.diskBudgetBytes > 0 && limits.diskUsedBytes >= limits.diskBudgetBytes
  }

  predicate NoRuntimeBudget(run: AutomationRun) {
    run.maxModelSteps == 0 || run.maxWallClockMs == 0
  }

  ghost predicate HostFull(runs: seq<AutomationRun>, limits: HostLimits) {
    limits.maxConcurrency == 0 || |RunningAt(runs)| >= limits.maxConcurrency
  }

  ghost predicate OwnFull(runs: seq<AutomationRun>, i: nat)
    requires i < |runs|
  {
    |OwnRunningAt(runs, runs[i].automationId)| >= runs[i].maxConcurrency
  }

  /** Something keeps run `i` from starting now. */
  ghost predicate Deferred(runs: seq<AutomationRun>, i: nat, limits: HostLimits)
    requires i < |runs|
  {
    DiskBlocked(limits) || NoRuntimeBudget(runs[i]) || HostFull(runs, limits) || OwnFull(runs, i)
  }

  ghost function ClaimOne(runs: seq<AutomationRun>, i: nat, limits: HostLimits): seq<AutomationRun>
    requires i < |runs|
  {
    if Deferred(runs, i, limits) then runs else runs[i := runs[i].(status := Running)]
  }

  /** One pass over the queued runs in the given order. */
  ghost function ClaimInOrder(runs: seq<AutomationRun>, order: seq<nat>, limits: HostLimits): (r: seq<AutomationRun>)
    requires forall i :: i in order ==> i < |runs|
    ensures |r| == |runs|
    decreases |order|
  {
    if |order| == 0 then runs
    else
      var n := |order| - 1;
      assert forall i :: i in order[..n] ==> i in order;
      assert order[n] in order;
      ClaimOne(ClaimInOrder(runs, order[..n], limits), order[n], limits)
  }

  /** The runs of the listed positions that are running, in the order of the list. */
  function StartedIn(runs: seq<AutomationRun>, order: seq<nat>): seq<AutomationRun>
    requires forall i :: i in order ==> i < |runs|
  {
    if |order| == 0 then []
    else
      var n := |order| - 1;
      assert order[n] in order && forall i :: i in order[..n] ==> i in order;
      StartedIn(runs, order[..n]) + if runs[order[n]].status == Running then [runs[order[n]]] else []
  }

  lemma {:induction false} StartedAlike(before: seq<AutomationRun>, after: seq<AutomationRun>, order: seq<nat>)
    requires forall i :: i in order ==> i < |before| && i < |after| && before[i] == after[i]
    ensures StartedIn(before, order) == StartedIn(after, order)
  {
    if |order| > 0 {
      var n := |order| - 1;
      assert order[n] in order && forall i :: i in order[..n] ==> i in order;
      StartedAlike(before, after, order[..n]);
    }
  }

  /** Deciding about one more run leaves the runs started before it. */
  lemma StartedMore(before: seq<AutomationRun>, after: seq<AutomationRun>, order: seq<nat>, last: nat)
    requires |after| == |before| && last < |before| && last !in order
    requires forall i :: i in order ==> i < |before|
    requires forall i: nat :: i < |before| && i != last ==> after[i] == before[i]
    ensures StartedIn(after, order + [last])
            == StartedIn(before, order) + if after[last].status == Running then [after[last]] else []
  {
    StartedAlike(before, after, order);
    assert (order + [last])[..|order|] == order;
  }

  // ---- what one pass does ----

  /** Claiming only starts queued runs of the order. */
  ghost predicate OnlyStarts(runs: seq<AutomationRun>, after: seq<AutomationRun>, order: seq<nat>) {
    && |after| == |runs|
    && forall i: nat :: i < |runs| ==>
         after[i] == runs[i] || (i in order && runs[i].status == Queued && after[i] == runs[i].(status := Running))
  }

  ghost predicate AllQueued(runs: seq<AutomationRun>, order: seq<nat>) {
    forall i :: i in order ==> i < |runs| && runs[i].status == Queued
  }

  ghost predicate DistinctOrder(order: seq<nat>) {
    forall i, j :: 0 <= i < j < |order| ==> order[i] != order[j]
  }

  lemma InitOf(order: seq<nat>)
    requires |order| > 0
    ensures forall x :: x in order <==> x in order[..|order| - 1] || x == order[|order| - 1]
    ensures order[|order| - 1] in order
    ensures DistinctOrder(order) ==> DistinctOrder(order[..|order| - 1]) && order[|order| - 1] !in order[..|order| - 1]
  {
    assert order == order[..|order| - 1] + [order[|order| - 1]];
  }

  lemma InitQueued(runs: seq<AutomationRun>, order: seq<nat>)
    requires |order| > 0 && AllQueued(runs, order)
    ensures AllQueued(runs, order[..|order| - 1])
  {
    InitOf(order);
    var init := order[..|order| - 1];
    forall i | i in init ensures i in order {
    }
  }

  lemma {:induction false} ClaimsOnlyStart(runs: seq<AutomationRun>, order: seq<nat>, limits: HostLimits)
    requires AllQueued(runs, order)
    ensures OnlyStarts(runs, ClaimInOrder(runs, order, limits), order)
    decreases |order|
  {
    if |order| > 0 {
      InitOf(order);
      InitQueued(runs, order);
      ClaimsOnlyStart(runs, order[..|order| - 1], limits);
    }
  }

  lemma SubsetSize(a: set<nat>, b: set<nat>)
    requires a <= b
    ensures |a| <= |b|
  {
    if a != b {
      assert b == a + (b - a);
    }
  }

  lemma CountsGrow(runs: seq<AutomationRun>, after: seq<AutomationRun>, order: seq<nat>, automation: Name)
    requires OnlyStarts(runs, after, order)
    ensures |RunningAt(runs)| <= |RunningAt(after)|
    ensures |OwnRunningAt(runs, automation)| <= |OwnRunningAt(after, automation)|
  {
    SubsetSize(RunningAt(runs), RunningAt(after));
    SubsetSize(OwnRunningAt(runs, automation), OwnRunningAt(after, automation));
  }

  /** A reason to wait does not go away while others are claimed. */
  lemma DeferredStays(runs: seq<AutomationRun>, after: seq<AutomationRun>, order: seq<nat>, i: nat, limits: HostLimits)
    requires OnlyStarts(runs, after, order) && i < |runs|
    ensures Deferred(runs, i, limits) ==> Deferred(after, i, limits)
    ensures HostFull(runs, limits) ==> HostFull(after, limits)
    ensures OwnFull(runs, i) ==> OwnFull(after, i)
  {
    CountsGrow(runs, after, order, runs[i].automationId);
  }

  lemma ClaimOneStarts(runs: seq<AutomationRun>, i: nat, limits: HostLimits)
    requires i < |runs| && runs[i].status == Queued
    ensures OnlyStarts(runs, ClaimOne(runs, i, limits), [i])
  {
  }

  lemma {:induction false} StillQueuedBefore(runs: seq<AutomationRun>, order: seq<nat>, limits: HostLimits, i: nat)
    requires AllQueued(runs, order) && i !in order && i < |runs|
    ensures ClaimInOrder(runs, order, limits)[i] == runs[i]
  {
    ClaimsOnlyStart(runs, order, limits);
  }

  /** The pass is maximal: every run of the order that is still queued at the end is still held back by something. */
  lemma {:induction false} ClaimsAreMaximal(runs: seq<AutomationRun>, order: seq<nat>, limits: HostLimits, i: nat)
    requires AllQueued(runs, order) && DistinctOrder(order) && i in order
    requires ClaimInOrder(runs, order, limits)[i].status == Queued
    ensures Deferred(ClaimInOrder(runs, order, limits), i, limits)
    decreases |order|
  {
    var n := |order| - 1;
    var init, last := order[..n], order[n];
    InitOf(order);
    InitQueued(runs, order);
    var before, after := ClaimInOrder(runs, init, limits), ClaimInOrder(runs, order, limits);
    assert after == ClaimOne(before, last, limits);
    StillQueuedBefore(runs, init, limits, last);
    ClaimOneStarts(before, last, limits);
    if i != last {
      assert before[i].status == Queued;
      ClaimsAreMaximal(runs, init, limits, i);
    }
    DeferredStays(before, after, [last], i, limits);
  }

  lemma OneMoreOwn(runs: seq<AutomationRun>, i: nat, a: Name)
    requires i < |runs| && runs[i].status == Queued
    ensures var after := runs[i := runs[i].(status := Running)];
            OwnRunningAt(after, a) == OwnRunningAt(runs, a) + (if a == runs[i].automationId then {i} else {})
            && i !in OwnRunningAt(runs, a)
  {
    var after := runs[i := runs[i].(status := Running)];
    assert forall k: nat :: k < |runs| && k != i ==> after[k] == runs[k];
  }

  lemma OneMoreRunning(runs: seq<AutomationRun>, i: nat)
    requires i < |runs| && runs[i].status == Queued
    ensures var after := runs[i := runs[i].(status := Running)];
            RunningAt(after) == RunningAt(runs) + {i} && i !in RunningAt(runs)
  {
    var after := runs[i := runs[i].(status := Running)];
    assert forall k: nat :: k < |runs| && k != i ==> after[k] == runs[k];
  }

  /** The running count stays within the cap, or where it was if that is above the cap. */
  lemma {:induction false} ClaimsRespectHostCap(runs: seq<AutomationRun>, order: seq<nat>, limits: HostLimits)
    requires AllQueued(runs, order) && DistinctOrder(order)
    ensures |RunningAt(ClaimInOrder(runs, order, limits))| <= limits.maxConcurrency
            || RunningAt(ClaimInOrder(runs, order, limits)) == RunningAt(runs)
    decreases |order|
  {
    if |order| > 0 {
      var init, last := order[..|order| - 1], order[|order| - 1];
      InitOf(order);
      InitQueued(runs, order);
      ClaimsRespectHostCap(runs, init, limits);
      var before := ClaimInOrder(runs, init, limits);
      StillQueuedBefore(runs, init, limits, last);
      if !Deferred(before, last, limits) {
        OneMoreRunning(before, last);
      }
    }
  }

  /** Run `i` was started by the pass. */
  ghost predicate Claimed(runs: seq<AutomationRun>, after: seq<AutomationRun>, i: nat) {
    i < |runs| == |after| && runs[i].status == Queued && after[i].status == Running
  }

  /** An automation's running count only grows up to the concurrency of the last of its runs to be claimed. */
  lemma {:induction false} ClaimsRespectOwnCap(runs: seq<AutomationRun>, order: seq<nat>, limits: HostLimits, a: Name)
    requires AllQueued(runs, order) && DistinctOrder(order)
    ensures var after := ClaimInOrder(runs, order, limits);
            OwnRunningAt(after, a) == OwnRunningAt(runs, a)
            || exists i: nat :: Claimed(runs, after, i) && runs[i].automationId == a
                           && |OwnRunningAt(after, a)| <= runs[i].maxConcurrency
    decreases |order|
  {
    if |order| > 0 {
      var init, last := order[..|order| - 1], order[|order| - 1];
      InitOf(order);
      InitQueued(runs, order);
      ClaimsRespectOwnCap(runs, init, limits, a);
      var before, after := ClaimInOrder(runs, init, limits), ClaimInOrder(runs, order, limits);
      StillQueuedBefore(runs, init, limits, last);
      if !Deferred(before, last, limits) {
        OneMoreOwn(before, last, a);
        if runs[last].automationId == a {
          assert Claimed(runs, after, last);
        } else {
          assert OwnRunningAt(after, a) == OwnRunningAt(before, a);
          if OwnRunningAt(before, a) != OwnRunningAt(runs, a) {
            var i: nat :| Claimed(runs, before, i) && runs[i].automationId == a
                          && |OwnRunningAt(before, a)| <= runs[i].maxConcurrency;
            assert Claimed(runs, after, i);
          }
        }
      }
    }
  }

  /** When a run further back in the order was claimed, one before it still queued is held back by what is its own. */
  lemma {:induction false} NoOvertakingIn(runs: seq<AutomationRun>, order: seq<nat>, limits: HostLimits, p: nat, q: nat)
    requires AllQueued(runs, order) && DistinctOrder(order) && p < q < |order|
    requires order[p] in order && order[q] in order
    requires ClaimInOrder(runs, order, limits)[order[p]].status == Queued
    requires ClaimInOrder(runs, order, limits)[order[q]].status == Running
    ensures NoRuntimeBudget(runs[order[p]]) || OwnFull(ClaimInOrder(runs, order, limits), order[p])
    decreases |order|
  {
    var n := |order| - 1;
    var init, last := order[..n], order[n];
    InitOf(order);
    InitQueued(runs, order);
    var before, after := ClaimInOrder(runs, init, limits), ClaimInOrder(runs, order, limits);
    StillQueuedBefore(runs, init, limits, last);
    ClaimOneStarts(before, last, limits);
    ClaimsOnlyStart(runs, init, limits);
    assert init[p] == order[p] && init[p] in init;
    DeferredStays(before, after, [last], order[p], limits);
    if q == n {
      assert !Deferred(before, last, limits);
      ClaimsAreMaximal(runs, init, limits, order[p]);
    } else {
      assert init[q] == order[q] && init[q] in init;
      NoOvertakingIn(runs, init, limits, p, q);
    }
  }

  // ---- the order ----

  /** One row of the list `claim_queued` sorts. */
  datatype Row = Row(createdAt: nat, runId: Name, index: nat)

  /** The order of the tuples: creation time, then run id as text, then position. */
  predicate RowLeq(a: Row, b: Row) {
    a.createdAt < b.createdAt
    || (a.createdAt == b.createdAt
        && (Below(a.runId, b.runId) || (a.runId == b.runId && a.index <= b.index)))
  }

  lemma RowOrder()
    ensures Sorting.TotalPreorder(RowLeq)
  {
    forall a, b ensures RowLeq(a, b) || RowLeq(b, a) {
      Trichotomy(a.runId, b.runId);
    }
    forall a, b, c | RowLeq(a, b) && RowLeq(b, c) ensures RowLeq(a, c) {
      if Below(a.runId, b.runId) && Below(b.runId, c.runId) {
        Transitive(a.runId, b.runId, c.runId);
      }
    }
  }

  function QueuedRows(runs: seq<AutomationRun>): (r: seq<Row>)
    ensures forall row :: row in r <==> row.index < |runs| && runs[row.index].status == Queued
                                        && row == Row(runs[row.index].createdAt, runs[row.index].runId, row.index)
    ensures forall i, j :: 0 <= i < j < |r| ==> r[i].index < r[j].index
  {
    if |runs| == 0 then []
    else
      var n := |runs| - 1;
      var rows := QueuedRows(runs[..n]);
      assert forall row :: row in rows ==> row.index < n;
      if runs[n].status == Queued then rows + [Row(runs[n].createdAt, runs[n].runId, n)] else rows
  }

  function Indices(rows: seq<Row>): seq<nat> {
    seq(|rows|, i requires 0 <= i < |rows| => rows[i].index)
  }

  /** The queued runs in the order they are considered. */
  function ClaimOrder(runs: seq<AutomationRun>): seq<nat> {
    Indices(Sorting.Sort(RowLeq, QueuedRows(runs)))
  }

  /** The order lists every queued run once. */
  lemma ClaimOrderCovers(runs: seq<AutomationRun>)
    ensures AllQueued(runs, ClaimOrder(runs)) && DistinctOrder(ClaimOrder(runs))
    ensures forall i: nat :: i < |runs| && runs[i].status == Queued ==> i in ClaimOrder(runs)
  {
    var rows := QueuedRows(runs);
    var sorted := Sorting.Sort(RowLeq, rows);
    Sorting.SortPermutes(RowLeq, rows);
    Sorting.SameElements(rows, sorted);
    forall i | i in ClaimOrder(runs) ensures i < |runs| && runs[i].status == Queued {
      var k :| 0 <= k < |sorted| && ClaimOrder(runs)[k] == i;
      assert sorted[k] in sorted;
    }
    forall i: nat | i < |runs| && runs[i].status == Queued ensures i in ClaimOrder(runs) {
      assert Row(runs[i].createdAt, runs[i].runId, i) in sorted;
      var k :| 0 <= k < |sorted| && sorted[k] == Row(runs[i].createdAt, runs[i].runId, i);
      assert ClaimOrder(runs)[k] == i;
    }
    RowsStayDistinct(rows, sorted);
  }

  lemma RowsStayDistinct(rows: seq<Row>, sorted: seq<Row>)
    requires multiset(rows) == multiset(sorted)
    requires forall i, j :: 0 <= i < j < |rows| ==> rows[i].index != rows[j].index
    ensures DistinctOrder(Indices(sorted))
  {
    forall i, j | 0 <= i < j < |sorted| ensures Indices(sorted)[i] != Indices(sorted)[j] {
      Sorting.SameElements(rows, sorted);
      assert sorted[i] in rows && sorted[j] in rows;
      if sorted[i].index == sorted[j].index {
        assert sorted[i] == sorted[j];
        assert sorted == sorted[..i] + [sorted[i]] + sorted[i + 1..j] + [sorted[j]] + sorted[j + 1..];
        assert multiset(sorted)[sorted[i]] >= 2;
        RowOnce(rows, sorted[i]);
      }
    }
  }

  lemma {:induction false} RowOnce(rows: seq<Row>, row: Row)
    requires forall i, j :: 0 <= i < j < |rows| ==> rows[i].index != rows[j].index
    ensures multiset(rows)[row] <= 1
  {
    if |rows| > 0 {
      assert rows == [rows[0]] + rows[1..];
      RowOnce(rows[1..], row);
      assert forall k :: 0 <= k < |rows[1..]| ==> rows[1..][k] == rows[k + 1] && rows[k + 1].index != rows[0].index;
      assert rows[0] !in rows[1..];
      assert rows[0] !in multiset(rows[1..]);
    }
  }

  /** Run `i` comes before run `j`: created earlier, or at the same time with the smaller run id. */
  predicate ComesBefore(a: AutomationRun, b: AutomationRun) {
    a.createdAt < b.createdAt || (a.createdAt == b.createdAt && Below(a.runId, b.runId))
  }

  /** The runs are considered by creation time and run id: no run comes before one that is considered ahead of it. */
  lemma ClaimOrderSorted(runs: seq<AutomationRun>)
    ensures AllQueued(runs, ClaimOrder(runs))
    ensures var order := ClaimOrder(runs);
            forall p, q :: 0 <= p < q < |order| ==>
              order[p] < |runs| && order[q] < |runs| && !ComesBefore(runs[order[q]], runs[order[p]])
  {
    ClaimOrderCovers(runs);
    var order, rows := ClaimOrder(runs), QueuedRows(runs);
    var sorted := Sorting.Sort(RowLeq, rows);
    RowOrder();
    Sorting.SortSorted(RowLeq, rows);
    Sorting.SortPermutes(RowLeq, rows);
    Sorting.SameElements(rows, sorted);
    forall p, q | 0 <= p < q < |order|
      ensures order[p] < |runs| && order[q] < |runs| && !ComesBefore(runs[order[q]], runs[order[p]])
    {
      assert order[p] in order && order[q] in order && sorted[p] in rows && sorted[q] in rows;
      assert RowLeq(sorted[p], sorted[q]);
      Trichotomy(sorted[p].runId, sorted[q].runId);
    }
  }

  /** The pass of `claim_queued`. */
  ghost function ClaimPass(runs: seq<AutomationRun>, limits: HostLimits): (after: seq<AutomationRun>)
    ensures |after| == |runs|
  {
    ClaimOrderCovers(runs);
    ClaimInOrder(runs, ClaimOrder(runs), limits)
  }

  /** What `claim_queued` returns: the runs it started, in the order it considered them. */
  ghost function ClaimedRuns(runs: seq<AutomationRun>, limits: HostLimits): seq<AutomationRun> {
    ClaimOrderCovers(runs);
    StartedIn(ClaimPass(runs, limits), ClaimOrder(runs))
  }

  lemma {:induction false} StartedMembers(runs: seq<AutomationRun>, order: seq<nat>, r: AutomationRun)
    requires forall i :: i in order ==> i < |runs|
    ensures r in StartedIn(runs, order) <==> exists i :: i in order && runs[i] == r && r.status == Running
  {
    if |order| > 0 {
      var init, last := order[..|order| - 1], order[|order| - 1];
      assert order == init + [last];
      assert forall i :: i in init ==> i in order;
      StartedMembers(runs, init, r);
    }
  }

  /** The claimed runs are those that were queued and are running now. */
  lemma ClaimedAreStarted(runs: seq<AutomationRun>, limits: HostLimits, r: AutomationRun)
    ensures r in ClaimedRuns(runs, limits)
       <==> exists i: nat :: i < |runs| && runs[i].status == Queued
                             && ClaimPass(runs, limits)[i] == r && r.status == Running
  {
    ClaimOrderCovers(runs);
    StartedMembers(ClaimPass(runs, limits), ClaimOrder(runs), r);
  }

  /**
   No overtaking at the host cap: when a run was claimed, a run that comes before it and is still queued lacks a runtime
   budget or is held back by its own template's concurrency.
   */
  lemma NoOvertaking(runs: seq<AutomationRun>, limits: HostLimits, i: nat, j: nat)
    requires i < |runs| && j < |runs| && runs[i].status == runs[j].status == Queued
    requires ComesBefore(runs[i], runs[j])
    requires ClaimPass(runs, limits)[i].status == Queued && ClaimPass(runs, limits)[j].status == Running
    ensures NoRuntimeBudget(runs[i]) || OwnFull(ClaimPass(runs, limits), i)
  {
    ClaimOrderCovers(runs);
    ClaimOrderSorted(runs);
    var order := ClaimOrder(runs);
    assert i in order && j in order;
    var p :| 0 <= p < |order| && order[p] == i;
    var q :| 0 <= q < |order| && order[q] == j;
    Trichotomy(runs[i].runId, runs[j].runId);
    assert p < q;
    NoOvertakingIn(runs, order, limits, p, q);
  }
}
