/**
 The automation host (automation.rs, `AutomationManager` and `AutomationEngine`): polling interval schedules, windowed
 dedupe, recording and claiming.  Times are in one unit; persistence always succeeds.
 */
module AutomationManagers {
  import opened Names
  import opened Digits
  import opened DedupeWindows
  import opened JsonValues
  import opened ScheduleGrids
  import opened ClaimQueues
  import opened RunHistory

  datatype Automation = Automation(
    id: Name,
    trigger: Trigger,
    catchUp: CatchUpPolicy,
    enabled: bool,
    maxConcurrency: nat,
    maxModelSteps: nat,
    maxWallClockMs: nat)

  datatype Source = FromSchedule | FromManual

  /** What is written down when a run row is recorded. */
  datatype LogRow = LogRow(source: Source, automation: Name, instant: nat, status: RunStatus)

  function ScheduleKey(automation: Name, instant: nat): Name {
    Name("schedule:" + automation.text + ":" + Decimal(instant))
  }

  function ManualKey(automation: Name, now: nat, rows: nat): Name {
    Name("manual:" + automation.text + ":" + Decimal(now) + ":" + Decimal(rows))
  }

  function DeferKey(run: Name, reason: string): Name {
    Name("defer:" + run.text + ":" + reason)
  }

  function RunIdOf(automation: Name, sequence: nat): Name {
    Name("run-" + automation.text + "-" + Decimal(sequence))
  }

  lemma ScheduleKeyInjective(a: Name, t: nat, b: Name, u: nat)
    requires ScheduleKey(a, t) == ScheduleKey(b, u)
    ensures a == b && t == u
  {
    var x, y := "schedule:" + a.text, "schedule:" + b.text;
    assert x + [':'] + Decimal(t) == ScheduleKey(a, t).text && y + [':'] + Decimal(u) == ScheduleKey(b, u).text;
    SuffixInjective(x, y, ':', t, u);
    assert a.text == x[9..] && b.text == y[9..];
  }

  lemma RunIdInjective(a: Name, m: nat, b: Name, n: nat)
    requires RunIdOf(a, m) == RunIdOf(b, n)
    ensures a == b && m == n
  {
    var x, y := "run-" + a.text, "run-" + b.text;
    assert x + ['-'] + Decimal(m) == RunIdOf(a, m).text && y + ['-'] + Decimal(n) == RunIdOf(b, n).text;
    SuffixInjective(x, y, '-', m, n);
    assert a.text == x[4..] && b.text == y[4..];
  }

  /** Only schedule keys begin with an `s`. */
  lemma OtherKeysDiffer(key: Name, a: Name, t: nat)
    requires |key.text| > 0 && key.text[0] != 's'
    ensures key != ScheduleKey(a, t)
  {
    assert ScheduleKey(a, t).text[0] == 's';
  }

  // ---- what a poll records ----

  predicate Polled(a: Automation) {
    a.enabled && a.trigger.Interval?
  }

  /** The status a missed instant gets: the latest ones selected by the policy run, the others are set aside. */
  function PolicyStatus(policy: CatchUpPolicy, index: nat, missed: nat): RunStatus {
    if index + Selected(policy, missed) >= missed then Queued
    else if policy.Skip? then Missed
    else Coalesced
  }

  function ScheduleRows(a: Automation, missed: seq<nat>): seq<LogRow> {
    seq(|missed|, i requires 0 <= i < |missed| =>
      LogRow(FromSchedule, a.id, missed[i], PolicyStatus(a.catchUp, i, |missed|)))
  }

  function DueRows(a: Automation, lastChecked: map<Name, nat>, now: nat): seq<LogRow> {
    if Polled(a) && a.id in lastChecked && now > lastChecked[a.id]
    then ScheduleRows(a, MissedInstants(a.trigger, lastChecked[a.id], now))
    else []
  }

  /** Everything one poll records, automation by automation. */
  function PollRows(automations: seq<Automation>, lastChecked: map<Name, nat>, now: nat): seq<LogRow> {
    if |automations| == 0 then []
    else
      var n := |automations| - 1;
      PollRows(automations[..n], lastChecked, now) + DueRows(automations[n], lastChecked, now)
  }

  /** The run row of one missed instant. */
  function RunOf(a: Automation, row: LogRow, sequence: nat, now: nat): AutomationRun {
    AutomationRun(RunIdOf(a.id, sequence), a.id, a.maxConcurrency, a.maxModelSteps, a.maxWallClockMs,
                  ScheduleKey(a.id, row.instant), row.instant, now, row.status)
  }

  /** The run rows of recorded instants, numbered on from `sequence`. */
  function RunsOf(a: Automation, rows: seq<LogRow>, sequence: nat, now: nat): seq<AutomationRun> {
    seq(|rows|, i requires 0 <= i < |rows| => RunOf(a, rows[i], sequence + 1 + i, now))
  }

  ghost predicate IsRunOf(automations: seq<Automation>, run: AutomationRun, row: LogRow, sequence: nat, now: nat) {
    exists a :: a in automations && a.id == row.automation && run == RunOf(a, row, sequence, now)
  }

  /** One run row for each recorded row, made from the automation of that name and numbered on from `sequence`. */
  ghost predicate MadeFrom(
      automations: seq<Automation>, rows: seq<LogRow>, sequence: nat, now: nat, made: seq<AutomationRun>) {
    && |made| == |rows|
    && forall i: nat :: i < |rows| ==> IsRunOf(automations, made[i], rows[i], sequence + 1 + i, now)
  }

  function CheckedAt(lastChecked: map<Name, nat>, a: Automation, now: nat): map<Name, nat> {
    if Polled(a) && (a.id in lastChecked ==> now > lastChecked[a.id]) then lastChecked[a.id := now] else lastChecked
  }

  ghost predicate DistinctAutomations(automations: seq<Automation>) {
    forall i, j :: 0 <= i < j < |automations| ==> automations[i].id != automations[j].id
  }

  /** The first `n` automations have been checked at `now`, the others not yet. */
  ghost predicate CheckedUpTo(automations: seq<Automation>, n: nat, before: map<Name, nat>, after: map<Name, nat>,
                              now: nat) {
    forall k :: 0 <= k < |automations| ==>
      var id := automations[k].id;
      if k < n && Polled(automations[k]) then
        id in after && after[id] == if id in before && before[id] >= now then before[id] else now
      else if id in before then id in after && after[id] == before[id]
      else id !in after
  }

  // ---- the invariant ----

  /** The instants recorded for one automation's schedule, in order. */
  function Recorded(log: seq<LogRow>, id: Name): seq<nat> {
    if |log| == 0 then []
    else
      var last := log[|log| - 1];
      Recorded(log[..|log| - 1], id)
      + if last.source == FromSchedule && last.automation == id then [last.instant] else []
  }

  lemma {:induction false} RecordedAppend(a: seq<LogRow>, b: seq<LogRow>, id: Name)
    ensures Recorded(a + b, id) == Recorded(a, id) + Recorded(b, id)
  {
    if |b| == 0 {
      assert a + b == a;
    } else {
      assert (a + b)[..|a + b| - 1] == a + b[..|b| - 1];
      RecordedAppend(a, b[..|b| - 1], id);
    }
  }

  lemma {:induction false} RecordedRows(rows: seq<LogRow>, instants: seq<nat>, owner: Name, id: Name)
    requires |rows| == |instants|
    requires forall i :: 0 <= i < |rows| ==>
               rows[i].source == FromSchedule && rows[i].automation == owner && rows[i].instant == instants[i]
    ensures Recorded(rows, id) == if id == owner then instants else []
  {
    if |rows| > 0 {
      var n := |rows| - 1;
      RecordedRows(rows[..n], instants[..n], owner, id);
      assert instants == instants[..n] + [instants[n]];
    }
  }

  /** Every remembered schedule key is for an instant already checked. */
  ghost predicate KeysChecked(seen: map<Name, nat>, lastChecked: map<Name, nat>) {
    forall id: Name, t: nat :: ScheduleKey(id, t) in seen ==> id in lastChecked && t <= lastChecked[id]
  }

  /** Since its first check, each automation has exactly its missed instants recorded, once each and in order. */
  ghost predicate RecordedExactly(automations: seq<Automation>, log: seq<LogRow>, first: map<Name, nat>,
                                  last: map<Name, nat>) {
    first.Keys == last.Keys && forall k :: 0 <= k < |automations| ==>
      if automations[k].id in last then
        && first[automations[k].id] <= last[automations[k].id]
        && Recorded(log, automations[k].id)
           == MissedInstants(automations[k].trigger, first[automations[k].id], last[automations[k].id])
      else Recorded(log, automations[k].id) == []
  }

  ghost predicate NoneDuplicate(log: seq<LogRow>) {
    forall k :: 0 <= k < |log| && log[k].source == FromSchedule ==> log[k].status != Duplicate
  }

  /** Run ids are distinct and carry sequence numbers already used. */
  ghost predicate RunIdsUsed(runs: seq<AutomationRun>, sequence: nat) {
    DistinctIds(runs)
    && forall r :: r in runs ==> exists n: nat :: n <= sequence && r.runId == RunIdOf(r.automationId, n)
  }

  lemma NextRunIdNew(runs: seq<AutomationRun>, sequence: nat, run: AutomationRun)
    requires RunIdsUsed(runs, sequence) && run.runId == RunIdOf(run.automationId, sequence + 1)
    ensures RunIdsUsed(runs + [run], sequence + 1)
  {
    forall r | r in runs
      ensures r.runId != run.runId && exists n: nat :: n <= sequence + 1 && r.runId == RunIdOf(r.automationId, n)
    {
      var n: nat :| n <= sequence && r.runId == RunIdOf(r.automationId, n);
      if r.runId == run.runId {
        RunIdInjective(r.automationId, n, run.automationId, sequence + 1);
      }
    }
    forall i, j | 0 <= i < j < |runs + [run]| ensures (runs + [run])[i].runId != (runs + [run])[j].runId {
      if j == |runs| {
        assert runs[i] in runs;
      }
    }
  }

  lemma TrimKeepsRunIds(runs: seq<AutomationRun>, sequence: nat)
    requires RunIdsUsed(runs, sequence)
    ensures RunIdsUsed(Trimmed(runs), sequence)
  {
    WithoutIdsMembers(runs, set id | id in FirstFinished(runs, Excess(runs)));
  }

  lemma RecordKeepsRunIds(runs: seq<AutomationRun>, sequence: nat, run: AutomationRun)
    requires RunIdsUsed(runs, sequence) && run.runId == RunIdOf(run.automationId, sequence + 1)
    ensures DistinctIds(runs + [run]) && RunIdsUsed(Trimmed(runs + [run]), sequence + 1)
  {
    NextRunIdNew(runs, sequence, run);
    TrimKeepsRunIds(runs + [run], sequence + 1);
  }

  /** By the record invariant each grid point since the first check is recorded once, and nothing else is. */
  lemma RecordedOnceEach(automations: seq<Automation>, log: seq<LogRow>, first: map<Name, nat>, last: map<Name, nat>,
                         k: nat)
    requires RecordedExactly(automations, log, first, last) && k < |automations| && automations[k].id in last
    requires automations[k].trigger.Interval? && automations[k].trigger.every > 0
    ensures var a, instants := automations[k], Recorded(log, automations[k].id);
            && (forall t: nat :: t in instants <==>
                  OnGrid(a.trigger.every, a.trigger.anchor, t) && first[a.id] < t <= last[a.id])
            && (forall i, j :: 0 <= i < j < |instants| ==> instants[i] < instants[j])
  {
    var a := automations[k];
    InstantsExact(a.trigger.every, a.trigger.anchor, first[a.id], last[a.id]);
  }

  /** One automation's check extends the record by exactly the instants since the last one. */
  lemma CheckExtendsRecord(automations: seq<Automation>, log: seq<LogRow>, first: map<Name, nat>, last: map<Name, nat>,
                           i: nat, now: nat)
    requires i < |automations| && DistinctAutomations(automations) && automations[i].id in last
    requires RecordedExactly(automations, log, first, last) && last[automations[i].id] <= now
    ensures var a := automations[i];
            RecordedExactly(automations, log + ScheduleRows(a, MissedInstants(a.trigger, last[a.id], now)),
                            first, last[a.id := now])
  {
    var a := automations[i];
    var missed := MissedInstants(a.trigger, last[a.id], now);
    forall k | 0 <= k < |automations|
      ensures Recorded(log + ScheduleRows(a, missed), automations[k].id)
              == Recorded(log, automations[k].id) + if k == i then missed else []
    {
      RecordedAppend(log, ScheduleRows(a, missed), automations[k].id);
      RecordedRows(ScheduleRows(a, missed), missed, a.id, automations[k].id);
    }
    InstantsSplit(a.trigger, first[a.id], last[a.id], now);
  }

  lemma FirstCheckRecordsNothing(automations: seq<Automation>, log: seq<LogRow>, first: map<Name, nat>,
                                 last: map<Name, nat>, i: nat, now: nat)
    requires i < |automations| && DistinctAutomations(automations) && automations[i].id !in last
    requires RecordedExactly(automations, log, first, last)
    ensures RecordedExactly(automations, log, first[automations[i].id := now], last[automations[i].id := now])
  {
    var a := automations[i];
    assert MissedInstants(a.trigger, now, now) == [];
  }

  lemma Associative<T>(a: seq<T>, b: seq<T>, c: seq<T>)
    ensures a + b + c == a + (b + c)
  {
  }

  ghost predicate Keeps(before: map<Name, nat>, after: map<Name, nat>) {
    forall id :: id in before ==> id in after && after[id] == before[id]
  }

  /** One automation's share of a poll does not depend on the others'. */
  lemma PollStep(automations: seq<Automation>, i: nat, start: map<Name, nat>, before: map<Name, nat>, now: nat)
    requires i < |automations| && DistinctAutomations(automations) && CheckedUpTo(automations, i, start, before, now)
    ensures PollRows(automations[..i + 1], start, now)
            == PollRows(automations[..i], start, now) + DueRows(automations[i], before, now)
    ensures CheckedUpTo(automations, i + 1, start, CheckedAt(before, automations[i], now), now)
  {
    assert automations[..i + 1][..i] == automations[..i];
    assert DueRows(automations[i], before, now) == DueRows(automations[i], start, now);
  }

  // ---- catching up ----

  function FindEnabled(automations: seq<Automation>, id: Name): (found: Option<Automation>)
    ensures found.Some? ==> found.value in automations && found.value.id == id && found.value.enabled
    ensures found.None? ==> forall a :: a in automations ==> a.id != id || !a.enabled
  {
    if |automations| == 0 then None
    else
      assert automations == [automations[0]] + automations[1..];
      if automations[0].id == id && automations[0].enabled then Some(automations[0])
      else FindEnabled(automations[1..], id)
  }

  lemma FindsOwn(automations: seq<Automation>, i: nat)
    requires DistinctAutomations(automations) && i < |automations| && automations[i].enabled
    ensures FindEnabled(automations, automations[i].id) == Some(automations[i])
  {
    assert automations[i] in automations;
  }

  /** The dedupe window after the first `i` missed instants were triggered. */
  function SeenAfter(a: Automation, missed: seq<nat>, seen: map<Name, nat>, now: nat, i: nat): map<Name, nat>
    requires i <= |missed|
  {
    if i == 0 then seen
    else Remembered(SeenAfter(a, missed, seen, now, i - 1), ScheduleKey(a.id, missed[i - 1]), now)
  }

  /** The row of one missed instant: a duplicate if its key is still remembered, else what the policy says. */
  function CatchUpRow(a: Automation, missed: seq<nat>, seen: map<Name, nat>, now: nat, i: nat): LogRow
    requires i < |missed|
  {
    LogRow(FromSchedule, a.id, missed[i],
           if ScheduleKey(a.id, missed[i]) in Pruned(SeenAfter(a, missed, seen, now, i), now) then Duplicate
           else PolicyStatus(a.catchUp, i, |missed|))
  }

  /** The rows of the first `n` missed instants. */
  function CatchUpRows(a: Automation, missed: seq<nat>, seen: map<Name, nat>, now: nat, n: nat): seq<LogRow>
    requires n <= |missed|
  {
    seq(n, i requires 0 <= i < n => CatchUpRow(a, missed, seen, now, i))
  }

  /** The instants of the queued rows. */
  function QueuedInstants(rows: seq<LogRow>): seq<nat> {
    if |rows| == 0 then []
    else
      var last := rows[|rows| - 1];
      QueuedInstants(rows[..|rows| - 1]) + if last.status == Queued then [last.instant] else []
  }

  function Instants(runs: seq<AutomationRun>): seq<nat> {
    seq(|runs|, i requires 0 <= i < |runs| => runs[i].scheduledFor)
  }

  lemma InstantsAppend(a: seq<AutomationRun>, b: seq<AutomationRun>)
    ensures Instants(a + b) == Instants(a) + Instants(b)
  {
  }

  lemma QueuedAppend(rows: seq<LogRow>, row: LogRow)
    ensures QueuedInstants(rows + [row]) == QueuedInstants(rows) + if row.status == Queued then [row.instant] else []
  {
    assert (rows + [row])[..|rows|] == rows;
  }

  /** Step `k` adds at most the key of instant `k`. */
  predicate AddsOne(steps: seq<map<Name, nat>>, a: Name, missed: seq<nat>, k: nat) {
    k + 1 < |steps| && k < |missed| && steps[k + 1].Keys <= steps[k].Keys + {ScheduleKey(a, missed[k])}
  }

  lemma {:induction false} StaysWithin(steps: seq<map<Name, nat>>, a: Name, missed: seq<nat>, i: nat)
    requires i < |steps| <= |missed| + 1
    requires forall k: nat :: k + 1 < |steps| ==> AddsOne(steps, a, missed, k)
    ensures KeysWithin(steps[i], steps[0], a, missed[..i])
  {
    if i > 0 {
      var k := i - 1;
      StaysWithin(steps, a, missed, k);
      assert AddsOne(steps, a, missed, k);
      assert missed[..i] == missed[..k] + [missed[k]];
      KeysAfterOne(steps[i], steps[k], steps[0], a, missed[..k], missed[k], missed[..i]);
    }
  }

  lemma SeenOneMore(a: Automation, missed: seq<nat>, seen: map<Name, nat>, now: nat, i: nat)
    requires i < |missed|
    ensures SeenAfter(a, missed, seen, now, i + 1).Keys
            <= SeenAfter(a, missed, seen, now, i).Keys + {ScheduleKey(a.id, missed[i])}
  {
    RememberedWithin(SeenAfter(a, missed, seen, now, i), ScheduleKey(a.id, missed[i]), now);
  }

  function SeenSteps(a: Automation, missed: seq<nat>, seen: map<Name, nat>, now: nat): seq<map<Name, nat>> {
    seq(|missed| + 1, k requires 0 <= k <= |missed| => SeenAfter(a, missed, seen, now, k))
  }

  lemma SeenStepsAdd(a: Automation, missed: seq<nat>, seen: map<Name, nat>, now: nat)
    ensures forall k: nat :: k < |missed| ==> AddsOne(SeenSteps(a, missed, seen, now), a.id, missed, k)
  {
    forall k: nat | k < |missed| ensures AddsOne(SeenSteps(a, missed, seen, now), a.id, missed, k) {
      SeenOneMore(a, missed, seen, now, k);
    }
  }

  lemma SeenStaysWithin(a: Automation, missed: seq<nat>, seen: map<Name, nat>, now: nat, i: nat)
    requires i <= |missed|
    ensures KeysWithin(SeenAfter(a, missed, seen, now, i), seen, a.id, missed[..i])
  {
    SeenStepsAdd(a, missed, seen, now);
    StaysWithin(SeenSteps(a, missed, seen, now), a.id, missed, i);
  }

  /** Instants whose keys are not remembered get exactly their policy rows: none counts as a duplicate of another. */
  lemma FreshCatchUp(a: Automation, missed: seq<nat>, seen: map<Name, nat>, now: nat)
    requires forall i, j :: 0 <= i < j < |missed| ==> missed[i] < missed[j]
    requires forall i :: 0 <= i < |missed| ==> ScheduleKey(a.id, missed[i]) !in seen
    ensures CatchUpRows(a, missed, seen, now, |missed|) == ScheduleRows(a, missed)
  {
    forall i | 0 <= i < |missed| ensures CatchUpRow(a, missed, seen, now, i) == ScheduleRows(a, missed)[i] {
      SeenStaysWithin(a, missed, seen, now, i);
      assert missed[i] !in missed[..i];
      assert ScheduleKey(a.id, missed[i]) !in SeenAfter(a, missed, seen, now, i);
    }
  }

  lemma {:induction false} QueuedInstantsAppend(a: seq<LogRow>, b: seq<LogRow>)
    ensures QueuedInstants(a + b) == QueuedInstants(a) + QueuedInstants(b)
  {
    if |b| == 0 {
      assert a + b == a;
    } else {
      var init, last := b[..|b| - 1], b[|b| - 1];
      QueuedInstantsAppend(a, init);
      assert a + b == (a + init) + [last];
      QueuedAppend(a + init, last);
    }
  }

  lemma RunsOneMore(a: Automation, rows: seq<LogRow>, row: LogRow, sequence: nat, now: nat)
    ensures RunsOf(a, rows + [row], sequence, now)
            == RunsOf(a, rows, sequence, now) + [RunOf(a, row, sequence + |rows| + 1, now)]
  {
  }

  /** The queued run rows are those of the queued instants. */
  lemma {:induction false} QueuedRuns(a: Automation, rows: seq<LogRow>, sequence: nat, now: nat)
    ensures Instants(QueuedOf(RunsOf(a, rows, sequence, now))) == QueuedInstants(rows)
  {
    if |rows| > 0 {
      var init, last := rows[..|rows| - 1], rows[|rows| - 1];
      QueuedRuns(a, init, sequence, now);
      assert rows == init + [last];
      RunsOneMore(a, init, last, sequence, now);
      HistoryOneMore([], RunsOf(a, init, sequence, now), RunOf(a, last, sequence + |init| + 1, now));
    }
  }

  lemma QueuedTogether(a: seq<AutomationRun>, b: seq<AutomationRun>, rows: seq<LogRow>, more: seq<LogRow>)
    requires Instants(a) == QueuedInstants(rows) && Instants(b) == QueuedInstants(more)
    ensures Instants(a + b) == QueuedInstants(rows + more)
  {
    InstantsAppend(a, b);
    QueuedInstantsAppend(rows, more);
  }

  lemma MadeFromAppend(automations: seq<Automation>, rows: seq<LogRow>, more: seq<LogRow>, sequence: nat, now: nat,
                       made: seq<AutomationRun>, due: seq<AutomationRun>)
    requires MadeFrom(automations, rows, sequence, now, made)
    requires MadeFrom(automations, more, sequence + |made|, now, due)
    ensures MadeFrom(automations, rows + more, sequence, now, made + due)
  {
    forall i: nat | i < |rows + more|
      ensures IsRunOf(automations, (made + due)[i], (rows + more)[i], sequence + 1 + i, now)
    {
      if i >= |rows| {
        var j: nat := i - |rows|;
        assert IsRunOf(automations, due[j], more[j], sequence + |made| + 1 + j, now);
      }
    }
  }

  lemma RunsMadeFrom(automations: seq<Automation>, a: Automation, rows: seq<LogRow>, sequence: nat, now: nat)
    requires a in automations && forall i :: 0 <= i < |rows| ==> rows[i].automation == a.id
    ensures MadeFrom(automations, rows, sequence, now, RunsOf(a, rows, sequence, now))
  {
  }

  /** The runs made were recorded in turn, and the queued ones are those created. */
  ghost predicate Made(before: Books, made: seq<AutomationRun>, after: Books, created: seq<AutomationRun>) {
    && after.runs == History(before.runs, made) && created == QueuedOf(made)
    && after.sequence == before.sequence + |made|
  }

  /** The rows were logged, their runs recorded, and the runs of the queued instants are those created. */
  ghost predicate Polls(automations: seq<Automation>, rows: seq<LogRow>, now: nat, before: Books,
                        made: seq<AutomationRun>, after: Books, created: seq<AutomationRun>) {
    && after.log == before.log + rows
    && MadeFrom(automations, rows, before.sequence, now, made) && Made(before, made, after, created)
    && Instants(created) == QueuedInstants(rows)
    && Unfinished(after.runs) == Unfinished(before.runs) + created
  }

  lemma PollsNothing(automations: seq<Automation>, now: nat, books: Books)
    ensures Polls(automations, [], now, books, [], books, [])
  {
  }

  lemma PollsMore(automations: seq<Automation>, now: nat, before: Books, mid: Books, after: Books,
                  rows: seq<LogRow>, made: seq<AutomationRun>, created: seq<AutomationRun>,
                  dueRows: seq<LogRow>, due: seq<AutomationRun>, more: seq<AutomationRun>)
    requires Polls(automations, rows, now, before, made, mid, created)
    requires Polls(automations, dueRows, now, mid, due, after, more)
    ensures Polls(automations, rows + dueRows, now, before, made + due, after, created + more)
  {
    Associative(before.log, rows, dueRows);
    MadeFromAppend(automations, rows, dueRows, before.sequence, now, made, due);
    HistoryAppend(before.runs, made, due);
    QueuedTogether(created, more, rows, dueRows);
    Associative(Unfinished(before.runs), created, more);
  }

  /** What catching up writes: the log of rows, the dedupe window, the recent runs and the last sequence number. */
  datatype Books = Books(log: seq<LogRow>, seen: map<Name, nat>, runs: seq<AutomationRun>, sequence: nat)

  /** The first `i` missed instants have their rows, each recorded in turn, and the queued ones are those created. */
  ghost predicate CaughtUp(a: Automation, missed: seq<nat>, now: nat, before: Books, after: Books,
                           created: seq<AutomationRun>, i: nat)
    requires i <= |missed|
  {
    var rows := CatchUpRows(a, missed, before.seen, now, i);
    var made := RunsOf(a, rows, before.sequence, now);
    && after.log == before.log + rows && after.seen == SeenAfter(a, missed, before.seen, now, i)
    && after.sequence == before.sequence + i
    && after.runs == History(before.runs, made) && created == QueuedOf(made)
    && Unfinished(after.runs) == Unfinished(before.runs) + created
  }

  lemma CaughtUpMade(automations: seq<Automation>, a: Automation, missed: seq<nat>, now: nat, before: Books,
                     after: Books, created: seq<AutomationRun>, rows: seq<LogRow>)
    requires a in automations && rows == CatchUpRows(a, missed, before.seen, now, |missed|)
    requires CaughtUp(a, missed, now, before, after, created, |missed|)
    ensures Polls(automations, rows, now, before, RunsOf(a, rows, before.sequence, now), after, created)
  {
    RunsMadeFrom(automations, a, rows, before.sequence, now);
    QueuedRuns(a, rows, before.sequence, now);
  }

  lemma OneMoreRow(a: Automation, missed: seq<nat>, seen: map<Name, nat>, now: nat, i: nat)
    requires i < |missed|
    ensures CatchUpRows(a, missed, seen, now, i + 1)
            == CatchUpRows(a, missed, seen, now, i) + [CatchUpRow(a, missed, seen, now, i)]
  {
  }

  /** One more recorded row, on values: the history and what is queued. */
  lemma RecordedMore(a: Automation, rows: seq<LogRow>, row: LogRow, sequence: nat, now: nat,
                     runs: seq<AutomationRun>, run: AutomationRun)
    requires run == RunOf(a, row, sequence + |rows| + 1, now)
    ensures var made, more := RunsOf(a, rows, sequence, now), RunsOf(a, rows + [row], sequence, now);
            && History(runs, more) == Trimmed(History(runs, made) + [run])
            && QueuedOf(more) == QueuedOf(made) + if run.status == Queued then [run] else []
  {
    RunsOneMore(a, rows, row, sequence, now);
    HistoryOneMore(runs, RunsOf(a, rows, sequence, now), run);
  }

  lemma CaughtUpMore(a: Automation, missed: seq<nat>, now: nat, before: Books, mid: Books, after: Books,
                     created: seq<AutomationRun>, run: AutomationRun, i: nat)
    requires i < |missed| && CaughtUp(a, missed, now, before, mid, created, i)
    requires after.log == mid.log + [CatchUpRow(a, missed, before.seen, now, i)]
    requires after.seen == SeenAfter(a, missed, before.seen, now, i + 1) && after.sequence == mid.sequence + 1
    requires run == RunOf(a, CatchUpRow(a, missed, before.seen, now, i), after.sequence, now)
    requires after.runs == Trimmed(mid.runs + [run])
    requires Unfinished(after.runs) == Unfinished(mid.runs) + if run.status == Queued then [run] else []
    ensures CaughtUp(a, missed, now, before, after, created + if run.status == Queued then [run] else [], i + 1)
  {
    var rows, row := CatchUpRows(a, missed, before.seen, now, i), CatchUpRow(a, missed, before.seen, now, i);
    OneMoreRow(a, missed, before.seen, now, i);
    RecordedMore(a, rows, row, before.sequence, now, before.runs, run);
    Associative(before.log, rows, [row]);
    Associative(Unfinished(before.runs), created, if run.status == Queued then [run] else []);
  }

  class AutomationManager {
    const automations: seq<Automation>
    var recentRuns: seq<AutomationRun>
    var seen: map<Name, nat>
    var sequence: nat
    var lastChecked: map<Name, nat>
    ghost var firstChecked: map<Name, nat>
    ghost var log: seq<LogRow>

    /**
     The record invariant.  `firstChecked` is when each automation was first observed; `log` lists every row ever
     recorded, also those trimmed from `recentRuns` since.
     */
    ghost predicate Valid()
      reads this
    {
      && DistinctAutomations(automations)
      && KeysChecked(seen, lastChecked)
      && RecordedExactly(automations, log, firstChecked, lastChecked)
      && NoneDuplicate(log)
      && RunIdsUsed(recentRuns, sequence)
    }

    constructor (automations: seq<Automation>)
      requires DistinctAutomations(automations)
      ensures Valid() && recentRuns == [] && lastChecked == map[] && log == []
    {
      this.automations := automations;
      recentRuns, seen, sequence, lastChecked := [], map[], 0, map[];
      firstChecked, log := map[], [];
    }

    /** Remembers a dedupe key; false when it was remembered within the window. */
    method Remember(key: Name, now: nat) returns (isNew: bool)
      modifies this`seen
      ensures isNew <==> key !in Pruned(old(seen), now)
      ensures seen == Remembered(old(seen), key, now)
    {
      seen := Pruned(seen, now);
      if key in seen {
        seen := seen[key := now];
        return false;
      }
      seen := seen[key := now];
      while |seen| > DEDUPE_MAX_ENTRIES
        invariant Evicted(seen) == Remembered(old(seen), key, now)
        decreases |seen|
      {
        var oldest := Oldest(seen);
        OneFewer(seen, oldest);
        seen := seen - {oldest};
      }
      return true;
    }

    /** Makes a run row; it is a duplicate when its key was remembered. */
    method TriggerRun(a: Automation, scheduledFor: nat, key: Name, now: nat) returns (run: AutomationRun)
      modifies this`seen, this`sequence
      ensures sequence == old(sequence) + 1
      ensures seen == Remembered(old(seen), key, now)
      ensures run.status == if key in Pruned(old(seen), now) then Duplicate else Queued
      ensures run == AutomationRun(RunIdOf(a.id, sequence), a.id, a.maxConcurrency, a.maxModelSteps,
                                   a.maxWallClockMs, key, scheduledFor, now, run.status)
    {
      sequence := sequence + 1;
      var isNew := Remember(key, now);
      run := AutomationRun(RunIdOf(a.id, sequence), a.id, a.maxConcurrency, a.maxModelSteps, a.maxWallClockMs,
                           key, scheduledFor, now, if isNew then Queued else Duplicate);
    }

    /** Appends the row and trims the finished history. */
    method RecordTrigger(run: AutomationRun, source: Source)
      requires DistinctIds(recentRuns + [run])
      modifies this`recentRuns, this`log
      ensures recentRuns == Trimmed(old(recentRuns) + [run])
      ensures Unfinished(recentRuns) == Unfinished(old(recentRuns)) + if Finished(run) then [] else [run]
      ensures log == old(log) + [LogRow(source, run.automationId, run.scheduledFor, run.status)]
    {
      log := log + [LogRow(source, run.automationId, run.scheduledFor, run.status)];
      recentRuns := recentRuns + [run];
      TrimKeepsUnfinished(recentRuns);
      assert recentRuns[..|old(recentRuns)|] == old(recentRuns);
      recentRuns := Trimmed(recentRuns);
    }

    /** One missed instant: triggered, given its policy status unless it is a duplicate, and recorded. */
    method RecordMissed(a: Automation, instant: nat, status: RunStatus, now: nat) returns (run: AutomationRun)
      requires RunIdsUsed(recentRuns, sequence)
      modifies this`recentRuns, this`log, this`seen, this`sequence
      ensures RunIdsUsed(recentRuns, sequence)
      ensures seen == Remembered(old(seen), ScheduleKey(a.id, instant), now)
      ensures run.status == if ScheduleKey(a.id, instant) in Pruned(old(seen), now) then Duplicate else status
      ensures log == old(log) + [LogRow(FromSchedule, a.id, instant, run.status)] && sequence == old(sequence) + 1
      ensures run == RunOf(a, LogRow(FromSchedule, a.id, instant, run.status), sequence, now)
      ensures recentRuns == Trimmed(old(recentRuns) + [run])
      ensures Unfinished(recentRuns) == Unfinished(old(recentRuns)) + if Finished(run) then [] else [run]
    {
      run := TriggerRun(a, instant, ScheduleKey(a.id, instant), now);
      if run.status != Duplicate {
        run := run.(status := status);
      }
      RecordKeepsRunIds(recentRuns, sequence - 1, run);
      RecordTrigger(run, FromSchedule);
    }

    /**
     Records every missed instant after `last`, whatever is remembered; returns the queued runs.  A missing or disabled
     automation is an error, and nothing is recorded.
     */
    method CatchUp(id: Name, last: nat, now: nat) returns (created: Option<seq<AutomationRun>>)
      requires RunIdsUsed(recentRuns, sequence)
      modifies this`recentRuns, this`log, this`seen, this`sequence
      ensures RunIdsUsed(recentRuns, sequence)
      ensures created.None? <==> FindEnabled(automations, id).None?
      ensures created.None? ==> recentRuns == old(recentRuns) && log == old(log) && seen == old(seen)
      ensures created.Some? ==>
                var a := FindEnabled(automations, id).value;
                var missed := MissedInstants(a.trigger, last, now);
                CaughtUp(a, missed, now, old(CurrentBooks()), CurrentBooks(), created.value, |missed|)
    {
      var found := FindEnabled(automations, id);
      if found.None? {
        return None;
      }
      var missed := CollectInstants(found.value.trigger, last, now);
      MissedAscending(found.value.trigger, last, now);
      var runs := RecordAll(found.value, missed, now);
      return Some(runs);
    }

    ghost function CurrentBooks(): Books
      reads this`log, this`seen, this`recentRuns, this`sequence
    {
      Books(log, seen, recentRuns, sequence)
    }

    /** The loop over the missed instants. */
    method RecordAll(a: Automation, missed: seq<nat>, now: nat) returns (created: seq<AutomationRun>)
      requires RunIdsUsed(recentRuns, sequence)
      requires forall i, j :: 0 <= i < j < |missed| ==> missed[i] < missed[j]
      modifies this`recentRuns, this`log, this`seen, this`sequence
      ensures RunIdsUsed(recentRuns, sequence)
      ensures CaughtUp(a, missed, now, old(CurrentBooks()), CurrentBooks(), created, |missed|)
    {
      var selected := CatchUpTimes(a.catchUp, missed);
      ghost var before := CurrentBooks();
      created := [];
      for i := 0 to |missed|
        invariant RunIdsUsed(recentRuns, sequence)
        invariant CaughtUp(a, missed, now, before, CurrentBooks(), created, i)
      {
        SelectedAt(a.catchUp, missed, i);
        ghost var mid := CurrentBooks();
        var run := CatchUpOne(a, missed, i, missed[i] in selected, now, before.seen);
        CaughtUpMore(a, missed, now, before, mid, CurrentBooks(), created, run, i);
        created := created + if run.status == Queued then [run] else [];
      }
    }

    /** The round of one missed instant. */
    method CatchUpOne(a: Automation, missed: seq<nat>, i: nat, isSelected: bool, now: nat, ghost before: map<Name, nat>)
      returns (run: AutomationRun)
      requires RunIdsUsed(recentRuns, sequence) && i < |missed| && seen == SeenAfter(a, missed, before, now, i)
      requires isSelected <==> i + Selected(a.catchUp, |missed|) >= |missed|
      modifies this`recentRuns, this`log, this`seen, this`sequence
      ensures RunIdsUsed(recentRuns, sequence)
      ensures log == old(log) + [CatchUpRow(a, missed, before, now, i)]
      ensures seen == SeenAfter(a, missed, before, now, i + 1) && sequence == old(sequence) + 1
      ensures run == RunOf(a, CatchUpRow(a, missed, before, now, i), sequence, now)
      ensures recentRuns == Trimmed(old(recentRuns) + [run])
      ensures Unfinished(recentRuns) == Unfinished(old(recentRuns)) + if run.status == Queued then [run] else []
    {
      var status := if isSelected then Queued else if a.catchUp.Skip? then Missed else Coalesced;
      run := RecordMissed(a, missed[i], status, now);
    }

    /**
     Records, for every interval automation observed before, each instant since its last check; a first observation
     records nothing.
     */
    method PollDue(now: nat) returns (created: seq<AutomationRun>, ghost made: seq<AutomationRun>)
      requires Valid()
      modifies this
      ensures Valid()
      ensures log == old(log) + PollRows(automations, old(lastChecked), now)
      ensures CheckedUpTo(automations, |automations|, old(lastChecked), lastChecked, now)
      ensures MadeFrom(automations, PollRows(automations, old(lastChecked), now), old(sequence), now, made)
      ensures recentRuns == History(old(recentRuns), made) && created == QueuedOf(made)
      ensures Instants(created) == QueuedInstants(PollRows(automations, old(lastChecked), now))
      ensures Unfinished(recentRuns) == Unfinished(old(recentRuns)) + created
      ensures forall r :: r in created ==> r.status == Queued
      ensures Keeps(old(firstChecked), firstChecked)
    {
      created, made := [], [];
      assert automations[..0] == [];
      PollsNothing(automations, now, CurrentBooks());
      for i := 0 to |automations|
        invariant Valid()
        invariant Polls(automations, PollRows(automations[..i], old(lastChecked), now), now, old(CurrentBooks()), made,
                        CurrentBooks(), created)
        invariant CheckedUpTo(automations, i, old(lastChecked), lastChecked, now)
        invariant Keeps(old(firstChecked), firstChecked)
      {
        ghost var before, mid := lastChecked, CurrentBooks();
        ghost var rows := PollRows(automations[..i], old(lastChecked), now);
        PollStep(automations, i, old(lastChecked), before, now);
        var more, due := PollOne(i, now);
        PollsMore(automations, now, old(CurrentBooks()), mid, CurrentBooks(), rows, made, created,
                  DueRows(automations[i], before, now), due, more);
        created, made := created + more, made + due;
      }
      assert automations[..|automations|] == automations;
      QueuedOfMembers(made);
    }

    /** Catching up one automation none of whose keys is remembered: its rows are the policy's. */
    method CatchUpDue(i: nat, now: nat, last: nat)
      returns (created: seq<AutomationRun>, ghost made: seq<AutomationRun>)
      requires RunIdsUsed(recentRuns, sequence) && DistinctAutomations(automations)
      requires i < |automations| && automations[i].enabled
      requires var a, missed := automations[i], MissedInstants(automations[i].trigger, last, now);
               CatchUpRows(a, missed, seen, now, |missed|) == ScheduleRows(a, missed)
      modifies this`recentRuns, this`log, this`seen, this`sequence
      ensures RunIdsUsed(recentRuns, sequence)
      ensures var a, missed := automations[i], MissedInstants(automations[i].trigger, last, now);
              && seen == SeenAfter(a, missed, old(seen), now, |missed|)
              && Polls(automations, ScheduleRows(a, missed), now, old(CurrentBooks()), made, CurrentBooks(), created)
    {
      var a := automations[i];
      ghost var missed := MissedInstants(a.trigger, last, now);
      ghost var rows, before := ScheduleRows(a, missed), CurrentBooks();
      FindsOwn(automations, i);
      var caughtUp := CatchUp(a.id, last, now);
      created, made := caughtUp.value, RunsOf(a, rows, before.sequence, now);
      CaughtUpMade(automations, a, missed, now, before, CurrentBooks(), created, rows);
    }

    /** The check of one automation. */
    method PollOne(i: nat, now: nat) returns (created: seq<AutomationRun>, ghost made: seq<AutomationRun>)
      requires Valid() && i < |automations|
      modifies this
      ensures Valid()
      ensures lastChecked == CheckedAt(old(lastChecked), automations[i], now)
      ensures Polls(automations, DueRows(automations[i], old(lastChecked), now), now, old(CurrentBooks()), made,
                    CurrentBooks(), created)
      ensures Keeps(old(firstChecked), firstChecked)
    {
      var a := automations[i];
      created, made := [], [];
      PollsNothing(automations, now, CurrentBooks());
      if !Polled(a) {
        return;
      }
      if a.id !in lastChecked {
        FirstCheckRecordsNothing(automations, log, firstChecked, lastChecked, i, now);
        FirstCheckKeepsKeys(seen, lastChecked, a.id, now);
        lastChecked := lastChecked[a.id := now];
        firstChecked := firstChecked[a.id := now];
      } else if now > lastChecked[a.id] {
        DueKeepsRecord(automations, log, seen, firstChecked, lastChecked, i, now);
        created, made := CatchUpDue(i, now, lastChecked[a.id]);
        lastChecked := lastChecked[a.id := now];
      }
    }

    /**
     A manual run is recorded beside the schedule and leaves its record alone; a missing or disabled automation is an
     error, and nothing changes.
     */
    method TriggerManual(id: Name, now: nat) returns (run: Option<AutomationRun>)
      requires Valid()
      modifies this
      ensures Valid() && lastChecked == old(lastChecked)
      ensures run.None? <==> FindEnabled(automations, id).None?
      ensures run.None? ==> recentRuns == old(recentRuns) && log == old(log) && seen == old(seen)
      ensures run.Some? ==>
                && run.value.automationId == id && run.value.status in {Queued, Duplicate}
                && log == old(log) + [LogRow(FromManual, id, now, run.value.status)]
                && recentRuns == Trimmed(old(recentRuns) + [run.value])
                && Unfinished(recentRuns)
                   == Unfinished(old(recentRuns)) + if Finished(run.value) then [] else [run.value]
    {
      var found := FindEnabled(automations, id);
      if found.None? {
        return None;
      }
      var key := ManualKey(id, now, |recentRuns|);
      var manual := RecordManual(found.value, key, now);
      OtherRowsKeepRecord(automations, old(log), LogRow(FromManual, id, now, manual.status), firstChecked, lastChecked);
      OtherKeyKeepsChecked(seen, old(seen), lastChecked, key);
      return Some(manual);
    }

    method RecordManual(a: Automation, key: Name, now: nat) returns (run: AutomationRun)
      requires RunIdsUsed(recentRuns, sequence)
      modifies this`recentRuns, this`log, this`seen, this`sequence
      ensures RunIdsUsed(recentRuns, sequence)
      ensures seen.Keys <= old(seen).Keys + {key}
      ensures run.automationId == a.id && run.status in {Queued, Duplicate}
      ensures log == old(log) + [LogRow(FromManual, a.id, now, run.status)]
      ensures recentRuns == Trimmed(old(recentRuns) + [run])
      ensures Unfinished(recentRuns) == Unfinished(old(recentRuns)) + if Finished(run) then [] else [run]
    {
      RememberedWithin(seen, key, now);
      run := TriggerRun(a, now, key, now);
      RecordKeepsRunIds(recentRuns, sequence - 1, run);
      RecordTrigger(run, FromManual);
    }

    /** Starts queued runs in order while the host and their own template leave room. */
    method ClaimQueued(now: nat, limits: HostLimits) returns (claimed: seq<AutomationRun>)
      requires Valid()
      modifies this
      ensures Valid() && lastChecked == old(lastChecked) && log == old(log)
      ensures recentRuns == ClaimPass(old(recentRuns), limits)
      ensures claimed == ClaimedRuns(old(recentRuns), limits)
      ensures |claimed| + |RunningAt(old(recentRuns))| == |RunningAt(recentRuns)|
    {
      var order := ClaimOrder(recentRuns);
      ClaimOrderCovers(recentRuns);
      ghost var before := recentRuns;
      claimed := ClaimListed(order, now, limits);
      ClaimsOnlyStart(before, order, limits);
      StartsKeepRunIds(before, recentRuns, order, sequence);
    }

    method ClaimListed(order: seq<nat>, now: nat, limits: HostLimits) returns (claimed: seq<AutomationRun>)
      requires AllQueued(recentRuns, order) && DistinctOrder(order) && KeysChecked(seen, lastChecked)
      modifies this`recentRuns, this`seen
      ensures KeysChecked(seen, lastChecked)
      ensures recentRuns == ClaimInOrder(old(recentRuns), order, limits)
      ensures claimed == StartedIn(recentRuns, order)
      ensures |claimed| + |RunningAt(old(recentRuns))| == |RunningAt(recentRuns)|
    {
      var running := Count(recentRuns, Name(""), true);
      CountMeaning(recentRuns, Name(""));
      claimed := [];
      ghost var before := recentRuns;
      assert order[..0] == [];
      for k := 0 to |order|
        invariant KeysChecked(seen, lastChecked)
        invariant AllQueued(before, order[..k])
        invariant recentRuns == ClaimInOrder(before, order[..k], limits)
        invariant running == |RunningAt(recentRuns)| == |claimed| + |RunningAt(before)|
        invariant claimed == StartedIn(recentRuns, order[..k])
      {
        OrderStep(order, k);
        ghost var runsBefore := recentRuns;
        StillQueuedBefore(before, order[..k], limits, order[k]);
        var started := ConsiderRun(order[k], running, now, limits);
        if started {
          running := running + 1;
          claimed := claimed + [recentRuns[order[k]]];
        }
        StartedMore(runsBefore, recentRuns, order[..k], order[k]);
      }
      assert order[..|order|] == order;
    }

    /** Starts one run unless something holds it back; the reason is noted once per run. */
    method ConsiderRun(index: nat, running: nat, now: nat, limits: HostLimits) returns (started: bool)
      requires index < |recentRuns| && recentRuns[index].status == Queued && running == |RunningAt(recentRuns)|
      requires KeysChecked(seen, lastChecked)
      modifies this`recentRuns, this`seen
      ensures KeysChecked(seen, lastChecked)
      ensures recentRuns == ClaimOne(old(recentRuns), index, limits)
      ensures started <==> recentRuns[index].status == Running
      ensures |RunningAt(recentRuns)| == running + if started then 1 else 0
    {
      var run := recentRuns[index];
      var own := Count(recentRuns, run.automationId, false);
      CountMeaning(recentRuns, run.automationId);
      var reason :=
        if DiskBlocked(limits) then "disk-budget"
        else if NoRuntimeBudget(run) then "runtime-budget"
        else if limits.maxConcurrency == 0 || running >= limits.maxConcurrency then "concurrency"
        else if own >= run.maxConcurrency then "concurrency"
        else "";
      started := reason == "";
      if started {
        OneMoreRunning(recentRuns, index);
        recentRuns := recentRuns[index := run.(status := Running)];
      } else {
        var key := DeferKey(run.runId, reason);
        if key !in seen {
          seen := seen[key := now];
          OtherKeyKeepsChecked(seen, old(seen), lastChecked, key);
        }
      }
    }
  }

  lemma MissedAscending(trigger: Trigger, last: nat, now: nat)
    ensures forall i, j :: 0 <= i < j < |MissedInstants(trigger, last, now)| ==>
              MissedInstants(trigger, last, now)[i] < MissedInstants(trigger, last, now)[j]
    ensures forall t :: t in MissedInstants(trigger, last, now) ==> last < t <= now
  {
    if trigger.Interval? && trigger.every > 0 {
      InstantsExact(trigger.every, trigger.anchor, last, now);
    }
  }

  lemma SelectedAt(policy: CatchUpPolicy, missed: seq<nat>, i: nat)
    requires i < |missed| && forall j, k :: 0 <= j < k < |missed| ==> missed[j] < missed[k]
    ensures missed[i] in CatchUpTimes(policy, missed) <==> i + Selected(policy, |missed|) >= |missed|
  {
    CatchUpIsSuffix(policy, missed);
    var from := |missed| - Selected(policy, |missed|);
    if missed[i] in missed[from..] {
      var k :| 0 <= k < |missed[from..]| && missed[from..][k] == missed[i];
      assert missed[from + k] == missed[i];
    }
    if i >= from {
      assert missed[from..][i - from] == missed[i];
    }
  }

  /** The schedule keys remembered since `before` are those of the listed instants. */
  ghost predicate KeysWithin(seen: map<Name, nat>, before: map<Name, nat>, a: Name, done: seq<nat>) {
    forall id: Name, t: nat :: ScheduleKey(id, t) in seen ==> ScheduleKey(id, t) in before || (id == a && t in done)
  }

  /** A check that is due finds none of its keys remembered, so its rows are the policy's. */
  lemma DueRowsFresh(a: Automation, seen: map<Name, nat>, lastChecked: map<Name, nat>, now: nat)
    requires KeysChecked(seen, lastChecked) && a.id in lastChecked && now > lastChecked[a.id]
    ensures var missed := MissedInstants(a.trigger, lastChecked[a.id], now);
            && CatchUpRows(a, missed, seen, now, |missed|) == ScheduleRows(a, missed)
            && NoneDuplicate(ScheduleRows(a, missed))
            && KeysChecked(SeenAfter(a, missed, seen, now, |missed|), lastChecked[a.id := now])
  {
    var missed := MissedInstants(a.trigger, lastChecked[a.id], now);
    MissedAscending(a.trigger, lastChecked[a.id], now);
    forall i | 0 <= i < |missed| ensures ScheduleKey(a.id, missed[i]) !in seen && missed[i] <= now {
      assert missed[i] in missed;
    }
    FreshCatchUp(a, missed, seen, now);
    SeenStaysWithin(a, missed, seen, now, |missed|);
    assert missed[..|missed|] == missed;
    KeysByNow(SeenAfter(a, missed, seen, now, |missed|), seen, a.id, missed, now);
    RowsNotDuplicate(a, missed);
  }

  /** What a due check writes keeps the record invariant. */
  lemma DueKeepsRecord(automations: seq<Automation>, log: seq<LogRow>, seen: map<Name, nat>, first: map<Name, nat>,
                       last: map<Name, nat>, i: nat, now: nat)
    requires i < |automations| && DistinctAutomations(automations)
    requires automations[i].id in last && now > last[automations[i].id]
    requires RecordedExactly(automations, log, first, last) && NoneDuplicate(log) && KeysChecked(seen, last)
    ensures var a := automations[i];
            var missed := MissedInstants(a.trigger, last[a.id], now);
            && CatchUpRows(a, missed, seen, now, |missed|) == ScheduleRows(a, missed)
            && RecordedExactly(automations, log + ScheduleRows(a, missed), first, last[a.id := now])
            && NoneDuplicate(log + ScheduleRows(a, missed))
            && KeysChecked(SeenAfter(a, missed, seen, now, |missed|), last[a.id := now])
  {
    CheckExtendsRecord(automations, log, first, last, i, now);
    DueRowsFresh(automations[i], seen, last, now);
    var a := automations[i];
    NoneDuplicateAppend(log, ScheduleRows(a, MissedInstants(a.trigger, last[a.id], now)));
  }

  lemma NoneDuplicateAppend(log: seq<LogRow>, rows: seq<LogRow>)
    requires NoneDuplicate(log) && NoneDuplicate(rows)
    ensures NoneDuplicate(log + rows)
  {
  }

  lemma FirstCheckKeepsKeys(seen: map<Name, nat>, last: map<Name, nat>, id: Name, now: nat)
    requires KeysChecked(seen, last) && id !in last
    ensures KeysChecked(seen, last[id := now])
  {
  }

  lemma KeysByNow(seen: map<Name, nat>, before: map<Name, nat>, a: Name, done: seq<nat>, now: nat)
    requires KeysWithin(seen, before, a, done) && forall t :: t in done ==> t <= now
    ensures forall id: Name, t: nat ::
              ScheduleKey(id, t) in seen ==> ScheduleKey(id, t) in before || (id == a && t <= now)
  {
  }

  lemma KeysAfterOne(after: map<Name, nat>, seen: map<Name, nat>, before: map<Name, nat>, a: Name, done: seq<nat>,
                     instant: nat, done': seq<nat>)
    requires KeysWithin(seen, before, a, done) && after.Keys <= seen.Keys + {ScheduleKey(a, instant)}
    requires done' == done + [instant]
    ensures KeysWithin(after, before, a, done')
  {
    forall id: Name, t: nat | ScheduleKey(id, t) in after
      ensures ScheduleKey(id, t) in before || (id == a && t in done')
    {
      if ScheduleKey(id, t) == ScheduleKey(a, instant) {
        ScheduleKeyInjective(id, t, a, instant);
      }
    }
  }

  lemma OrderStep(order: seq<nat>, k: nat)
    requires k < |order| && DistinctOrder(order)
    ensures order[k] in order && order[k] !in order[..k] && order[..k + 1] == order[..k] + [order[k]]
    ensures |order[..k + 1]| - 1 == k && order[..k + 1][..k] == order[..k] && order[..k + 1][k] == order[k]
  {
  }

  lemma RowsNotDuplicate(a: Automation, missed: seq<nat>)
    ensures NoneDuplicate(ScheduleRows(a, missed))
  {
  }

  lemma OtherRowsKeepRecord(automations: seq<Automation>, log: seq<LogRow>, row: LogRow,
                            first: map<Name, nat>, last: map<Name, nat>)
    requires RecordedExactly(automations, log, first, last) && row.source != FromSchedule
    ensures RecordedExactly(automations, log + [row], first, last)
  {
    assert (log + [row])[..|log|] == log;
  }

  lemma OtherKeyKeepsChecked(seen: map<Name, nat>, before: map<Name, nat>, lastChecked: map<Name, nat>, key: Name)
    requires KeysChecked(before, lastChecked) && seen.Keys <= before.Keys + {key}
    requires |key.text| > 0 && key.text[0] != 's'
    ensures KeysChecked(seen, lastChecked)
  {
    forall id: Name, t: nat | ScheduleKey(id, t) in seen ensures id in lastChecked && t <= lastChecked[id] {
      OtherKeysDiffer(key, id, t);
    }
  }

  lemma StartsKeepRunIds(runs: seq<AutomationRun>, after: seq<AutomationRun>, order: seq<nat>, sequence: nat)
    requires OnlyStarts(runs, after, order) && RunIdsUsed(runs, sequence)
    ensures RunIdsUsed(after, sequence)
  {
    forall r | r in after ensures exists n: nat :: n <= sequence && r.runId == RunIdOf(r.automationId, n) {
      var k :| 0 <= k < |after| && after[k] == r;
      assert runs[k] in runs;
    }
  }
}
