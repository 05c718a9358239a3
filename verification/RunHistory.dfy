/** The bounded history of automation runs (automation.rs, `trim_finished_history`). */
module RunHistory {
  import opened Names
  import opened ClaimQueues

  const RECENT_RUN_LIMIT: nat := 500

  predicate Finished(run: AutomationRun) {
    run.status in {Completed, Failed, Duplicate, Coalesced, Missed}
  }

  function Unfinished(runs: seq<AutomationRun>): seq<AutomationRun> {
    if |runs| == 0 then []
    else Unfinished(runs[..|runs| - 1]) + if Finished(runs[|runs| - 1]) then [] else [runs[|runs| - 1]]
  }

  ghost predicate DistinctIds(runs: seq<AutomationRun>) {
    forall i, j :: 0 <= i < j < |runs| ==> runs[i].runId != runs[j].runId
  }

  /** The ids of the first `n` finished runs. */
  function FirstFinished(runs: seq<AutomationRun>, n: nat): seq<Name> {
    if |runs| == 0 || n == 0 then []
    else if Finished(runs[0]) then [runs[0].runId] + FirstFinished(runs[1..], n - 1)
    else FirstFinished(runs[1..], n)
  }

  function WithoutIds(runs: seq<AutomationRun>, ids: set<Name>): seq<AutomationRun> {
    if |runs| == 0 then []
    else (if runs[0].runId in ids then [] else [runs[0]]) + WithoutIds(runs[1..], ids)
  }

  /** The runs without their first `n` finished ones. */
  function DropFinished(runs: seq<AutomationRun>, n: nat): seq<AutomationRun> {
    if |runs| == 0 || n == 0 then runs
    else if Finished(runs[0]) then DropFinished(runs[1..], n - 1)
    else [runs[0]] + DropFinished(runs[1..], n)
  }

  function Excess(runs: seq<AutomationRun>): nat {
    if |runs| <= RECENT_RUN_LIMIT then 0 else |runs| - RECENT_RUN_LIMIT
  }

  /** `trim_finished_history`: the oldest finished runs beyond the limit are dropped by id. */
  function Trimmed(runs: seq<AutomationRun>): seq<AutomationRun> {
    WithoutIds(runs, set id | id in FirstFinished(runs, Excess(runs)))
  }

  lemma {:induction false} FinishedIdsPresent(runs: seq<AutomationRun>, n: nat)
    ensures forall id :: id in FirstFinished(runs, n) ==> exists k :: 0 <= k < |runs| && runs[k].runId == id
  {
    if |runs| > 0 && n > 0 {
      var rest := if Finished(runs[0]) then n - 1 else n;
      FinishedIdsPresent(runs[1..], rest);
      forall id | id in FirstFinished(runs, n) ensures exists k :: 0 <= k < |runs| && runs[k].runId == id {
        if id in FirstFinished(runs[1..], rest) {
          var k :| 0 <= k < |runs[1..]| && runs[1..][k].runId == id;
          assert runs[k + 1].runId == id;
        } else {
          assert runs[0].runId == id;
        }
      }
    }
  }

  lemma {:induction false} WithoutAbsentIds(runs: seq<AutomationRun>, ids: set<Name>, more: set<Name>)
    requires forall k :: 0 <= k < |runs| ==> (runs[k].runId in ids <==> runs[k].runId in more)
    ensures WithoutIds(runs, ids) == WithoutIds(runs, more)
  {
    if |runs| > 0 {
      WithoutAbsentIds(runs[1..], ids, more);
    }
  }

  lemma {:induction false} WithoutNothing(runs: seq<AutomationRun>)
    ensures WithoutIds(runs, {}) == runs
  {
    if |runs| > 0 {
      WithoutNothing(runs[1..]);
      assert runs == [runs[0]] + runs[1..];
    }
  }

  lemma TailDistinct(runs: seq<AutomationRun>, n: nat)
    requires |runs| > 0 && DistinctIds(runs)
    ensures DistinctIds(runs[1..]) && runs[0].runId !in FirstFinished(runs[1..], n)
    ensures forall k :: 0 <= k < |runs[1..]| ==> runs[1..][k].runId != runs[0].runId
  {
    FinishedIdsPresent(runs[1..], n);
    assert forall k :: 0 <= k < |runs[1..]| ==> runs[1..][k] == runs[k + 1];
  }

  /** With distinct ids, dropping by id drops exactly the first finished runs. */
  lemma {:induction false} DropsFirstFinished(runs: seq<AutomationRun>, n: nat)
    requires DistinctIds(runs)
    ensures WithoutIds(runs, set id | id in FirstFinished(runs, n)) == DropFinished(runs, n)
  {
    var ids := set id | id in FirstFinished(runs, n);
    if |runs| == 0 || n == 0 {
      assert ids == {};
      WithoutNothing(runs);
    } else {
      var rest := if Finished(runs[0]) then n - 1 else n;
      TailDistinct(runs, rest);
      DropsFirstFinished(runs[1..], rest);
      WithoutAbsentIds(runs[1..], ids, set id | id in FirstFinished(runs[1..], rest));
    }
  }

  lemma {:induction false} UnfinishedAppend(a: seq<AutomationRun>, b: seq<AutomationRun>)
    ensures Unfinished(a + b) == Unfinished(a) + Unfinished(b)
  {
    if |b| == 0 {
      assert a + b == a;
    } else {
      assert (a + b)[..|a + b| - 1] == a + b[..|b| - 1];
      UnfinishedAppend(a, b[..|b| - 1]);
    }
  }

  lemma {:induction false} DropKeepsUnfinished(runs: seq<AutomationRun>, n: nat)
    ensures Unfinished(DropFinished(runs, n)) == Unfinished(runs)
    ensures |DropFinished(runs, n)| == |runs| - n || DropFinished(runs, n) == Unfinished(runs)
  {
    if |runs| > 0 {
      assert runs == [runs[0]] + runs[1..];
      UnfinishedAppend([runs[0]], runs[1..]);
      assert Unfinished([runs[0]]) == if Finished(runs[0]) then [] else [runs[0]] by {
        assert [runs[0]][..0] == [];
      }
      if n > 0 {
        DropKeepsUnfinished(runs[1..], if Finished(runs[0]) then n - 1 else n);
        if !Finished(runs[0]) {
          UnfinishedAppend([runs[0]], DropFinished(runs[1..], n));
        }
      }
    }
  }

  /** Trimming loses no run that is still queued, running or waiting, and shrinks to the limit or to those runs. */
  lemma TrimKeepsUnfinished(runs: seq<AutomationRun>)
    requires DistinctIds(runs)
    ensures Unfinished(Trimmed(runs)) == Unfinished(runs)
    ensures |Trimmed(runs)| <= RECENT_RUN_LIMIT || Trimmed(runs) == Unfinished(runs)
  {
    DropsFirstFinished(runs, Excess(runs));
    DropKeepsUnfinished(runs, Excess(runs));
  }

  lemma {:induction false} WithoutIdsMembers(runs: seq<AutomationRun>, ids: set<Name>)
    requires DistinctIds(runs)
    ensures DistinctIds(WithoutIds(runs, ids))
    ensures forall r :: r in WithoutIds(runs, ids) ==> r in runs
  {
    if |runs| > 0 {
      assert forall k :: 0 <= k < |runs[1..]| ==> runs[1..][k] == runs[k + 1];
      WithoutIdsMembers(runs[1..], ids);
      var rest := WithoutIds(runs[1..], ids);
      forall j | 0 <= j < |rest| ensures rest[j].runId != runs[0].runId {
        assert rest[j] in runs[1..];
      }
    }
  }

  // ---- recording one run after another ----

  /** `record_trigger` for every run in turn: each row is appended, and the history trimmed. */
  function History(runs: seq<AutomationRun>, made: seq<AutomationRun>): seq<AutomationRun> {
    if |made| == 0 then runs else Trimmed(History(runs, made[..|made| - 1]) + [made[|made| - 1]])
  }

  function QueuedOf(made: seq<AutomationRun>): seq<AutomationRun> {
    if |made| == 0 then []
    else
      var last := made[|made| - 1];
      QueuedOf(made[..|made| - 1]) + if last.status == Queued then [last] else []
  }

  lemma HistoryOneMore(runs: seq<AutomationRun>, made: seq<AutomationRun>, run: AutomationRun)
    ensures History(runs, made + [run]) == Trimmed(History(runs, made) + [run])
    ensures QueuedOf(made + [run]) == QueuedOf(made) + if run.status == Queued then [run] else []
  {
    assert (made + [run])[..|made|] == made;
  }

  lemma {:induction false} HistoryAppend(runs: seq<AutomationRun>, made: seq<AutomationRun>, more: seq<AutomationRun>)
    ensures History(runs, made + more) == History(History(runs, made), more)
    ensures QueuedOf(made + more) == QueuedOf(made) + QueuedOf(more)
  {
    if |more| == 0 {
      assert made + more == made;
    } else {
      var init, last := more[..|more| - 1], more[|more| - 1];
      HistoryAppend(runs, made, init);
      assert made + more == (made + init) + [last];
      HistoryOneMore(runs, made + init, last);
    }
  }

  lemma {:induction false} QueuedOfMembers(made: seq<AutomationRun>)
    ensures forall r :: r in QueuedOf(made) <==> r in made && r.status == Queued
  {
    if |made| > 0 {
      QueuedOfMembers(made[..|made| - 1]);
      assert made == made[..|made| - 1] + [made[|made| - 1]];
    }
  }
}
