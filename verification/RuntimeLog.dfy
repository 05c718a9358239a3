/** What the history of submissions, launches and deletions says about a task. */
module RuntimeLogs {
  import opened Names
  import opened RuntimeStates

  /** The task was launched and its record not deleted since. */
  ghost predicate LaunchedSince(log: seq<LogEntry>, id: Name) {
    if |log| == 0 then false
    else
      var last := log[|log| - 1];
      last == Launched(id) || (last != Deleted(id) && LaunchedSince(log[..|log| - 1], id))
  }

  /** Record `d` was deleted after the latest submission of `id`. */
  ghost predicate DeletedSince(log: seq<LogEntry>, d: Name, id: Name) {
    if |log| == 0 then false
    else
      var last := log[|log| - 1];
      last == Deleted(d) || (last != Submitted(id) && DeletedSince(log[..|log| - 1], d, id))
  }

  /** No launch of a task that is still counted as launched. */
  ghost predicate LaunchesOnce(log: seq<LogEntry>) {
    |log| > 0 ==>
      var init, last := log[..|log| - 1], log[|log| - 1];
      LaunchesOnce(init) && (last.Launched? ==> !LaunchedSince(init, last.id))
  }

  lemma LogAppend(log: seq<LogEntry>, entry: LogEntry)
    ensures LaunchesOnce(log + [entry]) <==> LaunchesOnce(log) && (entry.Launched? ==> !LaunchedSince(log, entry.id))
    ensures forall id :: LaunchedSince(log + [entry], id)
                         <==> entry == Launched(id) || (entry != Deleted(id) && LaunchedSince(log, id))
    ensures forall d, id :: DeletedSince(log + [entry], d, id)
                            <==> entry == Deleted(d) || (entry != Submitted(id) && DeletedSince(log, d, id))
  {
    assert (log + [entry])[..|log|] == log;
  }

  lemma {:induction false} StillLaunched(log: seq<LogEntry>, i: nat, id: Name)
    requires i < |log| && log[i] == Launched(id)
    requires forall k :: i < k < |log| ==> log[k] != Deleted(id)
    ensures LaunchedSince(log, id)
  {
    if i < |log| - 1 {
      StillLaunched(log[..|log| - 1], i, id);
    }
  }

  lemma {:induction false} LaunchesOncePrefix(log: seq<LogEntry>, n: nat)
    requires LaunchesOnce(log) && n <= |log|
    ensures LaunchesOnce(log[..n])
  {
    if n < |log| {
      LaunchesOncePrefix(log[..|log| - 1], n);
      assert log[..|log| - 1][..n] == log[..n];
    } else {
      assert log[..n] == log;
    }
  }

  /** Between two launches of a task its record was deleted: a submitted task is launched at most once. */
  lemma RelaunchNeedsDeletion(log: seq<LogEntry>, i: nat, j: nat, id: Name)
    requires LaunchesOnce(log) && i < j < |log| && log[i] == log[j] == Launched(id)
    ensures exists k :: i < k < j && log[k] == Deleted(id)
  {
    LaunchesOncePrefix(log, j + 1);
    assert log[..j + 1][..j] == log[..j];
    if forall k :: i < k < j ==> log[k] != Deleted(id) {
      StillLaunched(log[..j], i, id);
    }
  }
}
