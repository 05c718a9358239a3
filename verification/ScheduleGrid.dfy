/**
 Interval schedules (automation.rs, `missed_instants`, `catch_up_times`, `next_run_after`).

 The grid of an interval is `anchor + k * every` for k >= 1: the anchor itself is never an occurrence.
 */
module ScheduleGrids {

  datatype Trigger = Manual | Interval(every: nat, anchor: nat) | RepoEvent(coalesceSeconds: nat)

  datatype CatchUpPolicy = Skip | RunOnce | RunEach(maximum: nat)

  ghost predicate OnGrid(every: nat, anchor: nat, t: nat)
    requires every > 0
  {
    exists k: nat :: k >= 1 && t == anchor + k * every
  }

  function Elapsed(anchor: nat, at: nat): nat {
    if at < anchor then 0 else at - anchor
  }

  /** The occurrence `missed_instants` starts from. */
  function FirstAfter(every: nat, anchor: nat, at: nat): nat
    requires every > 0
  {
    anchor + (Elapsed(anchor, at) / every + 1) * every
  }

  function GridFrom(first: nat, every: nat, now: nat): seq<nat>
    requires every > 0
    decreases if first <= now then now - first + 1 else 0
  {
    if first > now then [] else [first] + GridFrom(first + every, every, now)
  }

  /** Every schedule instant in `(lastChecked, now]`, before the catch-up policy. */
  function MissedInstants(trigger: Trigger, lastChecked: nat, now: nat): seq<nat> {
    match trigger
    case Interval(every, anchor) =>
      if every > 0 && now > lastChecked then GridFrom(FirstAfter(every, anchor, lastChecked), every, now) else []
    case _ => []
  }

  /** The successor iteration of `missed_instants`. */
  method CollectInstants(trigger: Trigger, lastChecked: nat, now: nat) returns (instants: seq<nat>)
    ensures instants == MissedInstants(trigger, lastChecked, now)
  {
    instants := [];
    if !trigger.Interval? || trigger.every == 0 || now <= lastChecked {
      return;
    }
    var every, time := trigger.every, FirstAfter(trigger.every, trigger.anchor, lastChecked);
    ghost var all := GridFrom(time, every, now);
    while time <= now
      invariant all == instants + GridFrom(time, every, now)
      decreases if time <= now then now - time + 1 else 0
    {
      assert instants + ([time] + GridFrom(time + every, every, now))
          == (instants + [time]) + GridFrom(time + every, every, now);
      instants := instants + [time];
      time := time + every;
    }
  }

  // ---- exactly the grid ----

  lemma MultiplyMonotone(a: nat, b: nat, c: nat)
    requires a <= b
    ensures a * c <= b * c
  {
  }

  lemma DivisionBounds(d: nat, every: nat)
    requires every > 0
    ensures d / every * every <= d < (d / every + 1) * every
  {
  }

  /** `FirstAfter` is the least grid point after the given time. */
  lemma FirstAfterIsLeast(every: nat, anchor: nat, at: nat)
    requires every > 0
    ensures OnGrid(every, anchor, FirstAfter(every, anchor, at)) && FirstAfter(every, anchor, at) > at
    ensures forall t: nat :: OnGrid(every, anchor, t) && t > at ==> t >= FirstAfter(every, anchor, at)
  {
    var d := Elapsed(anchor, at);
    DivisionBounds(d, every);
    var q: nat := d / every + 1;
    assert FirstAfter(every, anchor, at) == anchor + q * every;
    forall t: nat | OnGrid(every, anchor, t) && t > at ensures t >= FirstAfter(every, anchor, at) {
      var k: nat :| k >= 1 && t == anchor + k * every;
      if k < q {
        MultiplyMonotone(k, q - 1, every);
      } else {
        MultiplyMonotone(q, k, every);
      }
    }
  }

  lemma NextOnGrid(every: nat, anchor: nat, t: nat)
    requires every > 0 && OnGrid(every, anchor, t)
    ensures OnGrid(every, anchor, t + every)
  {
    var k: nat :| k >= 1 && t == anchor + k * every;
    assert t + every == anchor + (k + 1) * every;
  }

  lemma GridGap(every: nat, anchor: nat, t: nat, u: nat)
    requires every > 0 && OnGrid(every, anchor, t) && OnGrid(every, anchor, u) && t < u
    ensures u >= t + every
  {
    var k: nat :| k >= 1 && t == anchor + k * every;
    var l: nat :| l >= 1 && u == anchor + l * every;
    if l <= k {
      MultiplyMonotone(l, k, every);
    }
    MultiplyMonotone(k + 1, l, every);
  }

  lemma {:induction false} GridFromExact(first: nat, every: nat, anchor: nat, now: nat)
    requires every > 0 && OnGrid(every, anchor, first)
    ensures forall t: nat :: t in GridFrom(first, every, now) <==> OnGrid(every, anchor, t) && first <= t <= now
    ensures forall i, j :: 0 <= i < j < |GridFrom(first, every, now)| ==>
              GridFrom(first, every, now)[i] < GridFrom(first, every, now)[j]
    decreases if first <= now then now - first + 1 else 0
  {
    if first <= now {
      NextOnGrid(every, anchor, first);
      GridFromExact(first + every, every, anchor, now);
      var rest := GridFrom(first + every, every, now);
      forall t: nat ensures t in [first] + rest <==> OnGrid(every, anchor, t) && first <= t <= now {
        if OnGrid(every, anchor, t) && first < t <= now {
          GridGap(every, anchor, first, t);
        }
      }
      forall j | 0 <= j < |rest| ensures first < rest[j] {
        assert rest[j] in rest;
      }
    }
  }

  /** The missed instants are exactly the grid points in `(lastChecked, now]`, in ascending order. */
  lemma InstantsExact(every: nat, anchor: nat, lastChecked: nat, now: nat)
    requires every > 0
    ensures var missed := MissedInstants(Interval(every, anchor), lastChecked, now);
            && (forall t: nat :: t in missed <==> OnGrid(every, anchor, t) && lastChecked < t <= now)
            && (forall i, j :: 0 <= i < j < |missed| ==> missed[i] < missed[j])
  {
    FirstAfterIsLeast(every, anchor, lastChecked);
    GridFromExact(FirstAfter(every, anchor, lastChecked), every, anchor, now);
  }

  // ---- splitting ----

  lemma FirstAfterUnchanged(every: nat, anchor: nat, first: nat, at: nat, m: nat)
    requires every > 0 && first == FirstAfter(every, anchor, at) && at <= m < first
    ensures FirstAfter(every, anchor, m) == first
  {
    FirstAfterIsLeast(every, anchor, at);
    FirstAfterIsLeast(every, anchor, m);
  }

  lemma FirstAfterGridPoint(every: nat, anchor: nat, t: nat)
    requires every > 0 && OnGrid(every, anchor, t)
    ensures FirstAfter(every, anchor, t) == t + every
  {
    FirstAfterIsLeast(every, anchor, t);
    NextOnGrid(every, anchor, t);
    GridGap(every, anchor, t, FirstAfter(every, anchor, t));
  }

  /** The first of the points `first`, `first + every`, … after `m`. */
  function Beyond(first: nat, every: nat, m: nat): nat
    requires every > 0
    decreases if first <= m then m - first + 1 else 0
  {
    if first > m then first else Beyond(first + every, every, m)
  }

  lemma {:induction false} GridCuts(first: nat, every: nat, m: nat, now: nat)
    requires every > 0 && m <= now
    ensures GridFrom(first, every, now) == GridFrom(first, every, m) + GridFrom(Beyond(first, every, m), every, now)
    decreases if first <= m then m - first + 1 else 0
  {
    if first <= m {
      GridCuts(first + every, every, m, now);
      var low, high := GridFrom(first + every, every, m), GridFrom(Beyond(first, every, m), every, now);
      assert [first] + (low + high) == ([first] + low) + high;
    }
  }

  lemma {:induction false} FirstAfterBeyond(every: nat, anchor: nat, at: nat, m: nat)
    requires every > 0 && at <= m
    ensures Beyond(FirstAfter(every, anchor, at), every, m) == FirstAfter(every, anchor, m)
    decreases if FirstAfter(every, anchor, at) <= m then m - FirstAfter(every, anchor, at) + 1 else 0
  {
    var first := FirstAfter(every, anchor, at);
    FirstAfterIsLeast(every, anchor, at);
    if first > m {
      FirstAfterUnchanged(every, anchor, first, at, m);
    } else {
      FirstAfterGridPoint(every, anchor, first);
      FirstAfterBeyond(every, anchor, first, m);
    }
  }

  lemma GridSplits(every: nat, anchor: nat, at: nat, m: nat, now: nat)
    requires every > 0 && at <= m <= now
    ensures GridFrom(FirstAfter(every, anchor, at), every, now)
            == GridFrom(FirstAfter(every, anchor, at), every, m) + GridFrom(FirstAfter(every, anchor, m), every, now)
  {
    FirstAfterBeyond(every, anchor, at, m);
    GridCuts(FirstAfter(every, anchor, at), every, m, now);
  }

  /** Checking at an intermediate time neither loses nor repeats an instant. */
  lemma InstantsSplit(trigger: Trigger, l: nat, m: nat, n: nat)
    requires l <= m <= n
    ensures MissedInstants(trigger, l, n) == MissedInstants(trigger, l, m) + MissedInstants(trigger, m, n)
  {
    if trigger.Interval? && trigger.every > 0 {
      var every, anchor := trigger.every, trigger.anchor;
      FirstAfterIsLeast(every, anchor, l);
      FirstAfterIsLeast(every, anchor, m);
      GridSplits(every, anchor, l, m, n);
      assert GridFrom(FirstAfter(every, anchor, l), every, l) == [];
      assert GridFrom(FirstAfter(every, anchor, n), every, n) == [] by {
        FirstAfterIsLeast(every, anchor, n);
      }
    }
  }

  // ---- the announced next run ----

  function NextRunAfter(every: nat, anchor: nat, after: nat): nat
    requires every > 0
  {
    if after < anchor then anchor else anchor + (Elapsed(anchor, after) / every + 1) * every
  }

  /**
   The announced next run is the next instant that will be recorded exactly when the time asked about is not before the
   anchor.  Before it, the anchor is announced, and the anchor is never recorded.
   */
  lemma AnnouncedIsRecordedIff(every: nat, anchor: nat, after: nat)
    requires every > 0
    ensures NextRunAfter(every, anchor, after) == FirstAfter(every, anchor, after) <==> after >= anchor
    ensures !OnGrid(every, anchor, anchor)
  {
    if OnGrid(every, anchor, anchor) {
      var k: nat :| k >= 1 && anchor == anchor + k * every;
      MultiplyMonotone(1, k, every);
    }
    FirstAfterIsLeast(every, anchor, after);
  }

  // ---- catch-up ----

  /** How many of the missed instants the policy runs: always the latest ones. */
  function Selected(policy: CatchUpPolicy, missed: nat): nat {
    match policy
    case Skip => 0
    case RunOnce => if missed == 0 then 0 else 1
    case RunEach(maximum) => if maximum < missed then maximum else missed
  }

  function Reverse(xs: seq<nat>): seq<nat> {
    if |xs| == 0 then [] else Reverse(xs[1..]) + [xs[0]]
  }

  function Take(xs: seq<nat>, n: nat): seq<nat> {
    if n < |xs| then xs[..n] else xs
  }

  /** `catch_up_times`: nothing, the last instant, or the list reversed, cut and reversed back. */
  function CatchUpTimes(policy: CatchUpPolicy, missed: seq<nat>): seq<nat> {
    match policy
    case Skip => []
    case RunOnce => if |missed| == 0 then [] else [missed[|missed| - 1]]
    case RunEach(maximum) => Reverse(Take(Reverse(missed), maximum))
  }

  lemma {:induction false} ReverseAt(xs: seq<nat>, k: nat)
    requires k < |xs|
    ensures |Reverse(xs)| == |xs| && Reverse(xs)[k] == xs[|xs| - 1 - k]
  {
    if |xs| > 1 {
      ReverseAt(xs[1..], if k < |xs| - 1 then k else 0);
    }
  }

  lemma ReverseLength(xs: seq<nat>)
    ensures |Reverse(xs)| == |xs|
  {
    if |xs| > 0 {
      ReverseAt(xs, 0);
    }
  }

  /** The selected instants are the latest ones. */
  lemma CatchUpIsSuffix(policy: CatchUpPolicy, missed: seq<nat>)
    ensures CatchUpTimes(policy, missed) == missed[|missed| - Selected(policy, |missed|)..]
  {
    if policy.RunEach? {
      var n := Selected(policy, |missed|);
      var back := Take(Reverse(missed), policy.maximum);
      ReverseLength(missed);
      ReverseLength(back);
      assert |back| == n;
      forall k | 0 <= k < n ensures Reverse(back)[k] == missed[|missed| - n..][k] {
        ReverseAt(back, k);
        ReverseAt(missed, n - 1 - k);
      }
    }
  }
}
