/**
 The refresh protocol of the repo-map service (repo_map.rs, `RepoMapService`): any number of callers of
 `request_refresh` and `notify_paths`, one command channel, one worker.

 Every atomic action is a step, so a run is any interleaving.  `asked` counts the requests whose swap has happened;
 `served` is the value `asked` had when a sweep last read the map, so the requests numbered above `served` have not
 been followed by a sweep.
 */
module RefreshProtocols {

  /** Inside `request_refresh`, having found the flag clear: before and after marking the status. */
  datatype CallerPc = Swapped | Marked

  datatype Command = Refresh | Paths

  datatype WorkerPc =
    | Waiting                 // in `recv`
    | Draining(refresh: bool) // taking what else is in the channel
    | Clearing                // entering `run_sweep`, about to clear the flag
    | Marking                 // flag cleared, about to mark the status
    | Starting                // about to read the map
    | Sweeping
    | Loaded(queued: bool)    // status locked, flag read
    | PathScan                // in `run_paths`
    | Stopped                 // the service was dropped

  datatype State = State(
    flag: bool,
    indexing: bool,
    channel: seq<Command>,
    callers: map<nat, CallerPc>,
    worker: WorkerPc,
    cancel: bool,
    asked: nat,
    served: nat,
    clearedAt: nat)  // `asked` when the flag was last cleared

  /** `spawn`: the worker begins with a sweep of its own. */
  function Initial(): State {
    State(false, true, [], map[], Clearing, false, 0, 0, 0)
  }

  datatype Action =
    | Swap(caller: nat)
    | MarkQueued(caller: nat)
    | SendRefresh(caller: nat)
    | SendPaths
    | Receive
    | TryReceive
    | Decide
    | ClearFlag
    | MarkIndexing
    | ReadMap
    | LoadFlag
    | Publish
    | FinishPaths(found: bool)
    | Drop
    | Stop

  /** The worker holds the status lock between reading the flag and publishing. */
  predicate StatusLocked(s: State) {
    s.worker.Loaded?
  }

  ghost predicate Step(s: State, action: Action, s': State) {
    match action
    case Swap(c) =>
      c !in s.callers &&
      s' == (if s.flag then s.(asked := s.asked + 1)
             else s.(flag := true, asked := s.asked + 1, callers := s.callers[c := Swapped]))
    case MarkQueued(c) =>
      c in s.callers && s.callers[c] == Swapped && !StatusLocked(s)
      && s' == s.(indexing := true, callers := s.callers[c := Marked])
    case SendRefresh(c) =>
      c in s.callers && s.callers[c] == Marked
      && s' == s.(channel := s.channel + [Refresh], callers := s.callers - {c})
    case SendPaths =>
      s' == s.(channel := s.channel + [Paths])
    case Receive =>
      s.worker == Waiting && |s.channel| > 0
      && s' == (if s.cancel then s.(channel := s.channel[1..], worker := Stopped)
                else s.(channel := s.channel[1..], worker := Draining(s.channel[0] == Refresh)))
    case TryReceive =>
      s.worker.Draining? && |s.channel| > 0
      && s' == s.(channel := s.channel[1..], worker := Draining(s.worker.refresh || s.channel[0] == Refresh))
    case Decide =>
      s.worker.Draining? && s.channel == []
      && s' == s.(worker := if s.worker.refresh then Clearing else PathScan)
    case ClearFlag =>
      s.worker == Clearing && s' == s.(flag := false, clearedAt := s.asked, worker := Marking)
    case MarkIndexing =>
      s.worker == Marking && s' == s.(indexing := true, worker := Starting)
    case ReadMap =>
      s.worker == Starting && s' == s.(served := s.asked, worker := Sweeping)
    case LoadFlag =>
      s.worker == Sweeping && s' == s.(worker := Loaded(s.flag))
    case Publish =>
      s.worker.Loaded? && s' == s.(indexing := s.worker.queued, worker := Waiting)
    case FinishPaths(found) =>
      s.worker == PathScan && s' == s.(worker := if found then Waiting else Clearing)
    case Drop =>
      s' == s.(cancel := true)
    case Stop =>
      s.worker == Waiting && s.channel == [] && s.cancel && s.callers == map[] && s' == s.(worker := Stopped)
  }

  ghost predicate IsRun(states: seq<State>, actions: seq<Action>) {
    && |states| == |actions| + 1
    && states[0] == Initial()
    && forall i :: 0 <= i < |actions| ==> Step(states[i], actions[i], states[i + 1])
  }

  // ---- the invariant ----

  ghost predicate Someone(s: State, pc: CallerPc) {
    exists c :: c in s.callers && s.callers[c] == pc
  }

  /** A sweep that has not cleared the flag yet is certain: it is under way, in the channel, or about to be sent. */
  ghost predicate SweepComing(s: State) {
    || Refresh in s.channel
    || Someone(s, Swapped)
    || Someone(s, Marked)
    || s.worker == Clearing
    || (s.worker.Draining? && s.worker.refresh)
    || s.worker == Stopped
  }

  predicate Cleared(s: State) {
    s.worker in {Marking, Starting}
  }

  /** The flag says exactly whether a request came after it was last cleared. */
  ghost predicate FlagExact(s: State) {
    && (s.flag <==> s.asked > s.clearedAt)
    && s.clearedAt <= s.asked && s.served <= s.asked
    && (!Cleared(s) ==> s.clearedAt <= s.served)
  }

  predicate Unserved(s: State) {
    s.asked > s.served
  }

  /** A published status that says busy is right: some sweep is coming, running, or not yet published. */
  ghost predicate BusyExact(s: State) {
    && ((s.flag || (Cleared(s) && Unserved(s))) ==> s.indexing || Someone(s, Swapped))
    && (s.worker == Starting ==> s.indexing)
    && (s.worker.Loaded? && s.worker.queued ==> s.flag)
    && (s.worker.Loaded? && s.flag && !s.worker.queued ==> Someone(s, Swapped))
    && (s.indexing ==> SweepComing(s) || Cleared(s) || s.worker == Sweeping || s.worker.Loaded?)
  }

  ghost predicate Invariant(s: State) {
    FlagExact(s) && (s.flag ==> SweepComing(s)) && BusyExact(s)
  }

  lemma CallerStepKeepsInvariant(s: State, action: Action, s': State)
    requires Invariant(s) && Step(s, action, s') && (action.Swap? || action.MarkQueued? || action.SendRefresh?)
    ensures Invariant(s')
  {
    match action
    case Swap(c) =>
      if !s.flag {
        assert c in s'.callers && s'.callers[c] == Swapped;
      }
    case MarkQueued(c) =>
      assert c in s'.callers && s'.callers[c] == Marked;
      if s.worker.Loaded? {
        assert false;
      }
    case SendRefresh(c) =>
      assert s'.channel[|s.channel|] == Refresh;
      forall x | x in s.channel ensures x in s'.channel {
      }
      if d :| d in s.callers && s.callers[d] == Swapped {
        assert d in s'.callers && s'.callers[d] == Swapped;
      }
  }

  lemma ChannelTail(channel: seq<Command>)
    requires |channel| > 0
    ensures Refresh in channel <==> channel[0] == Refresh || Refresh in channel[1..]
  {
    assert channel == [channel[0]] + channel[1..];
  }

  lemma WorkerStepKeepsInvariant(s: State, action: Action, s': State)
    requires Invariant(s) && Step(s, action, s')
    requires !action.Swap? && !action.MarkQueued? && !action.SendRefresh?
    ensures Invariant(s')
  {
    if |s.channel| > 0 {
      ChannelTail(s.channel);
    }
    assert s'.callers == s.callers;
    assert Someone(s, Swapped) <==> Someone(s', Swapped);
    assert Someone(s, Marked) <==> Someone(s', Marked);
    if action == SendPaths {
      assert Refresh in s.channel ==> Refresh in s'.channel;
    }
  }

  lemma {:induction false} RunsKeepInvariant(states: seq<State>, actions: seq<Action>, i: nat)
    requires IsRun(states, actions) && i < |states|
    ensures Invariant(states[i])
  {
    if i > 0 {
      RunsKeepInvariant(states, actions, i - 1);
      var s, action, s' := states[i - 1], actions[i - 1], states[i];
      assert Step(s, action, s');
      if action.Swap? || action.MarkQueued? || action.SendRefresh? {
        CallerStepKeepsInvariant(s, action, s');
      } else {
        WorkerStepKeepsInvariant(s, action, s');
      }
    }
  }

  // ---- what callers may rely on ----

  /**
   No request is lost.  In every interleaving, a request not yet followed by a sweep keeps the flag set, unless the
   worker has cleared it and is about to read the map; and a set flag means that a sweep which has not cleared it yet
   is certain to come, as long as the worker has not been stopped.
   */
  lemma NoRequestLost(states: seq<State>, actions: seq<Action>, i: nat)
    requires IsRun(states, actions) && i < |states| && Unserved(states[i])
    ensures states[i].flag || Cleared(states[i])
    ensures states[i].flag ==> SweepComing(states[i])
  {
    RunsKeepInvariant(states, actions, i);
  }

  /**
   Once the worker waits, the channel is empty and no caller is inside, every request has been followed by a sweep.
   */
  lemma QuietMeansServed(states: seq<State>, actions: seq<Action>, i: nat)
    requires IsRun(states, actions) && i < |states|
    requires states[i].worker == Waiting && states[i].channel == [] && states[i].callers == map[]
    ensures !Unserved(states[i]) && !states[i].flag && !states[i].indexing
  {
    RunsKeepInvariant(states, actions, i);
  }

  /** The status reads busy while a request is unserved, unless some caller is between its swap and its mark. */
  lemma BusyWhileUnserved(states: seq<State>, actions: seq<Action>, i: nat)
    requires IsRun(states, actions) && i < |states| && Unserved(states[i])
    ensures states[i].indexing || Someone(states[i], Swapped)
  {
    RunsKeepInvariant(states, actions, i);
  }

  /** The exception is real: a coalesced request can be unserved while the status reads idle. */
  lemma IdleWhileUnserved()
    ensures exists states: seq<State>, actions: seq<Action> ::
              IsRun(states, actions) && Unserved(states[|actions|]) && !states[|actions|].indexing
  {
    var s0 := Initial();
    var s1 := s0.(worker := Marking);
    var s2 := s1.(worker := Starting);
    var s3 := s2.(worker := Sweeping);
    var s4 := s3.(worker := Loaded(false));
    var s5 := s4.(worker := Waiting, indexing := false);
    var s6 := s5.(flag := true, asked := 1, callers := map[0 := Swapped]);
    var s7 := s6.(asked := 2);
    var states := [s0, s1, s2, s3, s4, s5, s6, s7];
    var actions := [ClearFlag, MarkIndexing, ReadMap, LoadFlag, Publish, Swap(0), Swap(1)];
    assert s6.callers == s5.callers[0 := Swapped];
    assert Step(states[5], actions[5], states[6]);
    assert Step(states[6], actions[6], states[7]);
    assert IsRun(states, actions);
  }

  // ---- when the status can be relied on ----

  /** Every state with an unserved request reads busy. */
  ghost predicate BusyThroughout(states: seq<State>) {
    forall i :: 0 <= i < |states| && Unserved(states[i]) ==> states[i].indexing
  }

  /** A request comes while the status reads idle. */
  ghost predicate AsksWhileIdle(states: seq<State>, actions: seq<Action>, k: nat)
    requires |states| == |actions| + 1
  {
    k < |actions| && actions[k].Swap? && !states[k].indexing
  }

  /** A request comes after the worker has read the flag clear, with the status locked, and before it publishes. */
  ghost predicate AsksWhileLoaded(states: seq<State>, actions: seq<Action>, k: nat)
    requires |states| == |actions| + 1
  {
    k < |actions| && actions[k].Swap? && states[k].worker == Loaded(false)
  }

  ghost predicate PublishedAfter(actions: seq<Action>, k: nat) {
    exists j :: k < j < |actions| && actions[j] == Publish
  }

  lemma LockedUntilPublish(s: State, action: Action, s': State)
    requires Step(s, action, s') && s.worker.Loaded? && action != Publish
    ensures s'.worker == s.worker && s'.served == s.served && s'.asked >= s.asked
  {
  }

  /** What is published over an unserved request reads idle. */
  lemma {:induction false} PublishesIdle(states: seq<State>, actions: seq<Action>, k: nat, j: nat)
    requires IsRun(states, actions) && k <= j < |actions| && actions[j] == Publish
    requires states[k].worker == Loaded(false) && Unserved(states[k])
    ensures !BusyThroughout(states)
    decreases j - k
  {
    assert Step(states[k], actions[k], states[k + 1]);
    if actions[k] != Publish {
      LockedUntilPublish(states[k], actions[k], states[k + 1]);
      PublishesIdle(states, actions, k + 1, j);
    }
  }

  lemma AskedIsUnserved(states: seq<State>, actions: seq<Action>, k: nat)
    requires IsRun(states, actions) && k < |actions| && actions[k].Swap?
    ensures Unserved(states[k + 1])
    ensures states[k + 1].indexing == states[k].indexing && states[k + 1].worker == states[k].worker
  {
    RunsKeepInvariant(states, actions, k);
    assert Step(states[k], actions[k], states[k + 1]);
  }

  /** A flag the worker had read clear was set by a request that came after the reading. */
  lemma {:induction false} RaisedWhileLoaded(states: seq<State>, actions: seq<Action>, i: nat) returns (k: nat)
    requires IsRun(states, actions) && i < |states| && states[i].worker == Loaded(false) && states[i].flag
    ensures k < i && AsksWhileLoaded(states, actions, k)
  {
    assert i > 0;
    k := i - 1;
    assert Step(states[k], actions[k], states[i]);
    if states[k].worker == Loaded(false) && states[k].flag {
      k := RaisedWhileLoaded(states, actions, k);
    }
  }

  lemma StepStaysBusy(s: State, action: Action, s': State)
    requires Invariant(s) && Step(s, action, s')
    requires s.flag || Unserved(s) ==> s.indexing
    requires action.Swap? ==> s.indexing
    requires action == Publish && s.flag ==> s.worker != Loaded(false)
    ensures s'.flag || Unserved(s') ==> s'.indexing
  {
  }

  lemma {:induction false} StaysBusy(states: seq<State>, actions: seq<Action>, i: nat)
    requires IsRun(states, actions) && i < |states|
    requires forall k: nat :: !AsksWhileIdle(states, actions, k)
    requires forall k: nat :: AsksWhileLoaded(states, actions, k) ==> !PublishedAfter(actions, k)
    ensures states[i].flag || Unserved(states[i]) ==> states[i].indexing
  {
    if i > 0 {
      var k := i - 1;
      StaysBusy(states, actions, k);
      RunsKeepInvariant(states, actions, k);
      assert Step(states[k], actions[k], states[i]);
      assert !AsksWhileIdle(states, actions, k);
      if actions[k] == Publish && states[k].flag && states[k].worker == Loaded(false) {
        var asked := RaisedWhileLoaded(states, actions, k);
        assert PublishedAfter(actions, asked);
      }
      StepStaysBusy(states[k], actions[k], states[i]);
    }
  }

  /**
   Over every run the status reads busy whenever a request is unserved, exactly if no request came while it read idle
   and none came between the worker's last look at the flag and the publishing of the status.
   */
  lemma BusyThroughoutIff(states: seq<State>, actions: seq<Action>)
    requires IsRun(states, actions)
    ensures BusyThroughout(states)
       <==> forall k: nat :: !AsksWhileIdle(states, actions, k)
                             && (AsksWhileLoaded(states, actions, k) ==> !PublishedAfter(actions, k))
  {
    if BusyThroughout(states) {
      forall k: nat
        ensures !AsksWhileIdle(states, actions, k)
        ensures AsksWhileLoaded(states, actions, k) ==> !PublishedAfter(actions, k)
      {
        if k < |actions| && actions[k].Swap? {
          AskedIsUnserved(states, actions, k);
          if j :| k < j < |actions| && actions[j] == Publish && AsksWhileLoaded(states, actions, k) {
            PublishesIdle(states, actions, k + 1, j);
          }
        }
      }
    } else {
      var i :| 0 <= i < |states| && Unserved(states[i]) && !states[i].indexing;
      if forall k: nat :: !AsksWhileIdle(states, actions, k)
                          && (AsksWhileLoaded(states, actions, k) ==> !PublishedAfter(actions, k)) {
        StaysBusy(states, actions, i);
      }
    }
  }
}
