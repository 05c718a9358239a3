/**
 The invariant of the orchestration runtime and its preservation by every step.

 Each conjunct is a predicate of its own; each step is shown to keep each conjunct it can affect.
 */
module RuntimeInvariants {
  import opened Names
  import opened JsonValues
  import opened Reachability
  import opened TaskTypes
  import opened TaskGraphs
  import opened Schedulers
  import opened SchedulerProperties
  import opened RuntimeStates
  import opened RuntimeLogs
  import Sorting = StableSort

  /** Nodes and specifications agree, and every relation comes from a dependency of a live task. */
  ghost predicate Registered(s: State) {
    && s.graph.nodes.Keys == s.specs.Keys
    && (forall id :: id in s.specs ==> s.specs[id].taskId == id)
    && (forall r :: r in s.graph.relations ==>
          && r.prerequisite in s.specs && r.dependent in s.specs && r.condition == OnSucceeded
          && r.prerequisite in s.specs[r.dependent].dependencies)
  }

  ghost function QueuedIds(ready: seq<ScheduledTask>): set<Name> {
    set t | t in ready :: t.id
  }

  ghost predicate OnceEach(ready: seq<ScheduledTask>) {
    forall i, j :: 0 <= i < j < |ready| ==> ready[i].id != ready[j].id
  }

  /**
   A node is ready iff it has exactly one queue entry, made from its own specification; `due` are still to be queued.
   */
  ghost predicate QueueAgrees(
    nodes: map<Name, NodeState>, ready: seq<ScheduledTask>, specs: map<Name, ChildTaskSpec>, due: set<Name>)
  {
    && OnceEach(ready)
    && QueuedIds(ready) !! due
    && (forall id :: id in QueuedIds(ready) + due <==> id in nodes && nodes[id] == Ready)
    && (forall t :: t in ready ==> t.id in specs && t == Scheduled(specs[t.id], t.priority, t.sequence))
  }

  ghost predicate QueueMatches(s: State, due: set<Name>) {
    QueueAgrees(s.graph.nodes, s.sched.ready, s.specs, due)
  }

  /** A node is running iff it holds a slot. */
  ghost predicate SlotsMatch(s: State) {
    && Keyed(s.sched)
    && forall id :: id in s.sched.running <==> id in s.graph.nodes && s.graph.nodes[id] == Running
  }

  ghost function InboxIds(inbox: seq<Completion>): set<Name> {
    set c | c in inbox :: c.id
  }

  /**
   A task is in flight, with a live worker or a report in the channel but not both, iff it has a cancellation
   token; then it is `Running` or `Unknown`, and every `Running` task is in flight.
   */
  ghost predicate FlightMatches(s: State) {
    && s.tokens.Keys == s.workers + InboxIds(s.inbox)
    && s.workers !! InboxIds(s.inbox)
    && (forall i, j :: 0 <= i < j < |s.inbox| ==> s.inbox[i].id != s.inbox[j].id)
    && (forall id :: id in s.tokens ==> id in s.graph.nodes && s.graph.nodes[id] in {Running, Unknown})
    && (forall id :: id in s.graph.nodes && s.graph.nodes[id] == Running ==> id in s.tokens)
  }

  /** Exactly the succeeded tasks have a stored result, and every stored result passed validation. */
  ghost predicate ResultsMatch(s: State) {
    && (forall id :: id in s.results <==> id in s.graph.nodes && s.graph.nodes[id] == Succeeded)
    && (forall id :: id in s.results && id in s.specs ==> s.results[id].ValidateFor(s.specs[id]) == Ok)
  }

  /** Whatever is ready, or was launched and not deleted since, has only succeeded prerequisites. */
  ghost predicate DependenciesMet(s: State) {
    forall r :: r in s.graph.relations && r.dependent in s.graph.nodes && r.prerequisite in s.graph.nodes
      && (s.graph.nodes[r.dependent] == Ready || LaunchedSince(s.log, r.dependent))
      ==> s.graph.nodes[r.prerequisite] == Succeeded
  }

  /** A launched task never goes back to a state it could be launched from. */
  ghost predicate LogMatches(s: State) {
    && LaunchesOnce(s.log)
    && (forall id :: LaunchedSince(s.log, id) ==> id in s.graph.nodes && s.graph.nodes[id] !in {Queued, Ready, Blocked})
    && (forall id :: id in s.tokens ==> LaunchedSince(s.log, id))
  }

  /**
   A declared dependency is still related to its task unless the dependency was deleted after the task was submitted.
   */
  ghost predicate RelationsMatchLog(s: State) {
    forall id, d :: id in s.specs && d in s.specs[id].dependencies ==>
      (Edge(d, id) in EdgesOf(s.graph.relations) <==> !DeletedSince(s.log, d, id))
  }

  /** The conjuncts about nodes, slots, tokens, results and history, the queue aside. */
  ghost predicate BooksMatch(s: State) {
    Registered(s) && SlotsMatch(s) && FlightMatches(s) && ResultsMatch(s) && DependenciesMet(s) && LogMatches(s)
  }

  /** The invariant while a tick is between refreshing the graph and queueing the `due` nodes. */
  ghost predicate InvariantDue(s: State, due: set<Name>) {
    BooksMatch(s) && QueueMatches(s, due) && RelationsMatchLog(s) && Acyclic(EdgesOf(s.graph.relations))
  }

  ghost predicate Invariant(s: State) {
    InvariantDue(s, {})
  }

  lemma EdgeMeaning(relations: seq<TaskRelation>, a: Name, b: Name)
    ensures Edge(a, b) in EdgesOf(relations)
            <==> exists r :: r in relations && r.prerequisite == a && r.dependent == b
  {
  }

  lemma InitialInvariant(limits: SlotLimits)
    ensures Invariant(Initial(limits))
  {
    var s := Initial(limits);
    forall e | e in EdgesOf(s.graph.relations) ensures false {
    }
  }

  // ---- submit ----

  lemma NewRelations(relations: seq<TaskRelation>, spec: ChildTaskSpec)
    ensures forall r :: r in relations + RelationsFor(spec) <==>
              r in relations
              || (r.dependent == spec.taskId && r.prerequisite in spec.dependencies && r.condition == OnSucceeded)
  {
    forall r ensures r in RelationsFor(spec) <==>
        r.dependent == spec.taskId && r.prerequisite in spec.dependencies && r.condition == OnSucceeded {
      if r.dependent == spec.taskId && r.prerequisite in spec.dependencies && r.condition == OnSucceeded {
        var i :| 0 <= i < |spec.dependencies| && spec.dependencies[i] == r.prerequisite;
        assert RelationsFor(spec)[i] == r;
      }
    }
  }

  /** Edges into a node nothing leaves cannot close a cycle. */
  lemma NewSinkAcyclic(edges: set<Edge>, larger: set<Edge>, sink: Name)
    requires Acyclic(edges) && edges <= larger
    requires forall e :: e in larger && e !in edges ==> e.target == sink
    requires forall e :: e in larger ==> e.source != sink
    ensures Acyclic(larger)
  {
    forall e | e in larger ensures !Reaches(larger, e.target, e.source) {
      if Reaches(larger, e.target, e.source) {
        if e.target == sink {
          ReachesStaysInside(larger, {sink}, sink, e.source);
        } else {
          BeforeSink(edges, larger, sink, e.target, e.source);
        }
      }
    }
  }

  /** A path that ends before the sink never enters it, so it uses old edges only. */
  lemma BeforeSink(edges: set<Edge>, larger: set<Edge>, sink: Name, a: Name, b: Name)
    requires forall e :: e in larger && e !in edges ==> e.target == sink
    requires forall e :: e in larger ==> e.source != sink
    requires Reaches(larger, a, b) && b != sink
    ensures Reaches(edges, a, b)
  {
    var n: nat :| ReachIn(larger, a, b, n);
    BeforeSinkIn(edges, larger, sink, a, b, n);
  }

  lemma {:induction false} BeforeSinkIn(edges: set<Edge>, larger: set<Edge>, sink: Name, a: Name, b: Name, n: nat)
    requires forall e :: e in larger && e !in edges ==> e.target == sink
    requires forall e :: e in larger ==> e.source != sink
    requires ReachIn(larger, a, b, n) && b != sink
    ensures Reaches(edges, a, b)
    decreases n
  {
    if n == 0 {
      ReachesSelf(edges, a);
    } else {
      var c :| Edge(a, c) in larger && ReachIn(larger, c, b, n - 1);
      BeforeSinkIn(edges, larger, sink, c, b, n - 1);
      if c == sink {
        ReachesStaysInside(larger, {sink}, sink, b);
      } else {
        ReachesPrepend(edges, a, c, b);
      }
    }
  }

  lemma AdmitKeepsGraph(s: State, spec: ChildTaskSpec, priority: nat)
    requires forall d :: d in spec.dependencies ==> d in s.specs
    requires Registered(s) && Acyclic(EdgesOf(s.graph.relations)) && spec.taskId !in s.specs
    ensures Registered(Admit(s, spec, priority)) && Acyclic(EdgesOf(Admit(s, spec, priority).graph.relations))
  {
    var s' := Admit(s, spec, priority);
    NewRelations(s.graph.relations, spec);
    NewSinkAcyclic(EdgesOf(s.graph.relations), EdgesOf(s'.graph.relations), spec.taskId);
  }

  lemma EnqueueMembers(s: Sched, task: ScheduledTask)
    ensures forall t :: t in Enqueue(s, task).ready <==> t in s.ready || t == task
    ensures |Enqueue(s, task).ready| == |s.ready| + 1
  {
    Sorting.SortPermutes(QueueLeq, s.ready + [task]);
    Sorting.SameElements(Enqueue(s, task).ready, s.ready + [task]);
  }

  lemma EnqueueOnceEach(s: Sched, task: ScheduledTask)
    requires OnceEach(s.ready) && task.id !in QueuedIds(s.ready)
    ensures OnceEach(Enqueue(s, task).ready)
    ensures QueuedIds(Enqueue(s, task).ready) == QueuedIds(s.ready) + {task.id}
  {
    var before, after := s.ready + [task], Enqueue(s, task).ready;
    EnqueueMembers(s, task);
    Sorting.SortPermutes(QueueLeq, before);
    DistinctTransfers(before, after);
  }

  /** Distinct ids depend on the multiset only. */
  lemma DistinctTransfers(a: seq<ScheduledTask>, b: seq<ScheduledTask>)
    requires OnceEach(a) && multiset(a) == multiset(b)
    ensures OnceEach(b)
  {
    forall i, j | 0 <= i < j < |b| ensures b[i].id != b[j].id {
      Sorting.SameElements(a, b);
      assert b[i] in a && b[j] in a;
      if b[i].id == b[j].id {
        assert b[i] == b[j];
        TwiceInMultiset(b, i, j);
        OnceInMultiset(a, b[i]);
      }
    }
  }

  lemma TwiceInMultiset(b: seq<ScheduledTask>, i: nat, j: nat)
    requires i < j < |b| && b[i] == b[j]
    ensures multiset(b)[b[i]] >= 2
  {
    assert b == b[..i] + [b[i]] + b[i + 1..j] + [b[j]] + b[j + 1..];
  }

  lemma {:induction false} OnceInMultiset(a: seq<ScheduledTask>, t: ScheduledTask)
    requires OnceEach(a)
    ensures multiset(a)[t] <= 1
  {
    if |a| > 0 {
      assert a == [a[0]] + a[1..];
      OnceInMultiset(a[1..], t);
      assert forall k :: 0 <= k < |a[1..]| ==> a[1..][k] == a[k + 1] && a[k + 1].id != a[0].id;
      assert a[0] !in a[1..];
      assert a[0] !in multiset(a[1..]);
    }
  }

  /** Queueing one of the due nodes. */
  lemma EnqueueAgrees(
    nodes: map<Name, NodeState>, q: Sched, specs: map<Name, ChildTaskSpec>, due: set<Name>, task: ScheduledTask)
    requires QueueAgrees(nodes, q.ready, specs, due)
    requires task.id in due && task.id in specs && task == Scheduled(specs[task.id], task.priority, task.sequence)
    ensures QueueAgrees(nodes, Enqueue(q, task).ready, specs, due - {task.id})
  {
    EnqueueMembers(q, task);
    EnqueueOnceEach(q, task);
  }

  /** A new node enters the queue's books as due when it is ready. */
  lemma NewNodeAgrees(nodes: map<Name, NodeState>, ready: seq<ScheduledTask>, specs: map<Name, ChildTaskSpec>,
                      spec: ChildTaskSpec, state: NodeState)
    requires QueueAgrees(nodes, ready, specs, {}) && nodes.Keys == specs.Keys && spec.taskId !in specs
    ensures QueueAgrees(nodes[spec.taskId := state], ready, specs[spec.taskId := spec],
                        if state == Ready then {spec.taskId} else {})
  {
  }

  lemma NewReadyAgrees(nodes: map<Name, NodeState>, q: Sched, specs: map<Name, ChildTaskSpec>,
                       spec: ChildTaskSpec, task: ScheduledTask)
    requires QueueAgrees(nodes, q.ready, specs, {}) && nodes.Keys == specs.Keys && spec.taskId !in specs
    requires task == Scheduled(spec, task.priority, task.sequence)
    ensures QueueAgrees(nodes[spec.taskId := Ready], Enqueue(q, task).ready, specs[spec.taskId := spec], {})
  {
    NewNodeAgrees(nodes, q.ready, specs, spec, Ready);
    EnqueueAgrees(nodes[spec.taskId := Ready], q, specs[spec.taskId := spec], {spec.taskId}, task);
    assert {spec.taskId} - {task.id} == {};
  }

  lemma AdmitKeepsQueue(s: State, spec: ChildTaskSpec, priority: nat)
    requires s.graph.nodes.Keys == s.specs.Keys && QueueMatches(s, {}) && spec.taskId !in s.specs
    ensures QueueMatches(Admit(s, spec, priority), {})
  {
    var s' := Admit(s, spec, priority);
    if |spec.dependencies| == 0 {
      var task := Scheduled(spec, priority, s.nextSequence + 1);
      assert s'.sched.ready == Enqueue(s.sched, task).ready;
      NewReadyAgrees(s.graph.nodes, s.sched, s.specs, spec, task);
    } else {
      assert s'.sched.ready == s.sched.ready;
      NewNodeAgrees(s.graph.nodes, s.sched.ready, s.specs, spec, Queued);
    }
  }

  lemma AdmitKeepsFlight(s: State, spec: ChildTaskSpec, priority: nat)
    requires Registered(s) && SlotsMatch(s) && FlightMatches(s) && ResultsMatch(s) && spec.taskId !in s.specs
    ensures var s' := Admit(s, spec, priority); SlotsMatch(s') && FlightMatches(s') && ResultsMatch(s')
  {
  }

  lemma AdmitKeepsHistory(s: State, spec: ChildTaskSpec, priority: nat)
    requires Registered(s) && DependenciesMet(s) && LogMatches(s) && RelationsMatchLog(s) && spec.taskId !in s.specs
    ensures var s' := Admit(s, spec, priority); DependenciesMet(s') && LogMatches(s') && RelationsMatchLog(s')
  {
    LogAppend(s.log, Submitted(spec.taskId));
    NewRelations(s.graph.relations, spec);
    var s' := Admit(s, spec, priority);
    forall id, d | id in s'.specs && d in s'.specs[id].dependencies
      ensures Edge(d, id) in EdgesOf(s'.graph.relations) <==> !DeletedSince(s'.log, d, id)
    {
      EdgeMeaning(s.graph.relations, d, id);
      EdgeMeaning(s'.graph.relations, d, id);
      if id == spec.taskId {
        assert TaskRelation(d, id, OnSucceeded) in s'.graph.relations;
      }
    }
  }

  lemma SubmitKeepsInvariant(s: State, spec: ChildTaskSpec, priority: nat)
    requires Invariant(s)
    ensures Invariant(Submit(s, spec, priority))
  {
    if SubmitOutcome(s, spec) == Ok {
      AdmitKeepsGraph(s, spec, priority);
      AdmitKeepsQueue(s, spec, priority);
      AdmitKeepsFlight(s, spec, priority);
      AdmitKeepsHistory(s, spec, priority);
    }
  }

  // ---- tick: reaping ----

  lemma FirstInInbox(inbox: seq<Completion>)
    requires |inbox| > 0 && forall i, j :: 0 <= i < j < |inbox| ==> inbox[i].id != inbox[j].id
    ensures InboxIds(inbox[1..]) == InboxIds(inbox) - {inbox[0].id} && inbox[0].id in InboxIds(inbox)
  {
    assert inbox == [inbox[0]] + inbox[1..];
    forall d | d in inbox[1..] ensures d.id != inbox[0].id {
      var k :| 0 <= k < |inbox[1..]| && inbox[1..][k] == d;
      assert inbox[k + 1].id != inbox[0].id;
    }
  }

  lemma ReapOneKeepsFlight(s: State)
    requires FlightMatches(s) && SlotsMatch(s) && TickDefined(s) && |s.inbox| > 0
    ensures FlightMatches(ReapOne(s)) && SlotsMatch(ReapOne(s))
  {
    FirstInInbox(s.inbox);
    assert s.inbox[0] in s.inbox;
    var s' := ReapOne(s);
    assert s'.inbox == s.inbox[1..] && s'.workers == s.workers && s'.tokens == s.tokens - {s.inbox[0].id};
    assert s'.graph.nodes == s.graph.nodes[s.inbox[0].id := Verdict(s.specs[s.inbox[0].id], s.inbox[0].report)];
  }

  lemma ReapOneKeepsResults(s: State)
    requires FlightMatches(s) && ResultsMatch(s) && TickDefined(s) && |s.inbox| > 0
    ensures ResultsMatch(ReapOne(s))
  {
    FirstInInbox(s.inbox);
    assert s.inbox[0] in s.inbox;
  }

  lemma ReapOneKeepsHistory(s: State)
    requires Registered(s) && FlightMatches(s) && DependenciesMet(s) && LogMatches(s) && TickDefined(s) && |s.inbox| > 0
    ensures Registered(ReapOne(s)) && DependenciesMet(ReapOne(s)) && LogMatches(ReapOne(s))
  {
    FirstInInbox(s.inbox);
    assert s.inbox[0] in s.inbox;
    var s' := ReapOne(s);
    assert s'.log == s.log && s'.graph.relations == s.graph.relations && s'.specs == s.specs;
    assert s'.graph.nodes == s.graph.nodes[s.inbox[0].id := Verdict(s.specs[s.inbox[0].id], s.inbox[0].report)];
  }

  lemma ReapOneKeepsQueue(s: State)
    requires FlightMatches(s) && QueueMatches(s, {}) && TickDefined(s) && |s.inbox| > 0
    ensures QueueMatches(ReapOne(s), {})
  {
    var c := s.inbox[0];
    assert c in s.inbox;
    assert c.id in s.tokens;
    assert ReapOne(s).graph.nodes == s.graph.nodes[c.id := Verdict(s.specs[c.id], c.report)];
  }

  lemma ReapOneKeepsInvariant(s: State)
    requires Invariant(s) && TickDefined(s) && |s.inbox| > 0
    ensures Invariant(ReapOne(s))
  {
    ReapOneKeepsFlight(s);
    ReapOneKeepsResults(s);
    ReapOneKeepsHistory(s);
    ReapOneKeepsQueue(s);
  }

  /** The states of draining the channel: each round handles one completion, and the last state has none. */
  ghost predicate IsReaping(trace: seq<State>) {
    && |trace| > 0 && (forall i :: 0 <= i < |trace| ==> TickDefined(trace[i]))
    && (forall i :: 0 <= i < |trace| - 1 ==> ReapsNext(trace[i], trace[i + 1]))
  }

  ghost predicate ReapsNext(s: State, s': State) {
    TickDefined(s) && |s.inbox| > 0 && s' == ReapOne(s)
  }

  lemma ReapingLonger(s: State, trace: seq<State>)
    requires IsReaping(trace) && ReapsNext(s, trace[0])
    ensures IsReaping([s] + trace)
  {
    var longer := [s] + trace;
    forall i | 0 <= i < |longer| - 1 ensures ReapsNext(longer[i], longer[i + 1]) {
      if i > 0 {
        assert longer[i] == trace[i - 1] && longer[i + 1] == trace[i];
      }
    }
  }

  lemma {:induction false} ReapingOf(s: State) returns (trace: seq<State>)
    requires TickDefined(s)
    ensures IsReaping(trace) && trace[0] == s && trace[|trace| - 1] == Reap(s)
    decreases |s.inbox|
  {
    if |s.inbox| == 0 {
      trace := [s];
    } else {
      var rest := ReapingOf(ReapOne(s));
      ReapingLonger(s, rest);
      trace := [s] + rest;
    }
  }

  lemma {:induction false} ReapingKeepsInvariant(trace: seq<State>, i: nat)
    requires IsReaping(trace) && Invariant(trace[0]) && i < |trace|
    ensures Invariant(trace[i])
  {
    if i > 0 {
      ReapingKeepsInvariant(trace, i - 1);
      assert ReapsNext(trace[i - 1], trace[i]);
      ReapOneKeepsInvariant(trace[i - 1]);
    }
  }

  lemma ReapKeepsInvariant(s: State)
    requires Invariant(s) && TickDefined(s)
    ensures Invariant(Reap(s))
  {
    var trace := ReapingOf(s);
    ReapingKeepsInvariant(trace, |trace| - 1);
  }

  /** `tick` never indexes a missing specification or node. */
  lemma TickIsDefined(s: State)
    requires Invariant(s)
    ensures TickDefined(s)
  {
    forall c | c in s.inbox ensures c.id in s.specs {
      assert c.id in InboxIds(s.inbox);
      assert c.id in s.tokens;
    }
  }

  // ---- tick: refreshing and queueing ----

  lemma RefreshMoves(g: Graph)
    requires EndpointsPresent(g)
    ensures PartlyRefreshed(g.nodes, Refreshed(g).nodes) && Refreshed(g).relations == g.relations
  {
  }

  lemma RefreshKeepsDependencies(s: State)
    requires Registered(s) && DependenciesMet(s) && LogMatches(s) && EndpointsPresent(s.graph)
    ensures DependenciesMet(s.(graph := Refreshed(s.graph)))
  {
    RefreshMoves(s.graph);
  }

  lemma RefreshKeepsSlots(s: State)
    requires SlotsMatch(s) && FlightMatches(s) && EndpointsPresent(s.graph)
    ensures var s' := s.(graph := Refreshed(s.graph)); SlotsMatch(s') && FlightMatches(s')
  {
    RefreshMoves(s.graph);
  }

  lemma RefreshKeepsHistory(s: State)
    requires Registered(s) && LogMatches(s) && EndpointsPresent(s.graph)
    ensures var s' := s.(graph := Refreshed(s.graph)); Registered(s') && LogMatches(s')
  {
    RefreshMoves(s.graph);
  }

  lemma RefreshKeepsResults(s: State)
    requires ResultsMatch(s) && EndpointsPresent(s.graph)
    ensures ResultsMatch(s.(graph := Refreshed(s.graph)))
  {
    RefreshMoves(s.graph);
  }

  lemma RefreshKeepsBooks(s: State)
    requires BooksMatch(s) && EndpointsPresent(s.graph)
    ensures BooksMatch(s.(graph := Refreshed(s.graph)))
  {
    RefreshKeepsSlots(s);
    RefreshKeepsHistory(s);
    RefreshKeepsResults(s);
    RefreshKeepsDependencies(s);
  }

  lemma RefreshKeepsQueue(s: State)
    requires QueueMatches(s, {}) && EndpointsPresent(s.graph)
    ensures QueueMatches(s.(graph := Refreshed(s.graph)), FreshlyReady(s.graph))
  {
    RefreshMoves(s.graph);
  }

  lemma RefreshKeepsInvariant(s: State)
    requires Invariant(s) && TickDefined(s)
    ensures InvariantDue(s.(graph := Refreshed(s.graph)), FreshlyReady(s.graph))
  {
    RefreshKeepsBooks(s);
    RefreshKeepsQueue(s);
  }

  function QueueFirst(s: State, id: Name): State
    requires id in s.specs
  {
    s.(sched := Enqueue(s.sched, Scheduled(s.specs[id], 0, s.nextSequence + 1)), nextSequence := s.nextSequence + 1)
  }

  lemma QueueFirstKeepsBooks(s: State, id: Name)
    requires BooksMatch(s) && RelationsMatchLog(s) && id in s.specs
    ensures BooksMatch(QueueFirst(s, id)) && RelationsMatchLog(QueueFirst(s, id))
  {
    var s' := QueueFirst(s, id);
    assert s'.graph == s.graph && s'.log == s.log && s'.specs == s.specs && s'.sched.running == s.sched.running;
  }

  lemma QueueFirstKeepsQueue(s: State, due: set<Name>, id: Name)
    requires QueueMatches(s, due) && id in due && id in s.specs && s.specs[id].taskId == id
    ensures QueueMatches(QueueFirst(s, id), due - {id})
  {
    var task := Scheduled(s.specs[id], 0, s.nextSequence + 1);
    EnqueueAgrees(s.graph.nodes, s.sched, s.specs, due, task);
    assert QueueFirst(s, id).sched.ready == Enqueue(s.sched, task).ready;
  }

  lemma QueueFirstKeepsInvariant(s: State, due: set<Name>, id: Name)
    requires InvariantDue(s, due) && id in due && id in s.specs
    ensures InvariantDue(QueueFirst(s, id), due - {id})
  {
    QueueFirstKeepsBooks(s, id);
    QueueFirstKeepsQueue(s, due, id);
  }

  lemma RestOfDue(ids: seq<Name>)
    requires |ids| > 0 && Ascending(ids)
    ensures (set id | id in ids[1..]) == (set id | id in ids) - {ids[0]} && Ascending(ids[1..])
  {
    AscendingDistinct(ids);
    assert ids == [ids[0]] + ids[1..];
  }

  lemma {:induction false} EnqueueFreshKeepsInvariant(s: State, ids: seq<Name>, due: set<Name>)
    requires InvariantDue(s, due) && Ascending(ids) && due == set id | id in ids
    requires forall id :: id in ids ==> id in s.specs
    ensures Invariant(EnqueueFresh(s, ids))
    decreases |ids|
  {
    if |ids| == 0 {
      assert due == {};
    } else {
      RestOfDue(ids);
      QueueFirstKeepsInvariant(s, due, ids[0]);
      EnqueueFreshKeepsInvariant(QueueFirst(s, ids[0]), ids[1..], due - {ids[0]});
    }
  }

  lemma PromoteKeepsInvariant(s: State)
    requires Invariant(s) && TickDefined(s)
    ensures Invariant(Promote(s))
  {
    RefreshKeepsInvariant(s);
    var due := FreshlyReady(s.graph);
    var ids := SortedNames(due);
    assert (set id | id in ids) == due;
    EnqueueFreshKeepsInvariant(s.(graph := Refreshed(s.graph)), ids, due);
  }

  // ---- tick: launching ----

  lemma StartMembers(q: Sched, index: nat)
    requires index < |q.ready| && OnceEach(q.ready)
    ensures OnceEach(Start(q, index).ready)
    ensures QueuedIds(Start(q, index).ready) == QueuedIds(q.ready) - {q.ready[index].id}
    ensures forall t :: t in Start(q, index).ready ==> t in q.ready
  {
    var before, after := q.ready, Start(q, index).ready;
    forall i | 0 <= i < |after| ensures after[i] == before[if i < index then i else i + 1] {
    }
    forall t | t in before && t.id != before[index].id ensures t in after {
      var k :| 0 <= k < |before| && before[k] == t;
      assert after[if k < index then k else k - 1] == t;
    }
  }

  lemma LaunchKeepsQueue(s: State, index: nat, refused: set<Name>)
    requires QueueMatches(s, {}) && index < |s.sched.ready|
    ensures QueueMatches(Launch(s, index, refused), {})
  {
    StartMembers(s.sched, index);
    var id := s.sched.ready[index].id;
    assert s.sched.ready[index] in s.sched.ready;
    var s' := Launch(s, index, refused);
    assert s'.graph.nodes == s.graph.nodes[id := Running];
    assert s'.sched.ready == Start(s.sched, index).ready;
  }

  lemma LaunchKeepsSlots(s: State, index: nat, refused: set<Name>)
    requires SlotsMatch(s) && ResultsMatch(s) && index < |s.sched.ready|
    requires s.sched.ready[index].id in s.graph.nodes && s.graph.nodes[s.sched.ready[index].id] == Ready
    ensures var s' := Launch(s, index, refused); SlotsMatch(s') && ResultsMatch(s')
  {
  }

  lemma LaunchKeepsTokens(s: State, index: nat, refused: set<Name>)
    requires FlightMatches(s) && index < |s.sched.ready|
    requires s.sched.ready[index].id in s.graph.nodes && s.graph.nodes[s.sched.ready[index].id] == Ready
    ensures FlightMatches(Launch(s, index, refused))
  {
    var id, s' := s.sched.ready[index].id, Launch(s, index, refused);
    assert id !in s.tokens;
    forall c | c in s.inbox ensures c.id != id {
      assert c.id in InboxIds(s.inbox);
    }
    if id in refused {
      assert InboxIds(s'.inbox) == InboxIds(s.inbox) + {id};
    }
  }

  lemma LaunchKeepsHistory(s: State, index: nat, refused: set<Name>)
    requires Registered(s) && DependenciesMet(s) && LogMatches(s) && RelationsMatchLog(s) && index < |s.sched.ready|
    requires s.sched.ready[index].id in s.graph.nodes && s.graph.nodes[s.sched.ready[index].id] == Ready
    ensures var s' := Launch(s, index, refused);
            Registered(s') && DependenciesMet(s') && LogMatches(s') && RelationsMatchLog(s')
  {
    LogAppend(s.log, Launched(s.sched.ready[index].id));
  }

  lemma LaunchKeepsInvariant(s: State, index: nat, refused: set<Name>)
    requires Invariant(s) && index < |s.sched.ready|
    ensures s.sched.ready[index].id in s.specs
    ensures Invariant(Launch(s, index, refused))
  {
    assert s.sched.ready[index] in s.sched.ready;
    assert s.sched.ready[index].id in QueuedIds(s.sched.ready) + {};
    LaunchKeepsQueue(s, index, refused);
    LaunchKeepsSlots(s, index, refused);
    LaunchKeepsTokens(s, index, refused);
    LaunchKeepsHistory(s, index, refused);
  }

  lemma FillUnfolds(s: State, now: nat, refused: set<Name>)
    requires forall t :: t in s.sched.ready ==> t.id in s.specs
    ensures var index := NextIndex(s.sched, now);
            Fill(s, now, refused)
            == if index == |s.sched.ready| then s else Fill(Launch(s, index, refused), now, refused)
  {
  }

  lemma QueueSpecified(s: State)
    requires Invariant(s)
    ensures forall t :: t in s.sched.ready ==> t.id in s.specs
  {
  }

  /** The states of the launch loop: each round launches what is next, and the last state has nothing next. */
  ghost predicate IsFilling(trace: seq<State>, now: nat, refused: set<Name>) {
    && |trace| > 0
    && (forall i :: 0 <= i < |trace| - 1 ==> LaunchesNext(trace[i], trace[i + 1], now, refused))
    && NextIndex(trace[|trace| - 1].sched, now) == |trace[|trace| - 1].sched.ready|
  }

  ghost predicate LaunchesNext(s: State, s': State, now: nat, refused: set<Name>) {
    var index := NextIndex(s.sched, now);
    index < |s.sched.ready| && s' == Launch(s, index, refused)
  }

  /** The launch loop leads from `s` to `after`. */
  ghost predicate FillsTo(trace: seq<State>, now: nat, refused: set<Name>, s: State, after: State) {
    IsFilling(trace, now, refused) && trace[0] == s && trace[|trace| - 1] == after
  }

  lemma FillingLonger(s: State, trace: seq<State>, now: nat, refused: set<Name>, next: State, after: State)
    requires FillsTo(trace, now, refused, next, after) && LaunchesNext(s, next, now, refused)
    ensures FillsTo([s] + trace, now, refused, s, after)
  {
    var longer := [s] + trace;
    forall i | 0 <= i < |longer| - 1 ensures LaunchesNext(longer[i], longer[i + 1], now, refused) {
      if i > 0 {
        assert longer[i] == trace[i - 1] && longer[i + 1] == trace[i];
      }
    }
  }

  lemma {:induction false} FillingOf(s: State, now: nat, refused: set<Name>) returns (trace: seq<State>)
    requires Invariant(s)
    ensures FillsTo(trace, now, refused, s, Fill(s, now, refused))
    decreases |s.sched.ready|
  {
    var index := NextIndex(s.sched, now);
    QueueSpecified(s);
    FillUnfolds(s, now, refused);
    if index == |s.sched.ready| {
      trace := [s];
    } else {
      var next := Launch(s, index, refused);
      LaunchKeepsInvariant(s, index, refused);
      var rest := FillingOf(next, now, refused);
      FillingLonger(s, rest, now, refused, next, Fill(next, now, refused));
      trace := [s] + rest;
    }
  }

  lemma {:induction false} FillingKeepsInvariant(trace: seq<State>, now: nat, refused: set<Name>, i: nat)
    requires IsFilling(trace, now, refused) && Invariant(trace[0]) && i < |trace|
    ensures Invariant(trace[i])
  {
    if i > 0 {
      FillingKeepsInvariant(trace, now, refused, i - 1);
      assert LaunchesNext(trace[i - 1], trace[i], now, refused);
      LaunchKeepsInvariant(trace[i - 1], NextIndex(trace[i - 1].sched, now), refused);
    }
  }

  lemma FillKeepsInvariant(s: State, now: nat, refused: set<Name>)
    requires Invariant(s)
    ensures Invariant(Fill(s, now, refused))
  {
    var trace := FillingOf(s, now, refused);
    FillingKeepsInvariant(trace, now, refused, |trace| - 1);
  }

  lemma TickKeepsInvariant(s: State, now: nat, refused: set<Name>)
    requires Invariant(s) && TickDefined(s)
    ensures Invariant(Tick(s, now, refused))
  {
    ReapKeepsInvariant(s);
    PromoteKeepsInvariant(Reap(s));
    FillKeepsInvariant(Promote(Reap(s)), now, refused);
  }

  // ---- cancellation ----

  /** What cancelling does to a task it affects: a running one is of unknown outcome, a settled one keeps its state. */
  function Stopped(state: NodeState): NodeState {
    match state
    case Running => Unknown
    case Succeeded => Succeeded
    case Failed => Failed
    case Cancelled => Cancelled
    case Unknown => Unknown
    case _ => Cancelled
  }

  function StoppedIn(nodes: map<Name, NodeState>, affected: set<Name>): map<Name, NodeState> {
    map id | id in nodes :: if id in affected then Stopped(nodes[id]) else nodes[id]
  }

  lemma DescendantsPresent(s: State, root: Name)
    requires Registered(s)
    ensures Descendants(s.graph.relations, root) <= s.graph.nodes.Keys
  {
    forall x | x in Descendants(s.graph.relations, root) ensures x in s.graph.nodes {
      assert x in AllDependents(s.graph.relations);
    }
  }

  lemma RootRetains(s: State, root: Name)
    requires FlightMatches(s) && ResultsMatch(s) && Registered(s) && root in s.graph.nodes
    ensures RetainedCancelState(s.graph.nodes[root], Unconfirmed(s, root)) == Stopped(s.graph.nodes[root])
  {
  }

  lemma AffectedSplit(relations: seq<TaskRelation>, root: Name)
    requires Acyclic(EdgesOf(relations))
    ensures WithDescendants(relations, root) == Descendants(relations, root) + {root}
    ensures root !in Descendants(relations, root)
  {
    forall id ensures id in Descendants(relations, root) <==> id != root && id in WithDescendants(relations, root) {
      InDescendants(relations, root, id);
      InWithDescendants(relations, root, id);
    }
    ReachesSelf(EdgesOf(relations), root);
    InWithDescendants(relations, root, root);
  }

  lemma BelowStops(nodes: map<Name, NodeState>, below: set<Name>)
    requires below <= nodes.Keys
    ensures CancelledIn(nodes, below, {}) == StoppedIn(nodes, below)
  {
  }

  lemma StopOneMore(nodes: map<Name, NodeState>, below: set<Name>, root: Name)
    requires root !in below
    ensures root in nodes ==> StoppedIn(nodes, below)[root := Stopped(nodes[root])] == StoppedIn(nodes, below + {root})
    ensures root !in nodes ==> StoppedIn(nodes, below) == StoppedIn(nodes, below + {root})
  {
  }

  /** The two passes of `cancel_tree`, over the descendants and over the root, act as one on the affected set. */
  lemma CancelTreeNodes(s: State, root: Name)
    requires Registered(s) && Acyclic(EdgesOf(s.graph.relations)) && FlightMatches(s) && ResultsMatch(s)
    ensures CancelTree(s, root).graph
            == Graph(StoppedIn(s.graph.nodes, WithDescendants(s.graph.relations, root)), s.graph.relations)
  {
    var below := Descendants(s.graph.relations, root);
    DescendantsPresent(s, root);
    AffectedSplit(s.graph.relations, root);
    BelowStops(s.graph.nodes, below);
    StopOneMore(s.graph.nodes, below, root);
    if root in s.graph.nodes {
      RootRetains(s, root);
      assert StoppedIn(s.graph.nodes, below)[root] == s.graph.nodes[root];
    }
  }

  lemma {:induction false} WithoutAnyMembers(tasks: seq<ScheduledTask>, ids: set<Name>)
    requires OnceEach(tasks)
    ensures OnceEach(WithoutAny(tasks, ids))
    ensures QueuedIds(WithoutAny(tasks, ids)) == QueuedIds(tasks) - ids
  {
    if |tasks| > 0 {
      assert tasks == [tasks[0]] + tasks[1..];
      WithoutAnyMembers(tasks[1..], ids);
      var rest := WithoutAny(tasks[1..], ids);
      forall j | 0 <= j < |rest| ensures rest[j].id != tasks[0].id {
        assert rest[j] in tasks[1..];
        var k :| 0 <= k < |tasks[1..]| && tasks[1..][k] == rest[j];
        assert tasks[k + 1].id != tasks[0].id;
      }
    }
  }

  lemma CancelKeepsQueue(s: State, root: Name)
    requires QueueMatches(s, {})
    requires CancelTree(s, root).graph.nodes == StoppedIn(s.graph.nodes, WithDescendants(s.graph.relations, root))
    ensures QueueMatches(CancelTree(s, root), {})
  {
    WithoutAnyMembers(s.sched.ready, WithDescendants(s.graph.relations, root));
    assert CancelTree(s, root).sched.ready == WithoutAny(s.sched.ready, WithDescendants(s.graph.relations, root));
  }

  /** The runtime after `affected` was cancelled, as far as the books go. */
  ghost predicate AfterCancel(s: State, s': State, affected: set<Name>) {
    && s'.graph == Graph(StoppedIn(s.graph.nodes, affected), s.graph.relations)
    && s'.sched.running == s.sched.running - affected
    && s'.tokens.Keys == s.tokens.Keys
    && s'.specs == s.specs && s'.results == s.results && s'.log == s.log
    && s'.inbox == s.inbox && s'.workers == s.workers
  }

  lemma CancelTreeAfter(s: State, root: Name)
    requires CancelTree(s, root).graph
             == Graph(StoppedIn(s.graph.nodes, WithDescendants(s.graph.relations, root)), s.graph.relations)
    ensures AfterCancel(s, CancelTree(s, root), WithDescendants(s.graph.relations, root))
  {
  }

  lemma CancelKeepsSlots(s: State, s': State, affected: set<Name>)
    requires AfterCancel(s, s', affected) && SlotsMatch(s)
    ensures SlotsMatch(s')
  {
  }

  lemma CancelKeepsTokens(s: State, s': State, affected: set<Name>)
    requires AfterCancel(s, s', affected) && FlightMatches(s)
    ensures FlightMatches(s')
  {
  }

  lemma CancelKeepsResults(s: State, s': State, affected: set<Name>)
    requires AfterCancel(s, s', affected) && ResultsMatch(s)
    ensures ResultsMatch(s')
  {
  }

  lemma CancelKeepsHistory(s: State, s': State, affected: set<Name>)
    requires AfterCancel(s, s', affected) && Registered(s) && DependenciesMet(s) && LogMatches(s)
             && RelationsMatchLog(s)
    ensures Registered(s') && DependenciesMet(s') && LogMatches(s') && RelationsMatchLog(s')
  {
  }

  lemma CancelTreeKeepsInvariant(s: State, root: Name)
    requires Invariant(s)
    ensures Invariant(CancelTree(s, root))
  {
    CancelTreeNodes(s, root);
    CancelKeepsQueue(s, root);
    var affected := WithDescendants(s.graph.relations, root);
    CancelTreeAfter(s, root);
    CancelKeepsSlots(s, CancelTree(s, root), affected);
    CancelKeepsTokens(s, CancelTree(s, root), affected);
    CancelKeepsResults(s, CancelTree(s, root), affected);
    CancelKeepsHistory(s, CancelTree(s, root), affected);
  }

  lemma {:induction false} CancelEachKeepsInvariant(s: State, ids: seq<Name>)
    requires Invariant(s)
    ensures Invariant(CancelEach(s, ids))
    decreases |ids|
  {
    if |ids| > 0 {
      CancelTreeKeepsInvariant(s, ids[0]);
      CancelEachKeepsInvariant(CancelTree(s, ids[0]), ids[1..]);
    }
  }

  // ---- deletion ----

  lemma {:induction false} WithoutAbsent(tasks: seq<ScheduledTask>, id: Name)
    requires id !in QueuedIds(tasks)
    ensures Without(tasks, id) == tasks
  {
    if |tasks| > 0 {
      assert tasks == [tasks[0]] + tasks[1..];
      assert tasks[0] in tasks;
      WithoutAbsent(tasks[1..], id);
    }
  }

  lemma DropKeepsQueue(s: State, id: Name)
    requires QueueMatches(s, {}) && id in s.graph.nodes && s.graph.nodes[id] != Ready
    ensures QueueMatches(Drop(s, id), {})
  {
    assert id !in QueuedIds(s.sched.ready) + {};
    WithoutAbsent(s.sched.ready, id);
    assert Drop(s, id).sched.ready == s.sched.ready;
  }

  lemma DropKeepsFlight(s: State, id: Name)
    requires SlotsMatch(s) && FlightMatches(s) && ResultsMatch(s) && id !in s.tokens
    ensures SlotsMatch(Drop(s, id)) && FlightMatches(Drop(s, id)) && ResultsMatch(Drop(s, id))
  {
  }

  lemma DropKeepsHistory(s: State, id: Name)
    requires Registered(s) && DependenciesMet(s) && LogMatches(s) && id !in s.tokens && id in s.specs
    ensures Registered(Drop(s, id)) && DependenciesMet(Drop(s, id)) && LogMatches(Drop(s, id))
  {
    LogAppend(s.log, Deleted(id));
  }

  lemma DropKeepsBooks(s: State, id: Name)
    requires BooksMatch(s) && id !in s.tokens && id in s.specs
    ensures BooksMatch(Drop(s, id))
  {
    DropKeepsFlight(s, id);
    DropKeepsHistory(s, id);
  }

  lemma DropKeepsRelations(s: State, id: Name)
    requires Registered(s) && RelationsMatchLog(s) && Acyclic(EdgesOf(s.graph.relations))
    ensures RelationsMatchLog(Drop(s, id)) && Acyclic(EdgesOf(Drop(s, id).graph.relations))
  {
    LogAppend(s.log, Deleted(id));
    var relations' := Drop(s, id).graph.relations;
    FewerEdgesAcyclic(EdgesOf(relations'), EdgesOf(s.graph.relations));
    forall a, b | a != id && b != id
      ensures Edge(a, b) in EdgesOf(relations') <==> Edge(a, b) in EdgesOf(s.graph.relations)
    {
      EdgeMeaning(s.graph.relations, a, b);
      EdgeMeaning(relations', a, b);
    }
    forall b ensures Edge(id, b) !in EdgesOf(relations') {
      EdgeMeaning(relations', id, b);
    }
  }

  lemma DeleteKeepsInvariant(s: State, id: Name)
    requires Invariant(s)
    ensures Invariant(Delete(s, id))
  {
    if DeleteOutcome(s, id) == Ok {
      assert s.graph.nodes[id] in {Succeeded, Failed, Cancelled, Blocked, Stale};
      assert id !in s.tokens;
      DropKeepsQueue(s, id);
      DropKeepsBooks(s, id);
      DropKeepsRelations(s, id);
    }
  }

  // ---- environment ----

  lemma ReportKeepsFlight(s: State, id: Name, report: Report)
    requires FlightMatches(s) && id in s.workers
    ensures FlightMatches(DeliverReport(s, id, report))
  {
    var s' := DeliverReport(s, id, report);
    forall c | c in s.inbox ensures c.id != id {
      assert c.id in InboxIds(s.inbox);
    }
    assert InboxIds(s'.inbox) == InboxIds(s.inbox) + {id};
  }

  /** What the invariant says about the fields a report does not touch. */
  lemma SameButFlight(s: State, s': State)
    requires Invariant(s) && FlightMatches(s') && s'.tokens == s.tokens
    requires s'.graph == s.graph && s'.sched == s.sched && s'.specs == s.specs && s'.results == s.results
    requires s'.log == s.log
    ensures Invariant(s')
  {
  }

  lemma ReportKeepsInvariant(s: State, id: Name, report: Report)
    requires Invariant(s) && id in s.workers
    ensures Invariant(DeliverReport(s, id, report))
  {
    ReportKeepsFlight(s, id, report);
    SameButFlight(s, DeliverReport(s, id, report));
  }

  lemma StepKeepsInvariant(s: State, action: Action, s': State)
    requires Invariant(s) && Step(s, action, s')
    ensures Invariant(s')
  {
    match action
    case DoSubmit(spec, priority) => SubmitKeepsInvariant(s, spec, priority);
    case DoTick(now, refused) => TickKeepsInvariant(s, now, refused);
    case DoCancelTree(root) => CancelTreeKeepsInvariant(s, root);
    case DoCancelAll => CancelEachKeepsInvariant(s, SortedNames(s.specs.Keys));
    case DoDelete(id) => DeleteKeepsInvariant(s, id);
    case DoSetGlobal(cap) =>
    case WorkerReports(id, report) => ReportKeepsInvariant(s, id, report);
  }
}
