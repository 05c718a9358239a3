/**
 The orchestration runtime as the program writes it (orchestration.rs, `OrchestrationRuntime`): a mutable graph, a
 mutable scheduler and a few maps.  Every method is proved to perform the step of the same name of the state machine,
 and so to keep its invariant.
 */
module OrchestrationRuntimes {
  import opened Names
  import opened JsonValues
  import opened Reachability
  import opened TaskTypes
  import opened TaskGraphs
  import opened Schedulers
  import opened RuntimeStates
  import opened RuntimeInvariants

  /** The sub-sequence of names in `keep`. */
  function Keeping(names: seq<Name>, keep: set<Name>): (r: seq<Name>)
    ensures forall x :: x in r <==> x in names && x in keep
    ensures Ascending(names) ==> Ascending(r)
  {
    if |names| == 0 then []
    else
      assert names == [names[0]] + names[1..];
      var rest := Keeping(names[1..], keep);
      assert Ascending(names) ==> Ascending(names[1..]) && forall x :: x in names[1..] ==> Below(names[0], x);
      if names[0] in keep then [names[0]] + rest else rest
  }

  lemma WithoutCons(t: ScheduledTask, rest: seq<ScheduledTask>, id: Name)
    ensures Without([t] + rest, id) == (if t.id == id then [] else [t]) + Without(rest, id)
  {
    assert ([t] + rest)[1..] == rest;
  }

  lemma {:induction false} WithoutOneMore(tasks: seq<ScheduledTask>, done: set<Name>, id: Name)
    ensures Without(WithoutAny(tasks, done), id) == WithoutAny(tasks, done + {id})
  {
    if |tasks| > 0 {
      var t, rest := tasks[0], WithoutAny(tasks[1..], done);
      WithoutOneMore(tasks[1..], done, id);
      if t.id in done {
        assert WithoutAny(tasks, done) == rest;
      } else {
        WithoutCons(t, rest, id);
      }
    }
  }

  lemma EnqueueFreshCons(s: State, id: Name, rest: seq<Name>)
    requires id in s.specs && forall x :: x in rest ==> x in s.specs
    ensures EnqueueFresh(s, [id] + rest) == EnqueueFresh(QueueFirst(s, id), rest)
  {
    assert ([id] + rest)[1..] == rest;
  }

  lemma KeepingStep(ids: seq<Name>, i: nat, keep: set<Name>)
    requires i < |ids|
    ensures Keeping(ids[i..], keep) == (if ids[i] in keep then [ids[i]] else []) + Keeping(ids[i + 1..], keep)
  {
    assert ids[i..][1..] == ids[i + 1..];
  }

  lemma {:induction false} WithoutNone(tasks: seq<ScheduledTask>)
    ensures WithoutAny(tasks, {}) == tasks
  {
    if |tasks| > 0 {
      WithoutNone(tasks[1..]);
      assert tasks == [tasks[0]] + tasks[1..];
    }
  }

  /** Nothing leaves a node that is not there, so it reaches only itself. */
  lemma FreshNodeReachesNothing(relations: seq<TaskRelation>, id: Name, d: Name)
    requires id != d && forall r :: r in relations ==> r.prerequisite != id
    ensures !Reaches(EdgesOf(relations), id, d)
  {
    if Reaches(EdgesOf(relations), id, d) {
      ReachesStaysInside(EdgesOf(relations), {id}, id, d);
    }
  }

  lemma Overwrite(nodes: map<Name, NodeState>, id: Name, first: NodeState, second: NodeState)
    ensures nodes[id := first][id := second] == nodes[id := second]
  {
  }

  class OrchestrationRuntime {
    const graph: TaskGraph
    const scheduler: Scheduler
    var specs: map<Name, ChildTaskSpec>
    var results: map<Name, ChildTaskResult>
    var cancellations: map<Name, bool>
    var nextSequence: nat
    var completions: seq<Completion>
    ghost var workers: set<Name>
    ghost var log: seq<LogEntry>

    ghost function Value(): State
      reads this, graph, scheduler
    {
      State(graph.Value(), scheduler.Value(), specs, results, cancellations, nextSequence, completions, workers, log)
    }

    constructor (limits: SlotLimits)
      ensures Value() == Initial(limits) && Invariant(Value())
      ensures fresh(graph) && fresh(scheduler)
    {
      graph := new TaskGraph();
      scheduler := new Scheduler(limits);
      specs, results, cancellations, nextSequence, completions := map[], map[], map[], 0, [];
      workers, log := {}, [];
      new;
      InitialInvariant(limits);
    }

    /** The environment: a live worker sends its report. */
    method WorkerFinishes(id: Name, report: Report)
      requires Invariant(Value()) && id in workers
      modifies this
      ensures Value() == DeliverReport(old(Value()), id, report) && Invariant(Value())
    {
      ReportKeepsInvariant(Value(), id, report);
      workers := workers - {id};
      completions := completions + [Completion(id, report)];
    }

    /** A submission is refused before anything is touched, or goes through: adding its relations cannot fail. */
    method SubmitTask(spec: ChildTaskSpec, priority: nat) returns (outcome: Outcome)
      requires Invariant(Value())
      modifies this, graph, scheduler
      ensures outcome == SubmitOutcome(old(Value()), spec)
      ensures Value() == Submit(old(Value()), spec, priority) && Invariant(Value())
    {
      SubmitKeepsInvariant(Value(), spec, priority);
      if spec.taskId in specs {
        return Err(DuplicateTask);
      }
      for i := 0 to |spec.dependencies|
        invariant forall j :: 0 <= j < i ==> spec.dependencies[j] in graph.nodes
      {
        if spec.dependencies[i] !in graph.nodes {
          return Err(MissingNode);
        }
      }
      Accept(spec, priority);
      return Ok;
    }

    method Accept(spec: ChildTaskSpec, priority: nat)
      requires Registered(Value()) && spec.taskId !in specs
      requires forall d :: d in spec.dependencies ==> d in graph.nodes
      modifies this, graph, scheduler
      ensures Value() == Admit(old(Value()), spec, priority)
    {
      RelateDependencies(spec);
      nextSequence := nextSequence + 1;
      var state := if |spec.dependencies| == 0 then Ready else Queued;
      Overwrite(old(graph.nodes), spec.taskId, Queued, state);
      graph.nodes := graph.nodes[spec.taskId := state];
      if state == Ready {
        scheduler.EnqueueTask(Scheduled(spec, priority, nextSequence));
      }
      specs := specs[spec.taskId := spec];
      log := log + [Submitted(spec.taskId)];
    }

    method RelateDependencies(spec: ChildTaskSpec)
      requires Registered(Value()) && spec.taskId !in specs
      requires forall d :: d in spec.dependencies ==> d in graph.nodes
      modifies graph
      ensures graph.Value() == Graph(old(graph.nodes)[spec.taskId := Queued], old(graph.relations) + RelationsFor(spec))
    {
      graph.AddNode(spec.taskId);
      ghost var all := RelationsFor(spec);
      for i := 0 to |spec.dependencies|
        invariant graph.nodes == old(graph.nodes)[spec.taskId := Queued]
        invariant graph.relations == old(graph.relations) + all[..i]
      {
        assert spec.dependencies[i] in spec.dependencies;
        forall r | r in graph.relations ensures r.prerequisite != spec.taskId {
          if r in all[..i] {
            assert r in all;
          }
        }
        FreshNodeReachesNothing(graph.relations, spec.taskId, spec.dependencies[i]);
        var added := graph.AddDependency(spec.dependencies[i], spec.taskId, OnSucceeded);
        assert added == Ok;
        assert all[..i + 1] == all[..i] + [all[i]];
      }
      assert all[..|all|] == all;
    }

    method TickOnce(now: nat, refused: set<Name>)
      requires Invariant(Value())
      modifies this, graph, scheduler
      ensures TickDefined(old(Value())) && Value() == Tick(old(Value()), now, refused) && Invariant(Value())
    {
      TickIsDefined(Value());
      ReapKeepsInvariant(Value());
      ReapCompletions();
      PromoteKeepsInvariant(Value());
      PromoteReady();
      FillSlots(now, refused);
    }

    /** Drains the completion channel. */
    method ReapCompletions()
      requires TickDefined(Value())
      modifies this, graph, scheduler
      ensures Value() == Reap(old(Value()))
    {
      while |completions| > 0
        invariant TickDefined(Value()) && Reap(Value()) == Reap(old(Value()))
        decreases |completions|
      {
        ReapFirst();
      }
    }

    method ReapFirst()
      requires TickDefined(Value()) && |completions| > 0
      modifies this, graph, scheduler
      ensures Value() == ReapOne(old(Value()))
    {
      var c := completions[0];
      assert c in completions;
      completions := completions[1..];
      scheduler.FinishTask(c.id);
      cancellations := cancellations - {c.id};
      var state := Failed;
      match c.report {
        case NoResult =>
        case Produced(result) =>
          match result.ValidateFor(specs[c.id]) {
            case Ok =>
              results := results[c.id := result];
              state := Succeeded;
            case Err(StaleResult) => state := Stale;
            case Err(UnknownResult) => state := Unknown;
            case Err(_) =>
          }
      }
      graph.nodes := graph.nodes[c.id := state];
    }

    /** Refreshes the graph and queues the nodes this made ready, in key order. */
    method PromoteReady()
      requires TickDefined(Value())
      modifies this, graph, scheduler
      ensures Value() == Promote(old(Value()))
    {
      var previouslyReady := set id | id in graph.nodes && graph.nodes[id] == Ready;
      ghost var due := FreshlyReady(graph.Value());
      graph.Refresh();
      var ids := SortedNames(graph.nodes.Keys);
      AscendingUnique(Keeping(ids, due), SortedNames(due));
      QueueDue(ids, previouslyReady, due);
    }

    method QueueDue(ids: seq<Name>, previouslyReady: set<Name>, ghost due: set<Name>)
      requires forall id :: id in ids ==> id in specs && id in graph.nodes
      requires forall id :: id in ids ==> (id in due <==> graph.nodes[id] == Ready && id !in previouslyReady)
      modifies this, scheduler
      ensures Value() == EnqueueFresh(old(Value()), Keeping(ids, due))
    {
      var i := 0;
      assert ids[0..] == ids;
      while i < |ids|
        invariant 0 <= i <= |ids|
        invariant specs == old(specs)
        invariant EnqueueFresh(Value(), Keeping(ids[i..], due)) == EnqueueFresh(old(Value()), Keeping(ids, due))
      {
        assert ids[i] in ids;
        KeepingStep(ids, i, due);
        if graph.nodes[ids[i]] == Ready && ids[i] !in previouslyReady {
          EnqueueFreshCons(Value(), ids[i], Keeping(ids[i + 1..], due));
          QueueNode(ids[i]);
        } else {
          assert [] + Keeping(ids[i + 1..], due) == Keeping(ids[i + 1..], due);
        }
        i := i + 1;
      }
      assert Keeping(ids[i..], due) == [];
    }

    method QueueNode(id: Name)
      requires id in specs
      modifies this, scheduler
      ensures Value() == QueueFirst(old(Value()), id)
    {
      nextSequence := nextSequence + 1;
      scheduler.EnqueueTask(Scheduled(specs[id], 0, nextSequence));
    }

    /** Launches queued tasks until none may start. */
    method FillSlots(now: nat, refused: set<Name>)
      requires Invariant(Value())
      modifies this, graph, scheduler
      ensures Value() == Fill(old(Value()), now, refused) && Invariant(Value())
    {
      var launched := true;
      while launched
        invariant Invariant(Value())
        invariant Fill(Value(), now, refused) == Fill(old(Value()), now, refused)
        invariant !launched ==> Fill(Value(), now, refused) == Value()
        decreases launched, |scheduler.ready|
      {
        ghost var s := Value();
        QueueSpecified(s);
        FillUnfolds(s, now, refused);
        launched := LaunchNext(now, refused);
        if launched {
          LaunchKeepsInvariant(s, NextIndex(s.sched, now), refused);
        }
      }
    }

    /** One round of the launch loop. */
    method LaunchNext(now: nat, refused: set<Name>) returns (launched: bool)
      modifies this, graph, scheduler
      ensures launched <==> NextIndex(old(Value()).sched, now) < |old(scheduler.ready)|
      ensures launched ==> Value() == Launch(old(Value()), NextIndex(old(Value()).sched, now), refused)
      ensures !launched ==> Value() == old(Value())
    {
      ghost var s, index := Value(), NextIndex(scheduler.Value(), now);
      var task := scheduler.NextReady(now);
      if task.None? {
        NextIsUnique(s.sched, now, index, |s.sched.ready|);
        return false;
      }
      ghost var i: nat :| i < |s.sched.ready| && IsNext(s.sched, now, i) && task.value == s.sched.ready[i]
                          && scheduler.Value() == Start(s.sched, i);
      NextIsUnique(s.sched, now, index, i);
      Spawn(task.value.id, refused);
      return true;
    }

    /** Marks the task running and hands it to a worker; a refused spawn reports a failure at once. */
    method Spawn(id: Name, refused: set<Name>)
      modifies this, graph
      ensures graph.Value() == old(graph.Value()).(nodes := old(graph.nodes)[id := Running])
      ensures (specs, results, nextSequence) == old((specs, results, nextSequence))
      ensures cancellations == old(cancellations)[id := false]
      ensures completions == if id in refused then old(completions) + [Completion(id, NoResult)] else old(completions)
      ensures workers == if id in refused then old(workers) else old(workers) + {id}
      ensures log == old(log) + [Launched(id)]
    {
      graph.nodes := graph.nodes[id := Running];
      cancellations := cancellations[id := false];
      if id in refused {
        completions := completions + [Completion(id, NoResult)];
      } else {
        workers := workers + {id};
      }
      log := log + [Launched(id)];
    }

    /** The task and everything that transitively depends on it, by depth-first search. */
    method DescendantsIncluding(root: Name) returns (found: set<Name>)
      ensures found == WithDescendants(graph.relations, root)
    {
      ghost var edges, universe := EdgesOf(graph.relations), AllDependents(graph.relations) + {root};
      found := {root};
      var stack := [root];
      ReachesSelf(edges, root);
      while |stack| > 0
        invariant root in found && found <= universe
        invariant forall x :: x in found ==> Reaches(edges, root, x)
        invariant forall x :: x in stack ==> x in found
        invariant forall x, c :: x in found && Edge(x, c) in edges ==> c in found || x in stack
        decreases universe - found, |stack|
      {
        var parent := stack[|stack| - 1];
        ghost var before := stack;
        stack := stack[..|stack| - 1];
        assert before == stack + [parent];
        var children := Dependents(graph.relations, parent);
        forall c | c in children ensures c in universe && Reaches(edges, root, c) {
          TargetsAreDependents(graph.relations, parent, c);
          ReachesAppend(edges, root, parent, c);
        }
        stack, found := TaskGraph.PushNew(children, stack, found, universe);
      }
      forall x ensures x in found <==> x in WithDescendants(graph.relations, root) {
        InWithDescendants(graph.relations, root, x);
        if Reaches(edges, root, x) {
          forall e | e in edges && e.source in found ensures e.target in found {
            assert Edge(e.source, e.target) == e;
          }
          ReachesStaysInside(edges, found, root, x);
        }
      }
    }

    method Cancel(root: Name)
      requires Invariant(Value())
      modifies this, graph, scheduler
      ensures Value() == CancelTree(old(Value()), root) && Invariant(Value())
    {
      CancelTreeKeepsInvariant(Value(), root);
      var affected := DescendantsIncluding(root);
      StopTree(root, affected);
    }

    method StopTree(root: Name, affected: set<Name>)
      requires affected == WithDescendants(graph.relations, root)
      modifies this`cancellations, graph, scheduler
      ensures Value() == CancelTree(old(Value()), root)
    {
      StopScheduling(affected);
      graph.CancelDescendants(root, {});
      if root in graph.nodes {
        graph.nodes := graph.nodes[root := RetainedCancelState(graph.nodes[root],
          root in cancellations || (root in results && results[root].unknown))];
      }
    }

    /** Takes the tasks out of the scheduler and cancels their tokens. */
    method StopScheduling(affected: set<Name>)
      modifies this`cancellations, scheduler
      ensures scheduler.Value() == old(scheduler.Value()).(
                ready := WithoutAny(old(scheduler.ready), affected), running := old(scheduler.running) - affected)
      ensures cancellations == map id | id in old(cancellations) :: old(cancellations)[id] || id in affected
    {
      var ids := SortedNames(affected);
      ghost var done: set<Name> := {};
      WithoutNone(scheduler.ready);
      for i := 0 to |ids|
        invariant done == set j | 0 <= j < i :: ids[j]
        invariant scheduler.Value() == old(scheduler.Value()).(
                    ready := WithoutAny(old(scheduler.ready), done), running := old(scheduler.running) - done)
        invariant cancellations == map id | id in old(cancellations) :: old(cancellations)[id] || id in done
      {
        WithoutOneMore(old(scheduler.ready), done, ids[i]);
        scheduler.RemoveTask(ids[i]);
        if ids[i] in cancellations {
          cancellations := cancellations[ids[i] := true];
        }
        done := done + {ids[i]};
      }
      AllVisited(ids, done, affected);
    }

    method CancelChild(id: Name) returns (outcome: Outcome)
      requires Invariant(Value())
      modifies this, graph, scheduler
      ensures outcome == if id in old(specs) then Ok else Err(MissingNode)
      ensures Value() == (if id in old(specs) then CancelTree(old(Value()), id) else old(Value())) && Invariant(Value())
    {
      if id !in specs {
        return Err(MissingNode);
      }
      Cancel(id);
      return Ok;
    }

    method CancelEverything()
      requires Invariant(Value())
      modifies this, graph, scheduler
      ensures Value() == CancelAll(old(Value())) && Invariant(Value())
    {
      var ids := SortedNames(specs.Keys);
      var i := 0;
      assert ids[0..] == ids;
      while i < |ids|
        invariant 0 <= i <= |ids| && Invariant(Value())
        invariant CancelEach(Value(), ids[i..]) == CancelEach(old(Value()), ids)
      {
        assert ids[i..][0] == ids[i] && ids[i..][1..] == ids[i + 1..];
        Cancel(ids[i]);
        i := i + 1;
      }
    }

    /** Deletes a settled record together with its relations; a record of unknown outcome is kept. */
    method DeleteRecord(id: Name) returns (outcome: Outcome)
      requires Invariant(Value())
      modifies this, graph, scheduler
      ensures outcome == DeleteOutcome(old(Value()), id)
      ensures Value() == Delete(old(Value()), id) && Invariant(Value())
    {
      DeleteKeepsInvariant(Value(), id);
      if id !in specs {
        return Err(MissingNode);
      }
      var state := if id in graph.nodes then graph.nodes[id] else Unknown;
      var node := TreeNode(id, specs[id].dependencies, state,
                           state == Unknown || (id in results && results[id].unknown));
      if !CanDelete(node) {
        return Err(UnknownRecordRetained);
      }
      DropRecord(id);
      return Ok;
    }

    method DropRecord(id: Name)
      modifies this, graph, scheduler
      ensures Value() == Drop(old(Value()), id)
    {
      specs := specs - {id};
      results := results - {id};
      graph.nodes := graph.nodes - {id};
      graph.relations := RelationsWithout(graph.relations, id);
      scheduler.RemoveTask(id);
      cancellations := cancellations - {id};
      log := log + [Deleted(id)];
    }

    method SetGlobalConcurrency(cap: nat)
      requires Invariant(Value())
      modifies scheduler
      ensures Value() == old(Value()).(sched := SetGlobal(old(Value()).sched, cap)) && Invariant(Value())
    {
      scheduler.SetGlobalConcurrency(cap);
      assert Step(old(Value()), DoSetGlobal(cap), Value());
      StepKeepsInvariant(old(Value()), DoSetGlobal(cap), Value());
    }
  }
}
