/**
 The child-task dependency graph (orchestration.rs, `TaskGraph`).

 Value-level definitions say what each operation means; the class performs it with the worklist loops of
 the program, in place, and is proved to do exactly that.
 */
module TaskGraphs {
  import opened Names
  import opened Reachability
  import opened TaskTypes

  datatype DependencyCondition = OnSucceeded | OnTerminal

  datatype TaskRelation = TaskRelation(prerequisite: Name, dependent: Name, condition: DependencyCondition)

  datatype Graph = Graph(nodes: map<Name, NodeState>, relations: seq<TaskRelation>)

  ghost function EdgesOf(relations: seq<TaskRelation>): set<Edge> {
    set r | r in relations :: Edge(r.prerequisite, r.dependent)
  }

  /** Every relation joins two present nodes; `add_dependency` is the only way relations are made. */
  predicate EndpointsPresent(g: Graph) {
    forall r :: r in g.relations ==> r.prerequisite in g.nodes && r.dependent in g.nodes
  }

  lemma EdgesOfAppend(relations: seq<TaskRelation>, r: TaskRelation)
    ensures EdgesOf(relations + [r]) == EdgesOf(relations) + {Edge(r.prerequisite, r.dependent)}
  {
    forall e | e in EdgesOf(relations) ensures e in EdgesOf(relations + [r]) {
      var q :| q in relations && Edge(q.prerequisite, q.dependent) == e;
      assert q in relations + [r];
    }
    assert r in relations + [r];
  }

  /** The dependents of one node, in relation order. */
  function Dependents(relations: seq<TaskRelation>, node: Name): (r: seq<Name>)
    ensures forall c :: c in r <==> Edge(node, c) in EdgesOf(relations)
  {
    if |relations| == 0 then []
    else
      var init, last := relations[..|relations| - 1], relations[|relations| - 1];
      assert relations == init + [last];
      EdgesOfAppend(init, last);
      Dependents(init, node) + if last.prerequisite == node then [last.dependent] else []
  }

  ghost function AllDependents(relations: seq<TaskRelation>): set<Name> {
    set r | r in relations :: r.dependent
  }

  /** `root` and everything that transitively depends on it. */
  ghost function WithDescendants(relations: seq<TaskRelation>, root: Name): set<Name> {
    set x | x in AllDependents(relations) + {root} && Reaches(EdgesOf(relations), root, x)
  }

  /** Everything that depends on `root` through at least one relation. */
  ghost function Descendants(relations: seq<TaskRelation>, root: Name): set<Name> {
    set x, c | c in AllDependents(relations) && x in AllDependents(relations)
               && Edge(root, c) in EdgesOf(relations) && Reaches(EdgesOf(relations), c, x) :: x
  }

  lemma TargetsAreDependents(relations: seq<TaskRelation>, a: Name, b: Name)
    requires Edge(a, b) in EdgesOf(relations)
    ensures b in AllDependents(relations)
  {
  }

  /** Nothing outside the edge targets and the start is reachable. */
  lemma ReachedIsDependent(relations: seq<TaskRelation>, root: Name, x: Name)
    requires Reaches(EdgesOf(relations), root, x)
    ensures x in AllDependents(relations) + {root}
  {
    ReachesStaysInside(EdgesOf(relations), AllDependents(relations) + {root}, root, x);
  }

  lemma InWithDescendants(relations: seq<TaskRelation>, root: Name, x: Name)
    ensures x in WithDescendants(relations, root) <==> Reaches(EdgesOf(relations), root, x)
  {
    if Reaches(EdgesOf(relations), root, x) {
      ReachedIsDependent(relations, root, x);
    }
  }

  /** Without cycles, the descendants are what is reached, the root aside. */
  lemma InDescendants(relations: seq<TaskRelation>, root: Name, x: Name)
    requires Acyclic(EdgesOf(relations))
    ensures x in Descendants(relations, root) <==> x != root && Reaches(EdgesOf(relations), root, x)
  {
    var edges := EdgesOf(relations);
    if x in Descendants(relations, root) {
      var c :| Edge(root, c) in edges && Reaches(edges, c, x);
      assert Edge(root, c).source == root;
      ReachesPrepend(edges, root, c, x);
      assert x != root;
    }
    if x != root && Reaches(edges, root, x) {
      var c := ReachesFirstEdge(edges, root, x);
      TargetsAreDependents(relations, root, c);
      ReachedIsDependent(relations, root, x);
    }
  }

  // ---- refresh ----

  predicate Fails(state: NodeState) {
    state in {Failed, Cancelled, Unknown}
  }

  predicate Meets(condition: DependencyCondition, state: NodeState) {
    match condition
    case OnSucceeded => state == Succeeded
    case OnTerminal => state == Succeeded || Fails(state)
  }

  predicate Pending(state: NodeState) {
    state == Queued || state == Blocked
  }

  /** Everything `refresh` looks up is there: the prerequisites of every pending node. */
  predicate LookupsPresent(g: Graph) {
    forall r :: r in g.relations && r.dependent in g.nodes && Pending(g.nodes[r.dependent]) ==>
      r.prerequisite in g.nodes
  }

  /** The state `refresh` gives one node, judged against the node states `nodes`. */
  function NextState(nodes: map<Name, NodeState>, relations: seq<TaskRelation>, id: Name): NodeState
    requires LookupsPresent(Graph(nodes, relations)) && id in nodes
  {
    if !Pending(nodes[id]) then nodes[id]
    else if exists r :: r in relations && r.dependent == id
                        && r.condition == OnSucceeded && Fails(nodes[r.prerequisite]) then Blocked
    else if forall r :: r in relations && r.dependent == id ==> Meets(r.condition, nodes[r.prerequisite]) then Ready
    else Queued
  }

  /** The nodes in `done` judged against the states before the refresh, the others as they were. */
  function RefreshedIn(nodes: map<Name, NodeState>, relations: seq<TaskRelation>, done: set<Name>): map<Name, NodeState>
    requires LookupsPresent(Graph(nodes, relations))
  {
    map id | id in nodes :: if id in done then NextState(nodes, relations, id) else nodes[id]
  }

  /** Every node judged at once against the states before the refresh. */
  function Refreshed(g: Graph): Graph
    requires LookupsPresent(g)
  {
    Graph(RefreshedIn(g.nodes, g.relations, g.nodes.Keys), g.relations)
  }

  /** Partly refreshed states: only pending nodes have moved, and only to states no test looks at. */
  ghost predicate PartlyRefreshed(before: map<Name, NodeState>, now: map<Name, NodeState>) {
    && before.Keys == now.Keys
    && forall x :: x in before ==> now[x] == before[x] || (Pending(before[x]) && now[x] in {Queued, Blocked, Ready})
  }

  lemma VerdictsUnmoved(before: map<Name, NodeState>, now: map<Name, NodeState>, condition: DependencyCondition,
                        x: Name)
    requires PartlyRefreshed(before, now) && x in before
    ensures Fails(before[x]) <==> Fails(now[x])
    ensures Meets(condition, before[x]) <==> Meets(condition, now[x])
  {
  }

  lemma NextStateUnmoved(before: map<Name, NodeState>, now: map<Name, NodeState>, relations: seq<TaskRelation>,
                         id: Name)
    requires LookupsPresent(Graph(before, relations)) && PartlyRefreshed(before, now)
    requires id in before && now[id] == before[id]
    ensures LookupsPresent(Graph(now, relations))
    ensures NextState(now, relations, id) == NextState(before, relations, id)
  {
    forall r | r in relations && r.dependent == id && Pending(now[id])
      ensures Fails(before[r.prerequisite]) <==> Fails(now[r.prerequisite])
      ensures Meets(r.condition, before[r.prerequisite]) <==> Meets(r.condition, now[r.prerequisite])
    {
      VerdictsUnmoved(before, now, r.condition, r.prerequisite);
    }
  }

  /** The in-place step: judging one more node on the half-updated map extends the simultaneous update. */
  lemma RefreshOne(before: map<Name, NodeState>, relations: seq<TaskRelation>, done: set<Name>, id: Name)
    requires LookupsPresent(Graph(before, relations)) && id in before && id !in done
    ensures var now := RefreshedIn(before, relations, done);
            LookupsPresent(Graph(now, relations))
            && now[id := NextState(now, relations, id)] == RefreshedIn(before, relations, done + {id})
  {
    var now := RefreshedIn(before, relations, done);
    assert PartlyRefreshed(before, now);
    NextStateUnmoved(before, now, relations, id);
  }

  /** One refresh settles everything it can: a second one changes nothing. */
  lemma RefreshIdempotent(g: Graph)
    requires LookupsPresent(g)
    ensures LookupsPresent(Refreshed(g)) && Refreshed(Refreshed(g)) == Refreshed(g)
  {
    var h := Refreshed(g);
    assert PartlyRefreshed(g.nodes, h.nodes);
    assert LookupsPresent(h);
    forall id | id in g.nodes ensures NextState(h.nodes, h.relations, id) == h.nodes[id] {
      forall r | r in g.relations && r.dependent == id && Pending(g.nodes[id])
        ensures Fails(g.nodes[r.prerequisite]) <==> Fails(h.nodes[r.prerequisite])
        ensures Meets(r.condition, g.nodes[r.prerequisite]) <==> Meets(r.condition, h.nodes[r.prerequisite])
      {
        VerdictsUnmoved(g.nodes, h.nodes, r.condition, r.prerequisite);
      }
    }
    assert Refreshed(h).nodes == h.nodes;
  }

  // ---- cancellation ----

  /** What cancelling does to one descendant, present or not. */
  function CancelledState(nodes: map<Name, NodeState>, id: Name, confirmedStopped: set<Name>): NodeState {
    if id !in nodes then Cancelled
    else match nodes[id]
      case Running => if id in confirmedStopped then Cancelled else Unknown
      case Succeeded => Succeeded
      case Failed => Failed
      case Cancelled => Cancelled
      case Unknown => Unknown
      case _ => Cancelled
  }

  function CancelledIn(nodes: map<Name, NodeState>, ids: set<Name>, confirmedStopped: set<Name>): map<Name, NodeState> {
    map x | x in nodes.Keys + ids :: if x in ids then CancelledState(nodes, x, confirmedStopped) else nodes[x]
  }

  ghost function CancelledBelow(g: Graph, root: Name, confirmedStopped: set<Name>): Graph {
    Graph(CancelledIn(g.nodes, Descendants(g.relations, root), confirmedStopped), g.relations)
  }

  lemma CancelOne(before: map<Name, NodeState>, done: set<Name>, id: Name, confirmedStopped: set<Name>)
    requires id !in done
    ensures var now := CancelledIn(before, done, confirmedStopped);
            now[id := CancelledState(now, id, confirmedStopped)] == CancelledIn(before, done + {id}, confirmedStopped)
  {
    var now := CancelledIn(before, done, confirmedStopped);
    assert id in now <==> id in before;
    assert CancelledState(now, id, confirmedStopped) == CancelledState(before, id, confirmedStopped);
  }

  /** The first `i` ids of the list. */
  ghost predicate IsVisited(ids: seq<Name>, i: nat, done: set<Name>)
    requires i <= |ids|
  {
    done == set j | 0 <= j < i :: ids[j]
  }

  lemma VisitOneMore(ids: seq<Name>, i: nat, done: set<Name>)
    requires i < |ids| && IsVisited(ids, i, done) && forall j, k :: 0 <= j < k < |ids| ==> ids[j] != ids[k]
    ensures ids[i] !in done && IsVisited(ids, i + 1, done + {ids[i]})
  {
  }

  lemma AllVisited(ids: seq<Name>, done: set<Name>, keys: set<Name>)
    requires IsVisited(ids, |ids|, done)
    requires forall x :: x in ids <==> x in keys
    ensures done == keys
  {
    forall x | x in keys ensures x in done {
      assert x in ids;
    }
  }

  class TaskGraph {
    var nodes: map<Name, NodeState>
    var relations: seq<TaskRelation>

    ghost function Value(): Graph
      reads this
    {
      Graph(nodes, relations)
    }

    constructor ()
      ensures Value() == Graph(map[], [])
    {
      nodes, relations := map[], [];
    }

    method AddNode(id: Name)
      modifies this
      ensures relations == old(relations)
      ensures nodes == if id in old(nodes) then old(nodes) else old(nodes)[id := Queued]
    {
      if id !in nodes {
        nodes := nodes[id := Queued];
      }
    }

    /** Depth-first search with an explicit stack; stops early at the target. */
    method Reachable(from: Name, target: Name) returns (found: bool)
      ensures found <==> Reaches(EdgesOf(relations), from, target)
    {
      ghost var edges := EdgesOf(relations);
      ghost var universe := AllDependents(relations) + {from};
      var stack, seen := [from], {};
      ReachesSelf(edges, from);
      while |stack| > 0
        invariant forall x :: x in stack || x in seen ==> x in universe && Reaches(edges, from, x)
        invariant forall x, c :: x in seen && Edge(x, c) in edges ==> c in seen || c in stack
        invariant from in seen || from in stack
        invariant target !in seen
        decreases universe - seen, |stack|
      {
        var node := stack[|stack| - 1];
        ghost var before := stack;
        stack := stack[..|stack| - 1];
        assert before == stack + [node];
        if node == target {
          return true;
        }
        if node !in seen {
          assert node in universe - seen;
          seen := seen + {node};
          var next := Dependents(relations, node);
          forall c | c in next ensures c in universe && Reaches(edges, from, c) {
            TargetsAreDependents(relations, node, c);
            ReachesAppend(edges, from, node, c);
          }
          stack := stack + next;
        }
      }
      if Reaches(edges, from, target) {
        forall e | e in edges && e.source in seen ensures e.target in seen {
          assert Edge(e.source, e.target) == e;
        }
        ReachesStaysInside(edges, seen, from, target);
      }
      return false;
    }

    /** Cycles are refused first, then missing nodes; a refused call changes nothing. */
    method AddDependency(prerequisite: Name, dependent: Name, condition: DependencyCondition) returns (outcome: Outcome)
      modifies this
      ensures outcome == if Reaches(EdgesOf(old(relations)), dependent, prerequisite) then Err(Cycle)
                         else if prerequisite !in old(nodes) || dependent !in old(nodes) then Err(MissingNode)
                         else Ok
      ensures nodes == old(nodes)
      ensures relations
              == old(relations) + if outcome == Ok then [TaskRelation(prerequisite, dependent, condition)] else []
      ensures Acyclic(EdgesOf(old(relations))) ==> Acyclic(EdgesOf(relations))
    {
      var cyclic := prerequisite == dependent;
      if !cyclic {
        cyclic := Reachable(dependent, prerequisite);
      } else {
        ReachesSelf(EdgesOf(relations), dependent);
      }
      if cyclic {
        return Err(Cycle);
      }
      if prerequisite !in nodes || dependent !in nodes {
        return Err(MissingNode);
      }
      EdgesOfAppend(relations, TaskRelation(prerequisite, dependent, condition));
      if Acyclic(EdgesOf(relations)) {
        NewEdgeAcyclic(EdgesOf(relations), Edge(prerequisite, dependent));
      }
      relations := relations + [TaskRelation(prerequisite, dependent, condition)];
      return Ok;
    }

    /** Updates the nodes one at a time in key order, reading the map it is updating. */
    method Refresh()
      requires LookupsPresent(Value())
      modifies this
      ensures Value() == Refreshed(old(Value()))
    {
      var ids := SortedNames(nodes.Keys);
      AscendingDistinct(ids);
      ghost var before, done := nodes, {};
      for i := 0 to |ids|
        invariant relations == old(relations)
        invariant IsVisited(ids, i, done)
        invariant nodes == RefreshedIn(before, relations, done)
      {
        VisitOneMore(ids, i, done);
        RefreshOne(before, relations, done, ids[i]);
        nodes := nodes[ids[i] := NextState(nodes, relations, ids[i])];
        done := done + {ids[i]};
      }
      AllVisited(ids, done, before.Keys);
    }

    method CancelDescendants(root: Name, confirmedStopped: set<Name>)
      modifies this
      ensures Value() == CancelledBelow(old(Value()), root, confirmedStopped)
    {
      var found := CollectDescendants(root);
      var ids := SortedNames(found);
      AscendingDistinct(ids);
      ghost var before, done := nodes, {};
      assert nodes == CancelledIn(before, {}, confirmedStopped);
      for i := 0 to |ids|
        invariant relations == old(relations)
        invariant done == set j | 0 <= j < i :: ids[j]
        invariant nodes == CancelledIn(before, done, confirmedStopped)
      {
        CancelOne(before, done, ids[i], confirmedStopped);
        nodes := nodes[ids[i] := CancelledState(nodes, ids[i], confirmedStopped)];
        done := done + {ids[i]};
      }
      AllVisited(ids, done, found);
    }

    /** The worklist of `cancel_descendants`: a node is pushed when it is first met. */
    method CollectDescendants(root: Name) returns (found: set<Name>)
      ensures found == Descendants(relations, root)
    {
      ghost var edges, universe := EdgesOf(relations), AllDependents(relations);
      var stack := [root];
      found := {};
      while |stack| > 0
        invariant found <= Descendants(relations, root)
        invariant forall x :: x in stack ==> x == root || x in found
        invariant forall x, c :: (x in found || x == root) && Edge(x, c) in edges ==> c in found || x in stack
        decreases universe - found, |stack|
      {
        var parent := stack[|stack| - 1];
        ghost var before := stack;
        stack := stack[..|stack| - 1];
        assert before == stack + [parent];
        stack, found := PushNew(Dependents(relations, parent), stack, found, universe);
        forall c | Edge(parent, c) in edges ensures c in Descendants(relations, root) {
          DescendantsClosed(relations, root, parent, c);
        }
      }
      DescendantsSmallest(relations, root, found);
    }

    /** Appends to the stack, and adds to the found set, every child not found yet. */
    static method PushNew(children: seq<Name>, stack: seq<Name>, found: set<Name>, ghost universe: set<Name>)
      returns (stack': seq<Name>, found': set<Name>)
      requires found <= universe && forall c :: c in children ==> c in universe
      ensures found' == found + set c | c in children
      ensures forall x :: x in stack' <==> x in stack || (x in children && x !in found)
      ensures found' == found ==> stack' == stack
    {
      stack', found' := stack, found;
      for i := 0 to |children|
        invariant found' == found + set c | c in children[..i]
        invariant forall x :: x in stack' <==> x in stack || (x in children[..i] && x !in found)
        invariant found' == found ==> stack' == stack
      {
        assert children[..i + 1] == children[..i] + [children[i]];
        if children[i] !in found' {
          found' := found' + {children[i]};
          stack' := stack' + [children[i]];
        }
      }
      assert children[..|children|] == children;
    }
  }

  lemma DescendantsClosed(relations: seq<TaskRelation>, root: Name, x: Name, c: Name)
    requires x == root || x in Descendants(relations, root)
    requires Edge(x, c) in EdgesOf(relations)
    ensures c in Descendants(relations, root)
  {
    var edges := EdgesOf(relations);
    TargetsAreDependents(relations, x, c);
    ReachesSelf(edges, c);
    if x in Descendants(relations, root) {
      var d :| d in AllDependents(relations) && Edge(root, d) in edges && Reaches(edges, d, x);
      ReachesAppend(edges, d, x, c);
    }
  }

  lemma DescendantsSmallest(relations: seq<TaskRelation>, root: Name, found: set<Name>)
    requires forall x, c :: (x in found || x == root) && Edge(x, c) in EdgesOf(relations) ==> c in found
    ensures Descendants(relations, root) <= found
  {
    var edges := EdgesOf(relations);
    forall x | x in Descendants(relations, root) ensures x in found {
      var c :| c in AllDependents(relations) && Edge(root, c) in edges && Reaches(edges, c, x);
      forall e | e in edges && e.source in found ensures e.target in found {
        assert Edge(e.source, e.target) == e;
      }
      ReachesStaysInside(edges, found, c, x);
    }
  }
}
