/**
 The task-tree snapshot shown to the user and its own cancellation and deletion (orchestration.rs,
 `TaskTreeSnapshot`), compared with cancelling and deleting in the runtime.

 The runtime walks relations depth first; the snapshot scans its node list until nothing is added.  Both compute the
 transitive dependents.
 */
module TaskTrees {
  import opened Names
  import opened JsonValues
  import opened Reachability
  import opened TaskTypes
  import opened TaskGraphs
  import opened Schedulers
  import opened RuntimeStates
  import opened RuntimeLogs
  import opened RuntimeInvariants
  import opened OrchestrationRuntimes

  /** `task_tree`, the display texts left out: one node per specification, in key order. */
  function TreeOf(s: State): seq<TreeNode> {
    var ids := SortedNames(s.specs.Keys);
    seq(|ids|, i requires 0 <= i < |ids| => assert ids[i] in ids; NodeOf(s, ids[i]))
  }

  /** The dependency edges a node list shows. */
  ghost function NodeEdges(nodes: seq<TreeNode>): set<Edge> {
    set n, d | n in nodes && d in n.dependencies :: Edge(d, n.id)
  }

  lemma NodeEdgeMeaning(nodes: seq<TreeNode>, d: Name, x: Name)
    ensures Edge(d, x) in NodeEdges(nodes) <==> exists n :: n in nodes && n.id == x && d in n.dependencies
  {
  }

  function ApplyCancel(node: TreeNode): TreeNode {
    node.(state := Stopped(node.state), unknownSideEffects := node.unknownSideEffects || node.state == Running)
  }

  function CancelNodes(nodes: seq<TreeNode>, ids: set<Name>): seq<TreeNode> {
    seq(|nodes|, i requires 0 <= i < |nodes| => if nodes[i].id in ids then ApplyCancel(nodes[i]) else nodes[i])
  }

  ghost function NodeIds(nodes: seq<TreeNode>): set<Name> {
    set n | n in nodes :: n.id
  }

  function WithoutName(names: seq<Name>, id: Name): (r: seq<Name>)
    ensures forall x :: x in r <==> x in names && x != id
  {
    if |names| == 0 then [] else
      assert names == [names[0]] + names[1..];
      (if names[0] == id then [] else [names[0]]) + WithoutName(names[1..], id)
  }

  function ForgetIn(node: TreeNode, id: Name): TreeNode {
    node.(dependencies := WithoutName(node.dependencies, id))
  }

  /** The list without the node `id`, and without `id` among the dependencies of the others. */
  function DropNode(nodes: seq<TreeNode>, id: Name): seq<TreeNode> {
    if |nodes| == 0 then []
    else (if nodes[0].id == id then [] else [ForgetIn(nodes[0], id)]) + DropNode(nodes[1..], id)
  }

  ghost predicate IsFirst(nodes: seq<TreeNode>, id: Name, i: int) {
    0 <= i < |nodes| && nodes[i].id == id && forall j :: 0 <= j < i ==> nodes[j].id != id
  }

  class TaskTreeSnapshot {
    var nodes: seq<TreeNode>

    constructor (nodes: seq<TreeNode>)
      ensures this.nodes == nodes
    {
      this.nodes := nodes;
    }

    /** Scans the list again and again, adding a node when one of its dependencies was found. */
    static method DescendantTaskIds(nodes: seq<TreeNode>, root: Name) returns (found: set<Name>)
      ensures forall x :: x in found <==> Reaches(NodeEdges(nodes), root, x)
    {
      ghost var edges := NodeEdges(nodes);
      found := {root};
      ReachesSelf(edges, root);
      var grew := true;
      while grew
        invariant root in found && found <= NodeIds(nodes) + {root}
        invariant forall x :: x in found ==> Reaches(edges, root, x)
        invariant !grew ==> ClosedUnder(nodes, found)
        decreases NodeIds(nodes) + {root} - found, grew
      {
        found, grew := GrowOnce(nodes, root, found);
      }
      forall x | Reaches(edges, root, x) ensures x in found {
        forall e | e in edges && e.source in found ensures e.target in found {
          assert Edge(e.source, e.target) == e;
          NodeEdgeMeaning(nodes, e.source, e.target);
        }
        ReachesStaysInside(edges, found, root, x);
      }
    }

    /** One scan of the list. */
    static method GrowOnce(nodes: seq<TreeNode>, ghost root: Name, found: set<Name>)
      returns (found': set<Name>, grew: bool)
      requires found <= NodeIds(nodes) + {root}
      requires forall x :: x in found ==> Reaches(NodeEdges(nodes), root, x)
      ensures found <= found' <= NodeIds(nodes) + {root}
      ensures forall x :: x in found' ==> Reaches(NodeEdges(nodes), root, x)
      ensures grew ==> found < found'
      ensures !grew ==> found' == found && ClosedUnder(nodes, found)
    {
      found', grew := found, false;
      for i := 0 to |nodes|
        invariant found <= found' <= NodeIds(nodes) + {root}
        invariant forall x :: x in found' ==> Reaches(NodeEdges(nodes), root, x)
        invariant grew ==> found < found'
        invariant !grew ==> found' == found && ClosedUnder(nodes[..i], found)
      {
        var node := nodes[i];
        assert node in nodes;
        assert nodes[..i + 1] == nodes[..i] + [node];
        if node.id !in found' && exists d :: d in node.dependencies && d in found' {
          ghost var d :| d in node.dependencies && d in found';
          ReachesAppend(NodeEdges(nodes), root, d, node.id);
          found' := found' + {node.id};
          grew := true;
        }
      }
      assert nodes[..|nodes|] == nodes;
    }

    method CancelChild(id: Name) returns (outcome: Outcome)
      modifies this
      ensures outcome == if id in NodeIds(old(nodes)) then Ok else Err(MissingNode)
      ensures outcome != Ok ==> nodes == old(nodes)
      ensures outcome == Ok ==>
                exists ids :: (forall x :: x in ids <==> Reaches(NodeEdges(old(nodes)), id, x))
                              && nodes == CancelNodes(old(nodes), ids)
    {
      if !exists n :: n in nodes && n.id == id {
        return Err(MissingNode);
      }
      var affected := DescendantTaskIds(nodes, id);
      CancelIds(affected);
      return Ok;
    }

    method CancelIds(ids: set<Name>)
      modifies this
      ensures nodes == CancelNodes(old(nodes), ids)
    {
      for i := 0 to |nodes|
        invariant |nodes| == |old(nodes)|
        invariant nodes[..i] == CancelNodes(old(nodes), ids)[..i] && nodes[i..] == old(nodes)[i..]
      {
        assert nodes[i] == nodes[i..][0] == old(nodes)[i];
        if nodes[i].id in ids {
          nodes := nodes[i := ApplyCancel(nodes[i])];
        }
      }
    }

    method CancelAll()
      modifies this
      ensures nodes == CancelNodes(old(nodes), NodeIds(old(nodes)))
    {
      CancelIds(set n | n in nodes :: n.id);
    }

    /** The first node with the id decides; then every node with the id goes. */
    method DeleteRecord(id: Name) returns (outcome: Outcome)
      modifies this
      ensures outcome == Err(MissingNode) <==> forall n :: n in old(nodes) ==> n.id != id
      ensures outcome == Ok <==> exists i :: IsFirst(old(nodes), id, i) && CanDelete(old(nodes)[i])
      ensures outcome == Err(UnknownRecordRetained)
              <==> exists i :: IsFirst(old(nodes), id, i) && !CanDelete(old(nodes)[i])
      ensures nodes == if outcome == Ok then DropNode(old(nodes), id) else old(nodes)
    {
      for i := 0 to |nodes|
        invariant nodes == old(nodes)
        invariant forall j :: 0 <= j < i ==> nodes[j].id != id
      {
        if nodes[i].id == id {
          assert nodes[i] in nodes && IsFirst(nodes, id, i);
          if !CanDelete(nodes[i]) {
            return Err(UnknownRecordRetained);
          }
          nodes := DropNode(nodes, id);
          return Ok;
        }
      }
      return Err(MissingNode);
    }
  }

  /** Every listed node with a found dependency is found. */
  ghost predicate ClosedUnder(nodes: seq<TreeNode>, found: set<Name>) {
    forall n, d :: n in nodes && d in n.dependencies && d in found ==> n.id in found
  }

  // ---- the snapshot against the runtime ----

  lemma TreeNodes(s: State, n: TreeNode)
    ensures n in TreeOf(s) <==> n.id in s.specs && n == NodeOf(s, n.id)
  {
    var ids := SortedNames(s.specs.Keys);
    if n.id in s.specs && n == NodeOf(s, n.id) {
      assert n.id in ids;
      var i :| 0 <= i < |ids| && ids[i] == n.id;
      assert TreeOf(s)[i] == n;
    }
    if n in TreeOf(s) {
      var i :| 0 <= i < |ids| && TreeOf(s)[i] == n;
      assert ids[i] in ids;
    }
  }

  lemma TreeEdges(s: State, d: Name, x: Name)
    ensures Edge(d, x) in NodeEdges(TreeOf(s)) <==> x in s.specs && d in s.specs[x].dependencies
  {
    NodeEdgeMeaning(TreeOf(s), d, x);
    if x in s.specs {
      TreeNodes(s, NodeOf(s, x));
    }
    forall n | n in TreeOf(s) && n.id == x && d in n.dependencies ensures x in s.specs && d in s.specs[x].dependencies {
      TreeNodes(s, n);
    }
  }

  /** What the snapshot would cancel. */
  ghost predicate TreeReaches(s: State, root: Name, x: Name) {
    Reaches(NodeEdges(TreeOf(s)), root, x)
  }

  /** The snapshot never cancels less than the runtime. */
  lemma RuntimeWithinTree(s: State, root: Name, x: Name)
    requires Registered(s) && x in WithDescendants(s.graph.relations, root)
    ensures TreeReaches(s, root, x)
  {
    forall e | e in EdgesOf(s.graph.relations) ensures e in NodeEdges(TreeOf(s)) {
      assert Edge(e.source, e.target) == e;
      EdgeMeaning(s.graph.relations, e.source, e.target);
      TreeEdges(s, e.source, e.target);
    }
    InWithDescendants(s.graph.relations, root, x);
    ReachesMonotone(EdgesOf(s.graph.relations), NodeEdges(TreeOf(s)), root, x);
  }

  /** Live tasks are still related to every live task they declared. */
  ghost predicate Matching(s: State) {
    forall x, d :: x in s.specs && d in s.specs[x].dependencies && d in s.specs
      ==> Edge(d, x) in EdgesOf(s.graph.relations)
  }

  /** Relations match unless a dependency was deleted, and submitted anew, after its dependent was submitted. */
  lemma MatchingUnlessReplaced(s: State)
    requires RelationsMatchLog(s)
    ensures Matching(s) <==>
              forall x, d :: x in s.specs && d in s.specs[x].dependencies && d in s.specs ==> !DeletedSince(s.log, d, x)
  {
  }

  lemma TreeWithinRuntime(s: State, root: Name, x: Name)
    requires Registered(s) && Matching(s) && root in s.specs && TreeReaches(s, root, x)
    ensures x in WithDescendants(s.graph.relations, root)
  {
    forall e | e in NodeEdges(TreeOf(s)) && e.source in s.specs.Keys
      ensures e.target in s.specs.Keys && e in EdgesOf(s.graph.relations)
    {
      assert Edge(e.source, e.target) == e;
      TreeEdges(s, e.source, e.target);
    }
    ReachesWithin(NodeEdges(TreeOf(s)), EdgesOf(s.graph.relations), s.specs.Keys, root, x);
    InWithDescendants(s.graph.relations, root, x);
  }

  lemma StoppedNode(s: State, s': State, affected: set<Name>, id: Name)
    requires s'.specs == s.specs && s'.results == s.results && s'.graph.nodes == StoppedIn(s.graph.nodes, affected)
    requires id in s.specs && id in s.graph.nodes
    ensures NodeOf(s', id) == if id in affected then ApplyCancel(NodeOf(s, id)) else NodeOf(s, id)
  {
  }

  lemma CancelledNode(s: State, root: Name, id: Name)
    requires Invariant(s) && id in s.specs
    ensures NodeOf(CancelTree(s, root), id)
            == if id in WithDescendants(s.graph.relations, root) then ApplyCancel(NodeOf(s, id)) else NodeOf(s, id)
  {
    CancelTreeNodes(s, root);
    StoppedNode(s, CancelTree(s, root), WithDescendants(s.graph.relations, root), id);
  }

  lemma CancelledTreeAt(s: State, root: Name, ids: set<Name>, i: nat)
    requires Invariant(s) && i < |SortedNames(s.specs.Keys)|
    ensures SortedNames(s.specs.Keys)[i] in s.specs
    ensures var id := SortedNames(s.specs.Keys)[i];
            && TreeOf(CancelTree(s, root))[i] == NodeOf(CancelTree(s, root), id)
            && CancelNodes(TreeOf(s), ids)[i] == if id in ids then ApplyCancel(NodeOf(s, id)) else NodeOf(s, id)
  {
    var names := SortedNames(s.specs.Keys);
    assert names[i] in names;
  }

  predicate SettledState(state: NodeState) {
    state in {Succeeded, Failed, Cancelled, Unknown}
  }

  /** The two cancellations agree on a task unless only the snapshot stops it and it has not settled. */
  predicate AgreesOn(s: State, affected: set<Name>, ids: set<Name>, x: Name)
    requires x in s.specs && x in s.graph.nodes
  {
    x in ids && x !in affected ==> SettledState(s.graph.nodes[x])
  }

  lemma ApplyCancelKeeps(s: State, x: Name)
    requires x in s.specs && x in s.graph.nodes
    ensures ApplyCancel(NodeOf(s, x)) == NodeOf(s, x) <==> SettledState(s.graph.nodes[x])
  {
  }

  lemma NodesAgreeIff(s: State, root: Name, ids: set<Name>, x: Name)
    requires Invariant(s) && x in s.specs && x in s.graph.nodes
    requires x in WithDescendants(s.graph.relations, root) ==> x in ids
    ensures NodeOf(CancelTree(s, root), x) == (if x in ids then ApplyCancel(NodeOf(s, x)) else NodeOf(s, x))
            <==> AgreesOn(s, WithDescendants(s.graph.relations, root), ids, x)
  {
    CancelledNode(s, root, x);
    ApplyCancelKeeps(s, x);
  }

  /** The two trees agree at a position iff the two cancellations agree on the task there. */
  lemma TreesAgreeAt(s: State, root: Name, ids: set<Name>, i: nat)
    requires Invariant(s) && i < |SortedNames(s.specs.Keys)|
    requires forall x :: x in ids <==> TreeReaches(s, root, x)
    ensures var x := SortedNames(s.specs.Keys)[i];
            && x in s.specs && x in s.graph.nodes
            && (TreeOf(CancelTree(s, root))[i] == CancelNodes(TreeOf(s), ids)[i]
                <==> AgreesOn(s, WithDescendants(s.graph.relations, root), ids, x))
  {
    CancelledTreeAt(s, root, ids, i);
    var x := SortedNames(s.specs.Keys)[i];
    if x in WithDescendants(s.graph.relations, root) {
      RuntimeWithinTree(s, root, x);
    }
    NodesAgreeIff(s, root, ids, x);
  }

  /**
   Cancelling in the runtime and then taking the tree equals taking the tree and then cancelling in it, exactly when
   every task only the snapshot would cancel has settled already.
   */
  lemma CancelCommutesIff(s: State, root: Name, ids: set<Name>)
    requires Invariant(s) && forall x :: x in ids <==> TreeReaches(s, root, x)
    ensures TreeOf(CancelTree(s, root)) == CancelNodes(TreeOf(s), ids)
            <==> forall x :: x in s.specs && x in ids && x !in WithDescendants(s.graph.relations, root)
                             ==> SettledState(s.graph.nodes[x])
  {
    var names, a, b := SortedNames(s.specs.Keys), TreeOf(CancelTree(s, root)), CancelNodes(TreeOf(s), ids);
    var agrees := set x | x in s.specs && x in s.graph.nodes
                          && AgreesOn(s, WithDescendants(s.graph.relations, root), ids, x);
    forall i | 0 <= i < |names| ensures names[i] in s.graph.nodes && (a[i] == b[i] <==> names[i] in agrees) {
      TreesAgreeAt(s, root, ids, i);
    }
    EqualIff(names, a, b, agrees);
  }

  lemma EqualIff(names: seq<Name>, a: seq<TreeNode>, b: seq<TreeNode>, agrees: set<Name>)
    requires |a| == |b| == |names|
    requires forall i :: 0 <= i < |names| ==> (a[i] == b[i] <==> names[i] in agrees)
    ensures a == b <==> forall x :: x in names ==> x in agrees
  {
    if a == b {
      forall x | x in names ensures x in agrees {
        var i :| 0 <= i < |names| && names[i] == x;
        assert a[i] == b[i];
      }
    }
  }

  /** One unsettled task that only the snapshot reaches makes the two orders differ. */
  lemma DiffersWhenUnsettled(s: State, root: Name, ids: set<Name>, x: Name)
    requires Invariant(s) && forall x :: x in ids <==> TreeReaches(s, root, x)
    requires x in ids && x in s.specs && x in s.graph.nodes && !SettledState(s.graph.nodes[x])
    requires x !in WithDescendants(s.graph.relations, root)
    ensures TreeOf(CancelTree(s, root)) != CancelNodes(TreeOf(s), ids)
  {
    CancelCommutesIff(s, root, ids);
  }

  /** With matching relations the two orders always agree. */
  lemma CancelCommutes(s: State, root: Name, ids: set<Name>)
    requires Invariant(s) && Matching(s) && root in s.specs && forall x :: x in ids <==> TreeReaches(s, root, x)
    ensures ids == WithDescendants(s.graph.relations, root)
    ensures TreeOf(CancelTree(s, root)) == CancelNodes(TreeOf(s), ids)
  {
    forall x ensures x in ids <==> x in WithDescendants(s.graph.relations, root) {
      if x in ids {
        TreeWithinRuntime(s, root, x);
      }
      if x in WithDescendants(s.graph.relations, root) {
        RuntimeWithinTree(s, root, x);
      }
    }
    CancelCommutesIff(s, root, ids);
  }

  // ---- deletion ----

  function ForgetAll(nodes: seq<TreeNode>, id: Name): seq<TreeNode> {
    seq(|nodes|, i requires 0 <= i < |nodes| => ForgetIn(nodes[i], id))
  }

  function NodesOf(s: State, ids: seq<Name>): seq<TreeNode>
    requires forall id :: id in ids ==> id in s.specs
  {
    seq(|ids|, i requires 0 <= i < |ids| => assert ids[i] in ids; NodeOf(s, ids[i]))
  }

  lemma DeletedNode(s: State, id: Name, x: Name)
    requires x in s.specs && x != id
    ensures x in Drop(s, id).specs && NodeOf(Drop(s, id), x) == NodeOf(s, x)
  {
  }

  lemma NodesOfCons(s: State, x: Name, rest: seq<Name>)
    requires x in s.specs && forall y :: y in rest ==> y in s.specs
    ensures NodesOf(s, [x] + rest) == [NodeOf(s, x)] + NodesOf(s, rest)
  {
  }

  lemma ForgetAllCons(n: TreeNode, rest: seq<TreeNode>, id: Name)
    ensures ForgetAll([n] + rest, id) == [ForgetIn(n, id)] + ForgetAll(rest, id)
  {
  }

  lemma DropNodeCons(n: TreeNode, rest: seq<TreeNode>, id: Name)
    ensures DropNode([n] + rest, id) == (if n.id == id then [] else [ForgetIn(n, id)]) + DropNode(rest, id)
  {
    assert ([n] + rest)[1..] == rest;
  }

  lemma {:induction false} DropNodesOf(s: State, ids: seq<Name>, id: Name)
    requires forall x :: x in ids ==> x in s.specs
    ensures forall x :: x in WithoutName(ids, id) ==> x in Drop(s, id).specs
    ensures DropNode(NodesOf(s, ids), id) == ForgetAll(NodesOf(Drop(s, id), WithoutName(ids, id)), id)
  {
    if |ids| > 0 {
      var x, rest, left := ids[0], ids[1..], WithoutName(ids[1..], id);
      assert ids == [x] + rest;
      DropNodesOf(s, rest, id);
      NodesOfCons(s, x, rest);
      DropNodeCons(NodeOf(s, x), NodesOf(s, rest), id);
      if x == id {
        assert WithoutName(ids, id) == left;
      } else {
        DeletedNode(s, id, x);
        NodesOfCons(Drop(s, id), x, left);
        ForgetAllCons(NodeOf(s, x), NodesOf(Drop(s, id), left), id);
      }
    }
  }

  lemma {:induction false} WithoutNameAscending(ids: seq<Name>, id: Name)
    requires Ascending(ids)
    ensures Ascending(WithoutName(ids, id))
  {
    if |ids| > 0 {
      WithoutNameAscending(ids[1..], id);
      assert forall x :: x in ids[1..] ==> Below(ids[0], x);
    }
  }

  /**
   Deleting in the runtime and then taking the tree shows what deleting in the snapshot shows, except that the runtime
   still lists the deleted task among the declared dependencies of the others.
   */
  lemma DeleteAgreesUpToDependencies(s: State, id: Name)
    requires Registered(s) && DeleteOutcome(s, id) == Ok
    ensures ForgetAll(TreeOf(Delete(s, id)), id) == DropNode(TreeOf(s), id)
  {
    var ids := SortedNames(s.specs.Keys);
    assert TreeOf(s) == NodesOf(s, ids);
    DropNodesOf(s, ids, id);
    WithoutNameAscending(ids, id);
    assert Drop(s, id).specs.Keys == s.specs.Keys - {id};
    AscendingUnique(WithoutName(ids, id), SortedNames(Drop(s, id).specs.Keys));
    assert TreeOf(Drop(s, id)) == NodesOf(Drop(s, id), WithoutName(ids, id));
  }
}
