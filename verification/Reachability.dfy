/** Paths, cycles and ancestors in a finite directed graph given by its edge set. */
module Reachability {
  import opened Names

  datatype Edge = Edge(source: Name, target: Name)

  ghost predicate ReachIn(edges: set<Edge>, a: Name, b: Name, steps: nat)
    decreases steps
  {
    if steps == 0 then a == b
    else exists c :: Edge(a, c) in edges && ReachIn(edges, c, b, steps - 1)
  }

  /** There is a path, possibly empty, from `a` to `b`. */
  ghost predicate Reaches(edges: set<Edge>, a: Name, b: Name) {
    exists steps: nat :: ReachIn(edges, a, b, steps)
  }

  /** No edge lies on a cycle. */
  ghost predicate Acyclic(edges: set<Edge>) {
    forall e :: e in edges ==> !Reaches(edges, e.target, e.source)
  }

  lemma ReachesSelf(edges: set<Edge>, a: Name)
    ensures Reaches(edges, a, a)
  {
    assert ReachIn(edges, a, a, 0);
  }

  lemma ReachesPrepend(edges: set<Edge>, a: Name, c: Name, b: Name)
    requires Edge(a, c) in edges && Reaches(edges, c, b)
    ensures Reaches(edges, a, b)
  {
    var n: nat :| ReachIn(edges, c, b, n);
    assert ReachIn(edges, a, b, n + 1);
  }

  lemma {:induction false} ReachInTransitive(edges: set<Edge>, a: Name, b: Name, c: Name, m: nat, n: nat)
    requires ReachIn(edges, a, b, m) && ReachIn(edges, b, c, n)
    ensures ReachIn(edges, a, c, m + n)
    decreases m
  {
    if m > 0 {
      var d :| Edge(a, d) in edges && ReachIn(edges, d, b, m - 1);
      ReachInTransitive(edges, d, b, c, m - 1, n);
    }
  }

  lemma ReachesTransitive(edges: set<Edge>, a: Name, b: Name, c: Name)
    requires Reaches(edges, a, b) && Reaches(edges, b, c)
    ensures Reaches(edges, a, c)
  {
    var m: nat :| ReachIn(edges, a, b, m);
    var n: nat :| ReachIn(edges, b, c, n);
    ReachInTransitive(edges, a, b, c, m, n);
  }

  lemma ReachesAppend(edges: set<Edge>, a: Name, b: Name, c: Name)
    requires Reaches(edges, a, b) && Edge(b, c) in edges
    ensures Reaches(edges, a, c)
  {
    ReachesSelf(edges, c);
    ReachesPrepend(edges, b, c, c);
    ReachesTransitive(edges, a, b, c);
  }

  /** Edges that leave nodes met on the way are all a path can use. */
  lemma {:induction false} ReachInWithin(edges: set<Edge>, larger: set<Edge>, inside: set<Name>, a: Name, b: Name,
                                         n: nat)
    requires ReachIn(edges, a, b, n) && a in inside
    requires forall e :: e in edges && e.source in inside ==> e.target in inside && e in larger
    ensures b in inside && ReachIn(larger, a, b, n)
    decreases n
  {
    if n > 0 {
      var c :| Edge(a, c) in edges && ReachIn(edges, c, b, n - 1);
      assert Edge(a, c).source in inside;
      ReachInWithin(edges, larger, inside, c, b, n - 1);
    }
  }

  /** A set closed under the edges contains everything reachable from its members. */
  lemma ReachesStaysInside(edges: set<Edge>, inside: set<Name>, a: Name, b: Name)
    requires Reaches(edges, a, b) && a in inside
    requires forall e :: e in edges && e.source in inside ==> e.target in inside
    ensures b in inside
  {
    var n: nat :| ReachIn(edges, a, b, n);
    ReachInWithin(edges, edges, inside, a, b, n);
  }

  lemma ReachesWithin(edges: set<Edge>, larger: set<Edge>, inside: set<Name>, a: Name, b: Name)
    requires Reaches(edges, a, b) && a in inside
    requires forall e :: e in edges && e.source in inside ==> e.target in inside && e in larger
    ensures Reaches(larger, a, b)
  {
    var n: nat :| ReachIn(edges, a, b, n);
    ReachInWithin(edges, larger, inside, a, b, n);
  }

  lemma {:induction false} ReachInMonotone(edges: set<Edge>, larger: set<Edge>, a: Name, b: Name, n: nat)
    requires edges <= larger && ReachIn(edges, a, b, n)
    ensures ReachIn(larger, a, b, n)
    decreases n
  {
    if n > 0 {
      var c :| Edge(a, c) in edges && ReachIn(edges, c, b, n - 1);
      ReachInMonotone(edges, larger, c, b, n - 1);
    }
  }

  lemma ReachesMonotone(edges: set<Edge>, larger: set<Edge>, a: Name, b: Name)
    requires edges <= larger && Reaches(edges, a, b)
    ensures Reaches(larger, a, b)
  {
    var n: nat :| ReachIn(edges, a, b, n);
    ReachInMonotone(edges, larger, a, b, n);
  }

  lemma ReachesFirstEdge(edges: set<Edge>, a: Name, b: Name) returns (c: Name)
    requires Reaches(edges, a, b) && a != b
    ensures Edge(a, c) in edges && Reaches(edges, c, b)
  {
    var n: nat :| ReachIn(edges, a, b, n);
    c :| Edge(a, c) in edges && ReachIn(edges, c, b, n - 1);
  }

  lemma FewerEdgesAcyclic(edges: set<Edge>, larger: set<Edge>)
    requires edges <= larger && Acyclic(larger)
    ensures Acyclic(edges)
  {
    forall e | e in edges ensures !Reaches(edges, e.target, e.source) {
      if Reaches(edges, e.target, e.source) {
        ReachesMonotone(edges, larger, e.target, e.source);
      }
    }
  }

  /** A path in the graph with one more edge either avoids that edge or can be cut at its first and last use. */
  lemma {:induction false} ReachInWithNewEdge(edges: set<Edge>, e: Edge, a: Name, b: Name, n: nat)
    requires ReachIn(edges + {e}, a, b, n)
    ensures Reaches(edges, a, b) || (Reaches(edges, a, e.source) && Reaches(edges, e.target, b))
    decreases n
  {
    if n == 0 {
      ReachesSelf(edges, a);
    } else {
      var c :| Edge(a, c) in edges + {e} && ReachIn(edges + {e}, c, b, n - 1);
      ReachInWithNewEdge(edges, e, c, b, n - 1);
      if Edge(a, c) in edges {
        if Reaches(edges, c, b) {
          ReachesPrepend(edges, a, c, b);
        } else {
          ReachesPrepend(edges, a, c, e.source);
        }
      } else {
        ReachesSelf(edges, a);
      }
    }
  }

  lemma ReachesWithNewEdge(edges: set<Edge>, e: Edge, a: Name, b: Name)
    requires Reaches(edges + {e}, a, b)
    ensures Reaches(edges, a, b) || (Reaches(edges, a, e.source) && Reaches(edges, e.target, b))
  {
    var n: nat :| ReachIn(edges + {e}, a, b, n);
    ReachInWithNewEdge(edges, e, a, b, n);
  }

  /** The on-line cycle test is exact: the new edge keeps the graph acyclic iff its target does not reach its source. */
  lemma NewEdgeAcyclic(edges: set<Edge>, e: Edge)
    requires Acyclic(edges)
    ensures Acyclic(edges + {e}) <==> !Reaches(edges, e.target, e.source)
  {
    var larger := edges + {e};
    if Reaches(edges, e.target, e.source) {
      ReachesMonotone(edges, larger, e.target, e.source);
      assert e in larger;
    } else {
      forall f | f in larger ensures !Reaches(larger, f.target, f.source) {
        if Reaches(larger, f.target, f.source) {
          ReachesWithNewEdge(edges, e, f.target, f.source);
          if f in edges {
            assert Edge(f.source, f.target) == f;
            ReachesAppend(edges, e.target, f.source, f.target);
            ReachesTransitive(edges, e.target, f.target, e.source);
          }
        }
      }
    }
  }

  ghost function Ancestors(edges: set<Edge>, among: set<Name>, x: Name): set<Name> {
    set y | y in among && Reaches(edges, y, x)
  }

  /** In an acyclic graph walking an edge backwards loses ancestors, so it cannot go on for ever. */
  lemma AncestorsShrink(edges: set<Edge>, among: set<Name>, e: Edge)
    requires Acyclic(edges) && e in edges && e.target in among
    ensures Ancestors(edges, among, e.source) < Ancestors(edges, among, e.target)
  {
    assert Edge(e.source, e.target) == e;
    forall y | y in Ancestors(edges, among, e.source) ensures y in Ancestors(edges, among, e.target) {
      ReachesAppend(edges, y, e.source, e.target);
    }
    ReachesSelf(edges, e.target);
    assert e.target in Ancestors(edges, among, e.target) && e.target !in Ancestors(edges, among, e.source);
  }
}
