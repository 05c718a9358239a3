/**
 The library sort: a stable sort by a total preorder, as an insertion sort.

 `slice::sort_by`, `sort_by_key` and `sort` are stable, so their result is fixed by the comparison;
 `Sort` is that result.  Elements that compare equal keep their input order (`SortIsStable`), and under
 an antisymmetric order the result depends only on the multiset of elements (`SortForgetsOrder`).
 */
module StableSort {

  ghost predicate TotalPreorder<T(!new)>(leq: (T, T) -> bool) {
    && (forall x, y :: leq(x, y) || leq(y, x))
    && (forall x, y, z :: leq(x, y) && leq(y, z) ==> leq(x, z))
  }

  ghost predicate Antisymmetric<T(!new)>(leq: (T, T) -> bool, among: set<T>) {
    forall x, y :: x in among && y in among && leq(x, y) && leq(y, x) ==> x == y
  }

  predicate SortedBy<T(!new)>(leq: (T, T) -> bool, xs: seq<T>) {
    forall i, j :: 0 <= i < j < |xs| ==> leq(xs[i], xs[j])
  }

  /** Places `x` behind every element that does not compare strictly above it, scanning from the end. */
  function Insert<T>(leq: (T, T) -> bool, xs: seq<T>, x: T): seq<T> {
    if |xs| == 0 then [x]
    else if leq(xs[|xs| - 1], x) then xs + [x]
    else Insert(leq, xs[..|xs| - 1], x) + [xs[|xs| - 1]]
  }

  function Sort<T>(leq: (T, T) -> bool, xs: seq<T>): seq<T> {
    if |xs| == 0 then [] else Insert(leq, Sort(leq, xs[..|xs| - 1]), xs[|xs| - 1])
  }

  lemma {:induction false} InsertPermutes<T>(leq: (T, T) -> bool, xs: seq<T>, x: T)
    ensures multiset(Insert(leq, xs, x)) == multiset(xs) + multiset{x}
  {
    if |xs| > 0 {
      assert xs == xs[..|xs| - 1] + [xs[|xs| - 1]];
      if !leq(xs[|xs| - 1], x) {
        InsertPermutes(leq, xs[..|xs| - 1], x);
      }
    }
  }

  lemma {:induction false} SortPermutes<T>(leq: (T, T) -> bool, xs: seq<T>)
    ensures multiset(Sort(leq, xs)) == multiset(xs)
    ensures |Sort(leq, xs)| == |xs|
  {
    if |xs| > 0 {
      assert xs == xs[..|xs| - 1] + [xs[|xs| - 1]];
      SortPermutes(leq, xs[..|xs| - 1]);
      InsertPermutes(leq, Sort(leq, xs[..|xs| - 1]), xs[|xs| - 1]);
    }
    assert |multiset(Sort(leq, xs))| == |multiset(xs)|;
  }

  lemma SameElements<T>(xs: seq<T>, ys: seq<T>)
    requires multiset(xs) == multiset(ys)
    ensures forall x :: x in xs <==> x in ys
  {
    assert forall x :: x in xs <==> x in multiset(xs);
    assert forall x :: x in ys <==> x in multiset(ys);
  }

  lemma {:induction false} InsertSorted<T(!new)>(leq: (T, T) -> bool, xs: seq<T>, x: T)
    requires TotalPreorder(leq) && SortedBy(leq, xs)
    ensures SortedBy(leq, Insert(leq, xs, x))
  {
    if |xs| > 0 {
      var init, last := xs[..|xs| - 1], xs[|xs| - 1];
      assert xs == init + [last];
      if leq(last, x) {
        forall i | 0 <= i < |xs| ensures leq(xs[i], x) {
          assert leq(xs[i], last);
        }
      } else {
        InsertSorted(leq, init, x);
        InsertPermutes(leq, init, x);
        var r := Insert(leq, init, x);
        forall i | 0 <= i < |r| ensures leq(r[i], last) {
          assert r[i] in multiset(r);
          assert r[i] in multiset(init) || r[i] == x;
        }
      }
    }
  }

  lemma {:induction false} SortSorted<T(!new)>(leq: (T, T) -> bool, xs: seq<T>)
    requires TotalPreorder(leq)
    ensures SortedBy(leq, Sort(leq, xs))
  {
    if |xs| > 0 {
      SortSorted(leq, xs[..|xs| - 1]);
      InsertSorted(leq, Sort(leq, xs[..|xs| - 1]), xs[|xs| - 1]);
    }
  }

  /** Sorting a sorted sequence changes nothing, so one more element is a single insertion. */
  lemma {:induction false} SortOfSorted<T(!new)>(leq: (T, T) -> bool, xs: seq<T>)
    requires SortedBy(leq, xs)
    ensures Sort(leq, xs) == xs
  {
    if |xs| > 0 {
      var init := xs[..|xs| - 1];
      SortOfSorted(leq, init);
      assert xs == init + [xs[|xs| - 1]];
      if |init| > 0 {
        assert leq(xs[|xs| - 2], xs[|xs| - 1]);
      }
    }
  }

  lemma SortedHeadsAgree<T(!new)>(leq: (T, T) -> bool, xs: seq<T>, ys: seq<T>, among: set<T>)
    requires Antisymmetric(leq, among) && (forall x :: x in xs ==> x in among)
    requires TotalPreorder(leq) && SortedBy(leq, xs) && SortedBy(leq, ys)
    requires |xs| > 0 && |ys| > 0 && multiset(xs) == multiset(ys)
    ensures xs[0] == ys[0]
  {
    SameElements(xs, ys);
    assert xs[0] in ys && ys[0] in xs;
    var i :| 0 <= i < |ys| && ys[i] == xs[0];
    var j :| 0 <= j < |xs| && xs[j] == ys[0];
    assert leq(xs[0], xs[j]) && leq(ys[0], ys[i]);
  }

  lemma TailMultiset<T>(xs: seq<T>)
    requires |xs| > 0
    ensures multiset(xs[1..]) == multiset(xs) - multiset{xs[0]}
  {
    assert xs == [xs[0]] + xs[1..];
  }

  lemma SameLength<T>(xs: seq<T>, ys: seq<T>)
    requires multiset(xs) == multiset(ys)
    ensures |xs| == |ys|
  {
    assert |xs| == |multiset(xs)| == |multiset(ys)| == |ys|;
  }

  /** Two sorted arrangements of the same elements coincide when ties are equalities. */
  lemma {:induction false} SortedUnique<T(!new)>(leq: (T, T) -> bool, xs: seq<T>, ys: seq<T>, among: set<T>)
    requires Antisymmetric(leq, among) && (forall x :: x in xs ==> x in among)
    requires TotalPreorder(leq) && SortedBy(leq, xs) && SortedBy(leq, ys)
    requires multiset(xs) == multiset(ys)
    ensures xs == ys
  {
    SameLength(xs, ys);
    if |xs| > 0 {
      SortedHeadsAgree(leq, xs, ys, among);
      TailMultiset(xs);
      TailMultiset(ys);
      var xt, yt := xs[1..], ys[1..];
      SortedUnique(leq, xt, yt, among);
      assert xs == [xs[0]] + xt && ys == [ys[0]] + yt;
    }
  }

  lemma SortForgetsOrder<T(!new)>(leq: (T, T) -> bool, xs: seq<T>, ys: seq<T>)
    requires TotalPreorder(leq) && multiset(xs) == multiset(ys)
    requires Antisymmetric(leq, set x | x in xs)
    ensures Sort(leq, xs) == Sort(leq, ys)
  {
    SortSorted(leq, xs);
    SortSorted(leq, ys);
    SortPermutes(leq, xs);
    SortPermutes(leq, ys);
    SameElements(xs, Sort(leq, xs));
    SortedUnique(leq, Sort(leq, xs), Sort(leq, ys), set x | x in xs);
  }

  /** The elements of `xs` that tie with `x`, in order. */
  function Ties<T>(leq: (T, T) -> bool, xs: seq<T>, x: T): seq<T> {
    if |xs| == 0 then []
    else
      var init, last := xs[..|xs| - 1], xs[|xs| - 1];
      Ties(leq, init, x) + if leq(last, x) && leq(x, last) then [last] else []
  }

  lemma {:induction false} InsertTies<T(!new)>(leq: (T, T) -> bool, xs: seq<T>, y: T, x: T)
    requires TotalPreorder(leq) && SortedBy(leq, xs)
    ensures Ties(leq, Insert(leq, xs, y), x) == Ties(leq, xs, x) + if leq(y, x) && leq(x, y) then [y] else []
  {
    if |xs| > 0 {
      var init, last := xs[..|xs| - 1], xs[|xs| - 1];
      if leq(last, y) {
        assert (xs + [y])[..|xs|] == xs;
      } else {
        InsertTies(leq, init, y, x);
        var r := Insert(leq, init, y);
        assert (r + [last])[..|r|] == r;
      }
    }
  }

  /** Stability: elements that tie keep their input order. */
  lemma {:induction false} SortIsStable<T(!new)>(leq: (T, T) -> bool, xs: seq<T>, x: T)
    requires TotalPreorder(leq)
    ensures Ties(leq, Sort(leq, xs), x) == Ties(leq, xs, x)
  {
    if |xs| > 0 {
      var init, last := xs[..|xs| - 1], xs[|xs| - 1];
      SortIsStable(leq, init, x);
      SortSorted(leq, init);
      InsertTies(leq, Sort(leq, init), last, x);
    }
  }
}
