/**
 Names (task ids, run ids, item ids) and their order.

 The program keys its maps by `String` in a `BTreeMap`, so iteration order is the order of `String`:
 by code point, a proper prefix first.  `Below` is that order; `SortedNames` is the iteration order.
 */
module Names {

  datatype Name = Name(text: string)

  predicate TextBelow(a: string, b: string) {
    |b| > 0 && (|a| == 0 || a[0] < b[0] || (a[0] == b[0] && TextBelow(a[1..], b[1..])))
  }

  predicate Below(a: Name, b: Name) {
    TextBelow(a.text, b.text)
  }

  /** Exactly one of: equal, below, above. */
  lemma {:induction false} TextTrichotomy(a: string, b: string)
    ensures a == b || TextBelow(a, b) || TextBelow(b, a)
    ensures TextBelow(a, b) ==> a != b && !TextBelow(b, a)
  {
    if |a| > 0 && |b| > 0 && a[0] == b[0] {
      TextTrichotomy(a[1..], b[1..]);
      assert a == [a[0]] + a[1..] && b == [b[0]] + b[1..];
    }
  }

  lemma {:induction false} TextTransitive(a: string, b: string, c: string)
    requires TextBelow(a, b) && TextBelow(b, c)
    ensures TextBelow(a, c)
  {
    if |a| > 0 && a[0] == b[0] == c[0] {
      TextTransitive(a[1..], b[1..], c[1..]);
    }
  }

  lemma Trichotomy(a: Name, b: Name)
    ensures a == b || Below(a, b) || Below(b, a)
    ensures Below(a, b) ==> a != b && !Below(b, a)
  {
    TextTrichotomy(a.text, b.text);
  }

  lemma Transitive(a: Name, b: Name, c: Name)
    requires Below(a, b) && Below(b, c)
    ensures Below(a, c)
  {
    TextTransitive(a.text, b.text, c.text);
  }

  predicate IsLeast(m: Name, s: set<Name>) {
    m in s && forall x :: x in s && x != m ==> Below(m, x)
  }

  lemma {:induction false} LeastExists(s: set<Name>)
    requires s != {}
    ensures exists m :: IsLeast(m, s)
    decreases |s|
  {
    var x :| x in s;
    var rest := s - {x};
    if rest == {} {
      assert s == {x};
      assert IsLeast(x, s);
    } else {
      LeastExists(rest);
      var m :| IsLeast(m, rest);
      Trichotomy(x, m);
      if Below(x, m) {
        forall y | y in rest && y != m ensures Below(x, y) {
          Transitive(x, m, y);
        }
        assert IsLeast(x, s);
      } else {
        assert IsLeast(m, s);
      }
    }
  }

  lemma LeastUnique(s: set<Name>)
    ensures forall m, n :: IsLeast(m, s) && IsLeast(n, s) ==> m == n
  {
    forall m, n | IsLeast(m, s) && IsLeast(n, s) ensures m == n {
      Trichotomy(m, n);
    }
  }

  predicate Ascending(names: seq<Name>) {
    forall i, j :: 0 <= i < j < |names| ==> Below(names[i], names[j])
  }

  /** The keys of a `BTreeMap` in iteration order. */
  function SortedNames(s: set<Name>): (r: seq<Name>)
    ensures forall x :: x in r <==> x in s
    ensures Ascending(r)
    decreases |s|
  {
    if s == {} then [] else
      LeastExists(s);
      LeastUnique(s);
      var m :| IsLeast(m, s);
      [m] + SortedNames(s - {m})
  }

  lemma AscendingDistinct(names: seq<Name>)
    requires Ascending(names)
    ensures forall i, j :: 0 <= i < j < |names| ==> names[i] != names[j]
  {
    forall i, j | 0 <= i < j < |names| ensures names[i] != names[j] {
      Trichotomy(names[i], names[j]);
    }
  }

  lemma NoMembers(names: seq<Name>)
    ensures (forall x :: x !in names) ==> names == []
  {
    if |names| > 0 {
      assert names[0] in names;
    }
  }

  /** A set has one ascending enumeration. */
  lemma {:induction false} AscendingUnique(a: seq<Name>, b: seq<Name>)
    requires Ascending(a) && Ascending(b) && forall x :: x in a <==> x in b
    ensures a == b
  {
    if |a| == 0 {
      NoMembers(b);
    } else {
      assert a[0] in b;
      assert b[0] in a;
      Trichotomy(a[0], b[0]);
      assert a[0] == b[0];
      AscendingDistinct(a);
      AscendingDistinct(b);
      forall x ensures x in a[1..] <==> x in b[1..] {
        assert x in a[1..] <==> x in a && x != a[0];
        assert x in b[1..] <==> x in b && x != b[0];
      }
      AscendingUnique(a[1..], b[1..]);
      assert a == [a[0]] + a[1..] && b == [b[0]] + b[1..];
    }
  }
}
