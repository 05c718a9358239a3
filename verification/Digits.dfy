/** Decimal numerals inside generated names such as `run-a-7`, `schedule:a:60` and `paths[3]`. */
module Digits {

  const DIGITS: string := "0123456789"

  function Decimal(n: nat): (r: string)
    ensures |r| > 0 && (|r| == 1 <==> n < 10)
  {
    if n < 10 then [DIGITS[n]] else Decimal(n / 10) + [DIGITS[n % 10]]
  }

  lemma DigitsDistinct(i: nat, j: nat)
    requires i < 10 && j < 10 && DIGITS[i] == DIGITS[j]
    ensures i == j
  {
    assert DIGITS[0] == '0' && DIGITS[1] == '1' && DIGITS[2] == '2' && DIGITS[3] == '3' && DIGITS[4] == '4';
    assert DIGITS[5] == '5' && DIGITS[6] == '6' && DIGITS[7] == '7' && DIGITS[8] == '8' && DIGITS[9] == '9';
  }

  lemma {:induction false} DecimalInjective(m: nat, n: nat)
    requires Decimal(m) == Decimal(n)
    ensures m == n
  {
    var a, b := Decimal(m), Decimal(n);
    if m < 10 && n < 10 {
      assert a[0] == b[0];
      DigitsDistinct(m, n);
    } else if m >= 10 && n >= 10 {
      assert a[|a| - 1] == b[|b| - 1];
      DigitsDistinct(m % 10, n % 10);
      assert a[..|a| - 1] == Decimal(m / 10) && b[..|b| - 1] == Decimal(n / 10);
      DecimalInjective(m / 10, n / 10);
    }
  }

  predicate IsDigit(c: char) {
    '0' <= c <= '9'
  }

  lemma {:induction false} DecimalIsDigits(n: nat)
    ensures forall i :: 0 <= i < |Decimal(n)| ==> IsDigit(Decimal(n)[i])
  {
    assert DIGITS[0] == '0' && DIGITS[1] == '1' && DIGITS[2] == '2' && DIGITS[3] == '3' && DIGITS[4] == '4';
    assert DIGITS[5] == '5' && DIGITS[6] == '6' && DIGITS[7] == '7' && DIGITS[8] == '8' && DIGITS[9] == '9';
    if n >= 10 {
      DecimalIsDigits(n / 10);
    }
  }

  lemma SeparatorNotLater(a: string, b: string, separator: char, m: nat, n: nat)
    requires !IsDigit(separator)
    requires a + [separator] + Decimal(m) == b + [separator] + Decimal(n)
    ensures |a| >= |b|
  {
    var x, y := a + [separator] + Decimal(m), b + [separator] + Decimal(n);
    DecimalIsDigits(m);
    assert forall k :: |a| < k < |x| ==> x[k] == Decimal(m)[k - |a| - 1];
    assert !IsDigit(y[|b|]);
  }

  /** A name that ends in a separator and a numeral determines both parts, whatever the first part contains. */
  lemma SuffixInjective(a: string, b: string, separator: char, m: nat, n: nat)
    requires !IsDigit(separator)
    requires a + [separator] + Decimal(m) == b + [separator] + Decimal(n)
    ensures a == b && m == n
  {
    var x, y := a + [separator] + Decimal(m), b + [separator] + Decimal(n);
    SeparatorNotLater(a, b, separator, m, n);
    SeparatorNotLater(b, a, separator, n, m);
    assert a == x[..|a|] && b == y[..|b|];
    assert Decimal(m) == x[|a| + 1..] && Decimal(n) == y[|b| + 1..];
    DecimalInjective(m, n);
  }
}
