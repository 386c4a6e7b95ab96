// Multiplication and division facts, kept away from the proofs that use them.

module Arithmetic {

  lemma MulLe(a: nat, b: nat, p: nat)
    requires a <= b
    ensures a * p <= b * p
  {
  }

  lemma MulAssoc(a: nat, b: nat, c: nat)
    ensures a * (b * c) == (a * b) * c
  {
  }

  lemma MulAdd(a: nat, b: nat, c: nat)
    ensures (a + b) * c == a * c + b * c
  {
  }

  lemma LessByOne(a: int, b: int, p: nat)
    ensures a < b ==> a * p + p <= b * p
  {
    if a < b {
      MulLe(0, b - a - 1, p);
      assert (b - a - 1) * p == b * p - a * p - p;
    }
  }

  lemma DivModUnique(q: nat, rest: nat, p: nat)
    requires rest < p
    ensures (q * p + rest) / p == q && (q * p + rest) % p == rest
  {
    var x := q * p + rest;
    var d, m := x / p, x % p;
    assert x == d * p + m && 0 <= m < p;
    LessByOne(d, q, p);
    LessByOne(q, d, p);
  }

  /** An interval as long as `m` holds one multiple of m. */
  lemma OneMultiple(a: nat, b: nat, low: nat, m: nat)
    requires m > 0 && low <= a < low + m && low <= b < low + m
    requires a % m == 0 && b % m == 0
    ensures a == b
  {
    var p, q := a / m, b / m;
    assert a == p * m && b == q * m;
    LessByOne(p, q, m);
    LessByOne(q, p, m);
  }

  /** Rounding down to a multiple of m. */
  lemma RoundsDown(x: nat, m: nat)
    requires m > 0
    ensures 0 <= x % m < m && (x - x % m) % m == 0
  {
    DivModUnique(x / m, 0, m);
  }

  lemma DifferenceDivides(x: nat, y: nat, m: nat)
    requires m > 0 && x <= y && x % m == y % m
    ensures (y - x) % m == 0
  {
    var q, d, r := x / m, y / m, x % m;
    assert x == q * m + r && y == d * m + r;
    LessByOne(d, q, m);
    MulAdd(q, d - q, m);
    DivModUnique(d - q, 0, m);
  }

  /** The multiple after x leaves another remainder, if x leaves one. */
  lemma NextMultiple(x: nat, m: nat)
    requires x > 0 && m > 0 && x % m != 0
    ensures (2 * x) % m != x % m && x % x == 0 && (2 * x) % x == 0
  {
    if (2 * x) % m == x % m { DifferenceDivides(x, 2 * x, m); }
    DivModUnique(1, 0, x);
    DivModUnique(2, 0, x);
  }

  /** A product that asks for no multiplication. */
  function Times(k: nat, a: nat): nat {
    if k == 0 then 0 else a + Times(k - 1, a)
  }

  lemma {:induction false} TimesIsProduct(k: nat, a: nat)
    ensures Times(k, a) == k * a
  {
    if k > 0 {
      TimesIsProduct(k - 1, a);
      MulAdd(k - 1, 1, a);
    }
  }

  lemma SameRemainder(x: nat, y: nat, d: int, m: nat)
    requires m > 0 && x - y == d * m
    ensures x % m == y % m
  {
    var q, r := y / m, y % m;
    assert y == q * m + r;
    assert x == q * m + r + d * m == (q + d) * m + r;
    LessByOne(q + d, 0, m);
    DivModUnique(q + d, r, m);
  }

  /** The next multiples are as far from two numbers exactly when these leave the same remainder. */
  lemma EqualDistancesIff(x: nat, u: nat, y: nat, v: nat, m: nat)
    requires m > 0 && x < u <= x + m && y < v <= y + m && u % m == 0 && v % m == 0
    ensures u - x == v - y <==> x % m == y % m
  {
    if u - x == v - y { EqualDistances(x, u, y, v, m); }
    if x % m == y % m { EqualRemainders(x, u, y, v, m); }
  }

  lemma EqualDistances(x: nat, u: nat, y: nat, v: nat, m: nat)
    requires m > 0 && u - x == v - y && u % m == 0 && v % m == 0
    ensures x % m == y % m
  {
    var p, q := u / m, v / m;
    assert u == p * m && v == q * m;
    SameRemainder(x, y, p - q, m);
  }

  lemma EqualRemainders(x: nat, u: nat, y: nat, v: nat, m: nat)
    requires m > 0 && x < u <= x + m && y < v <= y + m && u % m == 0 && v % m == 0 && x % m == y % m
    ensures u - x == v - y
  {
    var a, p, q := u - x, x / m, y / m;
    assert x == p * m + x % m && y == q * m + y % m;
    SameRemainder(x + a, y + a, p - q, m);
    OneMultiple(v, y + a, y + 1, m);
  }
}
