/** Division facts with a variable divisor. */
module Arith {

  function Quotient(x: nat, d: nat): nat
    requires 0 < d
  {
    x / d
  }

  lemma Split(x: nat, d: nat)
    requires 0 < d
    ensures x == x / d * d + x % d && 0 <= x % d < d && 0 <= x / d
  {
  }

  lemma Step(a: nat, b: nat, d: nat)
    ensures a < b ==> a * d + d <= b * d
    ensures a <= b ==> a * d <= b * d
  {
    if a < b {
      Step(a, b - 1, d);
      assert b * d == (b - 1) * d + d;
    }
  }

  lemma Compose(q: nat, r: nat, d: nat)
    requires r < d
    ensures (q * d + r) / d == q && (q * d + r) % d == r
  {
    var x := q * d + r;
    Split(x, d);
    Step(x / d, q, d);
    Step(q, x / d, d);
  }

  lemma NextQuotient(x: nat, d: nat)
    requires 0 < d
    ensures (x + d) / d == x / d + 1 && (x + d) % d == x % d
  {
    Split(x, d);
    assert x + d == (x / d + 1) * d + x % d;
    Compose(x / d + 1, x % d, d);
  }

  lemma Monotone(x: nat, y: nat, d: nat)
    requires x <= y && 0 < d
    ensures x / d <= y / d
  {
    Split(x, d);
    Split(y, d);
    Step(y / d, x / d, d);
  }

  /** Two numbers have the same quotient exactly when one lies in the block of the other. */
  lemma SameBlock(o: nat, s: nat, d: nat)
    requires 0 < d
    ensures o / d == s / d <==> s - s % d <= o < s - s % d + d
  {
    Split(s, d);
    Split(o, d);
    if s - s % d <= o < s - s % d + d {
      Compose(s / d, o - (s - s % d), d);
    }
  }

  /** Two numbers with the same remainder are a multiple apart. */
  lemma SameRest(x: nat, y: nat, r: nat, d: nat)
    requires 0 < d && x <= y && x % d == y % d && r % d == 0 && y - d < x + r < y + d
    ensures y == x + r
  {
    Split(x, d);
    Split(y, d);
    Split(r, d);
    var q, k := y / d - x / d, r / d;
    assert y - x == q * d by { Difference(y / d, x / d, d); }
    if q < k { Step(q, k, d); }
    if k < q { Step(k, q, d); }
  }

  lemma Difference(a: int, b: int, d: int)
    ensures a * d - b * d == (a - b) * d
  {
  }

  lemma AtLeastOne(x: nat, d: nat)
    requires 0 < x && 0 < d && x % d == 0
    ensures d <= x
  {
    if x < d { Compose(0, x, d); }
  }

  /** A page that is not behind the one of o begins at or before o. */
  lemma StartsIn(k: nat, o: nat, d: nat)
    requires 0 < d && k <= o / d
    ensures k * d <= o
  {
    Split(o, d);
    Step(k, o / d, d);
  }

  lemma EightTimes(x: nat, d: nat)
    requires 0 < d && x % d == 0
    ensures x / d * (d * 8) == x * 8
  {
  }

  /** Below a multiple of d, the quotient is below the factor. */
  lemma Below(x: nat, q: nat, d: nat)
    requires 0 < d
    ensures x / d < q <==> x < q * d
  {
    Split(x, d);
    Step(x / d, q, d);
    Step(q, x / d, d);
  }
}
