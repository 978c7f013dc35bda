/** Division facts, proved once. */
module Arithmetic {
  /** Multiples of different numbers are at least one step apart. */
  lemma Apart(p: int, q: int, d: int)
    requires p < q && d >= 0
    ensures p * d + d <= q * d
  {
    NonNegative(q - p - 1, d);
    assert (q - p - 1) * d == q * d - p * d - d;
  }

  lemma NonNegative(k: int, d: int)
    requires k >= 0 && d >= 0
    ensures k * d >= 0
  {}

  /** Quotient and remainder are unique. */
  lemma QuotientIs(x: int, d: int, q: int, r: int)
    requires d > 0 && x == q * d + r && 0 <= r < d
    ensures x / d == q && x % d == r
  {
    var p := x / d;
    assert x == p * d + x % d;
    if p < q {
      Apart(p, q, d);
    } else if q < p {
      Apart(q, p, d);
    }
  }

  /** Rounding down loses less than the divisor. */
  lemma Rounding(x: nat, d: nat)
    requires d > 0
    ensures x / d >= 0
    ensures (x / d) * d <= x < (x / d) * d + d
  {
    var q := x / d;
    assert x == q * d + x % d;
    if q < 0 {
      Apart(q, 0, d);
    }
  }

  lemma Small(a: nat, d: nat)
    requires a < d
    ensures a % d == a
  {
    QuotientIs(a, d, 0, a);
  }

  lemma AddMultiple(a: nat, k: nat, d: nat)
    requires d > 0
    ensures (a + k * d) % d == a % d
  {
    var q, r := a / d, a % d;
    assert a == q * d + r;
    assert (q + k) * d == q * d + k * d;
    QuotientIs(a + k * d, d, q + k, r);
  }

  /** Moving on by less than one turn. */
  lemma Around(x: nat, k: nat, d: nat)
    requires k < d
    ensures (x + k) % d == var a := x % d; if a + k < d then a + k else a + k - d
  {
    var q, a := x / d, x % d;
    assert x == q * d + a;
    if a + k < d {
      QuotientIs(x + k, d, q, a + k);
    } else {
      assert (q + 1) * d == q * d + d;
      QuotientIs(x + k, d, q + 1, a + k - d);
    }
  }

  /** Reducing by a multiple of d first makes no difference. */
  lemma ModMod(x: nat, m: nat, d: nat)
    requires d > 0 && m > 0 && m % d == 0
    ensures (x % m) % d == x % d
  {
    var q, k := x / m, m / d;
    assert m == k * d;
    assert x == q * m + x % m;
    assert q * (k * d) == (q * k) * d;
    NonNegative(q, k);
    AddMultiple(x % m, q * k, d);
  }
}
