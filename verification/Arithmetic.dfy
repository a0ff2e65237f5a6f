/** A few facts about products, quotients and remainders. */
module Arithmetic {

  lemma LargerProduct(a: nat, b: nat, d: nat)
    ensures a > b ==> a * d >= b * d + d
  {
    if a > b { assert a * d >= (b + 1) * d; }
  }

  lemma QuotientOfProduct(q: nat, d: nat)
    requires d > 0
    ensures q * d >= 0 && q * d / d == q
  {
    LargerProduct(q * d / d, q, d);
    LargerProduct(q, q * d / d, d);
  }

  lemma QuotientAtMost(n: nat, q: nat, d: nat)
    requires d > 0 && n <= q * d
    ensures n / d <= q
  {
    LargerProduct(n / d, q, d);
  }

  lemma QuotientGrows(a: nat, b: nat, d: nat)
    requires d > 0 && a <= b
    ensures a / d <= b / d
  {
    LargerProduct(a / d, b / d, d);
  }

  /** How many times `d` goes into `n`. */
  function Quotient(n: nat, d: nat): (q: nat)
    requires d > 0
  {
    n / d
  }

  lemma ProductBelow(q: nat, n: nat, d: nat)
    requires d > 0 && q <= n / d
    ensures 0 <= q * d <= n && q * d / d == q
  {
    QuotientOfProduct(q, d);
    LargerProduct(q, n / d, d);
  }

  lemma QuotientBounds(n: nat, d: nat)
    requires d > 0
    ensures n / d * d <= n < (n / d + 1) * d
  {
    LargerProduct(n / d + 1, n / d, d);
  }

  lemma RemainderUnique(n: nat, d: nat, q: nat, r: nat)
    requires r < d && n == q * d + r
    ensures n % d == r && n / d == q
  {
    LargerProduct(n / d, q, d);
    LargerProduct(q, n / d, d);
  }

  function Pow2(k: nat): (p: nat)
    ensures p > 0
  {
    if k == 0 then 1 else 2 * Pow2(k - 1)
  }

  lemma EightDoublings(k: nat)
    ensures Pow2(k + 8) == 256 * Pow2(k)
  {
    assert Pow2(k + 8) == 2 * Pow2(k + 7) && Pow2(k + 7) == 2 * Pow2(k + 6) && Pow2(k + 6) == 2 * Pow2(k + 5);
    assert Pow2(k + 5) == 2 * Pow2(k + 4) && Pow2(k + 4) == 2 * Pow2(k + 3) && Pow2(k + 3) == 2 * Pow2(k + 2);
    assert Pow2(k + 2) == 2 * Pow2(k + 1) && Pow2(k + 1) == 2 * Pow2(k);
  }

  lemma Sixteen(k: nat)
    ensures Pow2(k + 16) == 0x10000 * Pow2(k)
  {
    EightDoublings(k);
    EightDoublings(k + 8);
  }

  lemma NoDoubling()
    ensures Pow2(0) == 1
  {}

  lemma QuotientParts(n: nat, c: nat, p: nat) returns (q: nat, m: nat)
    requires c > 0 && p > 0 && c * p > 0
    ensures q == n / (c * p) && m == q * p && c * m <= n < c * m + c * p
  {
    q := Quotient(n, c * p);
    QuotientBounds(n, c * p);
    Regrouped(c, q, p);
    m := q * p;
  }

  lemma Regrouped(c: nat, q: nat, p: nat)
    ensures q * p >= 0 && q * (c * p) == c * (q * p) && (q + 1) * (c * p) == c * (q * p) + c * p
  {}

  lemma QuotientTwice(v: nat, p: nat)
    requires p > 0
    ensures v / 2 / p == v / (2 * p)
  {
    var q, m := QuotientParts(v, 2, p);
    RemainderUnique(v / 2, p, q, v / 2 - m);
  }
}
