/** Facts about products and quotients that several of the proofs rest on. */
module Arithmetic {

  function Min(a: int, b: int): int { if a < b then a else b }

  function Max(a: int, b: int): int { if a > b then a else b }

  lemma Cancel(x: int, y: int, d: nat)
    requires x * d < y * d
    ensures x < y
  {
  }

  lemma Grows(c: nat, a: int, b: int)
    requires a <= b
    ensures c * a <= c * b
  {
  }

  lemma ScaledBetween(w: nat, v: int, low: int, high: int)
    requires low <= v <= high
    ensures low * w <= w * v <= high * w
  {
  }

  lemma QuotientIs(a: int, d: int, q: int, r: int)
    requires 0 <= r < d && a == d * q + r
    ensures a / d == q && a % d == r
  {
    var p := a / d;
    assert a == p * d + a % d;
    Cancel(q, p + 1, d);
    Cancel(p, q + 1, d);
  }

  function Pow2(n: nat): (p: nat)
    ensures p > 0
  {
    if n == 0 then 1 else 2 * Pow2(n - 1)
  }
}
