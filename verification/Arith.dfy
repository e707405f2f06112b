/** Steps of non-linear arithmetic, one at a time. */
module Arith {

  lemma MulLess(a: nat, b: nat, w: nat)
    requires a <= b
    ensures a * w <= b * w
  {
  }

  lemma MulStrict(a: nat, b: nat, w: nat)
    requires a < b && w > 0
    ensures a * w < b * w && w * a < w * b
  {
  }

  /** Quotient and remainder are determined by their sizes. */
  lemma DivUnique(a: nat, d: nat, q: nat, r: nat)
    requires d > 0 && a == q * d + r && r < d
    ensures a / d == q && a % d == r
  {
    var q', r' := a / d, a % d;
    assert a == q' * d + r';
    if q' < q { MulLess(q' + 1, q, d); }
    if q < q' { MulLess(q + 1, q', d); }
  }

  lemma DivMod(x: nat, r: nat)
    requires r > 0
    ensures x == (x / r) * r + x % r && 0 <= x % r < r && x / r >= 0
  {
  }
}
