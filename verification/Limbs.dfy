/** Numbers written in base 2^32, least significant limb first, and the powers of two that go with
    them. */
module Limbs {
  import opened Common
  import opened Arith

  const BASE := 0x1_0000_0000

  type Limb = x: int | 0 <= x < BASE

  /** The weight of limb `i`. */
  function Weight(i: nat): (w: nat)
    ensures w > 0
  {
    if i == 0 then 1 else BASE * Weight(i - 1)
  }

  /** The value of the first `i` limbs. */
  function Prefix(s: seq<Limb>, i: nat): nat
    requires i <= |s|
  {
    if i == 0 then 0 else Prefix(s, i - 1) + s[i - 1] * Weight(i - 1)
  }

  function Value(s: seq<Limb>): nat {
    Prefix(s, |s|)
  }

  lemma {:induction false} PrefixBound(s: seq<Limb>, i: nat)
    requires i <= |s|
    ensures Prefix(s, i) < Weight(i)
  {
    if i > 0 {
      PrefixBound(s, i - 1);
      var w := Weight(i - 1);
      MulLess(s[i - 1], BASE - 1, w);
      assert (BASE - 1) * w + w == BASE * w;
    }
  }

  lemma {:induction false} PrefixSame(s: seq<Limb>, t: seq<Limb>, i: nat)
    requires i <= |s| && i <= |t| && forall k :: 0 <= k < i ==> s[k] == t[k]
    ensures Prefix(s, i) == Prefix(t, i)
  {
    if i > 0 { PrefixSame(s, t, i - 1); }
  }

  /** Changing one limb changes the value by its weight. */
  lemma {:induction false} PrefixUpdate(s: seq<Limb>, j: nat, v: Limb, i: nat)
    requires j < i <= |s|
    ensures Prefix(s[j := v], i) == Prefix(s, i) + (v - s[j]) * Weight(j)
  {
    if j == i - 1 {
      PrefixSame(s, s[j := v], j);
      assert v * Weight(j) == s[j] * Weight(j) + (v - s[j]) * Weight(j);
    } else {
      PrefixUpdate(s, j, v, i - 1);
    }
  }

  lemma {:induction false} PrefixZeros(s: seq<Limb>, i: nat, j: nat)
    requires i <= j <= |s| && forall k :: i <= k < j ==> s[k] == 0
    ensures Prefix(s, j) == Prefix(s, i)
  {
    if i < j { PrefixZeros(s, i, j - 1); }
  }

  /** A carry out of limb `i` is worth one unit of the next limb. */
  lemma Carry(n: nat, i: nat)
    ensures (n % BASE) * Weight(i) + (n / BASE) * Weight(i + 1) == n * Weight(i)
  {
    var w, q, r := Weight(i), n / BASE, n % BASE;
    assert n == BASE * q + r;
    assert q * (BASE * w) == (BASE * q) * w;
    assert (BASE * q + r) * w == (BASE * q) * w + r * w;
  }

  // ---------- powers of two ----------

  lemma {:induction false} Pow2Add(a: nat, b: nat)
    ensures Pow2(a + b) == Pow2(a) * Pow2(b)
  {
    if b > 0 {
      Pow2Add(a, b - 1);
      assert Pow2(a + b) == 2 * Pow2(a + (b - 1));
      assert 2 * (Pow2(a) * Pow2(b - 1)) == Pow2(a) * (2 * Pow2(b - 1));
    }
  }

  lemma {:induction false} Pow2Grows(a: nat, b: nat)
    requires a <= b
    ensures Pow2(a) <= Pow2(b)
  {
    if a < b { Pow2Grows(a, b - 1); }
  }

  lemma Pow2Limb()
    ensures Pow2(32) == BASE
  {
    assert Pow2(8) == 256;
    Pow2Add(8, 8);
    var p := Pow2(16);
    assert p == 65536;
    Pow2Add(16, 16);
    assert p * p == BASE;
  }

  lemma {:induction false} WeightPow(i: nat)
    ensures Weight(i) == Pow2(32 * i)
  {
    if i > 0 {
      WeightPow(i - 1);
      Pow2Add(32, 32 * (i - 1));
      Pow2Limb();
    }
  }

  lemma {:induction false} WeightAdd(i: nat, j: nat)
    ensures Weight(i + j) == Weight(i) * Weight(j)
  {
    WeightPow(i + j);
    WeightPow(i);
    WeightPow(j);
    Pow2Add(32 * i, 32 * j);
  }

  // ---------- bits ----------

  /** Bitwise or. */
  function Or(x: nat, y: nat): nat
    decreases x + y
  {
    if x == 0 && y == 0 then 0
    else 2 * Or(x / 2, y / 2) + (if x % 2 == 1 || y % 2 == 1 then 1 else 0)
  }

  /** Or adds numbers that have no bit in common. */
  lemma {:induction false} OrDisjoint(x: nat, y: nat, k: nat)
    requires x % Pow2(k) == 0 && y < Pow2(k)
    ensures Or(x, y) == x + y
    decreases k
  {
    if k == 0 {
      OrZero(x);
    } else if x != 0 || y != 0 {
      Halve(x, k);
      OrDisjoint(x / 2, y / 2, k - 1);
    }
  }

  lemma {:induction false} OrZero(x: nat)
    ensures Or(x, 0) == x
    decreases x
  {
    if x > 0 { OrZero(x / 2); }
  }

  lemma {:induction false} OrCommutes(x: nat, y: nat)
    ensures Or(x, y) == Or(y, x)
    decreases x + y
  {
    if x != 0 || y != 0 { OrCommutes(x / 2, y / 2); }
  }

  lemma Halve(x: nat, k: nat)
    requires k > 0 && x % Pow2(k) == 0
    ensures x % 2 == 0 && (x / 2) % Pow2(k - 1) == 0
  {
    var p := Pow2(k - 1);
    var q := x / (2 * p);
    assert x == (2 * p) * q;
    assert x == 2 * (p * q);
    MulMod(q, p);
  }

  lemma MulMod(q: nat, p: nat)
    requires p > 0
    ensures (p * q) % p == 0 && (p * q) / p == q
  {
    DivUnique(p * q, p, q, 0);
  }

  /** Multiplying by one factor of `b` and cutting at `b` is the same as dividing by the other. */
  lemma Cut(x: nat, p: nat, r: nat, b: nat)
    requires p > 0 && r > 0 && b == p * r && x < b
    ensures (x * p) / b == x / r && (x * p) % b == (x % r) * p
    ensures x * p == (x / r) * b + (x % r) * p
    ensures x / r < p && ((x % r) * p) % p == 0
  {
    var hi, m := x / r, x % r;
    DivMod(x, r);
    Sum2(hi * r, m, p);
    Swap3(hi, r, p);
    assert r * p == b;
    MulStrict(m, r, p);
    DivUnique(x * p, b, hi, m * p);
    MulMod(m, p);
    assert m * p == p * m;
    if hi >= p { MulLess(p, hi, r); }
  }

  /** A limb shifted left by `s` bits, cut into the part that leaves the limb and the part that
      stays. */
  lemma ShiftedLeft(x: Limb, s: nat)
    requires s < 32
    ensures var hi, lo := x / Pow2(32 - s), (x * Pow2(s)) % BASE;
            && x * Pow2(s) == hi * BASE + lo
            && 0 <= hi < Pow2(s) && hi < BASE && lo % Pow2(s) == 0
  {
    Pow2Limb();
    Pow2Add(s, 32 - s);
    Cut(x, Pow2(s), Pow2(32 - s), BASE);
    Pow2Grows(s, 32);
  }

  /** A limb shifted right by `s` bits: the part that stays, and the part that moves into the limb
      below. */
  lemma ShiftedRight(x: Limb, s: nat)
    requires s < 32
    ensures var hi, lo := x / Pow2(s), (x * Pow2(32 - s)) % BASE;
            && 0 <= hi < Pow2(32 - s) && hi < BASE && lo % Pow2(32 - s) == 0
            && x == hi * Pow2(s) + x % Pow2(s)
            && lo * Pow2(s) == (x % Pow2(s)) * BASE
  {
    var p, r := Pow2(s), Pow2(32 - s);
    Pow2Limb();
    Pow2Add(s, 32 - s);
    assert r * p == p * r;
    Cut(x, r, p, BASE);
    DivMod(x, p);
    Swap3(x % p, r, p);
    Pow2Grows(32 - s, 32);
  }

  // ---------- identities ----------

  lemma Spread(x: int, p: int, d: int, u: int, v: int)
    ensures x * (p + d * u) * v == x * p * v + (x * d) * (u * v)
  {
    assert x * (p + d * u) == x * p + x * (d * u);
    assert x * (d * u) == (x * d) * u;
    assert (x * p + (x * d) * u) * v == (x * p) * v + ((x * d) * u) * v;
    assert ((x * d) * u) * v == (x * d) * (u * v);
  }

  lemma Sum2(a: int, b: int, w: int)
    ensures (a + b) * w == a * w + b * w
  {
  }

  lemma Swap3(a: int, b: int, c: int)
    ensures (a * b) * c == (b * c) * a && (a * b) * c == a * (b * c) && (a * b) * c == (a * c) * b
  {
  }
}
