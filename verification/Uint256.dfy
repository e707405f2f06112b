/** The in-place arithmetic of `base_uint`: an unsigned number is an array of 32-bit limbs, of any
    width, and every operator works modulo the weight just above the last limb. */
module Uint256 {
  import opened Arith
  import opened Limbs

  type Number = array<Limb>

  ghost function Val(a: Number): nat
    reads a
  {
    Value(a[..])
  }

  /** One more than the largest number of this width. */
  ghost function Limit(a: Number): (m: nat)
    ensures m > 0
  {
    Weight(a.Length)
  }

  lemma ValBound(a: Number)
    ensures Val(a) < Limit(a)
  {
    PrefixBound(a[..], a.Length);
  }

  /** Writing one limb. */
  method SetLimb(a: Number, i: nat, v: Limb)
    requires i < a.Length
    modifies a
    ensures a[..] == old(a[..])[i := v]
    ensures Val(a) == old(Val(a)) + (v - old(a[i])) * Weight(i)
  {
    PrefixUpdate(a[..], i, v, a.Length);
    a[i] := v;
    assert a[..] == old(a[..])[i := v];
  }

  lemma ModUnique(x: nat, y: nat, q: nat, m: nat)
    requires y < m && y + q * m == x
    ensures x % m == y
  {
    DivUnique(x, m, q, y);
  }

  // ---------- addition, negation, subtraction ----------

  /** `operator+=`; the argument may be the number itself. */
  method AddAssign(pn: Number, b: Number)
    requires pn.Length == b.Length
    modifies pn
    ensures Val(pn) == (old(Val(pn)) + old(Val(b))) % Limit(pn)
  {
    var n := pn.Length;
    ghost var a0, b0 := pn[..], b[..];
    var carry, i := 0, 0;
    while i < n
      invariant 0 <= i <= n && 0 <= carry <= 1
      invariant forall k :: i <= k < n ==> pn[k] == a0[k] && b[k] == b0[k]
      invariant Prefix(pn[..], i) + carry * Weight(i) == Prefix(a0, i) + Prefix(b0, i)
    {
      var sum := carry + pn[i] + b[i];
      assert sum < 0x1_0000_0000_0000_0000;
      Carry(sum, i);
      AddStep(pn[..], a0, b0, i, carry, sum);
      ghost var before := pn[..];
      pn[i] := sum % BASE;
      assert pn[..] == before[i := pn[i]];
      carry := sum / BASE;
      i := i + 1;
    }
    ValBound(pn);
    ModUnique(Value(a0) + Value(b0), Val(pn), carry, Limit(pn));
  }

  lemma AddStep(p: seq<Limb>, a: seq<Limb>, b: seq<Limb>, i: nat, carry: nat, sum: nat)
    requires i < |p| == |a| == |b| && sum == carry + a[i] + b[i]
    requires Prefix(p, i) + carry * Weight(i) == Prefix(a, i) + Prefix(b, i)
    requires (sum % BASE) * Weight(i) + (sum / BASE) * Weight(i + 1) == sum * Weight(i)
    ensures var low: Limb := sum % BASE;
            Prefix(p[i := low], i + 1) + (sum / BASE) * Weight(i + 1) == Prefix(a, i + 1) + Prefix(b, i + 1)
  {
    var w := Weight(i);
    var low: Limb := sum % BASE;
    PrefixSame(p, p[i := low], i);
    assert (carry + a[i] + b[i]) * w == carry * w + a[i] * w + b[i] * w;
  }

  /** `operator~`. */
  method Not(pn: Number) returns (r: Number)
    ensures fresh(r) && r.Length == pn.Length && Val(r) == Limit(pn) - 1 - Val(pn)
  {
    var n := pn.Length;
    r := new Limb[n];
    var i := 0;
    while i < n
      invariant 0 <= i <= n
      invariant Prefix(r[..], i) == Weight(i) - 1 - Prefix(pn[..], i)
    {
      ghost var before := r[..];
      r[i] := BASE - 1 - pn[i];
      assert r[..] == before[i := r[i]];
      PrefixSame(before, r[..], i);
      var w := Weight(i);
      assert (BASE - 1 - pn[i]) * w == BASE * w - w - pn[i] * w;
      i := i + 1;
    }
  }

  /** Prefix `operator++`. */
  method Increment(pn: Number)
    requires pn.Length > 0
    modifies pn
    ensures Val(pn) == (old(Val(pn)) + 1) % Limit(pn)
  {
    var n := pn.Length;
    ghost var a0 := pn[..];
    ValBound(pn);
    var i := 0;
    Bump(pn, 0);
    while pn[i] == 0 && i < n - 1
      invariant 0 <= i < n
      invariant pn[i] == (a0[i] + 1) % BASE
      invariant forall k :: i < k < n ==> pn[k] == a0[k]
      invariant Val(pn) + (if pn[i] == 0 then Weight(i + 1) else 0) == Value(a0) + 1
      decreases n - i
    {
      Bump(pn, i + 1);
      i := i + 1;
    }
    ValBound(pn);
    if pn[i] == 0 {
      ModUnique(Value(a0) + 1, Val(pn), 1, Limit(pn));
    } else {
      ModUnique(Value(a0) + 1, Val(pn), 0, Limit(pn));
    }
  }

  /** `++pn[i]` on an unsigned 32-bit limb. */
  method Bump(pn: Number, i: nat)
    requires i < pn.Length
    modifies pn
    ensures pn[i] == (old(pn[i]) + 1) % BASE
    ensures forall k :: 0 <= k < pn.Length && k != i ==> pn[k] == old(pn[k])
    ensures Val(pn) + (if pn[i] == 0 then Weight(i + 1) else 0) == old(Val(pn)) + Weight(i)
  {
    ghost var v, w := pn[i], Weight(i);
    SetLimb(pn, i, (pn[i] + 1) % BASE);
    if v == BASE - 1 { assert (0 - v) * w + BASE * w == w; }
  }

  /** Unary `operator-`. */
  method Negate(b: Number) returns (r: Number)
    requires b.Length > 0
    ensures fresh(r) && r.Length == b.Length && Val(r) == (Limit(b) - Val(b)) % Limit(b)
  {
    r := Not(b);
    Increment(r);
  }

  /** `operator-=`. */
  method SubAssign(pn: Number, b: Number)
    requires pn.Length == b.Length > 0
    modifies pn
    ensures Val(pn) == (old(Val(pn)) - old(Val(b))) % Limit(pn)
  {
    ValBound(pn);
    ValBound(b);
    var minus := Negate(b);
    ghost var x, y, m := Val(pn), Val(b), Limit(pn);
    AddAssign(pn, minus);
    SubMod(x, y, m);
  }

  lemma SubMod(x: nat, y: nat, m: nat)
    requires x < m && y < m
    ensures (x + (m - y) % m) % m == (x - y) % m
  {
    if y == 0 {
      DivUnique(m, m, 1, 0);
      DivUnique(x, m, 0, x);
    } else {
      DivUnique(m - y, m, 0, m - y);
      if x >= y {
        DivUnique(x + (m - y), m, 1, x - y);
        DivUnique(x - y, m, 0, x - y);
      } else {
        DivUnique(x + (m - y), m, 0, x + (m - y));
        NegMod(x - y, m);
      }
    }
  }

  lemma NegMod(a: int, m: int)
    requires 0 < m && -m < a < 0
    ensures a % m == a + m
  {
    var q := a / m;
    assert a == m * q + a % m;
    assert q == -1;
  }

  // ---------- multiplication ----------

  /** One limb of the product. */
  method Mul32At(pn: Number, ghost a0: seq<Limb>, b32: Limb, i: nat, carry: Limb) returns (next: Limb)
    requires i < pn.Length == |a0| && pn[i] == a0[i]
    requires Prefix(pn[..], i) + carry * Weight(i) == Prefix(a0, i) * b32
    modifies pn
    ensures forall k :: i < k < pn.Length ==> pn[k] == old(pn[k])
    ensures Prefix(pn[..], i + 1) + next * Weight(i + 1) == Prefix(a0, i + 1) * b32
  {
    var prod := carry + b32 * pn[i];
    ProductFits(b32, pn[i], carry, 0);
    Carry(prod, i);
    Mul32Step(pn[..], a0, b32, i, carry, prod);
    ghost var before := pn[..];
    pn[i] := prod % BASE;
    assert pn[..] == before[i := pn[i]];
    next := prod / BASE;
  }

  /** `operator*=(uint32_t)`. */
  method MulAssign32(pn: Number, b32: Limb)
    modifies pn
    ensures Val(pn) == (old(Val(pn)) * b32) % Limit(pn)
  {
    var n := pn.Length;
    ghost var a0 := pn[..];
    var carry: Limb, i := 0, 0;
    while i < n
      invariant 0 <= i <= n
      invariant forall k :: i <= k < n ==> pn[k] == a0[k]
      invariant Prefix(pn[..], i) + carry * Weight(i) == Prefix(a0, i) * b32
    {
      carry := Mul32At(pn, a0, b32, i, carry);
      i := i + 1;
    }
    ValBound(pn);
    ModUnique(Value(a0) * b32, Val(pn), carry, Limit(pn));
  }

  /** A product of limbs plus two limbs still fits into 64 bits, and the carry into 32. */
  lemma ProductFits(x: Limb, y: Limb, c: Limb, d: Limb)
    ensures 0 <= c + d + x * y < 0x1_0000_0000_0000_0000
    ensures 0 <= (c + d + x * y) / BASE < BASE
  {
    MulLess(0, x, y);
    MulLess(x, BASE - 1, y);
    DivBelow(c + d + x * y);
  }

  lemma DivBelow(p: nat)
    requires p < 0x1_0000_0000_0000_0000
    ensures 0 <= p / BASE < BASE
  {
  }

  lemma Mul32Step(p: seq<Limb>, a: seq<Limb>, b: Limb, i: nat, carry: nat, prod: nat)
    requires i < |p| == |a| && prod == carry + b * a[i]
    requires Prefix(p, i) + carry * Weight(i) == Prefix(a, i) * b
    requires (prod % BASE) * Weight(i) + (prod / BASE) * Weight(i + 1) == prod * Weight(i)
    ensures var low: Limb := prod % BASE;
            Prefix(p[i := low], i + 1) + (prod / BASE) * Weight(i + 1) == Prefix(a, i + 1) * b
  {
    var w := Weight(i);
    var low: Limb := prod % BASE;
    PrefixSame(p, p[i := low], i);
    Sum2(carry, b * a[i], w);
    Swap3(b, a[i], w);
    Sum2(Prefix(a, i), a[i] * w, b);
  }

  /** `operator*=(const base_uint&)`.  The operand is read while the product is built up in place,
      so a number multiplied by itself this way becomes zero. */
  method MulAssign(pn: Number, b: Number)
    requires pn.Length == b.Length
    modifies pn
    ensures pn != b ==> Val(pn) == (old(Val(pn)) * old(Val(b))) % Limit(pn)
    ensures pn == b ==> Val(pn) == 0
  {
    var n := pn.Length;
    var a := Copy(pn);
    Clear(pn);
    ghost var vb, q := Val(b), 0;
    var j := 0;
    assert Prefix(a[..], 0) * vb == 0;
    while j < n
      invariant 0 <= j <= n
      invariant fresh(a) && a != pn && a != b && a[..] == old(pn[..])
      invariant pn != b ==> b[..] == old(b[..])
      invariant pn == b ==> forall k :: 0 <= k < n ==> pn[k] == 0
      invariant Val(b) == vb && q >= 0
      invariant Val(pn) + q * Limit(pn) == Prefix(a[..], j) * vb
    {
      ghost var v := Val(pn);
      ghost var more := AddRow(pn, a[j], b, j);
      MulRows(a[..], vb, j);
      RowSum(v, Val(pn), q, more, Limit(pn), Prefix(a[..], j) * vb, a[j] * vb * Weight(j));
      q := q + more;
      j := j + 1;
    }
    ValBound(pn);
    ModUnique(Value(a[..]) * vb, Val(pn), q, Limit(pn));
    if pn == b { PrefixZeros(pn[..], 0, n); }
  }

  lemma RowSum(v: int, v': int, q: int, more: int, m: int, p: int, row: int)
    requires v + q * m == p && v' + more * m == v + row
    ensures v' + (q + more) * m == p + row
  {
    Sum2(q, more, m);
  }

  lemma MulRows(a: seq<Limb>, b: nat, j: nat)
    requires j < |a|
    ensures Prefix(a, j + 1) * b == Prefix(a, j) * b + a[j] * b * Weight(j)
  {
    var p, x, w := Prefix(a, j), a[j], Weight(j);
    Sum2(p, x * w, b);
    Swap3(x, w, b);
  }

  method Copy(b: Number) returns (r: Number)
    ensures fresh(r) && r.Length == b.Length && r[..] == b[..]
  {
    r := new Limb[b.Length];
    var i := 0;
    while i < b.Length
      invariant 0 <= i <= b.Length && r[..i] == b[..i]
    {
      r[i] := b[i];
      i := i + 1;
    }
  }

  method Clear(pn: Number)
    modifies pn
    ensures Val(pn) == 0 && forall k :: 0 <= k < pn.Length ==> pn[k] == 0
  {
    var i := 0;
    while i < pn.Length
      invariant 0 <= i <= pn.Length && forall k :: 0 <= k < i ==> pn[k] == 0
    {
      pn[i] := 0;
      i := i + 1;
    }
    PrefixZeros(pn[..], 0, pn.Length);
  }

  /** The inner loop: add `x` times `b`, moved up by `j` limbs; what falls off the top is `more`
      multiples of the limit. */
  method AddRow(pn: Number, x: Limb, b: Number, j: nat) returns (ghost more: nat)
    requires pn.Length == b.Length && j < pn.Length
    requires pn == b ==> forall k :: 0 <= k < b.Length ==> b[k] == 0
    modifies pn
    ensures Val(pn) + more * Limit(pn) == old(Val(pn)) + x * old(Val(b)) * Weight(j)
    ensures pn == b ==> forall k :: 0 <= k < b.Length ==> b[k] == 0
  {
    var n := pn.Length;
    ghost var v0, b0 := Val(pn), b[..];
    var carry, i := 0, 0;
    while i + j < n
      invariant 0 <= i <= n - j && 0 <= carry < BASE
      invariant b[..] == b0 && (pn == b ==> carry == 0)
      invariant Val(pn) + carry * Weight(i + j) == v0 + x * Prefix(b0, i) * Weight(j)
    {
      var sum := carry + pn[i + j] + x * b[i];
      ProductFits(x, b[i], carry, pn[i + j]);
      RowStep(x, b0, i, j, carry, pn[i + j], sum);
      if pn == b { assert b0[i] == 0 && b0[i + j] == 0 && sum == 0; }
      SetLimb(pn, i + j, sum % BASE);
      carry := sum / BASE;
      i := i + 1;
    }
    more := RowRest(x, b0, i, j, carry);
  }

  lemma RowStep(x: Limb, b: seq<Limb>, i: nat, j: nat, carry: nat, p: Limb, sum: nat)
    requires i < |b| && sum == carry + p + x * b[i]
    ensures (sum % BASE - p) * Weight(i + j) + (sum / BASE) * Weight(i + j + 1) - carry * Weight(i + j)
            == x * Prefix(b, i + 1) * Weight(j) - x * Prefix(b, i) * Weight(j)
  {
    var w := Weight(i + j);
    Carry(sum, i + j);
    WeightAdd(i, j);
    Sum2(carry + p, x * b[i], w);
    Sum2(carry, p, w);
    Sum2(sum % BASE - p, p, w);
    Spread(x, Prefix(b, i), b[i], Weight(i), Weight(j));
  }

  /** What is left of a row lies above the top. */
  lemma RowRest(x: Limb, b: seq<Limb>, i: nat, j: nat, carry: nat) returns (more: nat)
    requires i + j == |b|
    ensures x * Prefix(b, i) * Weight(j) - carry * Weight(i + j) + more * Weight(|b|) == x * Value(b) * Weight(j)
  {
    var hi := HighPartTo(b, i, |b|);
    WeightAdd(i, j);
    more := carry + x * hi;
    Spread(x, Prefix(b, i), hi, Weight(i), Weight(j));
    Sum2(carry, x * hi, Weight(i + j));
  }

  lemma HighStep(h: nat, x: nat, d: nat, w: nat)
    ensures (h + x * d) * w == h * w + x * (w * d) && (h + x * d) * w == h * w + x * (d * w)
  {
    Sum2(h, x * d, w);
    Swap3(x, d, w);
  }

  /** The limbs from `i` on are a multiple of the weight of limb `i`. */
  lemma {:induction false} HighPartTo(b: seq<Limb>, i: nat, k: nat) returns (hi: nat)
    requires i <= k <= |b|
    ensures Prefix(b, k) == Prefix(b, i) + hi * Weight(i)
  {
    if i == k {
      hi := 0;
    } else {
      var h := HighPartTo(b, i, k - 1);
      var d := k - 1 - i;
      WeightAdd(i, d);
      hi := h + b[k - 1] * Weight(d);
      HighStep(h, b[k - 1], Weight(d), Weight(i));
    }
  }
}
