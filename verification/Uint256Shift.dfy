/** Comparison, bit length, shifts and division of `base_uint`. */
module Uint256Shift {
  import opened Common
  import opened Arith
  import opened Limbs
  import opened Uint256

  // ---------- comparison ----------

  lemma {:induction false} SameTail(a: seq<Limb>, b: seq<Limb>, i: nat, k: nat)
    requires i <= k <= |a| == |b| && forall j :: i <= j < k ==> a[j] == b[j]
    ensures Prefix(a, k) - Prefix(a, i) == Prefix(b, k) - Prefix(b, i)
  {
    if i < k { SameTail(a, b, i, k - 1); }
  }

  /** The highest limb that differs decides. */
  lemma LimbDecides(a: seq<Limb>, b: seq<Limb>, i: nat)
    requires i < |a| == |b| && a[i] < b[i] && forall j :: i < j < |a| ==> a[j] == b[j]
    ensures Value(a) < Value(b)
  {
    PrefixBound(a, i);
    MulLess(a[i] + 1, b[i], Weight(i));
    Sum2(a[i], 1, Weight(i));
    SameTail(a, b, i + 1, |a|);
  }

  method CompareTo(a: Number, b: Number) returns (c: int)
    requires a.Length == b.Length
    ensures c == if Val(a) < Val(b) then -1 else if Val(a) > Val(b) then 1 else 0
  {
    var i := a.Length - 1;
    while i >= 0
      invariant -1 <= i < a.Length
      invariant forall j :: i < j < a.Length ==> a[j] == b[j]
    {
      if a[i] < b[i] { LimbDecides(a[..], b[..], i); return -1; }
      if a[i] > b[i] { LimbDecides(b[..], a[..], i); return 1; }
      i := i - 1;
    }
    assert a[..] == b[..];
    c := 0;
  }

  // ---------- bit length ----------

  /** Whether bit `k` of a limb is set. */
  predicate BitSet(x: nat, k: nat) {
    (x / Pow2(k)) % 2 == 1
  }

  /** `v` has exactly `r` bits. */
  ghost predicate HasBits(v: nat, r: nat) {
    v < Pow2(r) && (r > 0 ==> Pow2(r - 1) <= v)
  }

  /** Below `Pow2(k + 1)`, bit `k` says on which side of `Pow2(k)` a number lies. */
  lemma TopBit(x: nat, k: nat)
    requires x < Pow2(k + 1)
    ensures BitSet(x, k) <==> x >= Pow2(k)
  {
    var p := Pow2(k);
    if x >= p { DivUnique(x, p, 1, x - p); } else { DivUnique(x, p, 0, x); }
  }

  /** The bit length of a non-zero limb: the inner loop of `bits`. */
  method LimbBits(x: Limb) returns (r: nat)
    requires x != 0
    ensures 1 <= r <= 32 && HasBits(x, r)
  {
    Pow2Limb();
    var bits := 31;
    while bits > 0
      invariant 0 <= bits <= 31 && x < Pow2(bits + 1)
    {
      TopBit(x, bits);
      if BitSet(x, bits) { return bits + 1; }
      bits := bits - 1;
    }
    return 1;
  }

  lemma LimbsBits(s: seq<Limb>, pos: nat, r: nat)
    requires pos < |s| && s[pos] != 0 && 1 <= r && HasBits(s[pos], r) && forall j :: pos < j < |s| ==> s[j] == 0
    ensures HasBits(Value(s), 32 * pos + r)
  {
    PrefixZeros(s, pos + 1, |s|);
    PrefixBound(s, pos);
    WeightPow(pos);
    Pow2Add(r, 32 * pos);
    Pow2Add(r - 1, 32 * pos);
    Scaled(Prefix(s, pos), s[pos], Weight(pos), Pow2(r - 1), Pow2(r));
  }

  lemma Scaled(rest: nat, x: nat, w: nat, low: nat, high: nat)
    requires rest < w && low <= x < high
    ensures low * w <= rest + x * w < high * w
  {
    MulLess(low, x, w);
    MulLess(x + 1, high, w);
    Sum2(x, 1, w);
  }

  method Bits(a: Number) returns (r: nat)
    ensures HasBits(Val(a), r) && r <= 32 * a.Length
  {
    var pos := a.Length - 1;
    while pos >= 0
      invariant -1 <= pos < a.Length && forall j :: pos < j < a.Length ==> a[j] == 0
    {
      if a[pos] != 0 {
        var b := LimbBits(a[pos]);
        LimbsBits(a[..], pos, b);
        return 32 * pos + b;
      }
      pos := pos - 1;
    }
    PrefixZeros(a[..], 0, a.Length);
    r := 0;
  }

  // ---------- shifts ----------

  /** `pn[i] |= v` on a limb that is still zero. */
  method OrEmpty(pn: Number, i: nat, v: Limb)
    requires i < pn.Length && pn[i] == 0
    modifies pn
    ensures pn[..] == old(pn[..])[i := v] && Val(pn) == old(Val(pn)) + v * Weight(i)
  {
    OrCommutes(0, v);
    OrZero(v);
    SetLimb(pn, i, Or(pn[i], v));
  }

  /** `pn[i] |= v` on a limb that has only its lowest `k` bits in use, none of them in `v`. */
  method OrOnto(pn: Number, i: nat, v: Limb, ghost k: nat)
    requires i < pn.Length && v % Pow2(k) == 0 && pn[i] < Pow2(k) && pn[i] + v < BASE
    modifies pn
    ensures pn[..] == old(pn[..])[i := pn[i]] && pn[i] == old(pn[i]) + v
    ensures Val(pn) == old(Val(pn)) + v * Weight(i)
  {
    OrDisjoint(v, pn[i], k);
    OrCommutes(pn[i], v);
    SetLimb(pn, i, Or(pn[i], v));
  }

  /** A multiple of `p` below `b`, and a number below `p`, add up to less than `b`. */
  lemma FitsTogether(lo: nat, hi: nat, p: nat, b: nat, q: nat)
    requires p > 0 && lo % p == 0 && lo < b && hi < p && b == p * q
    ensures lo + hi < b
  {
    var m := lo / p;
    DivMod(lo, p);
    if m >= q { MulLess(q, m, p); }
    MulLess(m + 1, q, p);
    Sum2(m, 1, p);
  }

  /** The two parts of a limb shifted left, next to what the limb before left behind. */
  lemma LeftReady(x: Limb, s: nat, prev: Limb)
    requires s < 32 && prev < Pow2(s)
    ensures var hi, lo := x / Pow2(32 - s), (x * Pow2(s)) % BASE;
            && x * Pow2(s) == hi * BASE + lo
            && 0 <= hi < Pow2(s) && hi < BASE && lo % Pow2(s) == 0 && lo + prev < BASE
            && (s == 0 ==> hi == 0)
  {
    ShiftedLeft(x, s);
    Pow2Limb();
    Pow2Add(s, 32 - s);
    FitsTogether((x * Pow2(s)) % BASE, prev, Pow2(s), BASE, Pow2(32 - s));
  }

  /** One limb of `operator<<=`: its bits go to limbs `to` and `to + 1` of the result, as far as
      there are such limbs; `more` counts what falls off the top. */
  method ShlLimb(pn: Number, x: Limb, to: nat, s: nat) returns (ghost more: nat)
    requires s < 32
    requires to < pn.Length ==> pn[to] < Pow2(s)
    requires forall j :: to < j < pn.Length ==> pn[j] == 0
    modifies pn
    ensures to + 1 < pn.Length ==> pn[to + 1] < Pow2(s)
    ensures forall j :: to + 1 < j < pn.Length ==> pn[j] == 0
    ensures Val(pn) + more * Limit(pn) == old(Val(pn)) + x * Pow2(s) * Weight(to)
  {
    var n := pn.Length;
    LeftReady(x, s, if to < n then pn[to] else 0);
    var hi, lo := x / Pow2(32 - s), (x * Pow2(s)) % BASE;
    more := Fallen(x * Pow2(s), hi, lo, to, n);
    PutShifted(pn, hi, lo, to, s);
  }

  method PutShifted(pn: Number, hi: Limb, lo: Limb, to: nat, s: nat)
    requires s < 32 && hi < Pow2(s) && lo % Pow2(s) == 0 && (s == 0 ==> hi == 0)
    requires to < pn.Length ==> pn[to] < Pow2(s) && lo + pn[to] < BASE
    requires forall j :: to < j < pn.Length ==> pn[j] == 0
    modifies pn
    ensures to + 1 < pn.Length ==> pn[to + 1] == hi
    ensures forall j :: to + 1 < j < pn.Length ==> pn[j] == 0
    ensures Val(pn) == old(Val(pn)) + (if to < pn.Length then lo * Weight(to) else 0)
                       + (if to + 1 < pn.Length then hi * Weight(to + 1) else 0)
  {
    if to + 1 < pn.Length && s != 0 {
      OrEmpty(pn, to + 1, hi);
    }
    if to < pn.Length {
      OrOnto(pn, to, lo, s);
    }
  }

  lemma Fallen(v: nat, hi: nat, lo: nat, to: nat, n: nat) returns (more: nat)
    requires v == hi * BASE + lo
    ensures more * Weight(n) + (if to < n then lo * Weight(to) else 0) + (if to + 1 < n then hi * Weight(to + 1) else 0)
            == v * Weight(to)
  {
    ShlParts(v, hi, lo, to);
    if to >= n {
      WeightAdd(to - n, n);
      more := v * Weight(to - n);
      Swap3(v, Weight(to - n), Weight(n));
    } else {
      more := if to + 1 == n then hi else 0;
    }
  }

  lemma ShlParts(v: nat, hi: nat, lo: nat, to: nat)
    requires v == hi * BASE + lo
    ensures v * Weight(to) == hi * Weight(to + 1) + lo * Weight(to)
  {
    Sum2(hi * BASE, lo, Weight(to));
    Swap3(hi, BASE, Weight(to));
  }

  /** `operator<<=`. */
  method ShlAssign(pn: Number, shift: nat)
    modifies pn
    ensures Val(pn) == (old(Val(pn)) * Pow2(shift)) % Limit(pn)
  {
    var n := pn.Length;
    var a := Copy(pn);
    Clear(pn);
    var k, s := shift / 32, shift % 32;
    ghost var q := 0;
    var i := 0;
    Swap3(0, Pow2(s), Weight(k));
    while i < n
      invariant 0 <= i <= n && a != pn && fresh(a) && a[..] == old(pn[..]) && q >= 0
      invariant i + k < n ==> pn[i + k] < Pow2(s)
      invariant forall j :: i + k < j < n ==> pn[j] == 0
      invariant Val(pn) + q * Limit(pn) == Prefix(a[..], i) * Pow2(s) * Weight(k)
    {
      ghost var v := Val(pn);
      ghost var more := ShlLimb(pn, a[i], i + k, s);
      ShlRows(a[..], i, k, Pow2(s));
      RowSum(v, Val(pn), q, more, Limit(pn), Prefix(a[..], i) * Pow2(s) * Weight(k), a[i] * Pow2(s) * Weight(i + k));
      q := q + more;
      i := i + 1;
    }
    ValBound(pn);
    WeightPow(k);
    Pow2Add(s, 32 * k);
    Swap3(Value(a[..]), Pow2(s), Weight(k));
    ModUnique(Value(a[..]) * Pow2(shift), Val(pn), q, Limit(pn));
  }

  lemma ShlRows(a: seq<Limb>, i: nat, k: nat, p: nat)
    requires i < |a|
    ensures Prefix(a, i + 1) * p * Weight(k) == Prefix(a, i) * p * Weight(k) + a[i] * p * Weight(i + k)
  {
    var u, v, x, pre := Weight(i), Weight(k), a[i], Prefix(a, i);
    WeightAdd(i, k);
    Sum2(pre, x * u, p);
    Sum2(pre * p, x * u * p, v);
    Swap3(x, u, p);
    Swap3(x * p, u, v);
  }

  lemma RightReady(x: Limb, s: nat, prev: Limb)
    requires s < 32 && prev < Pow2(32 - s)
    ensures var hi, lo := x / Pow2(s), (x * Pow2(32 - s)) % BASE;
            && 0 <= hi < Pow2(32 - s) && hi < BASE && lo % Pow2(32 - s) == 0 && lo + prev < BASE
            && x == hi * Pow2(s) + x % Pow2(s)
            && lo * Pow2(s) == (x % Pow2(s)) * BASE
            && (s == 0 ==> lo == 0)
  {
    ShiftedRight(x, s);
    Pow2Limb();
    Pow2Add(32 - s, s);
    FitsTogether((x * Pow2(32 - s)) % BASE, prev, Pow2(32 - s), BASE, Pow2(s));
  }

  /** One limb of `operator>>=`: its bits go to limbs `i - k` and `i - k - 1` of the result. */
  method ShrLimb(pn: Number, x: Limb, i: nat, k: nat, s: nat, ghost rest: nat) returns (ghost rest': nat)
    requires s < 32 && i < pn.Length
    requires i > k ==> pn[i - k - 1] < Pow2(32 - s)
    requires forall j :: 0 <= j < pn.Length && i - k <= j ==> pn[j] == 0
    requires rest < (if i <= k then Weight(i) else Pow2(s) * Weight(k))
    modifies pn
    ensures i >= k ==> pn[i - k] < Pow2(32 - s)
    ensures forall j :: 0 <= j < pn.Length && i + 1 - k <= j ==> pn[j] == 0
    ensures rest' < (if i < k then Weight(i + 1) else Pow2(s) * Weight(k))
    ensures Val(pn) * (Pow2(s) * Weight(k)) + rest' ==
            old(Val(pn)) * (Pow2(s) * Weight(k)) + rest + x * Weight(i)
  {
    RightReady(x, s, if i > k then pn[i - k - 1] else 0);
    var hi, lo := x / Pow2(s), (x * Pow2(32 - s)) % BASE;
    rest' := ShrRest(x, x % Pow2(s), i, k, Pow2(s), hi, lo, rest, Val(pn));
    PutRight(pn, hi, lo, i, k, s);
  }

  method PutRight(pn: Number, hi: Limb, lo: Limb, i: nat, k: nat, s: nat)
    requires s < 32 && i < pn.Length && hi < Pow2(32 - s) && lo % Pow2(32 - s) == 0 && (s == 0 ==> lo == 0)
    requires i > k ==> pn[i - k - 1] < Pow2(32 - s) && lo + pn[i - k - 1] < BASE
    requires forall j :: 0 <= j < pn.Length && i - k <= j ==> pn[j] == 0
    modifies pn
    ensures i >= k ==> pn[i - k] == hi
    ensures forall j :: 0 <= j < pn.Length && i + 1 - k <= j ==> pn[j] == 0
    ensures Val(pn) ==
            old(Val(pn)) + (if i > k then lo * Weight(i - k - 1) else 0) + (if i >= k then hi * Weight(i - k) else 0)
  {
    if i - k - 1 >= 0 && s != 0 {
      OrOnto(pn, i - k - 1, lo, 32 - s);
    }
    if i - k >= 0 {
      OrEmpty(pn, i - k, hi);
    }
  }

  lemma ShrRest(x: Limb, m: nat, i: nat, k: nat, p: nat, hi: nat, lo: nat, rest: nat, v0: nat) returns (rest': nat)
    requires x == hi * p + m && m < p && lo * p == m * BASE
    requires rest < (if i <= k then Weight(i) else p * Weight(k))
    ensures rest' < (if i < k then Weight(i + 1) else p * Weight(k))
    ensures var v2 := v0 + (if i > k then lo * Weight(i - k - 1) else 0) + (if i >= k then hi * Weight(i - k) else 0);
            v2 * (p * Weight(k)) + rest' == v0 * (p * Weight(k)) + rest + x * Weight(i)
  {
    if i < k {
      rest' := rest + x * Weight(i);
      MulLess(x, BASE - 1, Weight(i));
      Sum2(BASE - 1, 1, Weight(i));
    } else if i == k {
      rest' := ShrFirst(x, m, k, p, hi, rest, v0);
    } else {
      rest' := rest;
      ShrNext(x, m, i, k, p, hi, lo, v0);
    }
  }

  lemma ShrFirst(x: nat, m: nat, k: nat, p: nat, hi: nat, rest: nat, v0: nat) returns (rest': nat)
    requires x == hi * p + m && m < p && rest < Weight(k)
    ensures rest' < p * Weight(k)
    ensures (v0 + hi) * (p * Weight(k)) + rest' == v0 * (p * Weight(k)) + rest + x * Weight(k)
  {
    var w := Weight(k);
    rest' := rest + m * w;
    MulLess(m + 1, p, w);
    Sum2(m, 1, w);
    Sum2(v0, hi, p * w);
    Sum2(hi * p, m, w);
    Swap3(hi, p, w);
  }

  lemma ShrNext(x: nat, m: nat, i: nat, k: nat, p: nat, hi: nat, lo: nat, v0: nat)
    requires i > k && x == hi * p + m && lo * p == m * BASE
    ensures (v0 + lo * Weight(i - k - 1) + hi * Weight(i - k)) * (p * Weight(k)) == v0 * (p * Weight(k)) + x * Weight(i)
  {
    var d, a, b := p * Weight(k), Weight(i - k - 1), Weight(i - k);
    Sum2(v0 + lo * a, hi * b, d);
    Sum2(v0, lo * a, d);
    WeightAdd(i - k, k);
    WeightAdd(i - k - 1, k);
    Regroup(hi, b, p, Weight(k));
    Regroup(lo, a, p, Weight(k));
    Swap3(m, BASE, Weight(i - 1));
    Sum2(hi * p, m, Weight(i));
  }

  lemma Regroup(a: int, b: int, c: int, d: int)
    ensures (a * b) * (c * d) == (a * c) * (b * d)
  {
    Swap3(a * b, c, d);
    Swap3(a, b, c);
    Swap3(a * c, b, d);
  }

  /** `operator>>=`. */
  method ShrAssign(pn: Number, shift: nat)
    modifies pn
    ensures Val(pn) == old(Val(pn)) / Pow2(shift)
  {
    var n := pn.Length;
    var a := Copy(pn);
    Clear(pn);
    var k, s := shift / 32, shift % 32;
    ghost var rest, d := 0, Pow2(s) * Weight(k);
    var i := 0;
    while i < n
      invariant 0 <= i <= n && a != pn && fresh(a) && a[..] == old(pn[..]) && rest >= 0
      invariant i > k ==> pn[i - k - 1] < Pow2(32 - s)
      invariant forall j :: 0 <= j < n && i - k <= j ==> pn[j] == 0
      invariant rest < (if i <= k then Weight(i) else d)
      invariant Val(pn) * d + rest == Prefix(a[..], i)
    {
      rest := ShrLimb(pn, a[i], i, k, s, rest);
      i := i + 1;
    }
    WeightPow(k);
    Pow2Add(s, 32 * k);
    if n <= k { WeightBelow(n, k, Pow2(s)); }
    DivUnique(Value(a[..]), d, Val(pn), rest);
  }

  lemma WeightBelow(n: nat, k: nat, p: nat)
    requires n <= k && p > 0
    ensures Weight(n) <= p * Weight(k)
  {
    WeightPow(n);
    WeightPow(k);
    Pow2Grows(32 * n, 32 * k);
    MulLess(1, p, Weight(k));
  }

  // ---------- division ----------

  /** What the division loop keeps: the part of the quotient already found, and a remainder that is
      too small to contain the divisor one place further up. */
  ghost predicate Dividing(num: nat, d: nat, q: nat, rem: nat, sh: nat) {
    num == q * d + rem && rem < d * Pow2(sh)
  }

  lemma DivideStep(num: nat, d: nat, q: nat, rem: nat, sh: nat)
    requires Dividing(num, d, q, rem, sh + 1)
    ensures rem >= d * Pow2(sh) ==> Dividing(num, d, q + Pow2(sh), rem - d * Pow2(sh), sh)
    ensures rem < d * Pow2(sh) ==> Dividing(num, d, q, rem, sh)
  {
    var p := Pow2(sh);
    Swap3(d, 2, p);
    Sum2(q, p, d);
    assert p * d == d * p;
  }

  /** Only bits from `sh` on are in use. */
  ghost predicate LowZero(s: seq<Limb>, sh: nat) {
    && (forall j :: 0 <= j < |s| && 32 * (j + 1) <= sh ==> s[j] == 0)
    && (sh / 32 < |s| ==> s[sh / 32] % Pow2(sh % 32) == 0)
  }

  /** `pn[shift / 32] |= 1 << (shift & 31)`. */
  method SetBit(pn: Number, shift: nat)
    requires shift / 32 < pn.Length && LowZero(pn[..], shift + 1)
    modifies pn
    ensures LowZero(pn[..], shift) && Val(pn) == old(Val(pn)) + Pow2(shift)
  {
    BitFree(pn[..], shift);
    BitWeight(shift);
    ghost var s := pn[..];
    SetBitAt(pn, shift / 32, shift % 32);
    LowZeroSet(s, shift, pn[shift / 32]);
  }

  method SetBitAt(pn: Number, c: nat, m: nat)
    requires c < pn.Length && m < 32 && pn[c] % Pow2(m + 1) == 0
    modifies pn
    ensures pn[..] == old(pn[..])[c := pn[c]] && pn[c] % Pow2(m) == 0
    ensures Val(pn) == old(Val(pn)) + Pow2(m) * Weight(c)
  {
    OneMoreBit(pn[c], m);
    OrDisjoint(pn[c], Pow2(m), m + 1);
    SetLimb(pn, c, Or(pn[c], Pow2(m)));
  }

  lemma BitWeight(shift: nat)
    ensures Pow2(shift % 32) * Weight(shift / 32) == Pow2(shift)
  {
    WeightPow(shift / 32);
    Pow2Add(shift % 32, 32 * (shift / 32));
  }

  lemma LowZeroSet(s: seq<Limb>, shift: nat, v: Limb)
    requires shift / 32 < |s| && LowZero(s, shift + 1) && v % Pow2(shift % 32) == 0
    ensures LowZero(s[shift / 32 := v], shift)
  {
  }

  lemma BitFree(s: seq<Limb>, shift: nat)
    requires shift / 32 < |s| && LowZero(s, shift + 1)
    ensures s[shift / 32] % Pow2(shift % 32 + 1) == 0
  {
    var c, m := shift / 32, shift % 32;
    if m == 31 {
      assert s[c] == 0;
      MulMod(0, Pow2(32));
    } else {
      assert (shift + 1) / 32 == c && (shift + 1) % 32 == m + 1;
    }
  }

  lemma OneMoreBit(x: Limb, m: nat)
    requires m < 32 && x % Pow2(m + 1) == 0
    ensures x + Pow2(m) < BASE && (x + Pow2(m)) % Pow2(m) == 0 && x % Pow2(m) == 0
    ensures Pow2(m) < BASE
  {
    Pow2Limb();
    Pow2Add(m + 1, 31 - m);
    FitsTogether(x, Pow2(m), Pow2(m + 1), BASE, Pow2(31 - m));
    var p, q := Pow2(m), x / Pow2(m + 1);
    DivMod(x, Pow2(m + 1));
    Swap3(q, 2, p);
    Sum2(q * 2, 1, p);
    DivUnique(x, p, q * 2, 0);
    DivUnique(x + p, p, q * 2 + 1, 0);
    Pow2Grows(m, 31);
  }

  lemma LowZeroDown(s: seq<Limb>, shift: nat)
    requires shift / 32 < |s| && LowZero(s, shift + 1)
    ensures LowZero(s, shift)
  {
    BitFree(s, shift);
    OneMoreBit(s[shift / 32], shift % 32);
  }

  /** The divisor moved up to the length of the dividend still fits. */
  lemma Aligned(num: nat, d: nat, nb: nat, db: nat, n: nat)
    requires HasBits(num, nb) && HasBits(d, db) && 0 < db <= nb <= 32 * n
    ensures d * Pow2(nb - db) < Weight(n)
    ensures num < d * Pow2(nb - db + 1)
  {
    var p := Pow2(nb - db);
    WeightPow(n);
    Pow2Grows(nb, 32 * n);
    Pow2Add(db, nb - db);
    MulStrict(d, Pow2(db), p);
    Pow2Add(db - 1, nb - db + 1);
    MulLess(Pow2(db - 1), d, Pow2(nb - db + 1));
  }

  /** `operator/=`: shift and subtract.  A zero divisor is reported (the program throws). */
  method DivAssign(pn: Number, b: Number) returns (ok: bool)
    requires pn.Length == b.Length > 0
    modifies pn
    ensures ok <==> old(Val(b)) != 0
    ensures ok ==> Val(pn) == old(Val(pn)) / old(Val(b))
    ensures !ok ==> Val(pn) == 0
  {
    var n := pn.Length;
    var div := Copy(b);
    var num := Copy(pn);
    ghost var d, v := Val(div), Val(num);
    Clear(pn);
    var numBits := Bits(num);
    var divBits := Bits(div);
    if divBits == 0 { return false; }
    if divBits > numBits {
      Pow2Grows(numBits, divBits - 1);
      DivUnique(v, d, 0, v);
      return true;
    }
    var shift := numBits - divBits;
    Aligned(v, d, numBits, divBits, n);
    DivUnique(d * Pow2(shift), Limit(pn), 0, d * Pow2(shift));
    ShlAssign(div, shift);
    DivideLoop(pn, num, div, shift, v, d);
    ok := true;
  }

  method DivideLoop(pn: Number, num: Number, div: Number, start: nat, ghost v: nat, ghost d: nat)
    requires pn.Length == num.Length == div.Length > 0 && pn != num && pn != div && num != div
    requires start < 32 * pn.Length && d > 0 && Val(div) == d * Pow2(start)
    requires Val(num) == v < d * Pow2(start + 1) && forall k :: 0 <= k < pn.Length ==> pn[k] == 0
    modifies pn, num, div
    ensures Val(pn) == v / d
  {
    PrefixZeros(pn[..], 0, pn.Length);
    ZeroLow(pn[..], start + 1);
    var shift := start;
    while shift >= 0
      invariant -1 <= shift < 32 * pn.Length
      invariant shift >= 0 ==> Val(div) == d * Pow2(shift)
      invariant Dividing(v, d, Val(pn), Val(num), shift + 1)
      invariant LowZero(pn[..], shift + 1)
    {
      DivideTurn(pn, num, div, shift, v, d);
      ShrAssign(div, 1);
      if shift > 0 { HalfPower(d, shift); }
      shift := shift - 1;
    }
    DivUnique(v, d, Val(pn), Val(num));
  }

  /** One turn of the loop: subtract and set a bit of the result, if the divisor fits. */
  method DivideTurn(pn: Number, num: Number, div: Number, shift: nat, ghost v: nat, ghost d: nat)
    requires pn.Length == num.Length == div.Length && pn != num && pn != div && num != div
    requires shift < 32 * pn.Length && Val(div) == d * Pow2(shift)
    requires Dividing(v, d, Val(pn), Val(num), shift + 1) && LowZero(pn[..], shift + 1)
    modifies pn, num
    ensures Dividing(v, d, Val(pn), Val(num), shift) && LowZero(pn[..], shift)
  {
    DivideStep(v, d, Val(pn), Val(num), shift);
    var c := CompareTo(num, div);
    if c >= 0 {
      ValBound(num);
      ghost var x, y := Val(num), Val(div);
      DivUnique(x - y, Limit(num), 0, x - y);
      SubAssign(num, div);
      SetBit(pn, shift);
    } else {
      LowZeroDown(pn[..], shift);
    }
  }

  lemma ZeroLow(s: seq<Limb>, sh: nat)
    requires forall k :: 0 <= k < |s| ==> s[k] == 0
    ensures LowZero(s, sh)
  {
    MulMod(0, Pow2(sh % 32));
  }

  lemma HalfPower(d: nat, shift: nat)
    requires shift > 0
    ensures (d * Pow2(shift)) / Pow2(1) == d * Pow2(shift - 1)
  {
    var p := Pow2(shift - 1);
    assert Pow2(1) == 2;
    Swap3(d, 2, p);
    DivUnique(d * (2 * p), 2, d * p, 0);
  }
}
