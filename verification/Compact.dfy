/** The compact form of a 256-bit number: one byte of exponent in base 256, 23 bits of mantissa and
    a sign bit between them. */
module Compact {
  import opened Common
  import opened Arith
  import opened Limbs
  import opened Uint256
  import opened Uint256Shift

  const WIDTH := 8
  const MANTISSA := 0x80_0000
  const UNIT := 0x100_0000

  type Bits32 = x: int | 0 <= x < 0x1_0000_0000

  function Size(c: Bits32): nat { c / UNIT }

  function Word(c: Bits32): nat { c % MANTISSA }

  predicate Sign(c: Bits32) { (c / MANTISSA) % 2 == 1 }

  /** `x >> k`. */
  function Down(x: nat, k: nat): nat {
    DivMod(x, Pow2(k));
    x / Pow2(k)
  }

  /** The number that a compact form stands for, whatever its size. */
  function Target(c: Bits32): nat {
    if Size(c) <= 3 then Down(Word(c), 8 * (3 - Size(c))) else Word(c) * Pow2(8 * (Size(c) - 3))
  }

  /** The mantissa, as far as it is not shifted out below. */
  function Kept(c: Bits32): nat {
    if Size(c) <= 3 then Down(Word(c), 8 * (3 - Size(c))) else Word(c)
  }

  predicate Overflows(c: Bits32) {
    && Kept(c) != 0
    && (Size(c) > 34 || (Kept(c) > 0xff && Size(c) > 33) || (Kept(c) > 0xffff && Size(c) > 32))
  }

  predicate Negative(c: Bits32) { Kept(c) != 0 && Sign(c) }

  lemma Pow2Small()
    ensures Pow2(8) == 0x100 && Pow2(16) == 0x1_0000 && Pow2(24) == UNIT && Pow2(23) == MANTISSA
  {
    assert Pow2(8) == 256;
    Pow2Add(8, 8);
    Pow2Add(16, 8);
    Pow2Add(16, 7);
    assert Pow2(7) == 128;
  }

  lemma Top()
    ensures Weight(WIDTH) == Pow2(256)
  {
    WeightPow(WIDTH);
  }

  /** The overflow flag is exact: it says whether the number needs more than 256 bits. */
  lemma OverflowExact(c: Bits32)
    ensures Overflows(c) <==> Target(c) >= Weight(WIDTH)
  {
    Top();
    Pow2Small();
    var w, n := Word(c), Size(c);
    if n <= 3 {
      SmallTarget(w, 8 * (3 - n));
      Pow2Grows(23, 256);
    } else if n <= 32 {
      MiddleTarget(w, n);
    } else {
      BigTarget(w, n);
    }
  }

  lemma MiddleTarget(w: nat, n: nat)
    requires 3 < n <= 32 && w < MANTISSA
    ensures w * Pow2(8 * (n - 3)) < Pow2(256)
  {
    var p := Pow2(8 * (n - 3));
    Pow2Small();
    Pow2Add(23, 8 * (n - 3));
    MulStrict(w, MANTISSA, p);
    Pow2Grows(23 + 8 * (n - 3), 256);
  }

  lemma SmallTarget(w: nat, k: nat)
    ensures w / Pow2(k) <= w
  {
    DivMod(w, Pow2(k));
    MulLess(1, Pow2(k), w / Pow2(k));
  }

  lemma BigTarget(w: nat, n: nat)
    requires n > 32 && w < MANTISSA
    ensures w * Pow2(8 * (n - 3)) >= Pow2(256) <==>
            w != 0 && (n > 34 || (w > 0xff && n > 33) || (w > 0xffff && n > 32))
  {
    var e := 8 * (n - 3);
    Pow2Small();
    if n == 33 {
      Pow2Add(16, 240);
      Threshold(w, 0x1_0000, Pow2(e));
    } else if n == 34 {
      Pow2Add(8, 248);
      Threshold(w, 0x100, Pow2(e));
    } else {
      Pow2Grows(256, e);
      if w > 0 { MulLess(1, w, Pow2(e)); }
    }
  }

  lemma Threshold(w: nat, t: nat, p: nat)
    requires p > 0
    ensures w * p >= t * p <==> w >= t
  {
    if w >= t { MulLess(t, w, p); } else { MulStrict(w, t, p); }
  }

  // ---------- SetCompact ----------

  /** `*this = b`, for a number of at most 64 bits. */
  method Assign64(pn: Number, b: nat)
    requires pn.Length == WIDTH && b < BASE * BASE
    modifies pn
    ensures Val(pn) == b
  {
    Clear(pn);
    DivMod(b, BASE);
    SetLimb(pn, 0, b % BASE);
    SetLimb(pn, 1, b / BASE);
    assert Weight(1) == BASE;
  }

  method SetCompact(pn: Number, nCompact: Bits32) returns (fNegative: bool, fOverflow: bool)
    requires pn.Length == WIDTH
    modifies pn
    ensures Val(pn) == Target(nCompact) % Weight(WIDTH)
    ensures fNegative == Negative(nCompact)
    ensures fOverflow <==> Target(nCompact) >= Weight(WIDTH)
  {
    var nSize := nCompact / UNIT;
    var nWord := nCompact % MANTISSA;
    OverflowExact(nCompact);
    if nSize <= 3 {
      nWord := Down(nWord, 8 * (3 - nSize));
      SmallTarget(nCompact % MANTISSA, 8 * (3 - nSize));
      Assign64(pn, nWord);
      TopLarge();
      DivUnique(nWord, Weight(WIDTH), 0, nWord);
    } else {
      Assign64(pn, nWord);
      ShlAssign(pn, 8 * (nSize - 3));
    }
    fNegative := nWord != 0 && (nCompact / MANTISSA) % 2 == 1;
    fOverflow := nWord != 0 && (nSize > 34 || (nWord > 0xff && nSize > 33) || (nWord > 0xffff && nSize > 32));
  }

  lemma TopLarge()
    ensures MANTISSA < Weight(WIDTH)
  {
    Top();
    Pow2Small();
    Pow2Add(23, 1);
    Pow2Grows(24, 256);
  }

  // ---------- GetCompact ----------

  /** `v` scaled so that the byte before the point is byte number `size`. */
  function Scaled(v: nat, size: nat): nat {
    Down(v * UNIT, 8 * size)
  }

  /** The compact form of `v` has this size and mantissa. */
  ghost predicate IsCompact(v: nat, size: nat, mant: nat) {
    if v == 0 then size == 0 && mant == 0
    else 0x8000 <= mant < MANTISSA && mant == Scaled(v, size)
  }

  /** A number of `r` bits, scaled by its length in bytes, has its top bit in the third byte. */
  lemma FirstScale(v: nat, r: nat)
    requires HasBits(v, r) && r > 0
    ensures 0x1_0000 <= Scaled(v, (r + 7) / 8) < UNIT
  {
    var size := (r + 7) / 8;
    var e := 8 * size;
    Pow2Small();
    Pow2Add(r, 24);
    Pow2Add(r - 1, 24);
    MulLess(Pow2(r - 1), v, UNIT);
    MulStrict(v, Pow2(r), UNIT);
    // bounds on v * 2^24 in units of 2^e
    Pow2Add(e, 16);
    Pow2Grows(e + 16, r - 1 + 24);
    Pow2Add(e, 24);
    Pow2Grows(r + 24, e + 24);
    Between(v * UNIT, Pow2(e), 0x1_0000, UNIT);
  }

  lemma Between(x: nat, p: nat, lo: nat, hi: nat)
    requires p > 0 && p * lo <= x < p * hi
    ensures lo <= x / p < hi
  {
    DivMod(x, p);
    if x / p < lo { MulLess(x / p + 1, lo, p); Sum2(x / p, 1, p); }
    if x / p >= hi { MulLess(hi, x / p, p); }
  }

  /** One byte more of exponent is one byte less of mantissa. */
  lemma NextScale(v: nat, size: nat)
    ensures Scaled(v, size + 1) == Scaled(v, size) / 0x100
  {
    var x, p := v * UNIT, Pow2(8 * size);
    Pow2Small();
    Pow2Add(8 * size, 8);
    var q, m := x / p, x % p;
    DivMod(x, p);
    DivMod(q, 0x100);
    var h, l := q / 0x100, q % 0x100;
    Sum2(h * 0x100, l, p);
    Swap3(h, 0x100, p);
    MulLess(l, 0xff, p);
    DivUnique(x, p * 0x100, h, l * p + m);
  }

  lemma ScaledSmall(v: nat, size: nat)
    requires size <= 3
    ensures Scaled(v, size) == v * Pow2(8 * (3 - size))
  {
    Pow2Small();
    Pow2Add(8 * (3 - size), 8 * size);
    Swap3(v, Pow2(8 * (3 - size)), Pow2(8 * size));
    DivUnique(v * UNIT, Pow2(8 * size), v * Pow2(8 * (3 - size)), 0);
  }

  lemma ScaledBig(v: nat, size: nat)
    requires size > 3
    ensures Scaled(v, size) == v / Pow2(8 * (size - 3))
  {
    var r := Pow2(8 * (size - 3));
    Pow2Small();
    Pow2Add(8 * (size - 3), 24);
    DivMod(v, r);
    var q, m := v / r, v % r;
    Sum2(q * r, m, UNIT);
    Swap3(q, r, UNIT);
    MulStrict(m, r, UNIT);
    DivUnique(v * UNIT, r * UNIT, q, m * UNIT);
  }

  /** `GetLow64` of a number of at most 64 bits. */
  method Low64(pn: Number) returns (r: nat)
    requires pn.Length == WIDTH && Val(pn) < BASE * BASE
    ensures r == Val(pn)
  {
    r := pn[0] + pn[1] * BASE;
    var hi := HighPartTo(pn[..], 2, WIDTH);
    assert Weight(1) == BASE && Weight(2) == BASE * BASE;
    assert Prefix(pn[..], 1) == Prefix(pn[..], 0) + pn[0] * Weight(0);
    assert Prefix(pn[..], 2) == Prefix(pn[..], 1) + pn[1] * Weight(1);
    if hi > 0 { MulLess(1, hi, BASE * BASE); }
  }

  /** `GetLow64() << 8 * (3 - nSize)`, or the low bits of the number shifted down. */
  method FirstMantissa(pn: Number, nSize: nat) returns (m: nat)
    requires pn.Length == WIDTH && Scaled(Val(pn), nSize) < UNIT
    ensures m == Scaled(Val(pn), nSize)
  {
    if nSize <= 3 {
      ScaledSmall(Val(pn), nSize);
      MulLess(1, Pow2(8 * (3 - nSize)), Val(pn));
      var low := Low64(pn);
      m := low * Pow2(8 * (3 - nSize));
    } else {
      ScaledBig(Val(pn), nSize);
      var bn := Copy(pn);
      ShrAssign(bn, 8 * (nSize - 3));
      m := Low64(bn);
    }
  }

  method GetCompact(pn: Number, fNegative: bool) returns (c: Bits32)
    requires pn.Length == WIDTH
    ensures IsCompact(Val(pn), Size(c), Word(c)) && Size(c) <= 33
    ensures Sign(c) <==> fNegative && Word(c) != 0
  {
    var bits := Bits(pn);
    var nSize := (bits + 7) / 8;
    if bits > 0 { FirstScale(Val(pn), bits); } else { ScaledSmall(0, 0); }
    var nCompact := FirstMantissa(pn, nSize);
    nCompact, nSize := ClearSignBit(nCompact, nSize, Val(pn));
    assert nCompact < MANTISSA && nSize < 256;
    c := Join(nCompact, nSize, fNegative);
  }

  /** The bit reserved for the sign must not be set. */
  method ClearSignBit(mant: nat, size: nat, ghost v: nat) returns (nCompact: nat, nSize: nat)
    requires mant == Scaled(v, size) < UNIT && (v > 0 ==> 0x1_0000 <= mant) && (v == 0 ==> mant == 0)
    ensures nCompact == Scaled(v, nSize) < MANTISSA && size <= nSize <= size + 1
    ensures if v == 0 then nCompact == 0 && nSize == size else 0x8000 <= nCompact
  {
    nCompact, nSize := mant, size;
    if (nCompact / MANTISSA) % 2 == 1 {
      NextScale(v, nSize);
      nCompact := nCompact / 0x100;
      nSize := nSize + 1;
    }
  }

  /** Put exponent and sign above the mantissa. */
  method Join(mant: nat, size: nat, fNegative: bool) returns (c: Bits32)
    requires mant < MANTISSA && size < 256
    ensures Word(c) == mant && Size(c) == size && (Sign(c) <==> fNegative && mant != 0)
  {
    JoinedOr(mant, size);
    JoinedFields(mant, size, 0);
    JoinedFields(mant, size, 1);
    c := Or(mant, size * UNIT);
    if fNegative && c % MANTISSA != 0 { c := c + MANTISSA; }
  }

  lemma JoinedOr(mant: nat, size: nat)
    requires mant < MANTISSA && size < 256
    ensures Or(mant, size * UNIT) == size * UNIT + mant
  {
    Pow2Small();
    MulMod(size, UNIT);
    OrDisjoint(size * UNIT, mant, 24);
    OrCommutes(mant, size * UNIT);
  }

  lemma JoinedFields(mant: nat, size: nat, sign: nat)
    requires mant < MANTISSA && size < 256 && sign <= 1
    ensures var c := size * UNIT + mant + sign * MANTISSA;
            c < 0x1_0000_0000 && Word(c) == mant && Size(c) == size && (Sign(c) <==> sign == 1) && c % MANTISSA == mant
  {
  }

  // ---------- what the compact form keeps ----------

  /** Decoding an encoded number rounds it down, by less than one unit of the kept mantissa. */
  lemma Rounding(v: nat, c: Bits32)
    requires IsCompact(v, Size(c), Word(c))
    ensures Target(c) <= v
    ensures Size(c) <= 3 ==> Target(c) == v
    ensures Size(c) > 3 ==> v < Target(c) + Pow2(8 * (Size(c) - 3))
  {
    var size := Size(c);
    if v == 0 {
      SmallTarget(0, 8 * 3);
    } else if size <= 3 {
      var p := Pow2(8 * (3 - size));
      ScaledSmall(v, size);
      DivUnique(v * p, p, v, 0);
    } else {
      ScaledBig(v, size);
      DivMod(v, Pow2(8 * (size - 3)));
    }
  }

  /** Encoding a decoded number gives the same compact form back. */
  lemma Stable(v: nat, c: Bits32)
    requires IsCompact(v, Size(c), Word(c))
    ensures IsCompact(Target(c), Size(c), Word(c))
  {
    var size, m := Size(c), Word(c);
    Rounding(v, c);
    if size > 3 {
      var r := Pow2(8 * (size - 3));
      MulLess(1, m, r);
      DivUnique(m * r, r, m, 0);
      ScaledBig(m * r, size);
    }
  }

  lemma Shape(c: Bits32)
    ensures !Sign(c) ==> c == Word(c) + Size(c) * UNIT
  {
  }

  /** A larger number has a compact form that is not smaller, as a number ... */
  lemma MonotoneCode(v1: nat, c1: Bits32, v2: nat, c2: Bits32)
    requires IsCompact(v1, Size(c1), Word(c1)) && IsCompact(v2, Size(c2), Word(c2))
    requires v1 <= v2 && !Sign(c1) && !Sign(c2)
    ensures c1 <= c2
  {
    Shape(c1);
    Shape(c2);
    if v1 > 0 {
      if Size(c1) > Size(c2) { SizesOrdered(v1, v2, Size(c2), Size(c1)); }
      ScaledOrdered(v1, v2, Size(c1));
    }
  }

  /** ... and in what it stands for. */
  lemma Monotone(v1: nat, c1: Bits32, v2: nat, c2: Bits32)
    requires IsCompact(v1, Size(c1), Word(c1)) && IsCompact(v2, Size(c2), Word(c2))
    requires v1 <= v2 && !Sign(c1) && !Sign(c2)
    ensures c1 <= c2 && Target(c1) <= Target(c2)
  {
    MonotoneCode(v1, c1, v2, c2);
    Stable(v1, c1);
    Stable(v2, c2);
    if Target(c2) < Target(c1) { MonotoneCode(Target(c2), c2, Target(c1), c1); }
  }

  lemma ScaledOrdered(v1: nat, v2: nat, size: nat)
    requires v1 <= v2
    ensures Scaled(v1, size) <= Scaled(v2, size)
  {
    var p := Pow2(8 * size);
    DivMod(v1 * UNIT, p);
    DivMod(v2 * UNIT, p);
    var a, b := Scaled(v1, size), Scaled(v2, size);
    if a > b { MulLess(b + 1, a, p); Sum2(b, 1, p); }
  }

  lemma ScaledUp(v: nat, t: nat)
    requires t > 0 && Scaled(v, t) >= 0x8000
    ensures Scaled(v, t - 1) >= MANTISSA
  {
    NextScale(v, t - 1);
  }

  lemma {:induction false} SizesOrdered(v1: nat, v2: nat, s: nat, t: nat)
    requires 0 < v1 <= v2 && s < t && Scaled(v1, t) >= 0x8000
    ensures Scaled(v2, s) >= MANTISSA
    decreases t
  {
    ScaledOrdered(v1, v2, t);
    ScaledUp(v2, t);
    if s < t - 1 { SizesOrdered(v2, v2, s, t - 1); }
  }

  // ---------- codes that the program's own tests give ----------

  lemma TestedSmall()
    ensures Target(0x0112_3456) == 0x12 && Target(0x0212_3456) == 0x1234 && Target(0x0312_3456) == 0x12_3456
    ensures Target(0x0100_3456) == 0 && Target(0x0200_0056) == 0 && Target(0x0300_0000) == 0
    ensures Target(0x01fe_dcba) == 0x7e && Negative(0x01fe_dcba) && !Negative(0x0112_3456)
    ensures !Negative(0x0180_3456) && !Negative(0x0380_0000)
  {
    Pow2Small();
    assert Pow2(0) == 1;
  }

  lemma TestedLarge()
    ensures Target(0x0412_3456) == 0x1234_5600 && Target(0x0500_9234) == 0x9234_0000
    ensures Target(0x0492_3456) == 0x1234_5600 && Negative(0x0492_3456) && !Negative(0x0412_3456)
    ensures Overflows(0xff12_3456) && !Negative(0xff12_3456) && !Overflows(0x2012_3456)
  {
    Pow2Small();
  }

  // ---------- which codes come back ----------

  /** The mantissa fills its third byte up to the sign bit, and nothing of it is shifted out. */
  predicate Canonical(c: Bits32) {
    if Word(c) == 0 then Size(c) == 0
    else Word(c) >= 0x8000 && (Size(c) < 3 ==> Word(c) % Pow2(8 * (3 - Size(c))) == 0)
  }

  lemma SmallCanonical(c: Bits32)
    requires Size(c) <= 3 && Word(c) > 0
    ensures IsCompact(Target(c), Size(c), Word(c)) <==> Canonical(c)
  {
    var p := Pow2(8 * (3 - Size(c)));
    DivMod(Word(c), p);
    ScaledSmall(Target(c), Size(c));
    if Size(c) == 3 { assert Word(c) % p == 0 by { assert p == 1; } }
    if Target(c) == 0 { assert Word(c) % p == Word(c); }
  }

  lemma BigCanonical(c: Bits32)
    requires Size(c) > 3 && Word(c) > 0
    ensures IsCompact(Target(c), Size(c), Word(c)) <==> Canonical(c)
  {
    var r, w := Pow2(8 * (Size(c) - 3)), Word(c);
    MulLess(1, w, r);
    DivUnique(w * r, r, w, 0);
    ScaledBig(w * r, Size(c));
  }

  /** A code is the compact form of what it stands for exactly when it is canonical. */
  lemma CanonicalExact(c: Bits32)
    ensures IsCompact(Target(c), Size(c), Word(c)) <==> Canonical(c)
  {
    if Word(c) == 0 {
      if Size(c) <= 3 { SmallTarget(0, 8 * (3 - Size(c))); }
    } else if Size(c) <= 3 {
      SmallCanonical(c);
    } else {
      BigCanonical(c);
    }
  }

  /** A number has only one compact form. */
  lemma UniqueCode(v: nat, s: nat, m: nat, t: nat, n: nat)
    requires IsCompact(v, s, m) && IsCompact(v, t, n)
    ensures s == t && m == n
  {
    if v > 0 {
      if s < t { SizesOrdered(v, v, s, t); }
      if t < s { SizesOrdered(v, v, t, s); }
    }
  }

  lemma SameFields(c: Bits32, d: Bits32)
    ensures c == d <==> Size(c) == Size(d) && Word(c) == Word(d) && Sign(c) == Sign(d)
  {
  }

  /** 0x01003456 stands for zero, and zero is encoded as 0. */
  lemma TooSmallToShow(d: Bits32)
    requires IsCompact(Target(0x0100_3456), Size(d), Word(d)) && !Sign(d)
    ensures d == 0
  {
    var c: Bits32 := 0x0100_3456;
    assert Size(c) == 1 && Word(c) == 0x3456;
    Pow2Small();
    assert Target(c) == 0;
    SameFields(d, 0);
  }

  /** Decode `c`, cut the number to 256 bits, and encode it again with the sign `negative`: the result `d` is
      `c` exactly when `c` is canonical, does not overflow, and has that sign. */
  lemma ReencodeExact(c: Bits32, d: Bits32, negative: bool)
    requires IsCompact(Target(c) % Weight(WIDTH), Size(d), Word(d))
    requires Sign(d) <==> negative && Word(d) != 0
    ensures d == c <==> Canonical(c) && !Overflows(c) && (Sign(c) <==> negative && Word(c) != 0)
  {
    var t, v := Target(c), Target(c) % Weight(WIDTH);
    TopLarge();
    DivMod(t, Weight(WIDTH));
    OverflowExact(c);
    CanonicalExact(c);
    SameFields(c, d);
    if t < Weight(WIDTH) {
      DivUnique(t, Weight(WIDTH), 0, t);
      if Canonical(c) { UniqueCode(t, Size(c), Word(c), Size(d), Word(d)); }
    } else if d == c {
      Rounding(v, d);
    }
  }
}
