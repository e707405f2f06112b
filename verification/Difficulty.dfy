/** Proof of work: the retarget rule, the check of a hash against its target, and the work a block
    stands for, on top of the in-place 256-bit arithmetic. */
module Difficulty {
  import opened Common
  import opened Arith
  import opened Limbs
  import opened Uint256
  import opened Uint256Shift
  import opened Compact

  /** One more than the largest 256-bit number. */
  ghost function Top256(): (t: nat)
    ensures t > 0
  {
    Weight(WIDTH)
  }

  // ---------- the work of a block ----------

  /** A compact target that can be met at all. */
  ghost predicate ValidBits(nBits: Bits32) {
    !Negative(nBits) && Target(nBits) < Top256() && Target(nBits) != 0
  }

  /** No sign bit, not zero, and no more than 256 bits. */
  lemma ValidWritten(nBits: Bits32)
    ensures ValidBits(nBits) <==> (nBits / 0x80_0000) % 2 == 0 && 0 < Target(nBits) < Weight(8)
  {
    if Kept(nBits) == 0 && Size(nBits) > 3 { assert Target(nBits) == 0; }
  }

  lemma TargetRoom(nBits: Bits32)
    requires Target(nBits) < Top256()
    ensures Target(nBits) + 1 < Top256()
  {
    Top();
    var w, n := Word(nBits), Size(nBits);
    if n <= 3 {
      SmallTarget(w, 8 * (3 - n));
      TopLarge();
    } else {
      EvenRoom(w, 8 * (n - 3), 256);
    }
  }

  /** An even number below an even number. */
  lemma EvenRoom(w: nat, k: nat, n: nat)
    requires k > 0 && n > 0 && w * Pow2(k) < Pow2(n)
    ensures w * Pow2(k) + 1 < Pow2(n)
  {
    Swap3(w, 2, Pow2(k - 1));
    assert Pow2(k) == 2 * Pow2(k - 1) && Pow2(n) == 2 * Pow2(n - 1);
  }

  /** The trick that avoids 2^256 itself. */
  lemma ProofIdentity(t: nat, top: nat)
    requires t + 1 < top
    ensures (top - 1 - t) / (t + 1) + 1 == top / (t + 1)
  {
    var q, r := top / (t + 1), top % (t + 1);
    DivMod(top, t + 1);
    if q == 0 { assert false; }
    Sum2(q - 1, 1, t + 1);
    DivUnique(top - 1 - t, t + 1, q - 1, r);
  }

  /** `~target / (target + 1)`. */
  method Quotient(bnTarget: Number, one: Number, ghost t: nat) returns (work: Number)
    requires bnTarget.Length == one.Length == WIDTH && bnTarget != one
    requires Val(bnTarget) == t && Val(one) == 1 && t + 1 < Top256()
    modifies bnTarget
    ensures fresh(work) && work.Length == WIDTH && Val(work) == (Top256() - 1 - t) / (t + 1)
  {
    work := Not(bnTarget);
    AddAssign(bnTarget, one);
    DivUnique(t + 1, Top256(), 0, t + 1);
    var ok := DivAssign(work, bnTarget);
  }

  /** `~target / (target + 1) + 1`, with `bnTarget` used up. */
  method ProofOf(bnTarget: Number, ghost t: nat) returns (work: Number)
    requires bnTarget.Length == WIDTH && Val(bnTarget) == t && 0 < t && t + 1 < Top256()
    modifies bnTarget
    ensures fresh(work) && work.Length == WIDTH && Val(work) == Top256() / (t + 1)
  {
    ProofIdentity(t, Top256());
    var one := new Limb[WIDTH];
    Assign64(one, 1);
    work := Quotient(bnTarget, one, t);
    WorkRoom(t, Top256());
    AddAssign(work, one);
    DivUnique(Top256() / (t + 1), Top256(), 0, Top256() / (t + 1));
  }

  /** The expected number of hashes behind a target, or zero for a bad one. */
  method GetBlockProof(nBits: Bits32) returns (work: Number)
    ensures fresh(work) && work.Length == WIDTH
    ensures var valid := (nBits / 0x80_0000) % 2 == 0 && 0 < Target(nBits) < Weight(8);
            Val(work) == if valid then Weight(8) / (Target(nBits) + 1) else 0
  {
    ValidWritten(nBits);
    var bnTarget := new Limb[WIDTH];
    var fNegative, fOverflow := SetCompact(bnTarget, nBits);
    var zero := new Limb[WIDTH];
    Clear(zero);
    var c := CompareTo(bnTarget, zero);
    ghost var t := Target(nBits);
    if fNegative || fOverflow || c == 0 {
      if !fOverflow { DivUnique(t, Top256(), 0, t); }
      return zero;
    }
    DivUnique(t, Top256(), 0, t);
    TargetRoom(nBits);
    work := ProofOf(bnTarget, t);
  }

  lemma WorkRoom(t: nat, top: nat)
    requires 0 < t < top
    ensures top / (t + 1) < top
  {
    DivMod(top, t + 1);
    MulLess(2, t + 1, top / (t + 1));
  }

  // ---------- checking a hash ----------

  method CheckProofOfWork(hash: Number, nBits: Bits32, powLimit: Number) returns (ok: bool)
    requires hash.Length == powLimit.Length == WIDTH
    ensures ok <==> (nBits / 0x80_0000) % 2 == 0 && 0 < Target(nBits) <= Val(powLimit) && Val(hash) <= Target(nBits)
  {
    ValidWritten(nBits);
    ValBound(powLimit);
    var bnTarget := new Limb[WIDTH];
    var fNegative, fOverflow := SetCompact(bnTarget, nBits);
    var zero := new Limb[WIDTH];
    Clear(zero);
    var isZero := CompareTo(bnTarget, zero);
    var above := CompareTo(bnTarget, powLimit);
    if !fOverflow { DivUnique(Target(nBits), Top256(), 0, Target(nBits)); }
    if fNegative || isZero == 0 || fOverflow || above > 0 { return false; }
    var c := CompareTo(hash, bnTarget);
    ok := c <= 0;
  }

  // ---------- retargeting ----------

  function Clamp(x: int, lo: int, hi: int): int {
    if x < lo then lo else if x > hi then hi else x
  }

  /** The time the last period took, kept within a factor of four of what it should take. */
  function Timespan(actual: int, wanted: int): int {
    Clamp(actual, wanted / 4, wanted * 4)
  }

  /** The target that the rule asks for, before it is rounded to compact form. */
  ghost function NextTarget(old_: nat, actual: int, wanted: nat, limit: nat): nat
    requires wanted > 0
  {
    var product := (old_ * (Timespan(actual, wanted) % BASE)) % Top256();
    DivMod(product, wanted);
    var next := product / wanted;
    if next > limit then limit else next
  }

  method CalculateNextWorkRequired(
    nBits: Bits32, lastTime: int, firstTime: int, wanted: nat, powLimit: Number, noRetargeting: bool)
    returns (c: Bits32)
    requires 0 < wanted < BASE * BASE && powLimit.Length == WIDTH
    ensures noRetargeting ==> c == nBits
    ensures !noRetargeting ==>
              var next := NextTarget(Target(nBits) % Top256(), lastTime - firstTime, wanted, Val(powLimit));
              !Sign(c) && IsCompact(next, Size(c), Word(c))
  {
    if noRetargeting { return nBits; }
    var nActualTimespan := lastTime - firstTime;
    if nActualTimespan < wanted / 4 { nActualTimespan := wanted / 4; }
    if nActualTimespan > wanted * 4 { nActualTimespan := wanted * 4; }
    var bnNew := new Limb[WIDTH];
    var _, _ := SetCompact(bnNew, nBits);
    MulAssign32(bnNew, nActualTimespan % BASE);
    var span := new Limb[WIDTH];
    Assign64(span, wanted);
    var ok := DivAssign(bnNew, span);
    var cmp := CompareTo(bnNew, powLimit);
    if cmp > 0 { bnNew := Copy(powLimit); }
    c := GetCompact(bnNew, false);
  }

  lemma Products(a: nat, p: nat, b: nat, q: nat)
    requires a < p && b < q
    ensures a * b < p * q
  {
    MulLess(a, p, b);
    MulStrict(b, q, p);
  }

  lemma ProductRoom(a: nat, b: nat, k: nat, j: nat, n: nat)
    requires a < Pow2(k) && b < Pow2(j) && k + j <= n
    ensures a * b < Pow2(n)
  {
    Products(a, Pow2(k), b, Pow2(j));
    Pow2Add(k, j);
    Pow2Grows(k + j, n);
  }

  lemma Pow19()
    ensures Pow2(19) == 0x8_0000
  {
    Pow2Small();
    Pow2Add(16, 3);
  }

  /** The product of the retarget rule cannot wrap on the main network: the limit has 231 bits and
      the longest timespan, four days, has 19. */
  lemma NoWrap(old_: nat, span: nat)
    requires old_ < Pow2(231) && span <= 4 * 86400
    ensures old_ * span < Top256()
  {
    Top();
    Pow19();
    ProductRoom(old_, span, 231, 19, 256);
  }

  /** A quotient of a product by `wanted` lies between a quarter of the factor and four times it,
      when the other factor lies between a quarter of `wanted` and four times it. */
  lemma WithinFour(old_: nat, span: nat, wanted: nat)
    requires wanted > 0 && wanted % 4 == 0 && wanted / 4 <= span <= 4 * wanted
    ensures old_ / 4 <= (old_ * span) / wanted <= 4 * old_
  {
    AtMostFour(old_, span, wanted);
    AtLeastQuarter(old_, span, wanted);
  }

  lemma AtMostFour(old_: nat, span: nat, wanted: nat)
    requires wanted > 0 && span <= 4 * wanted
    ensures (old_ * span) / wanted <= 4 * old_
  {
    var x := old_ * span;
    DivMod(x, wanted);
    var q := x / wanted;
    MulLess(span, 4 * wanted, old_);
    Swap3(4, wanted, old_);
    if q > 4 * old_ { MulLess(4 * old_ + 1, q, wanted); Sum2(4 * old_, 1, wanted); }
  }

  lemma AtLeastQuarter(old_: nat, span: nat, wanted: nat)
    requires wanted > 0 && wanted % 4 == 0 && wanted / 4 <= span
    ensures old_ / 4 <= (old_ * span) / wanted
  {
    var k, a, x := wanted / 4, old_ / 4, old_ * span;
    DivMod(x, wanted);
    var q := x / wanted;
    MulLess(k, span, old_);
    MulLess(4 * a, old_, k);
    Swap3(4, a, k);
    if q < a { MulLess(q + 1, a, wanted); Sum2(q, 1, wanted); }
  }

  /** Without wrap-around the moduli of the rule play no part. */
  lemma UnwrappedTarget(old_: nat, actual: int, wanted: nat, limit: nat)
    requires 0 < wanted <= 86400 && wanted % 4 == 0 && old_ <= limit < Pow2(231)
    ensures old_ * Timespan(actual, wanted) < Top256()
    ensures NextTarget(old_ % Top256(), actual, wanted, limit) == Min(limit, old_ * Timespan(actual, wanted) / wanted)
  {
    var span := Timespan(actual, wanted);
    NoWrap(old_, span);
    NoWrap(old_, 1);
    UnwrappedBelow(old_, actual, wanted, limit, Top256());
  }

  lemma UnwrappedBelow(old_: nat, actual: int, wanted: nat, limit: nat, top: nat)
    requires wanted > 0 && top == Top256() && old_ < top && 0 <= Timespan(actual, wanted) < BASE
    requires old_ * Timespan(actual, wanted) < top
    ensures NextTarget(old_ % top, actual, wanted, limit) == Min(limit, old_ * Timespan(actual, wanted) / wanted)
  {
    var span := Timespan(actual, wanted);
    DivUnique(old_, top, 0, old_);
    DivUnique(span, BASE, 0, span);
    DivUnique(old_ * span, top, 0, old_ * span);
  }

  lemma NextWithin(old_: nat, actual: int, wanted: nat, limit: nat)
    requires 0 < wanted <= 86400 && wanted % 4 == 0 && old_ <= limit < Pow2(231)
    ensures old_ * Timespan(actual, wanted) < Top256()
    ensures old_ / 4 <= NextTarget(old_ % Top256(), actual, wanted, limit) <= limit
    ensures NextTarget(old_ % Top256(), actual, wanted, limit) <= 4 * old_
  {
    UnwrappedTarget(old_, actual, wanted, limit);
    WithinFour(old_, Timespan(actual, wanted), wanted);
  }

  lemma QuarterOf(old_: nat, wanted: nat)
    requires wanted > 0 && wanted % 4 == 0
    ensures old_ * (wanted / 4) / wanted == old_ / 4
  {
    var k, a, r := wanted / 4, old_ / 4, old_ % 4;
    Sum2(4 * a, r, k);
    Swap3(4, a, k);
    MulLess(r, 3, k);
    DivUnique(old_ * k, wanted, a, r * k);
  }

  lemma FourTimes(old_: nat, wanted: nat)
    requires wanted > 0
    ensures old_ * (wanted * 4) / wanted == 4 * old_
  {
    Swap3(4, wanted, old_);
    DivUnique(old_ * (wanted * 4), wanted, 4 * old_, 0);
  }

  /** The next target is the old one in the proportion of the time taken to the time wanted, but never less
      than a quarter, more than four times it, or more than the limit. */
  lemma NextTargetExact(old_: nat, actual: int, wanted: nat, limit: nat)
    requires 0 < wanted <= 86400 && wanted % 4 == 0 && old_ <= limit < Pow2(231)
    ensures var next := NextTarget(old_ % Top256(), actual, wanted, limit);
            if 4 * actual < wanted then next == old_ / 4
            else if actual > 4 * wanted then next == if 4 * old_ > limit then limit else 4 * old_
            else next == if old_ * actual / wanted > limit then limit else old_ * actual / wanted
  {
    UnwrappedTarget(old_, actual, wanted, limit);
    QuarterOf(old_, wanted);
    FourTimes(old_, wanted);
  }

  /** A period that takes exactly its time leaves the target as it is. */
  lemma SteadyTarget(old_: nat, wanted: nat, limit: nat)
    requires 0 < wanted <= 86400 && wanted % 4 == 0 && old_ <= limit < Pow2(231)
    ensures NextTarget(old_ % Top256(), wanted, wanted, limit) == old_
  {
    NextTargetExact(old_, wanted, wanted, limit);
    DivUnique(old_ * wanted, wanted, old_, 0);
  }

  lemma DivOrdered(a: nat, b: nat, d: nat)
    requires a <= b && d > 0
    ensures a / d <= b / d
  {
    DivMod(a, d);
    DivMod(b, d);
    if b / d < a / d { MulLess(b / d + 1, a / d, d); Sum2(b / d, 1, d); }
  }

  /** The longer a period took, the larger the next target: slow blocks never make it harder. */
  lemma NextTargetMonotone(old_: nat, a1: int, a2: int, wanted: nat, limit: nat)
    requires 0 < wanted <= 86400 && wanted % 4 == 0 && old_ <= limit < Pow2(231) && a1 <= a2
    ensures NextTarget(old_ % Top256(), a1, wanted, limit) <= NextTarget(old_ % Top256(), a2, wanted, limit)
  {
    UnwrappedTarget(old_, a1, wanted, limit);
    UnwrappedTarget(old_, a2, wanted, limit);
    QuotientsOrdered(old_, Timespan(a1, wanted), Timespan(a2, wanted), wanted);
  }

  lemma QuotientsOrdered(old_: nat, s1: nat, s2: nat, wanted: nat)
    requires wanted > 0 && s1 <= s2
    ensures old_ * s1 / wanted <= old_ * s2 / wanted
  {
    MulLess(s1, s2, old_);
    DivOrdered(s1 * old_, s2 * old_, wanted);
  }

  /** For an old target within the limit, on the main parameters: nothing wraps, and the decoded new
      target is within the limit, at most four times the old one, and not below the rounded quarter
      of it. */
  lemma RetargetBounds(nBits: Bits32, actual: int, wanted: nat, limit: nat, c: Bits32, quarter: Bits32)
    requires 0 < wanted <= 86400 && wanted % 4 == 0 && limit < Pow2(231) && Target(nBits) <= limit
    requires !Sign(c) && IsCompact(NextTarget(Target(nBits) % Top256(), actual, wanted, limit), Size(c), Word(c))
    requires !Sign(quarter) && IsCompact(Target(nBits) / 4, Size(quarter), Word(quarter))
    ensures Target(nBits) * Timespan(actual, wanted) < Top256()
    ensures Target(c) <= limit && Target(c) <= 4 * Target(nBits)
    ensures Target(quarter) <= Target(c)
  {
    var old_ := Target(nBits);
    NextWithin(old_, actual, wanted, limit);
    var next := NextTarget(old_ % Top256(), actual, wanted, limit);
    Rounding(next, c);
    Monotone(old_ / 4, quarter, next, c);
  }

  // ---------- the required work ----------

  /** The height-dependent consensus parameters. */
  datatype Params = Params(
    timespan0: nat, spacing0: nat, height1: int, timespan1: nat, spacing1: nat,
    height2: int, timespan2: nat, spacing2: nat, allowMinDifficulty: bool, noRetargeting: bool)

  predicate Sane(p: Params) {
    && 0 < p.spacing0 <= p.timespan0 < BASE * BASE
    && 0 < p.spacing1 <= p.timespan1 < BASE * BASE
    && 0 < p.spacing2 <= p.timespan2 < BASE * BASE
  }

  function Wanted(p: Params, block: int): nat {
    if block >= p.height2 then p.timespan2
    else if block >= p.height1 then p.timespan1
    else if block >= 0 then p.timespan0
    else p.timespan2
  }

  function Spacing(p: Params, block: int): nat {
    if block >= p.height2 then p.spacing2
    else if block >= p.height1 then p.spacing1
    else if block >= 0 then p.spacing0
    else p.spacing2
  }

  /** How many blocks there are between two retargets. */
  function Interval(p: Params, block: int): (n: nat)
    requires Sane(p)
    ensures n > 0
  {
    DivMod(Wanted(p, block), Spacing(p, block));
    Wanted(p, block) / Spacing(p, block)
  }

  /** The rules of the main network, three in a row: a day at two minutes, then an hour at one, then an hour at
      two. */
  const MAIN := Params(86400, 120, 90899, 3600, 60, 114999, 3600, 120, false, false)

  lemma MainIntervals(block: nat)
    ensures Sane(MAIN)
    ensures block < 90899 ==> Interval(MAIN, block) == 720 && Wanted(MAIN, block) == 86400
    ensures 90899 <= block < 114999 ==> Interval(MAIN, block) == 60 && Wanted(MAIN, block) == 3600
    ensures 114999 <= block ==> Interval(MAIN, block) == 30 && Wanted(MAIN, block) == 3600
    ensures Spacing(MAIN, block) * Interval(MAIN, block) == Wanted(MAIN, block)
  {
  }

  datatype Block = Block(nBits: Bits32, time: int)

  /** The last block at or before `h` that is not just a minimum-difficulty exception. */
  function LastReal(chain: seq<Block>, h: nat, interval: nat, limitBits: Bits32): (j: nat)
    requires h < |chain| && interval > 0
    ensures j <= h
    ensures j == 0 || j % interval == 0 || chain[j].nBits != limitBits
    ensures forall k :: j < k <= h ==> k % interval != 0 && chain[k].nBits == limitBits
  {
    if h > 0 && h % interval != 0 && chain[h].nBits == limitBits then LastReal(chain, h - 1, interval, limitBits) else h
  }

  /** `GetNextWorkRequired` for the block after `chain`, and the code of the limit; the two assertions on the
      way to the first block of the period never fail. */
  method GetNextWorkRequired(chain: seq<Block>, newTime: int, p: Params, powLimit: Number)
    returns (c: Bits32, limitBits: Bits32)
    requires Sane(p) && powLimit.Length == WIDTH
    ensures !Sign(limitBits) && IsCompact(Val(powLimit), Size(limitBits), Word(limitBits))
    ensures var n := |chain|;
            if n == 0 then c == limitBits
            else
              var last, interval := chain[n - 1], Interval(p, n - 1);
              if n % interval != 0 then
                c == if !p.allowMinDifficulty then last.nBits
                     else if newTime > last.time + 2 * Spacing(p, n - 1) then limitBits
                     else chain[LastReal(chain, n - 1, interval, limitBits)].nBits
              else
                && n >= interval
                && if p.noRetargeting then c == last.nBits
                   else !Sign(c) && IsCompact(
                     NextTarget(Target(last.nBits) % Top256(), last.time - chain[n - interval].time,
                                Wanted(p, n - 1), Val(powLimit)),
                     Size(c), Word(c))
  {
    var nProofOfWorkLimit := GetCompact(powLimit, false);
    limitBits := nProofOfWorkLimit;
    if |chain| == 0 { return nProofOfWorkLimit, limitBits; }
    var nHeight := |chain| - 1;
    var last, interval := chain[nHeight], Interval(p, nHeight);
    if (nHeight + 1) % interval != 0 {
      if p.allowMinDifficulty {
        if newTime > last.time + Spacing(p, nHeight) * 2 { return nProofOfWorkLimit, limitBits; }
        var pindex := nHeight;
        while pindex > 0 && pindex % interval != 0 && chain[pindex].nBits == nProofOfWorkLimit
          invariant 0 <= pindex <= nHeight
          invariant LastReal(chain, nHeight, interval, limitBits) == LastReal(chain, pindex, interval, limitBits)
        {
          pindex := pindex - 1;
        }
        return chain[pindex].nBits, limitBits;
      }
      return last.nBits, limitBits;
    }
    AtLeastOnce(nHeight + 1, interval);
    var nHeightFirst := nHeight - (interval - 1);
    assert nHeightFirst >= 0;
    var firstTime := chain[nHeightFirst].time;
    c := CalculateNextWorkRequired(last.nBits, last.time, firstTime, Wanted(p, nHeight), powLimit, p.noRetargeting);
  }

  lemma AtLeastOnce(n: nat, d: nat)
    requires n > 0 && d > 0 && n % d == 0
    ensures n >= d
  {
    DivMod(n, d);
    if n < d { DivUnique(n, d, 0, n); }
  }
}
