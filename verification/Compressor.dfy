/** Compact forms of amounts and output scripts. */
module Compressor {
  import opened Common
  import opened Arith
  import opened VarInts
  import opened CoinsData

  // ---------- amounts ----------

  function Pow10(e: nat): (p: nat)
    ensures p > 0
  {
    if e == 0 then 1 else 10 * Pow10(e - 1)
  }

  /** The code of `m` * 10^`e`: the last digit of `m` is not zero, or `e` is 9. */
  function Pack(m: nat, e: nat): nat
    requires m > 0 && (e < 9 ==> m % 10 != 0)
  {
    if e < 9 then 1 + (m / 10 * 9 + m % 10 - 1) * 10 + e else 1 + (m - 1) * 10 + 9
  }

  /** How many factors of ten are taken out, starting from `e` and never beyond 9. */
  function Reduce(n: nat, e: nat): (r: (nat, nat))
    requires n > 0 && e <= 9
    ensures r.0 > 0 && e <= r.1 <= 9 && (r.1 < 9 ==> r.0 % 10 != 0)
    decreases 9 - e
  {
    if n % 10 == 0 && e < 9 then Reduce(n / 10, e + 1) else (n, e)
  }

  /** The code of an amount, before it is cut to 64 bits. */
  function CompressAmount(n: nat): nat {
    if n == 0 then 0 else var r := Reduce(n, 0); Pack(r.0, r.1)
  }

  /** Mantissa and exponent of a positive code. */
  function Unpack(x: nat): (r: (nat, nat))
    requires x > 0
    ensures r.0 > 0 && r.1 <= 9 && (r.1 < 9 ==> r.0 % 10 != 0)
  {
    var y, e := (x - 1) / 10, (x - 1) % 10;
    if e < 9 then (y / 9 * 10 + y % 9 + 1, e) else (y + 1, 9)
  }

  function DecompressAmount(x: nat): nat {
    if x == 0 then 0 else var r := Unpack(x); r.0 * Pow10(r.1)
  }

  lemma TenTimes(m: nat, p: nat)
    ensures m * (10 * p) == 10 * (m * p)
    ensures 10 * (m * p) % 10 == 0 && 10 * (m * p) / 10 == m * p
  {
    assert m * (10 * p) == 10 * (m * p);
  }

  lemma {:induction false} ReduceValue(n: nat, e: nat)
    requires n > 0 && e <= 9
    ensures var r := Reduce(n, e); r.0 * Pow10(r.1 - e) == n
    decreases 9 - e
  {
    if n % 10 == 0 && e < 9 {
      ReduceValue(n / 10, e + 1);
      var r := Reduce(n, e);
      TenTimes(r.0, Pow10(r.1 - e - 1));
    }
  }

  /** Taking the factors out of m * 10^k gives back m and k. */
  lemma {:induction false} ReduceProduct(m: nat, k: nat, e: nat)
    requires m > 0 && e + k <= 9 && (e + k < 9 ==> m % 10 != 0)
    ensures m * Pow10(k) > 0 && Reduce(m * Pow10(k), e) == (m, e + k)
    decreases k
  {
    if k > 0 {
      ReduceProduct(m, k - 1, e + 1);
      TenTimes(m, Pow10(k - 1));
    }
  }

  lemma PackUnpack(m: nat, e: nat)
    requires m > 0 && e <= 9 && (e < 9 ==> m % 10 != 0)
    ensures Pack(m, e) > 0 && Unpack(Pack(m, e)) == (m, e)
  {
    if e < 9 {
      var y := m / 10 * 9 + m % 10 - 1;
      LowDigit(y, e);
      assert y / 9 == m / 10 && y % 9 == m % 10 - 1;
    } else {
      LowDigit(m - 1, 9);
    }
  }

  lemma LowDigit(y: nat, e: nat)
    requires e < 10
    ensures (y * 10 + e) / 10 == y && (y * 10 + e) % 10 == e
  {
  }

  lemma UnpackPack(x: nat)
    requires x > 0
    ensures var r := Unpack(x); Pack(r.0, r.1) == x
  {
    var y, e := (x - 1) / 10, (x - 1) % 10;
    if e < 9 {
      var m := y / 9 * 10 + (y % 9 + 1);
      LowDigit(y / 9, y % 9 + 1);
      assert m / 10 * 9 + m % 10 - 1 == y;
    }
  }

  lemma AmountRoundTrip(n: nat)
    ensures DecompressAmount(CompressAmount(n)) == n
  {
    if n > 0 {
      var r := Reduce(n, 0);
      ReduceValue(n, 0);
      PackUnpack(r.0, r.1);
    }
  }

  /** Amounts and codes are in one-to-one correspondence. */
  lemma AmountOnto(x: nat)
    ensures CompressAmount(DecompressAmount(x)) == x
  {
    if x > 0 {
      var r := Unpack(x);
      ReduceProduct(r.0, r.1, 0);
      UnpackPack(x);
    }
  }

  lemma {:induction false} ReduceSmaller(n: nat, e: nat)
    requires n > 0 && e <= 9
    ensures var r := Reduce(n, e); r.0 <= n && r.1 - e <= n - r.0 && (r.1 - e > 0 ==> 10 * r.0 <= n)
    decreases 9 - e
  {
    if n % 10 == 0 && e < 9 { ReduceSmaller(n / 10, e + 1); }
  }

  lemma CompressBound(n: nat)
    ensures CompressAmount(n) <= 9 * n
  {
    if n > 0 {
      ReduceSmaller(n, 0);
    }
  }

  /** The pairs that the program's own tests give: nothing, one unit, a cent, a coin, fifty coins and all coins. */
  lemma TestedAmounts()
    ensures CompressAmount(0) == 0 && CompressAmount(1) == 1
    ensures CompressAmount(1000000) == 7 && CompressAmount(100000000) == 9
    ensures CompressAmount(5000000000) == 0x32 && CompressAmount(2100000000000000) == 0x1406f40
  {
    assert Reduce(1, 0) == (1, 0);
    TestedAmount(1000000, 1, 6);
    TestedAmount(100000000, 1, 8);
    TestedAmount(5000000000, 5, 9);
    TestedAmount(2100000000000000, 2100000, 9);
  }

  lemma TestedAmount(n: nat, m: nat, e: nat)
    requires m > 0 && e <= 9 && (e < 9 ==> m % 10 != 0) && n == m * Pow10(e)
    ensures n > 0 && CompressAmount(n) == Pack(m, e)
  {
    ReduceProduct(m, e, 0);
  }

  /** The loops over 64-bit numbers: exact as long as the code fits. */
  method CompressAmountLoop(nAmount: nat) returns (x: nat)
    ensures x == CompressAmount(nAmount) % U64
  {
    if nAmount == 0 { return 0; }
    var n, e := nAmount, 0;
    while n % 10 == 0 && e < 9
      invariant n > 0 && e <= 9 && Reduce(n, e) == Reduce(nAmount, 0)
      decreases 9 - e
    {
      n := n / 10;
      e := e + 1;
    }
    if e < 9 {
      var d := n % 10;
      assert 1 <= d <= 9;
      n := n / 10;
      return (1 + (n * 9 + d - 1) * 10 + e) % U64;
    } else {
      return (1 + (n - 1) * 10 + 9) % U64;
    }
  }

  method DecompressAmountLoop(code: nat) returns (n: nat)
    ensures n == DecompressAmount(code) % U64
  {
    if code == 0 { return 0; }
    var x := code - 1;
    var e := x % 10;
    x := x / 10;
    if e < 9 {
      var d := x % 9 + 1;
      n := x / 9 * 10 + d;
    } else {
      n := x + 1;
    }
    n := Scale(n, e);
  }

  method Scale(m: nat, exponent: nat) returns (n: nat)
    ensures n == (m * Pow10(exponent)) % U64
  {
    var e := exponent;
    ghost var k: nat := 0;
    n := m % U64;
    while e > 0
      invariant 0 <= e && k + e == exponent
      invariant n == (m * Pow10(k)) % U64
    {
      TenMod(m * Pow10(k));
      assert m * Pow10(k + 1) == 10 * (m * Pow10(k));
      n := n * 10 % U64;
      e := e - 1;
      k := k + 1;
    }
  }

  lemma TenMod(a: nat)
    ensures a % U64 * 10 % U64 == 10 * a % U64
  {
    DivMod(a, U64);
    ModPlus(U64, a % U64 * 10, 10 * (a / U64));
  }

  // ---------- scripts ----------

  const OP_DUP: Byte := 0x76
  const OP_HASH160: Byte := 0xa9
  const OP_EQUAL: Byte := 0x87
  const OP_EQUALVERIFY: Byte := 0x88
  const OP_CHECKSIG: Byte := 0xac

  type Script = seq<Byte>

  /** Public keys: which uncompressed ones are points of the curve, and the point of a compressed one. */
  datatype Curve = Curve(valid: seq<Byte> -> bool, expand: seq<Byte> -> Option<seq<Byte>>)

  /** Expanding is the inverse of keeping one coordinate and the parity of the other. */
  ghost predicate CurveOk(k: Curve) {
    && (forall c :: k.expand(c).Some? ==> |k.expand(c).value| == 65)
    && (forall u :: |u| == 65 && u[0] == 4 && k.valid(u) ==> k.expand(Shrink(u)) == Some(u))
  }

  function Shrink(u: seq<Byte>): seq<Byte>
    requires |u| == 65
  {
    [2 + u[64] % 2] + u[1..33]
  }

  predicate IsToKeyId(s: Script) {
    |s| == 25 && s[0] == OP_DUP && s[1] == OP_HASH160 && s[2] == 20 && s[23] == OP_EQUALVERIFY && s[24] == OP_CHECKSIG
  }

  predicate IsToScriptId(s: Script) {
    |s| == 23 && s[0] == OP_HASH160 && s[1] == 20 && s[22] == OP_EQUAL
  }

  predicate IsToShortKey(s: Script) {
    |s| == 35 && s[0] == 33 && s[34] == OP_CHECKSIG && (s[1] == 2 || s[1] == 3)
  }

  predicate IsToLongKey(k: Curve, s: Script) {
    |s| == 67 && s[0] == 65 && s[66] == OP_CHECKSIG && s[1] == 4 && k.valid(s[1..66])
  }

  function Compress(k: Curve, s: Script): Option<seq<Byte>> {
    if IsToKeyId(s) then Some([0] + s[3..23])
    else if IsToScriptId(s) then Some([1] + s[2..22])
    else if IsToShortKey(s) then Some([s[1]] + s[2..34])
    else if IsToLongKey(k, s) then Some([4 + s[65] % 2] + s[2..34])
    else None
  }

  function GetSpecialSize(n: nat): nat {
    if n <= 1 then 20 else if n <= 5 then 32 else 0
  }

  /** The script of a special form; when the key is no point the script is left as it was. */
  function Decompress(k: Curve, n: nat, body: seq<Byte>): Option<Script>
    requires n < 6
  {
    if n == 0 then Some([OP_DUP, OP_HASH160, 20] + body + [OP_EQUALVERIFY, OP_CHECKSIG])
    else if n == 1 then Some([OP_HASH160, 20] + body + [OP_EQUAL])
    else if n <= 3 then Some([33, n] + body + [OP_CHECKSIG])
    else
      match k.expand([n - 2] + body)
      case None => None
      case Some(u) => Some([65] + u + [OP_CHECKSIG])
  }

  /** A special form is its number and a body of fixed size, and the script can be rebuilt from it. */
  lemma DecompressCompress(k: Curve, s: Script)
    requires CurveOk(k) && Compress(k, s).Some?
    ensures var c := Compress(k, s).value;
            && c != [] && c[0] < 6 && |c| == 1 + GetSpecialSize(c[0])
            && Decompress(k, c[0], c[1..]) == Some(s)
  {
    var c := Compress(k, s).value;
    if IsToKeyId(s) {
      assert c[1..] == s[3..23];
      assert s == [OP_DUP, OP_HASH160, 20] + s[3..23] + [OP_EQUALVERIFY, OP_CHECKSIG];
    } else if IsToScriptId(s) {
      assert c[1..] == s[2..22];
      assert s == [OP_HASH160, 20] + s[2..22] + [OP_EQUAL];
    } else if IsToShortKey(s) {
      assert c[1..] == s[2..34];
      assert s == [33, s[1]] + s[2..34] + [OP_CHECKSIG];
    } else {
      LongKey(k, s);
    }
  }

  lemma LongKey(k: Curve, s: Script)
    requires CurveOk(k) && IsToLongKey(k, s)
    ensures var c := [4 + s[65] % 2] + s[2..34];
            |c| == 33 && 4 <= c[0] <= 5 && Decompress(k, c[0], c[1..]) == Some(s)
  {
    var c := [4 + s[65] % 2] + s[2..34];
    var u := s[1..66];
    assert c[1..] == s[2..34] == u[1..33];
    assert [c[0] - 2] + c[1..] == Shrink(u);
    assert s == [65] + u + [OP_CHECKSIG];
  }

  /** The special forms, one by one: pay to a key hash, to a script hash, to a compressed key, and to an
      uncompressed key that is a point of the curve. */
  lemma FormsWritten(k: Curve, hash: seq<Byte>, x: seq<Byte>, parity: nat, u: seq<Byte>)
    requires |hash| == 20 && |x| == 32 && parity < 2 && |u| == 65 && u[0] == 4 && k.valid(u)
    ensures Compress(k, [0x76, 0xa9, 20] + hash + [0x88, 0xac]) == Some([0] + hash)
    ensures Compress(k, [0xa9, 20] + hash + [0x87]) == Some([1] + hash)
    ensures Compress(k, [33, 2 + parity] + x + [0xac]) == Some([2 + parity] + x)
    ensures Compress(k, [65] + u + [0xac]) == Some([4 + u[64] % 2] + u[1..33])
  {
    var a, b := [0x76, 0xa9, 20] + hash + [0x88, 0xac], [0xa9, 20] + hash + [0x87];
    var c, d := [33, 2 + parity] + x + [0xac], [65] + u + [0xac];
    assert a[3..23] == hash && b[2..22] == hash && c[2..34] == x;
    assert d[1..66] == u && d[2..34] == u[1..33] && d[65] == u[64] && d[1] == u[0];
  }

  /** Any other script is no special form. */
  lemma OtherForms(k: Curve, s: Script)
    requires Compress(k, s).Some?
    ensures || (|s| == 25 && s == [0x76, 0xa9, 20] + s[3..23] + [0x88, 0xac])
            || (|s| == 23 && s == [0xa9, 20] + s[2..22] + [0x87])
            || (|s| == 35 && 2 <= s[1] <= 3 && s == [33, s[1]] + s[2..34] + [0xac])
            || (|s| == 67 && s[1] == 4 && k.valid(s[1..66]) && s == [65] + s[1..66] + [0xac])
  {
  }

  function ScriptCode(k: Curve, s: Script): seq<Byte> {
    match Compress(k, s)
    case Some(c) => c
    case None => VarInt((|s| + 6) % U32) + s
  }

  /** Read a script into an empty one. */
  function ReadScript(k: Curve, s: seq<Byte>): Option<(Script, seq<Byte>)> {
    match ReadMod(U32, s)
    case None => None
    case Some((n, rest)) =>
      var len := if n < 6 then GetSpecialSize(n) else n - 6;
      if |rest| < len then None
      else if n >= 6 then Some((rest[..len], rest[len..]))
      else
        match Decompress(k, n, rest[..len])
        case Some(script) => Some((script, rest[len..]))
        case None => Some(([], rest[len..]))
  }

  lemma ScriptRoundTrip(k: Curve, s: Script, rest: seq<Byte>)
    requires CurveOk(k) && |s| + 6 < U32
    ensures ReadScript(k, ScriptCode(k, s) + rest) == Some((s, rest))
  {
    if Compress(k, s).Some? {
      SpecialRoundTrip(k, s, rest);
    } else {
      PlainRoundTrip(k, s, rest);
    }
  }

  lemma PlainRoundTrip(k: Curve, s: Script, rest: seq<Byte>)
    requires |s| + 6 < U32
    ensures ReadScript(k, VarInt((|s| + 6) % U32) + s + rest) == Some((s, rest))
  {
    var n := |s| + 6;
    var tail := s + rest;
    ReadVarInt(n, tail);
    assert n % U32 == n;
    assert VarInt(n) + s + rest == VarInt(n) + tail;
    assert tail[..|s|] == s && tail[|s|..] == rest;
  }

  lemma SpecialRoundTrip(k: Curve, s: Script, rest: seq<Byte>)
    requires CurveOk(k) && Compress(k, s).Some?
    ensures ReadScript(k, ScriptCode(k, s) + rest) == Some((s, rest))
  {
    DecompressCompress(k, s);
    SpecialBack(k, Compress(k, s).value, s, rest);
  }

  lemma SpecialBack(k: Curve, c: seq<Byte>, s: Script, rest: seq<Byte>)
    requires c != [] && c[0] < 6 && |c| == 1 + GetSpecialSize(c[0]) && Decompress(k, c[0], c[1..]) == Some(s)
    ensures ReadScript(k, c + rest) == Some((s, rest))
  {
    var n, body := c[0], c[1..];
    ReadVarInt(n, body + rest);
    assert c + rest == VarInt(n) + (body + rest);
    assert (body + rest)[..|body|] == body && (body + rest)[|body|..] == rest;
  }

  // ---------- outputs ----------

  function Signed(limit: nat, n: nat): int {
    if 2 * n < limit then n else n - limit
  }

  function TxOutCode(k: Curve, o: TxOut): seq<Byte> {
    VarInt(CompressAmount(o.value % U64) % U64) + ScriptCode(k, o.script)
  }

  function ReadTxOut(k: Curve, s: seq<Byte>): Option<(TxOut, seq<Byte>)> {
    match ReadMod(U64, s)
    case None => None
    case Some((x, rest)) =>
      match ReadScript(k, rest)
      case None => None
      case Some((script, after)) => Some((TxOut(Signed(U64, DecompressAmount(x) % U64), script), after))
  }

  // ---------- codes that do not fit ----------

  /** An amount with a factor of ten has a code that is not larger than 64 bits. */
  lemma RoundFits(u: nat)
    requires 0 < u < U64 && u % 10 == 0
    ensures CompressAmount(u) < U64
  {
    ReduceSmaller(u, 0);
  }

  lemma UnroundCode(u: nat)
    requires u % 10 != 0
    ensures CompressAmount(u) == 9 * u + u % 10 - 9
  {
  }

  /** What `j` times 2^64 takes away from an amount, when it is taken away from its code. */
  function Shortfall(j: nat): nat {
    var k := j * U64 / 10 + 1;
    k / 9 * 10 + k % 9
  }

  /** A code that has wrapped `j` times, to the exponent `e`, stands for one of two mantissas. */
  lemma WrappedCode(u: nat, j: nat, e: nat, x: nat)
    requires u % 10 != 0 && x == 9 * u + u % 10 - 9 - j * U64 && 0 < e < 9 && (j * U64 + e) % 10 == 0
    ensures x > 0 && Unpack(x).1 == e
    ensures Unpack(x).0 + Shortfall(j) <= u <= Unpack(x).0 + Shortfall(j) + 1
  {
    var k := j * U64 / 10 + 1;
    var y := 9 * (u / 10) + u % 10 - 1 - k;
    WrappedDigits(u, j * U64, e, x, k, y);
    LowDigit(y, e);
    NinthsLeft(u / 10, u % 10, k, y);
  }

  lemma WrappedDigits(u: nat, w: nat, e: nat, x: nat, k: nat, y: int)
    requires x == 9 * u + u % 10 - 9 - w && 0 < e < 9 && (w + e) % 10 == 0 && k == w / 10 + 1
    requires y == 9 * (u / 10) + u % 10 - 1 - k
    ensures y >= 0 && x == y * 10 + e + 1
  {
  }

  /** Counting in nines and writing in tens: the shortfall is met, or missed by one. */
  lemma NinthsLeft(n: nat, d: nat, k: nat, y: nat)
    requires 1 <= d <= 9 && y == 9 * n + d - 1 - k
    ensures var m, short := y / 9 * 10 + y % 9 + 1, k / 9 * 10 + k % 9; m + short <= n * 10 + d <= m + short + 1
  {
    var a, b := k / 9, k % 9;
    if d - 1 >= b {
      DivUnique(y, 9, n - a, d - 1 - b);
    } else {
      DivUnique(y, 9, n - a - 1, d + 8 - b);
    }
  }

  /** Modulo 2^64 the factor 10^e - 1 has the inverse `inv`, so that at most one amount is 10^e times what is
      left of it without `k`. */
  lemma OnlyOne(u: nat, m: nat, p: nat, k: nat, inv: nat)
    requires u == m + k < U64 && (m * p) % U64 == u && p > 0 && (p - 1) * inv % U64 == 1
    ensures u == p * k * inv % U64
  {
    var z, t := m * p / U64, (p - 1) * inv / U64;
    DivMod(m * p, U64);
    DivMod((p - 1) * inv, U64);
    Rearranged(u, m, p, k, z, U64);
    TimesInverse(u, p - 1, inv, t, U64);
    Spread(p * k, z, inv, U64);
    SameRest(u, p * k * inv, z * inv - t * u);
  }

  lemma Rearranged(u: nat, m: nat, p: nat, k: nat, z: nat, w: nat)
    requires u == m + k && m * p == z * w + u && p > 0
    ensures (p - 1) * u == p * k + z * w
  {
    assert (m + k) * p == m * p + k * p;
  }

  lemma TimesInverse(u: nat, q: nat, inv: nat, t: nat, w: nat)
    requires q * inv == t * w + 1
    ensures q * u * inv == u + t * u * w
  {
    assert q * u * inv == u * (q * inv);
  }

  lemma Spread(a: nat, z: nat, inv: nat, w: nat)
    ensures (a + z * w) * inv == a * inv + z * inv * w
  {
  }

  lemma SameRest(u: nat, x: nat, z: int)
    requires u < U64 && u == x + z * U64
    ensures u == x % U64
  {
    DivUnique(x, U64, -z, u);
  }

  /** `u` ends in a zero, or its code does not wrap `j` times. */
  predicate Amiss(u: nat, j: nat) {
    u % 10 == 0 || 9 * u + u % 10 - 9 < j * U64 || (j + 1) * U64 <= 9 * u + u % 10 - 9
  }

  /** A code without exponent stands for an amount that is not larger. */
  lemma PlainCode(x: nat)
    requires x % 10 == 1
    ensures DecompressAmount(x) <= x
  {
    var y := (x - 1) / 10;
    LowDigit(y, 0);
    SmallMantissa(y);
    assert Unpack(x) == (y / 9 * 10 + y % 9 + 1, 0);
    assert Pow10(0) == 1;
  }

  /** Five times 2^64 is a multiple of ten: the exponent stays zero and the amount is another one. */
  lemma FiveWraps(u: nat, x: nat)
    requires u % 10 != 0 && CompressAmount(u) == 5 * U64 + x && x < U64
    ensures DecompressAmount(x) % U64 != u
  {
    UnroundCode(u);
    PlainCode(x);
    SmallMod(DecompressAmount(x));
    AmountOnto(x);
  }

  lemma SmallMantissa(y: nat)
    ensures y / 9 * 10 + y % 9 + 1 <= 2 * y + 1
  {
  }

  /** The exponent after `j` wraps, and the inverse of 10^e - 1. */
  function Exponent(j: nat): nat { 10 - j * U64 % 10 }

  function Inverse(e: nat): nat {
    match e
    case 2 => 12670490878911611211
    case 4 => 13458245626333751279
    case 6 => 1672254362768354751
    case _ => 300153063250403071
  }

  ghost predicate Misses(j: nat) {
    var e, k := Exponent(j), Shortfall(j);
    && 0 < e < 9 && (Pow10(e) - 1) * Inverse(e) % U64 == 1
    && Amiss(Pow10(e) * k * Inverse(e) % U64, j) && Amiss(Pow10(e) * (k + 1) * Inverse(e) % U64, j)
  }

  /** The same, with the three divisions carried out. */
  lemma MissesAt(j: nat, e: nat, inv: nat, k: nat, t: nat, z: nat, c: nat, z': nat, c': nat)
    requires Exponent(j) == e && 0 < e < 9 && Inverse(e) == inv && Shortfall(j) == k
    requires (Pow10(e) - 1) * inv == t * U64 + 1
    requires Pow10(e) * k * inv == z * U64 + c && Pow10(e) * (k + 1) * inv == z' * U64 + c'
    requires c < U64 && c' < U64 && Amiss(c, j) && Amiss(c', j)
    ensures Misses(j)
  {
    DivUnique((Pow10(e) - 1) * inv, U64, t, 1);
    DivUnique(Pow10(e) * k * inv, U64, z, c);
    DivUnique(Pow10(e) * (k + 1) * inv, U64, z', c');
  }

  lemma Misses1()
    ensures Misses(1)
  {
    assert Pow10(4) == 10000;
    MissesAt(1, 4, 13458245626333751279, 2049638230412172402, 7295,
             14953606251481945867176, 15288550632769423584,
             14953606251481945874472, 10300052185393623248);
  }

  lemma Misses2()
    ensures Misses(2)
  {
    assert Pow10(8) == 100000000;
    MissesAt(2, 8, 300153063250403071, 4099276460824344804, 1627133,
             6670068072231179356278725, 14480868974329830400,
             6670068072231179357905858, 14781022037580233472);
  }

  lemma Misses3()
    ensures Misses(3)
  {
    assert Pow10(2) == 100;
    MissesAt(3, 2, 12670490878911611211, 6148914691236517205, 68,
             422349695963720373677, 1925417731599313468,
             422349695963720373745, 14595908610510924680);
  }

  lemma Misses4()
    ensures Misses(4)
  {
    assert Pow10(6) == 1000000;
    MissesAt(4, 6, 1672254362768354751, 8198552921648689607, 90653,
             743224161230379889323260, 14161661572577611840,
             743224161230379889413913, 15833915935345966592);
  }

  lemma Misses6()
    ensures Misses(6)
  {
    assert Pow10(4) == 10000;
    MissesAt(6, 4, 13458245626333751279, 12297829382473034411, 7295,
             89721637508891675195765, 4486081875444583760,
             89721637508891675203060, 17944327501778335040);
  }

  lemma Misses7()
    ensures Misses(7)
  {
    assert Pow10(8) == 100000000;
    MissesAt(7, 8, 300153063250403071, 14347467612885206813, 1627133,
             23345238252809127745348407, 4266028162630124288,
             23345238252809127746975540, 4566181225880527360);
  }

  lemma Misses8()
    ensures Misses(8)
  {
    assert Pow10(2) == 100;
    MissesAt(8, 2, 12670490878911611211, 16397105843297379214, 68,
             1126265855903254329851, 7432526512302726184,
             1126265855903254329920, 1656273317504785780);
  }

  lemma EveryMisses(j: nat)
    requires 1 <= j <= 8 && j != 5
    ensures Misses(j)
  {
    match j
    case 1 => Misses1();
    case 2 => Misses2();
    case 3 => Misses3();
    case 4 => Misses4();
    case 6 => Misses6();
    case 7 => Misses7();
    case 8 => Misses8();
  }

  /** None of the two amounts that might come back has a code that wraps `j` times. */
  lemma WrapMisses(u: nat, j: nat, e: nat, p: nat, inv: nat, x: nat)
    requires u % 10 != 0 && u < U64 && 0 < e < 9 && (j * U64 + e) % 10 == 0 && p == Pow10(e)
    requires 9 * u + u % 10 - 9 == j * U64 + x && x < U64 && (p - 1) * inv % U64 == 1
    requires Amiss(p * Shortfall(j) * inv % U64, j) && Amiss(p * (Shortfall(j) + 1) * inv % U64, j)
    ensures DecompressAmount(x) % U64 != u
  {
    WrappedCode(u, j, e, x);
    var m := Unpack(x).0;
    assert DecompressAmount(x) == m * p;
    if u == m + Shortfall(j) {
      NotThisOne(u, j, m, p, Shortfall(j), inv, x);
    } else {
      NotThisOne(u, j, m, p, Shortfall(j) + 1, inv, x);
    }
  }

  lemma NotThisOne(u: nat, j: nat, m: nat, p: nat, k: nat, inv: nat, x: nat)
    requires u % 10 != 0 && u == m + k < U64 && 9 * u + u % 10 - 9 == j * U64 + x && x < U64
    requires p > 0 && (p - 1) * inv % U64 == 1 && Amiss(p * k * inv % U64, j)
    ensures (m * p) % U64 != u
  {
    if (m * p) % U64 == u { OnlyOne(u, m, p, k, inv); }
  }

  lemma ExponentEnds(j: nat)
    ensures (j * U64 + Exponent(j)) % 10 == 0
  {
  }

  lemma OneWrap(u: nat, j: nat, x: nat)
    requires u % 10 != 0 && u < U64 && CompressAmount(u) == j * U64 + x && x < U64 && Misses(j)
    ensures DecompressAmount(x) % U64 != u
  {
    var e := Exponent(j);
    UnroundCode(u);
    ExponentEnds(j);
    WrapMisses(u, j, e, Pow10(e), Inverse(e), x);
  }

  lemma WrapCount(u: nat)
    requires u < U64 && CompressAmount(u) >= U64
    ensures u % 10 != 0 && 1 <= CompressAmount(u) / U64 <= 8
  {
    if u > 0 && u % 10 == 0 { RoundFits(u); }
    UnroundCode(u);
  }

  /** A code that does not fit 64 bits never leads back to its amount. */
  lemma WrapLoses(u: nat)
    requires u < U64 && CompressAmount(u) >= U64
    ensures DecompressAmount(CompressAmount(u) % U64) % U64 != u
  {
    var j := CompressAmount(u) / U64;
    WrapCount(u);
    DivMod(CompressAmount(u), U64);
    if j == 5 {
      FiveWraps(u, CompressAmount(u) % U64);
    } else {
      EveryMisses(j);
      OneWrap(u, j, CompressAmount(u) % U64);
    }
  }

  lemma AmountExact(u: nat)
    requires u < U64
    ensures DecompressAmount(CompressAmount(u) % U64) % U64 == u <==> CompressAmount(u) < U64
  {
    if CompressAmount(u) < U64 {
      SmallMod(CompressAmount(u));
      AmountRoundTrip(u);
      SmallMod(u);
    } else {
      WrapLoses(u);
    }
  }

  // ---------- outputs come back ----------

  /** A signed 64-bit amount, and a script whose length fits. */
  ghost predicate Writable(o: TxOut) {
    0 <= 2 * o.value + U64 < 2 * U64 && |o.script| + 6 < U32
  }

  /** The code of the amount fits 64 bits, as that of every amount of money does. */
  ghost predicate Storable(o: TxOut) {
    Writable(o) && CompressAmount(o.value % U64) < U64
  }

  const MAX_MONEY: nat := 4200000000000

  lemma MoneyStorable(o: TxOut)
    requires 0 <= o.value <= MAX_MONEY && |o.script| + 6 < U32
    ensures Storable(o)
  {
    SmallMod(o.value);
    CompressBound(o.value);
  }

  /** An output comes back, and nothing beyond it is read, exactly when the code of its amount fits. */
  lemma TxOutRoundTrip(k: Curve, o: TxOut, rest: seq<Byte>)
    requires CurveOk(k) && Writable(o)
    ensures ReadTxOut(k, TxOutCode(k, o) + rest) == Some((o, rest)) <==> Storable(o)
  {
    var x := CompressAmount(o.value % U64) % U64;
    var tail := ScriptCode(k, o.script) + rest;
    ReadVarInt(x, tail);
    SmallMod(x);
    ScriptRoundTrip(k, o.script, rest);
    assert TxOutCode(k, o) + rest == VarInt(x) + tail;
    AmountExact(o.value % U64);
    SignedBack(o.value, DecompressAmount(x) % U64);
  }

  /** An instance: an amount of 2^62 - 1, whatever its script, does not come back. */
  lemma LargeAmountLost(k: Curve, script: Script, rest: seq<Byte>)
    requires CurveOk(k) && |script| + 6 < U32
    ensures var o := TxOut(0x3fff_ffff_ffff_ffff, script); ReadTxOut(k, TxOutCode(k, o) + rest) != Some((o, rest))
  {
    var o := TxOut(0x3fff_ffff_ffff_ffff, script);
    SmallMod(o.value);
    UnroundCode(o.value);
    TxOutRoundTrip(k, o, rest);
  }

  lemma SignedBack(value: int, n: nat)
    requires 0 <= 2 * value + U64 < 2 * U64 && n < U64
    ensures Signed(U64, n) == value <==> n == value % U64
  {
  }

  lemma SmallMod(n: nat)
    requires n < U64
    ensures n % U64 == n
  {
  }

  method WriteScript(os: Stream, k: Curve, s: Script)
    modifies os
    ensures os.vch == old(os.vch) + ScriptCode(k, s)
  {
    var compr := Compress(k, s);
    if compr.Some? {
      os.Write(compr.value);
      return;
    }
    Widths();
    WriteVarInt(os, (|s| + 6) % U32, 32);
    os.Write(s);
  }

  method WriteTxOut(os: Stream, k: Curve, o: TxOut)
    modifies os
    ensures os.vch == old(os.vch) + TxOutCode(k, o)
  {
    var x := CompressAmountLoop(o.value % U64);
    Widths();
    WriteVarInt(os, x, 64);
    WriteScript(os, k, o.script);
    assert old(os.vch) + VarInt(x) + ScriptCode(k, o.script) == old(os.vch) + (VarInt(x) + ScriptCode(k, o.script));
  }

  method ReadScriptFrom(is_: Stream, k: Curve) returns (r: Option<Script>)
    modifies is_
    ensures match ReadScript(k, old(is_.vch))
            case None => r.None?
            case Some(p) => r == Some(p.0) && is_.vch == p.1
  {
    var size := ReadVarIntLoop(is_, U32);
    if size.None? { return None; }
    var n := size.value;
    var body := is_.Take(if n < 6 then GetSpecialSize(n) else n - 6);
    if body.None? || n >= 6 { return body; }
    r := Decompress(k, n, body.value);
    if r.None? { r := Some([]); }
  }

  method ReadTxOutFrom(is_: Stream, k: Curve) returns (r: Option<TxOut>)
    modifies is_
    ensures match ReadTxOut(k, old(is_.vch))
            case None => r.None?
            case Some(p) => r == Some(p.0) && is_.vch == p.1
  {
    var x := ReadVarIntLoop(is_, U64);
    if x.None? { return None; }
    var n := DecompressAmountLoop(x.value);
    var script := ReadScriptFrom(is_, k);
    if script.None? { return None; }
    r := Some(TxOut(Signed(U64, n), script.value));
  }

  /** The size of a script's code, without writing it. */
  method ScriptSize(k: Curve, s: Script) returns (size: nat)
    ensures size == |ScriptCode(k, s)|
  {
    var compr := Compress(k, s);
    if compr.Some? { return |compr.value|; }
    size := GetSizeOfVarInt((|s| + 6) % U32);
    size := size + |s|;
  }

  method TxOutSize(k: Curve, o: TxOut) returns (size: nat)
    ensures size == |TxOutCode(k, o)|
  {
    var x := CompressAmountLoop(o.value % U64);
    size := GetSizeOfVarInt(x);
    var n := ScriptSize(k, o.script);
    size := size + n;
  }
}
