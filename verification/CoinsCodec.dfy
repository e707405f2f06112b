/** How the unspent outputs of a transaction are stored: version, a header code, a bit mask of the outputs
    that are left, those outputs, and the height. */
module CoinsCodec {
  import opened Common
  import opened Arith
  import opened VarInts
  import opened CoinsData
  import opened Compressor

  // ---------- bits and mask bytes ----------

  function BitValue(f: seq<bool>): (x: nat)
    ensures x < Pow2(|f|)
  {
    if f == [] then 0 else (if f[0] then 1 else 0) + 2 * BitValue(f[1..])
  }

  function BitsOf(x: nat, n: nat): (f: seq<bool>)
    ensures |f| == n
  {
    if n == 0 then [] else [x % 2 == 1] + BitsOf(x / 2, n - 1)
  }

  lemma {:induction false} BitsOfValue(f: seq<bool>)
    ensures BitsOf(BitValue(f), |f|) == f
  {
    if f != [] { BitsOfValue(f[1..]); }
  }

  lemma {:induction false} ZeroValue(f: seq<bool>)
    ensures BitValue(f) == 0 <==> forall i :: 0 <= i < |f| ==> !f[i]
  {
    if f != [] {
      ZeroValue(f[1..]);
      assert forall i :: 0 < i < |f| ==> f[i] == f[1..][i - 1];
    }
  }

  function NonZero(m: seq<Byte>): nat {
    if m == [] then 0 else NonZero(m[..|m| - 1]) + (if m[|m| - 1] != 0 then 1 else 0)
  }

  /** Mask bytes up to the last used one, and how many of them are used. */
  function MaskSize(m: seq<Byte>): (r: (nat, nat))
    ensures r.1 <= r.0 <= |m|
  {
    if m == [] then (0, 0)
    else
      var r := MaskSize(m[..|m| - 1]);
      if m[|m| - 1] != 0 then (|m|, r.1 + 1) else r
  }

  lemma {:induction false} MaskSizeExact(m: seq<Byte>)
    ensures var r := MaskSize(m);
            && r.1 == NonZero(m[..r.0])
            && (r.0 > 0 ==> m[r.0 - 1] != 0)
            && (forall j :: r.0 <= j < |m| ==> m[j] == 0)
  {
    if m != [] {
      var n := |m| - 1;
      var r := MaskSize(m[..n]);
      MaskSizeExact(m[..n]);
      assert m[..n][..r.0] == m[..r.0];
      if m[n] != 0 {
        NonZeroUpTo(m[..n], r.0);
        assert m[..n + 1] == m;
      }
    }
  }

  lemma {:induction false} NonZeroUpTo(m: seq<Byte>, k: nat)
    requires k <= |m| && forall j :: k <= j < |m| ==> m[j] == 0
    ensures NonZero(m) == NonZero(m[..k])
  {
    if k < |m| {
      NonZeroUpTo(m[..|m| - 1], k);
      assert m[..|m| - 1][..k] == m[..k];
    } else {
      assert m[..k] == m;
    }
  }

  /** Read mask bytes until `count` of them were not zero. */
  function ReadMask(s: seq<Byte>, count: nat): Option<(seq<bool>, seq<Byte>)>
    decreases |s|
  {
    if count == 0 then Some(([], s))
    else if s == [] then None
    else
      match ReadMask(s[1..], if s[0] != 0 then count - 1 else count)
      case None => None
      case Some((f, rest)) => Some((BitsOf(s[0], 8) + f, rest))
  }

  function AllBits(m: seq<Byte>): seq<bool> {
    if m == [] then [] else AllBits(m[..|m| - 1]) + BitsOf(m[|m| - 1], 8)
  }

  lemma {:induction false} FrontCount(x: Byte, m: seq<Byte>)
    ensures NonZero([x] + m) == (if x != 0 then 1 else 0) + NonZero(m)
  {
    if m == [] {
      assert ([x] + m)[..0] == [];
    } else {
      FrontCount(x, m[..|m| - 1]);
      assert ([x] + m)[..|m|] == [x] + m[..|m| - 1];
    }
  }

  lemma {:induction false} FrontBits(x: Byte, m: seq<Byte>)
    ensures AllBits([x] + m) == BitsOf(x, 8) + AllBits(m)
  {
    if m == [] {
      assert ([x] + m)[..0] == [];
    } else {
      FrontBits(x, m[..|m| - 1]);
      assert ([x] + m)[..|m|] == [x] + m[..|m| - 1];
    }
  }

  lemma {:induction false} ReadMaskExact(m: seq<Byte>, rest: seq<Byte>)
    requires m != [] ==> m[|m| - 1] != 0
    ensures ReadMask(m + rest, NonZero(m)) == Some((AllBits(m), rest))
    decreases |m|
  {
    if m == [] {
      assert m + rest == rest;
    } else {
      var x, t := m[0], m[1..];
      assert m == [x] + t;
      FrontCount(x, t);
      FrontBits(x, t);
      ReadMaskExact(t, rest);
      LastUsed(m);
      ReadMaskFront(x, t, rest, NonZero(t), AllBits(t));
    }
  }

  lemma LastUsed(m: seq<Byte>)
    requires m != [] && m[|m| - 1] != 0
    ensures NonZero(m) > 0
  {
  }

  lemma ReadMaskFront(x: Byte, t: seq<Byte>, rest: seq<Byte>, count: nat, f: seq<bool>)
    requires ReadMask(t + rest, count) == Some((f, rest)) && (x != 0 || count > 0)
    ensures ReadMask([x] + t + rest, (if x != 0 then 1 else 0) + count) == Some((BitsOf(x, 8) + f, rest))
  {
    var s := [x] + t + rest;
    assert s[1..] == t + rest;
  }

  // ---------- the mask of available outputs ----------

  predicate Avail(vout: seq<TxOut>, i: nat) {
    i < |vout| && !IsNull(vout[i])
  }

  /** The outputs from `lo` up to `hi`. */
  function Flags(vout: seq<TxOut>, lo: nat, hi: nat): (f: seq<bool>)
    requires lo <= hi
    ensures |f| == hi - lo
    decreases hi - lo
  {
    if lo == hi then [] else Flags(vout, lo, hi - 1) + [Avail(vout, hi - 1)]
  }

  lemma {:induction false} FlagsAt(vout: seq<TxOut>, lo: nat, hi: nat, i: nat)
    requires lo <= i < hi
    ensures Flags(vout, lo, hi)[i - lo] == Avail(vout, i)
    decreases hi
  {
    if i < hi - 1 { FlagsAt(vout, lo, hi - 1, i); }
  }

  lemma {:induction false} FlagsSplit(vout: seq<TxOut>, lo: nat, mid: nat, hi: nat)
    requires lo <= mid <= hi
    ensures Flags(vout, lo, hi) == Flags(vout, lo, mid) + Flags(vout, mid, hi)
    decreases hi
  {
    if mid < hi { FlagsSplit(vout, lo, mid, hi - 1); }
  }

  function MaskByte(vout: seq<TxOut>, b: nat): (x: Byte) {
    ByteValue(Flags(vout, 2 + 8 * b, 10 + 8 * b))
  }

  function ByteValue(f: seq<bool>): Byte
    requires |f| == 8
  {
    assert Pow2(8) == 256;
    BitValue(f)
  }

  function Mask(vout: seq<TxOut>, k: nat): (m: seq<Byte>)
    ensures |m| == k
  {
    if k == 0 then [] else Mask(vout, k - 1) + [MaskByte(vout, k - 1)]
  }

  lemma {:induction false} MaskPrefix(vout: seq<TxOut>, k: nat, n: nat)
    requires k <= n
    ensures Mask(vout, n)[..k] == Mask(vout, k)
  {
    if k < n { MaskPrefix(vout, k, n - 1); }
  }

  lemma OctetBits(vout: seq<TxOut>, b: nat)
    ensures BitsOf(MaskByte(vout, b), 8) == Flags(vout, 2 + 8 * b, 10 + 8 * b)
  {
    BitsOfValue(Flags(vout, 2 + 8 * b, 10 + 8 * b));
  }

  lemma {:induction false} MaskBits(vout: seq<TxOut>, k: nat)
    ensures AllBits(Mask(vout, k)) == Flags(vout, 2, 2 + 8 * k)
  {
    if k > 0 {
      var b := k - 1;
      MaskBits(vout, b);
      OctetBits(vout, b);
      FlagsSplit(vout, 2, 2 + 8 * b, 10 + 8 * b);
      assert Mask(vout, k)[..b] == Mask(vout, b);
    }
  }

  // ---------- the outputs ----------

  /** How one output is written and read. */
  datatype Codec = Codec(write: TxOut -> seq<Byte>, read: seq<Byte> -> Option<(TxOut, seq<Byte>)>)

  ghost predicate RoundTrips(w: Codec, o: TxOut) {
    forall rest :: w.read(w.write(o) + rest) == Some((o, rest))
  }

  /** Spent outputs are cleared altogether and the others survive being stored. */
  ghost predicate Sound(w: Codec, o: TxOut) {
    if IsNull(o) then o == NULL_OUT else RoundTrips(w, o)
  }

  ghost predicate AllSound(w: Codec, vout: seq<TxOut>) {
    forall i :: 0 <= i < |vout| ==> Sound(w, vout[i])
  }

  function OutCode(w: Codec, o: TxOut): seq<Byte> {
    if IsNull(o) then [] else w.write(o)
  }

  function OutsCode(w: Codec, vout: seq<TxOut>, i: nat): seq<Byte>
    decreases |vout| - i
  {
    if i >= |vout| then [] else OutCode(w, vout[i]) + OutsCode(w, vout, i + 1)
  }

  function ReadOut(w: Codec, avail: bool, s: seq<Byte>): Option<(TxOut, seq<Byte>)> {
    if avail then w.read(s) else Some((NULL_OUT, s))
  }

  function ReadOuts(w: Codec, f: seq<bool>, s: seq<Byte>): Option<(seq<TxOut>, seq<Byte>)>
    decreases |f|
  {
    if f == [] then Some(([], s))
    else
      match ReadOut(w, f[0], s)
      case None => None
      case Some((o, rest)) =>
        match ReadOuts(w, f[1..], rest)
        case None => None
        case Some((vout, after)) => Some(([o] + vout, after))
  }

  function OutAt(vout: seq<TxOut>, i: nat): TxOut {
    if i < |vout| then vout[i] else NULL_OUT
  }

  function Padded(vout: seq<TxOut>, i: nat, n: nat): seq<TxOut>
    requires i <= n
    decreases n - i
  {
    if i == n then [] else [OutAt(vout, i)] + Padded(vout, i + 1, n)
  }

  lemma OutBack(w: Codec, vout: seq<TxOut>, i: nat, rest: seq<Byte>)
    requires AllSound(w, vout)
    ensures ReadOut(w, Avail(vout, i), OutsCode(w, vout, i) + rest)
         == Some((OutAt(vout, i), OutsCode(w, vout, i + 1) + rest))
  {
    var tail := OutsCode(w, vout, i + 1);
    if i < |vout| {
      var o := vout[i];
      assert Sound(w, o);
      var s := OutsCode(w, vout, i) + rest;
      assert s == OutCode(w, o) + (tail + rest);
      if IsNull(o) {
        assert [] + (tail + rest) == tail + rest;
      } else {
        assert w.read(w.write(o) + (tail + rest)) == Some((o, tail + rest));
      }
    }
  }

  lemma {:induction false} NothingLeft(w: Codec, vout: seq<TxOut>, i: nat)
    requires forall j :: i <= j < |vout| ==> IsNull(vout[j])
    ensures OutsCode(w, vout, i) == []
    decreases |vout| - i
  {
    if i < |vout| { NothingLeft(w, vout, i + 1); }
  }

  lemma {:induction false} ReadOutsExact(w: Codec, vout: seq<TxOut>, i: nat, n: nat, rest: seq<Byte>)
    requires AllSound(w, vout) && i <= n && forall j :: n <= j < |vout| ==> IsNull(vout[j])
    ensures ReadOuts(w, Flags(vout, i, n), OutsCode(w, vout, i) + rest) == Some((Padded(vout, i, n), rest))
    decreases n - i
  {
    if i == n {
      NothingLeft(w, vout, i);
      assert OutsCode(w, vout, i) + rest == rest;
    } else {
      ReadOutsExact(w, vout, i + 1, n, rest);
      OutBack(w, vout, i, rest);
      FlagsSplit(vout, i, i + 1, n);
      var f := Flags(vout, i, n);
      assert f == [Avail(vout, i)] + Flags(vout, i + 1, n);
      assert f[1..] == Flags(vout, i + 1, n);
    }
  }

  lemma {:induction false} PaddedAt(vout: seq<TxOut>, i: nat, n: nat)
    requires i <= n
    ensures |Padded(vout, i, n)| == n - i && forall j :: 0 <= j < n - i ==> Padded(vout, i, n)[j] == OutAt(vout, i + j)
    decreases n - i
  {
    if i < n {
      PaddedAt(vout, i + 1, n);
      var p, q := Padded(vout, i, n), Padded(vout, i + 1, n);
      forall j | 0 <= j < n - i ensures p[j] == OutAt(vout, i + j) {
        if j > 0 { assert p[j] == q[j - 1]; }
      }
    }
  }

  lemma {:induction false} TrimAt(vout: seq<TxOut>, k: nat)
    requires k <= |vout| && AllNull(vout[k..]) && (k == 0 || !IsNull(vout[k - 1]))
    ensures Trim(vout) == vout[..k]
  {
    var n := |vout| - 1;
    if k <= n {
      assert IsNull(vout[k..][n - k]);
      assert vout[..n][k..] == vout[k..][..n - k];
      TrimAt(vout[..n], k);
      assert vout[..n][..k] == vout[..k];
    }
  }

  // ---------- the whole entry ----------

  /** Bit 0: coinbase; bits 1 and 2: the first two outputs; above: used mask bytes, less one when neither
      of the first two is left. */
  function HeaderCode(coinBase: bool, first: bool, second: bool, used: nat): nat
    requires first || second || used > 0
  {
    8 * (used - (if first || second then 0 else 1))
      + (if coinBase then 1 else 0) + (if first then 2 else 0) + (if second then 4 else 0)
  }

  function UsedOf(header: nat): nat {
    header / 8 + (if header / 2 % 2 == 1 || header / 4 % 2 == 1 then 0 else 1)
  }

  lemma ThreeBits(u: nat, a: nat, b: nat, c: nat)
    requires a < 2 && b < 2 && c < 2
    ensures var x := 8 * u + a + 2 * b + 4 * c; x % 2 == a && x / 2 % 2 == b && x / 4 % 2 == c && x / 8 == u
  {
    var x := 8 * u + a + 2 * b + 4 * c;
    var y, z := 4 * u + 2 * c + b, 2 * u + c;
    DivUnique(x, 2, y, a);
    DivUnique(x, 4, z, a + 2 * b);
    DivUnique(x, 8, u, a + 2 * b + 4 * c);
    DivUnique(y, 2, z, b);
    DivUnique(z, 2, u, c);
  }

  lemma HeaderDecode(coinBase: bool, first: bool, second: bool, used: nat)
    requires first || second || used > 0
    ensures var x := HeaderCode(coinBase, first, second, used);
            && (x % 2 == 1) == coinBase && (x / 2 % 2 == 1) == first && (x / 4 % 2 == 1) == second && UsedOf(x) == used
  {
    var u := used - (if first || second then 0 else 1);
    ThreeBits(u, if coinBase then 1 else 0, if first then 1 else 0, if second then 1 else 0);
  }

  /** How many bytes the outputs after the first two take. */
  function Octets(n: nat): nat {
    if n <= 2 then 0 else (n + 5) / 8
  }

  function MaskOf(vout: seq<TxOut>): (nat, nat) {
    MaskSize(Mask(vout, Octets(|vout|)))
  }

  lemma {:induction false} MaskAt(vout: seq<TxOut>, b: nat, k: nat)
    requires b < k
    ensures Mask(vout, k)[b] == MaskByte(vout, b)
  {
    if b < k - 1 { MaskAt(vout, b, k - 1); }
  }

  /** An output that is left makes its mask byte non-zero. */
  lemma Used(vout: seq<TxOut>, i: nat)
    requires Avail(vout, i) && i >= 2
    ensures (i - 2) / 8 < MaskOf(vout).0
  {
    var b := (i - 2) / 8;
    var k := Octets(|vout|);
    FlagsAt(vout, 2 + 8 * b, 10 + 8 * b, i);
    ZeroValue(Flags(vout, 2 + 8 * b, 10 + 8 * b));
    MaskAt(vout, b, k);
    MaskSizeExact(Mask(vout, k));
  }

  /** The code's assertion: when something is left, the mask is used or one of the first two is left. */
  lemma SomethingLeft(vout: seq<TxOut>)
    requires !AllNull(vout)
    ensures Avail(vout, 0) || Avail(vout, 1) || MaskOf(vout).1 > 0
  {
    var i :| 0 <= i < |vout| && !IsNull(vout[i]);
    if i >= 2 {
      Used(vout, i);
      var m := Mask(vout, Octets(|vout|));
      MaskSizeExact(m);
      var k := MaskOf(vout).0;
      assert m[..k][k - 1] != 0;
    }
  }

  function HeaderOf(c: Coins): nat
    requires !IsPruned(c)
  {
    SomethingLeft(c.vout);
    HeaderCode(c.coinBase, Avail(c.vout, 0), Avail(c.vout, 1), MaskOf(c.vout).1)
  }

  function BodyCode(w: Codec, vout: seq<TxOut>): seq<Byte> {
    Mask(vout, MaskOf(vout).0) + OutsCode(w, vout, 0)
  }

  function CoinsCode(w: Codec, c: Coins): seq<Byte>
    requires !IsPruned(c)
  {
    IntCode(c.version) + VarInt(HeaderOf(c)) + BodyCode(w, c.vout) + IntCode(c.height)
  }

  function ReadInt(s: seq<Byte>): Option<(int, seq<Byte>)> {
    match ReadMod(U32, s)
    case None => None
    case Some((n, rest)) => Some((Signed(U32, n), rest))
  }

  function ReadVout(w: Codec, header: nat, s: seq<Byte>): Option<(seq<TxOut>, seq<Byte>)> {
    match ReadMask(s, UsedOf(header))
    case None => None
    case Some((f, rest)) => ReadOuts(w, [header / 2 % 2 == 1, header / 4 % 2 == 1] + f, rest)
  }

  function ReadCoins(w: Codec, s: seq<Byte>): Option<(Coins, seq<Byte>)> {
    match ReadInt(s)
    case None => None
    case Some((version, s1)) => ReadHeaded(w, version, s1)
  }

  function ReadHeaded(w: Codec, version: int, s: seq<Byte>): Option<(Coins, seq<Byte>)> {
    match ReadMod(U32, s)
    case None => None
    case Some((header, s2)) =>
      match ReadVout(w, header, s2)
      case None => None
      case Some((vout, s3)) =>
        match ReadInt(s3)
        case None => None
        case Some((height, rest)) => Some((Cleanup(Coins(header % 2 == 1, vout, height, version)), rest))
  }

  /** The mask covers every output that is left. */
  lemma MaskWidth(vout: seq<TxOut>, i: nat)
    requires 2 + 8 * MaskOf(vout).0 <= i < |vout|
    ensures IsNull(vout[i])
  {
    if Avail(vout, i) { Used(vout, i); }
  }

  /** The mask comes back as the flags of all outputs that it covers. */
  lemma MaskBack(vout: seq<TxOut>, tail: seq<Byte>)
    ensures var (bytes, used) := MaskOf(vout);
            ReadMask(Mask(vout, bytes) + tail, used) == Some((Flags(vout, 2, 2 + 8 * bytes), tail))
  {
    var (bytes, used) := MaskOf(vout);
    MaskSizeExact(Mask(vout, Octets(|vout|)));
    MaskPrefix(vout, bytes, Octets(|vout|));
    ReadMaskExact(Mask(vout, bytes), tail);
    MaskBits(vout, bytes);
  }

  /** The outputs come back without the spent ones at the end. */
  lemma TrimPadded(vout: seq<TxOut>, n: nat)
    requires forall j :: n <= j < |vout| ==> IsNull(vout[j])
    ensures Trim(Padded(vout, 0, n)) == Trim(vout)
  {
    var p, v := Padded(vout, 0, n), Trim(vout);
    var k := |v|;
    PaddedAt(vout, 0, n);
    assert k > 0 ==> v[k - 1] == vout[k - 1];
    forall j | k <= j < n ensures IsNull(p[j]) {
      if j < |vout| { assert IsNull(vout[k..][j - k]); }
    }
    TrimAt(p, k);
    assert p[..k] == v;
  }

  lemma VoutBack(w: Codec, c: Coins, rest: seq<Byte>)
    requires !IsPruned(c) && AllSound(w, c.vout)
    ensures var n := 2 + 8 * MaskOf(c.vout).0;
            ReadVout(w, HeaderOf(c), BodyCode(w, c.vout) + rest) == Some((Padded(c.vout, 0, n), rest))
  {
    var (bytes, used) := MaskOf(c.vout);
    var n := 2 + 8 * bytes;
    var tail := OutsCode(w, c.vout, 0) + rest;
    HeaderFlags(c);
    BodyThen(Mask(c.vout, bytes), OutsCode(w, c.vout, 0), rest);
    MaskBack(c.vout, tail);
    VoutFrom(w, HeaderOf(c), Mask(c.vout, bytes) + tail, used, Flags(c.vout, 2, n), tail,
             Avail(c.vout, 0), Avail(c.vout, 1));
    OutsBack(w, c.vout, n, rest);
  }

  /** What a header code says of the outputs. */
  predicate Flagged(header: nat, used: nat, first: bool, second: bool) {
    UsedOf(header) == used && (header / 2 % 2 == 1) == first && (header / 4 % 2 == 1) == second
  }

  lemma HeaderFlags(c: Coins)
    requires !IsPruned(c)
    ensures Flagged(HeaderOf(c), MaskOf(c.vout).1, Avail(c.vout, 0), Avail(c.vout, 1))
  {
    SomethingLeft(c.vout);
    HeaderDecode(c.coinBase, Avail(c.vout, 0), Avail(c.vout, 1), MaskOf(c.vout).1);
  }

  lemma VoutFrom(
    w: Codec, header: nat, s: seq<Byte>, used: nat, f: seq<bool>, tail: seq<Byte>, first: bool, second: bool)
    requires Flagged(header, used, first, second) && ReadMask(s, used) == Some((f, tail))
    ensures ReadVout(w, header, s) == ReadOuts(w, [first, second] + f, tail)
  {
  }

  lemma OutsBack(w: Codec, vout: seq<TxOut>, n: nat, rest: seq<Byte>)
    requires AllSound(w, vout) && n == 2 + 8 * MaskOf(vout).0
    ensures ReadOuts(w, [Avail(vout, 0), Avail(vout, 1)] + Flags(vout, 2, n), OutsCode(w, vout, 0) + rest)
         == Some((Padded(vout, 0, n), rest))
  {
    FirstTwo(vout, n);
    forall j | n <= j < |vout| ensures IsNull(vout[j]) { MaskWidth(vout, j); }
    ReadOutsExact(w, vout, 0, n, rest);
  }

  lemma BodyThen(mask: seq<Byte>, outs: seq<Byte>, rest: seq<Byte>)
    ensures mask + outs + rest == mask + (outs + rest)
  {
  }

  lemma FirstTwo(vout: seq<TxOut>, n: nat)
    requires n >= 2
    ensures [Avail(vout, 0), Avail(vout, 1)] + Flags(vout, 2, n) == Flags(vout, 0, n)
  {
    FlagsSplit(vout, 0, 2, n);
    assert Flags(vout, 0, 1) == [Avail(vout, 0)];
  }

  /** What is left of a signed number: a negative one keeps its low seven bits. */
  function Kept(n: int): int {
    if n < 0 then n % 128 else n
  }

  lemma IntBack(n: int, rest: seq<Byte>)
    requires n < U32 / 2
    ensures ReadInt(IntCode(n) + rest) == Some((Kept(n), rest))
  {
    ReadVarInt(Kept(n), rest);
  }

  /** Version and height are signed 32-bit numbers, and the unsigned counters over the outputs do not
      overflow. */
  ghost predicate InRange(c: Coins) {
    c.version < U32 / 2 && c.height < U32 / 2 && |c.vout| + 16 < U32
  }

  lemma HeaderFits(c: Coins)
    requires !IsPruned(c) && InRange(c)
    ensures HeaderOf(c) < U32
  {
  }

  /** Everything that is read back from an entry. */
  lemma CoinsBack(w: Codec, c: Coins, rest: seq<Byte>)
    requires !IsPruned(c) && AllSound(w, c.vout) && InRange(c)
    ensures ReadCoins(w, CoinsCode(w, c) + rest)
         == Some((Cleanup(c).(version := Kept(c.version), height := Kept(c.height)), rest))
  {
    var s1 := VarInt(HeaderOf(c)) + (BodyCode(w, c.vout) + (IntCode(c.height) + rest));
    Regroup(IntCode(c.version), VarInt(HeaderOf(c)), BodyCode(w, c.vout), IntCode(c.height), rest);
    IntBack(c.version, s1);
    ReadStart(w, CoinsCode(w, c) + rest, Kept(c.version), s1);
    HeadedBack(w, c, rest, Kept(c.version));
  }

  lemma Regroup(a: seq<Byte>, b: seq<Byte>, c: seq<Byte>, d: seq<Byte>, rest: seq<Byte>)
    ensures a + b + c + d + rest == a + (b + (c + (d + rest)))
  {
  }

  lemma ReadStart(w: Codec, s: seq<Byte>, version: int, s1: seq<Byte>)
    requires ReadInt(s) == Some((version, s1))
    ensures ReadCoins(w, s) == ReadHeaded(w, version, s1)
  {
  }

  lemma HeadedBack(w: Codec, c: Coins, rest: seq<Byte>, version: int)
    requires !IsPruned(c) && AllSound(w, c.vout) && InRange(c)
    ensures ReadHeaded(w, version, VarInt(HeaderOf(c)) + (BodyCode(w, c.vout) + (IntCode(c.height) + rest)))
         == Some((Cleanup(c).(version := version, height := Kept(c.height)), rest))
  {
    var s3 := IntCode(c.height) + rest;
    HeaderBack(c, BodyCode(w, c.vout) + s3);
    VoutBack(w, c, s3);
    IntBack(c.height, rest);
    VoutTrimmed(c);
  }

  lemma HeaderBack(c: Coins, s: seq<Byte>)
    requires !IsPruned(c) && InRange(c)
    ensures ReadMod(U32, VarInt(HeaderOf(c)) + s) == Some((HeaderOf(c), s)) && (HeaderOf(c) % 2 == 1) == c.coinBase
  {
    HeaderFits(c);
    ReadVarInt(HeaderOf(c), s);
    SomethingLeft(c.vout);
    HeaderDecode(c.coinBase, Avail(c.vout, 0), Avail(c.vout, 1), MaskOf(c.vout).1);
  }

  lemma VoutTrimmed(c: Coins)
    ensures Trim(Padded(c.vout, 0, 2 + 8 * MaskOf(c.vout).0)) == Trim(c.vout)
  {
    var n := 2 + 8 * MaskOf(c.vout).0;
    forall j | n <= j < |c.vout| ensures IsNull(c.vout[j]) { MaskWidth(c.vout, j); }
    TrimPadded(c.vout, n);
  }

  /** A clean entry comes back as it was, and no byte too many is read, exactly when its version and height
      are not negative. */
  lemma CoinsRoundTrip(w: Codec, c: Coins, rest: seq<Byte>)
    requires Clean(c) && !IsPruned(c) && AllSound(w, c.vout) && InRange(c)
    ensures ReadCoins(w, CoinsCode(w, c) + rest) == Some((c, rest)) <==> c.version >= 0 && c.height >= 0
  {
    CoinsBack(w, c, rest);
  }

  // ---------- with the real output codec ----------

  function Standard(k: Curve): Codec {
    Codec(o => TxOutCode(k, o), s => ReadTxOut(k, s))
  }

  lemma StandardSound(k: Curve, o: TxOut)
    requires CurveOk(k) && (IsNull(o) ==> o == NULL_OUT) && (!IsNull(o) ==> Storable(o))
    ensures Sound(Standard(k), o)
  {
    if !IsNull(o) {
      forall rest ensures Standard(k).read(Standard(k).write(o) + rest) == Some((o, rest)) {
        TxOutRoundTrip(k, o, rest);
      }
    }
  }

  lemma AllStandard(k: Curve, vout: seq<TxOut>)
    requires CurveOk(k) && forall i :: 0 <= i < |vout| ==> vout[i] == NULL_OUT || Storable(vout[i])
    ensures AllSound(Standard(k), vout)
  {
    forall i | 0 <= i < |vout| ensures Sound(Standard(k), vout[i]) { StandardSound(k, vout[i]); }
  }

  predicate IsMoney(o: TxOut) {
    0 <= o.value <= MAX_MONEY && |o.script| + 6 < U32
  }

  /** Amounts whose code fits 64 bits, as that of every amount of money does, and any script: the entry
      survives. */
  lemma StoredCoins(k: Curve, c: Coins, rest: seq<Byte>)
    requires CurveOk(k) && Clean(c) && !IsPruned(c) && InRange(c)
    requires forall i :: 0 <= i < |c.vout| ==> c.vout[i] == NULL_OUT || Storable(c.vout[i])
    ensures ReadCoins(Standard(k), CoinsCode(Standard(k), c) + rest) == Some((c, rest))
       <==> c.version >= 0 && c.height >= 0
  {
    AllStandard(k, c.vout);
    CoinsRoundTrip(Standard(k), c, rest);
  }

  /** A transaction of version -1 is read back with version 127. */
  lemma NegativeVersion(k: Curve, o: TxOut, height: nat, rest: seq<Byte>)
    requires CurveOk(k) && IsMoney(o) && height < U32 / 2
    ensures var c := Coins(false, [o], height, -1);
            && !IsNull(c.vout[0])
            && ReadCoins(Standard(k), CoinsCode(Standard(k), c) + rest) == Some((c.(version := 127), rest))
  {
    MoneyStorable(o);
    StandardSound(k, o);
    NegativeBack(Standard(k), o, height, rest);
  }

  lemma NegativeBack(w: Codec, o: TxOut, height: nat, rest: seq<Byte>)
    requires Sound(w, o) && !IsNull(o) && height < U32 / 2
    ensures var c := Coins(false, [o], height, -1);
            !IsNull(c.vout[0]) && ReadCoins(w, CoinsCode(w, c) + rest) == Some((c.(version := 127), rest))
  {
    var c := Coins(false, [o], height, -1);
    assert !IsNull(c.vout[0]);
    CoinsBack(w, c, rest);
  }

  // ---------- the two documented entries ----------

  function ToKeyHash(value: nat, hash: seq<Byte>): TxOut {
    TxOut(value, [0x76, 0xa9, 20] + hash + [0x88, 0xac])
  }

  lemma KeyHashCode(k: Curve, value: nat, hash: seq<Byte>, code: nat)
    requires |hash| == 20 && value < U64 && CompressAmount(value) == code < U64
    ensures TxOutCode(k, ToKeyHash(value, hash)) == VarInt(code) + [0] + hash
  {
    var s := ToKeyHash(value, hash).script;
    assert s[3..23] == hash;
    assert Compress(k, s) == Some([0] + hash);
    SmallMod(value);
    SmallMod(code);
  }

  lemma CodeParts(w: Codec, c: Coins, mask: seq<Byte>, outs: seq<Byte>, header: nat)
    requires !IsPruned(c) && Mask(c.vout, MaskOf(c.vout).0) == mask && OutsCode(w, c.vout, 0) == outs
    requires HeaderOf(c) == header
    ensures CoinsCode(w, c) == IntCode(c.version) + VarInt(header) + (mask + outs) + IntCode(c.height)
  {
  }

  lemma PairOuts(w: Codec, o: TxOut)
    requires !IsNull(o)
    ensures var vout := [NULL_OUT, o];
            OutsCode(w, vout, 0) == w.write(o) && MaskOf(vout) == (0, 0) && !AllNull(vout)
            && Mask(vout, 0) == [] && !Avail(vout, 0) && Avail(vout, 1)
  {
    var vout := [NULL_OUT, o];
    assert !IsNull(vout[1]);
    assert OutsCode(w, vout, 2) == [] && OutsCode(w, vout, 1) == w.write(o);
  }

  lemma FirstCodes()
    ensures CompressAmount(60000000000) == 600 && VarInt(600) == [0x83, 0x58]
    ensures VarInt(203998) == [0x8b, 0xb8, 0x5e]
  {
    TestedAmount(60000000000, 60, 9);
    assert Lead(3) == [0x83] && Lead(11) == [0x8b] && Lead(1592) == [0x8b, 0xb8];
  }

  lemma FirstEntry(w: Codec, o: TxOut)
    requires !IsNull(o)
    ensures var c := Coins(false, [NULL_OUT, o], 203998, 1);
            !IsPruned(c) && CoinsCode(w, c) == [0x01, 0x04] + w.write(o) + [0x8b, 0xb8, 0x5e]
  {
    FirstCodes();
    PairOuts(w, o);
    CodeParts(w, Coins(false, [NULL_OUT, o], 203998, 1), [], w.write(o), 4);
    assert [0x01] + [0x04] + ([] + w.write(o)) == [0x01, 0x04] + w.write(o);
  }

  /** Version 1, height 203998, and 600 coins left in output 1. */
  lemma FirstExample(k: Curve, hash: seq<Byte>)
    requires |hash| == 20
    ensures var c := Coins(false, [NULL_OUT, ToKeyHash(60000000000, hash)], 203998, 1);
            !IsPruned(c) &&
            CoinsCode(Standard(k), c) == [0x01, 0x04] + ([0x83, 0x58, 0x00] + hash) + [0x8b, 0xb8, 0x5e]
  {
    FirstCodes();
    FirstEntry(Standard(k), ToKeyHash(60000000000, hash));
    KeyHashCode(k, 60000000000, hash, 600);
    FirstOut(hash);
  }

  lemma FirstOut(hash: seq<Byte>)
    ensures [0x83, 0x58] + [0] + hash == [0x83, 0x58, 0x00] + hash
  {
  }

  lemma {:induction false} OneBit(f: seq<bool>, j: nat)
    requires j < |f| && forall i :: 0 <= i < |f| ==> f[i] == (i == j)
    ensures BitValue(f) == Pow2(j)
  {
    if j == 0 { ZeroValue(f[1..]); } else { OneBit(f[1..], j - 1); }
  }

  /** A mask byte with a single output left. */
  lemma OneLeft(vout: seq<TxOut>, b: nat, j: nat)
    requires j < 8 && forall x :: 2 + 8 * b <= x < 10 + 8 * b ==> Avail(vout, x) == (x == 2 + 8 * b + j)
    ensures MaskByte(vout, b) == Pow2(j)
  {
    var f := Flags(vout, 2 + 8 * b, 10 + 8 * b);
    forall i | 0 <= i < 8 ensures f[i] == (i == j) { FlagsAt(vout, 2 + 8 * b, 10 + 8 * b, 2 + 8 * b + i); }
    OneBit(f, j);
  }

  lemma {:induction false} SkipSpent(w: Codec, vout: seq<TxOut>, i: nat, j: nat)
    requires i <= j <= |vout| && forall x :: i <= x < j ==> IsNull(vout[x])
    ensures OutsCode(w, vout, i) == OutsCode(w, vout, j)
    decreases j - i
  {
    if i < j { SkipSpent(w, vout, i + 1, j); }
  }

  function Sparse(o4: TxOut, o16: TxOut): seq<TxOut> {
    seq(17, i => if i == 4 then o4 else if i == 16 then o16 else NULL_OUT)
  }

  lemma SparseMask(o4: TxOut, o16: TxOut)
    requires !IsNull(o4) && !IsNull(o16)
    ensures MaskOf(Sparse(o4, o16)) == (2, 2) && Mask(Sparse(o4, o16), 2) == [0x04, 0x40]
  {
    var vout := Sparse(o4, o16);
    OneLeft(vout, 0, 2);
    OneLeft(vout, 1, 6);
    assert Pow2(2) == 4 && Pow2(6) == 64;
    assert Mask(vout, 1) == [0x04] && Mask(vout, 2) == [0x04] + [0x40];
    assert Octets(17) == 2;
    assert [0x04, 0x40][..1] == [0x04] && [0x04][..0] == [];
    assert MaskSize([0x04]) == (1, 1);
  }

  lemma SparseOuts(w: Codec, o4: TxOut, o16: TxOut)
    requires !IsNull(o4) && !IsNull(o16)
    ensures OutsCode(w, Sparse(o4, o16), 0) == w.write(o4) + w.write(o16)
  {
    var vout := Sparse(o4, o16);
    SkipSpent(w, vout, 0, 4);
    SkipSpent(w, vout, 5, 16);
    assert OutsCode(w, vout, 17) == [] && OutsCode(w, vout, 16) == w.write(o16);
    assert OutsCode(w, vout, 4) == w.write(o4) + OutsCode(w, vout, 5);
  }

  lemma SecondCodes()
    ensures VarInt(120891) == [0x86, 0xaf, 0x3b]
    ensures CompressAmount(234925952) == 2114333561 && VarInt(2114333561) == [0x86, 0xef, 0x97, 0xd5, 0x79]
    ensures CompressAmount(110397) == 993571 && VarInt(993571) == [0xbb, 0xd1, 0x23]
  {
    SecondAmounts();
    LongCode();
    assert Lead(6) == [0x86] && Lead(943) == [0x86, 0xaf];
    assert Lead(59) == [0xbb] && Lead(7761) == [0xbb, 0xd1];
  }

  lemma SecondAmounts()
    ensures CompressAmount(234925952) == 2114333561 && CompressAmount(110397) == 993571
  {
    UnroundCode(234925952);
    UnroundCode(110397);
  }

  lemma LongCode()
    ensures VarInt(2114333561) == [0x86, 0xef, 0x97, 0xd5, 0x79]
  {
    assert Lead(6) == [0x86];
    LeadNext(6, 0x6f, 1007, [0x86]);
    LeadNext(1007, 0x17, 129047, [0x86, 0xef]);
    LeadNext(129047, 0x55, 16518229, [0x86, 0xef, 0x97]);
    CodeNext(16518229, 0x79, 2114333561, [0x86, 0xef, 0x97, 0xd5]);
  }

  lemma SecondEntry(w: Codec, o4: TxOut, o16: TxOut)
    requires !IsNull(o4) && !IsNull(o16)
    ensures var c := Coins(true, Sparse(o4, o16), 120891, 1);
            !IsPruned(c) && CoinsCode(w, c) ==
              [0x01, 0x09] + [0x04, 0x40] + w.write(o4) + w.write(o16) + [0x86, 0xaf, 0x3b]
  {
    var vout := Sparse(o4, o16);
    assert !IsNull(vout[4]) && !Avail(vout, 0) && !Avail(vout, 1);
    SparseMask(o4, o16);
    SparseOuts(w, o4, o16);
    SecondCodes();
    CodeParts(w, Coins(true, vout, 120891, 1), [0x04, 0x40], w.write(o4) + w.write(o16), 9);
    SecondJoin(w.write(o4), w.write(o16), IntCode(120891));
  }

  /** A coinbase at height 120891, of which the outputs 4 and 16 are left. */
  lemma SecondExample(k: Curve, h4: seq<Byte>, h16: seq<Byte>)
    requires |h4| == 20 && |h16| == 20
    ensures var c := Coins(true, Sparse(ToKeyHash(234925952, h4), ToKeyHash(110397, h16)), 120891, 1);
            !IsPruned(c) &&
            CoinsCode(Standard(k), c) ==
              [0x01, 0x09] + [0x04, 0x40] + ([0x86, 0xef, 0x97, 0xd5, 0x79, 0x00] + h4)
              + ([0xbb, 0xd1, 0x23, 0x00] + h16) + [0x86, 0xaf, 0x3b]
  {
    SecondEntry(Standard(k), ToKeyHash(234925952, h4), ToKeyHash(110397, h16));
    SecondCodes();
    KeyHashCode(k, 234925952, h4, 2114333561);
    KeyHashCode(k, 110397, h16, 993571);
    SecondOuts(h4, h16);
  }

  lemma SecondOuts(h4: seq<Byte>, h16: seq<Byte>)
    ensures [0x86, 0xef, 0x97, 0xd5, 0x79] + [0] + h4 == [0x86, 0xef, 0x97, 0xd5, 0x79, 0x00] + h4
    ensures [0xbb, 0xd1, 0x23] + [0] + h16 == [0xbb, 0xd1, 0x23, 0x00] + h16
  {
  }

  lemma SecondJoin(a: seq<Byte>, b: seq<Byte>, h: seq<Byte>)
    ensures [0x01] + [0x09] + ([0x04, 0x40] + (a + b)) + h == [0x01, 0x09] + [0x04, 0x40] + a + b + h
  {
  }
}
