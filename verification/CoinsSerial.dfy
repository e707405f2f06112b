/** The loops that write, read and measure a stored entry. */
module CoinsSerial {
  import opened Common
  import opened VarInts
  import opened CoinsData
  import opened Compressor
  import opened CoinsCodec

  // ---------- the mask ----------

  /** Whether all of eight outputs are spent. */
  method OctetZero(vout: seq<TxOut>, b: nat) returns (fZero: bool)
    ensures fZero <==> MaskByte(vout, b) == 0
  {
    fZero := true;
    var i := 0;
    ghost var first := 2 + 8 * b;
    while i < 8 && 2 + b * 8 + i < |vout|
      invariant 0 <= i <= 8
      invariant fZero <==> forall j :: first <= j < first + i ==> !Avail(vout, j)
    {
      if !IsNull(vout[2 + b * 8 + i]) {
        assert Avail(vout, first + i);
        fZero := false;
      }
      i := i + 1;
    }
    OctetFlags(vout, b);
  }

  lemma OctetFlags(vout: seq<TxOut>, b: nat)
    ensures MaskByte(vout, b) == 0 <==> forall j :: 2 + 8 * b <= j < 10 + 8 * b ==> !Avail(vout, j)
  {
    var lo, hi := 2 + 8 * b, 10 + 8 * b;
    var f := Flags(vout, lo, hi);
    ZeroValue(f);
    forall j | lo <= j < hi ensures f[j - lo] == Avail(vout, j) { FlagsAt(vout, lo, hi, j); }
    if forall j :: lo <= j < hi ==> !Avail(vout, j) {
      forall i | 0 <= i < 8 ensures !f[i] { assert f[(lo + i) - lo] == Avail(vout, lo + i); }
    }
  }

  method CalcMaskSize(vout: seq<TxOut>) returns (nBytes: nat, nNonzeroBytes: nat)
    ensures (nBytes, nNonzeroBytes) == MaskOf(vout)
  {
    nBytes, nNonzeroBytes := 0, 0;
    var b := 0;
    while 2 + b * 8 < |vout|
      invariant 0 <= b <= Octets(|vout|)
      invariant (nBytes, nNonzeroBytes) == MaskSize(Mask(vout, b))
    {
      var fZero := OctetZero(vout, b);
      assert Mask(vout, b + 1)[..b] == Mask(vout, b);
      if !fZero {
        nBytes := b + 1;
        nNonzeroBytes := nNonzeroBytes + 1;
      }
      b := b + 1;
    }
  }

  lemma {:induction false} BitValueAppend(f: seq<bool>, x: bool)
    ensures BitValue(f + [x]) == BitValue(f) + (if x then Pow2(|f|) else 0)
  {
    if f == [] {
      assert f + [x] == [x];
      assert BitValue([x]) == (if x then 1 else 0) + 2 * BitValue([x][1..]);
    } else {
      BitValueAppend(f[1..], x);
      assert (f + [x])[1..] == f[1..] + [x];
    }
  }

  lemma AvailNext(vout: seq<TxOut>, lo: nat, i: nat)
    ensures BitValue(Flags(vout, lo, lo + i + 1))
         == BitValue(Flags(vout, lo, lo + i)) + (if Avail(vout, lo + i) then Pow2(i) else 0)
  {
    BitValueAppend(Flags(vout, lo, lo + i), Avail(vout, lo + i));
  }

  /** One mask byte, bit by bit; bit `i` is still clear when it is set, so "or" is addition. */
  method AvailByte(vout: seq<TxOut>, b: nat) returns (ch: Byte)
    ensures ch == MaskByte(vout, b)
  {
    var x: nat := 0;
    var i := 0;
    ghost var lo := 2 + 8 * b;
    while i < 8 && 2 + b * 8 + i < |vout|
      invariant 0 <= i <= 8 && x == BitValue(Flags(vout, lo, lo + i))
    {
      AvailNext(vout, lo, i);
      if !IsNull(vout[2 + b * 8 + i]) { x := x + Pow2(i); }
      i := i + 1;
    }
    AbsentBits(vout, lo, lo + i, lo + 8);
    assert Pow2(8) == 256;
    ch := x;
  }

  lemma {:induction false} AbsentBits(vout: seq<TxOut>, lo: nat, mid: nat, hi: nat)
    requires lo <= mid <= hi && (mid < hi ==> |vout| <= mid)
    ensures BitValue(Flags(vout, lo, hi)) == BitValue(Flags(vout, lo, mid))
  {
    if mid < hi {
      AbsentBits(vout, lo, mid, hi - 1);
      BitValueAppend(Flags(vout, lo, hi - 1), false);
    }
  }

  method WriteMask(os: Stream, vout: seq<TxOut>, nBytes: nat)
    modifies os
    ensures os.vch == old(os.vch) + Mask(vout, nBytes)
  {
    var b := 0;
    while b < nBytes
      invariant 0 <= b <= nBytes && os.vch == old(os.vch) + Mask(vout, b)
    {
      var ch := AvailByte(vout, b);
      os.Write([ch]);
      b := b + 1;
    }
  }

  // ---------- writing ----------

  method WriteOut(os: Stream, k: Curve, o: TxOut)
    modifies os
    ensures os.vch == old(os.vch) + OutCode(Standard(k), o)
  {
    if !IsNull(o) { WriteTxOut(os, k, o); }
  }

  method WriteOuts(os: Stream, k: Curve, vout: seq<TxOut>)
    modifies os
    ensures os.vch == old(os.vch) + OutsCode(Standard(k), vout, 0)
  {
    ghost var w := Standard(k);
    ghost var goal := os.vch + OutsCode(w, vout, 0);
    var i := 0;
    while i < |vout|
      invariant 0 <= i <= |vout| && os.vch + OutsCode(w, vout, i) == goal
    {
      OutsNext(os.vch, w, vout, i);
      WriteOut(os, k, vout[i]);
      i := i + 1;
    }
  }

  lemma OutsNext(s: seq<Byte>, w: Codec, vout: seq<TxOut>, i: nat)
    requires i < |vout|
    ensures s + OutsCode(w, vout, i) == s + OutCode(w, vout[i]) + OutsCode(w, vout, i + 1)
  {
  }

  method WriteBody(os: Stream, k: Curve, vout: seq<TxOut>, nMaskSize: nat)
    requires nMaskSize == MaskOf(vout).0
    modifies os
    ensures os.vch == old(os.vch) + BodyCode(Standard(k), vout)
  {
    ghost var start := os.vch;
    WriteMask(os, vout, nMaskSize);
    WriteOuts(os, k, vout);
    Assoc(start, Mask(vout, nMaskSize), OutsCode(Standard(k), vout, 0));
  }

  lemma Assoc(a: seq<Byte>, b: seq<Byte>, c: seq<Byte>)
    ensures (a + b) + c == a + (b + c)
  {
  }

  method Serialize(os: Stream, k: Curve, c: Coins)
    requires !IsPruned(c) && InRange(c)
    modifies os
    ensures os.vch == old(os.vch) + CoinsCode(Standard(k), c)
  {
    var nMaskSize, nMaskCode := CalcMaskSize(c.vout);
    var fFirst := |c.vout| > 0 && !IsNull(c.vout[0]);
    var fSecond := |c.vout| > 1 && !IsNull(c.vout[1]);
    SomethingLeft(c.vout);
    var nCode := HeaderCode(c.coinBase, fFirst, fSecond, nMaskCode);
    HeaderFits(c);
    assert nCode == HeaderOf(c);
    WriteEntry(os, k, c, nCode, nMaskSize);
  }

  method WriteEntry(os: Stream, k: Curve, c: Coins, nCode: nat, nMaskSize: nat)
    requires InRange(c) && nCode < U32 && nMaskSize == MaskOf(c.vout).0
    modifies os
    ensures os.vch ==
            old(os.vch) + (IntCode(c.version) + VarInt(nCode) + BodyCode(Standard(k), c.vout) + IntCode(c.height))
  {
    ghost var start, head, body := os.vch, IntCode(c.version) + VarInt(nCode), BodyCode(Standard(k), c.vout);
    WriteHead(os, c.version, nCode);
    WriteBody(os, k, c.vout, nMaskSize);
    Widths();
    WriteVarInt(os, c.height, 32);
    Assoc(start, head, body);
    Assoc(start, head + body, IntCode(c.height));
  }

  method WriteHead(os: Stream, nVersion: int, nCode: nat)
    requires nVersion < U32 && nCode < U32
    modifies os
    ensures os.vch == old(os.vch) + (IntCode(nVersion) + VarInt(nCode))
  {
    ghost var start := os.vch;
    Widths();
    WriteVarInt(os, nVersion, 32);
    WriteVarInt(os, nCode, 32);
    Assoc(start, IntCode(nVersion), VarInt(nCode));
  }

  method OutsSize(k: Curve, vout: seq<TxOut>) returns (nSize: nat)
    ensures nSize == |OutsCode(Standard(k), vout, 0)|
  {
    ghost var w := Standard(k);
    nSize := 0;
    var i := 0;
    while i < |vout|
      invariant 0 <= i <= |vout|
      invariant nSize + |OutsCode(w, vout, i)| == |OutsCode(w, vout, 0)|
    {
      if !IsNull(vout[i]) {
        var n := TxOutSize(k, vout[i]);
        nSize := nSize + n;
      }
      i := i + 1;
    }
  }

  /** The number of bytes that `Serialize` writes. */
  method GetSerializeSize(k: Curve, c: Coins) returns (nSize: nat)
    requires !IsPruned(c) && InRange(c)
    ensures nSize == |CoinsCode(Standard(k), c)|
  {
    var nMaskSize, nMaskCode := CalcMaskSize(c.vout);
    var fFirst := |c.vout| > 0 && !IsNull(c.vout[0]);
    var fSecond := |c.vout| > 1 && !IsNull(c.vout[1]);
    SomethingLeft(c.vout);
    var nCode := HeaderCode(c.coinBase, fFirst, fSecond, nMaskCode);
    var n1 := GetSizeOfVarInt(c.version);
    var n2 := GetSizeOfVarInt(nCode);
    var n4 := OutsSize(k, c.vout);
    var n5 := GetSizeOfVarInt(c.height);
    nSize := n1 + n2 + nMaskSize + n4 + n5;
  }

  // ---------- reading ----------

  method UnpackByte(ch: Byte) returns (f: seq<bool>)
    ensures f == BitsOf(ch, 8)
  {
    f := [];
    var x: nat := ch;
    var p := 0;
    while p < 8
      invariant 0 <= p <= 8 && BitsOf(ch, 8) == f + BitsOf(x, 8 - p)
    {
      f := f + [x % 2 == 1];
      x := x / 2;
      p := p + 1;
    }
  }

  ghost function After<T>(acc: seq<T>, r: Option<(seq<T>, seq<Byte>)>): Option<(seq<T>, seq<Byte>)> {
    match r
    case None => None
    case Some((f, rest)) => Some((acc + f, rest))
  }

  method ReadMaskFrom(is_: Stream, count: nat) returns (r: Option<seq<bool>>)
    modifies is_
    ensures match ReadMask(old(is_.vch), count)
            case None => r.None?
            case Some(p) => r == Some(p.0) && is_.vch == p.1
  {
    var vAvail: seq<bool> := [];
    var nMaskCode := count;
    AfterNothing(ReadMask(is_.vch, count));
    while nMaskCode > 0
      invariant ReadMask(old(is_.vch), count) == After(vAvail, ReadMask(is_.vch, nMaskCode))
      decreases |is_.vch|
    {
      ghost var s := is_.vch;
      var ch := is_.TakeByte();
      if ch.None? { return None; }
      var f := UnpackByte(ch.value);
      ghost var next := if ch.value != 0 then nMaskCode - 1 else nMaskCode;
      AfterAfter(vAvail, f, ReadMask(s[1..], next));
      vAvail := vAvail + f;
      if ch.value != 0 { nMaskCode := nMaskCode - 1; }
    }
    assert vAvail + [] == vAvail;
    r := Some(vAvail);
  }

  lemma AfterNothing<T>(r: Option<(seq<T>, seq<Byte>)>)
    ensures After([], r) == r
  {
    if r.Some? { assert [] + r.value.0 == r.value.0; }
  }

  lemma AfterAfter<T>(a: seq<T>, b: seq<T>, r: Option<(seq<T>, seq<Byte>)>)
    ensures After(a, After(b, r)) == After(a + b, r)
  {
    if r.Some? { assert a + (b + r.value.0) == a + b + r.value.0; }
  }

  method ReadOutsFrom(is_: Stream, k: Curve, f: seq<bool>) returns (r: Option<seq<TxOut>>)
    modifies is_
    ensures match ReadOuts(Standard(k), f, old(is_.vch))
            case None => r.None?
            case Some(p) => r == Some(p.0) && is_.vch == p.1
  {
    ghost var w := Standard(k);
    var vout: seq<TxOut> := [];
    var i := 0;
    AfterNothing(ReadOuts(w, f, is_.vch));
    assert f[0..] == f;
    while i < |f|
      invariant 0 <= i <= |f|
      invariant ReadOuts(w, f, old(is_.vch)) == After(vout, ReadOuts(w, f[i..], is_.vch))
    {
      var o := Some(NULL_OUT);
      ghost var s := is_.vch;
      if f[i] { o := ReadTxOutFrom(is_, k); }
      if o.None? { return None; }
      assert ReadOut(w, f[i], s) == Some((o.value, is_.vch));
      assert f[i..][1..] == f[i + 1..];
      AfterAfter(vout, [o.value], ReadOuts(w, f[i + 1..], is_.vch));
      vout := vout + [o.value];
      i := i + 1;
    }
    assert vout + [] == vout;
    r := Some(vout);
  }

  method Unserialize(is_: Stream, k: Curve) returns (r: Option<Coins>)
    modifies is_
    ensures match ReadCoins(Standard(k), old(is_.vch))
            case None => r.None?
            case Some(p) => r == Some(p.0) && is_.vch == p.1
  {
    var version := ReadVarIntLoop(is_, U32);
    if version.None? { return None; }
    var code := ReadVarIntLoop(is_, U32);
    if code.None? { return None; }
    var nCode := code.value;
    var vout := ReadVoutFrom(is_, k, nCode);
    if vout.None? { return None; }
    var height := ReadVarIntLoop(is_, U32);
    if height.None? { return None; }
    var c := CleanupLoop(Coins(nCode % 2 == 1, vout.value, Signed(U32, height.value), Signed(U32, version.value)));
    r := Some(c);
  }

  method ReadVoutFrom(is_: Stream, k: Curve, nCode: nat) returns (r: Option<seq<TxOut>>)
    modifies is_
    ensures match ReadVout(Standard(k), nCode, old(is_.vch))
            case None => r.None?
            case Some(p) => r == Some(p.0) && is_.vch == p.1
  {
    var f := ReadMaskFrom(is_, UsedOf(nCode));
    if f.None? { return None; }
    r := ReadOutsFrom(is_, k, [nCode / 2 % 2 == 1, nCode / 4 % 2 == 1] + f.value);
  }
}
