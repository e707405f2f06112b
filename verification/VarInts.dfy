/** Byte streams and the variable-length integers written to them: base-128 digits, most significant
    first, with the top bit as "more follow" and one subtracted from all digits but the last. */
module VarInts {
  import opened Common
  import opened Arith

  const U32: nat := 0x1_0000_0000
  const U64: nat := 0x1_0000_0000_0000_0000

  // ---------- the code ----------

  /** The digits in front of the last one. */
  function Lead(n: nat): (s: seq<Byte>)
    ensures s != []
  {
    if n <= 0x7F then [n + 0x80] else Lead(n / 128 - 1) + [n % 128 + 0x80]
  }

  function VarInt(n: nat): (s: seq<Byte>)
    ensures s != []
  {
    if n <= 0x7F then [n] else Lead(n / 128 - 1) + [n % 128]
  }

  /** The number a stream starts with, `acc` being what was read so far, and the rest of the stream. */
  function Read(acc: nat, s: seq<Byte>): Option<(nat, seq<Byte>)>
    decreases |s|
  {
    if s == [] then None
    else
      var n := acc * 128 + s[0] % 128;
      if s[0] >= 0x80 then Read(n + 1, s[1..]) else Some((n, s[1..]))
  }

  lemma ReadDigit(acc: nat, d: nat, rest: seq<Byte>)
    requires d < 128
    ensures Read(acc, [d + 0x80] + rest) == Read(acc * 128 + d + 1, rest)
    ensures Read(acc, [d] + rest) == Some((acc * 128 + d, rest))
  {
    assert ([d + 0x80] + rest)[1..] == rest && ([d] + rest)[1..] == rest;
    assert (d + 0x80) % 128 == d;
  }

  lemma {:induction false} ReadLead(n: nat, rest: seq<Byte>)
    ensures Read(0, Lead(n) + rest) == Read(n + 1, rest)
  {
    if n <= 0x7F {
      ReadDigit(0, n, rest);
    } else {
      var d: Byte := n % 128 + 0x80;
      ReadLead(n / 128 - 1, [d] + rest);
      assert Lead(n) + rest == Lead(n / 128 - 1) + ([d] + rest);
      ReadDigit(n / 128, n % 128, rest);
    }
  }

  /** Reading takes back exactly what was written. */
  lemma ReadVarInt(n: nat, rest: seq<Byte>)
    ensures Read(0, VarInt(n) + rest) == Some((n, rest))
  {
    if n <= 0x7F {
      ReadDigit(0, n, rest);
    } else {
      var d: Byte := n % 128;
      ReadLead(n / 128 - 1, [d] + rest);
      assert VarInt(n) + rest == Lead(n / 128 - 1) + ([d] + rest);
      ReadDigit(n / 128, n % 128, rest);
    }
  }

  /** The digits written before the accumulator reached `acc`. */
  function Before(acc: nat): seq<Byte> {
    if acc == 0 then [] else Lead(acc - 1)
  }

  lemma BeforeNext(acc: nat, d: nat)
    requires d < 128
    ensures Before(acc * 128 + d + 1) == Before(acc) + [d + 0x80]
    ensures VarInt(acc * 128 + d) == Before(acc) + [d]
  {
    var n := acc * 128 + d;
    assert n / 128 == acc && n % 128 == d;
  }

  lemma {:induction false} ReadExact(acc: nat, s: seq<Byte>)
    ensures Read(acc, s).Some? ==> Before(acc) + s == VarInt(Read(acc, s).value.0) + Read(acc, s).value.1
    decreases |s|
  {
    if s != [] {
      var d := s[0] % 128;
      BeforeNext(acc, d);
      assert s == [s[0]] + s[1..];
      if s[0] >= 0x80 {
        assert s[0] == d + 0x80;
        ReadExact(acc * 128 + d + 1, s[1..]);
        assert Before(acc) + s == Before(acc) + [s[0]] + s[1..];
      }
    }
  }

  /** Every number has exactly one encoding: a stream starts with `n` only as the encoder writes it. */
  lemma VarIntUnique(s: seq<Byte>, n: nat, rest: seq<Byte>)
    ensures Read(0, s) == Some((n, rest)) <==> s == VarInt(n) + rest
  {
    ReadExact(0, s);
    ReadVarInt(n, rest);
    assert Before(0) + s == s;
  }

  /** The sum that the program's documentation gives: 128^i times one more than the low seven bits of the i-th
      byte from the end, for i from 1 to `k`. */
  function Sum(s: seq<Byte>, k: nat): nat
    requires k < |s|
  {
    if k == 0 then 0 else Sum(s, k - 1) + Pow2(7 * k) * (s[|s| - 1 - k] % 128 + 1)
  }

  lemma {:induction false} SumFront(s: seq<Byte>, d: Byte, k: nat)
    requires 0 < k <= |s|
    ensures Sum(s + [d], k) == 128 * (s[|s| - 1] % 128 + 1 + Sum(s, k - 1))
  {
    var t := s + [d];
    if k == 1 {
      assert Sum(t, 0) == 0 && Pow2(7) == 128;
    } else {
      SumFront(s, d, k - 1);
      var x := s[|s| - k] % 128 + 1;
      assert t[|t| - 1 - k] == s[|s| - k];
      SevenMore(k - 1, x);
    }
  }

  lemma SevenMore(k: nat, x: nat)
    ensures Pow2(7 * (k + 1)) * x == 128 * (Pow2(7 * k) * x)
  {
    var e := 7 * k;
    assert Pow2(e + 7) == 2 * Pow2(e + 6) && Pow2(e + 6) == 2 * Pow2(e + 5) && Pow2(e + 5) == 2 * Pow2(e + 4);
    assert Pow2(e + 4) == 2 * Pow2(e + 3) && Pow2(e + 3) == 2 * Pow2(e + 2) && Pow2(e + 2) == 2 * Pow2(e + 1);
    assert Pow2(e + 7) == 128 * Pow2(e);
    assert (128 * Pow2(e)) * x == 128 * (Pow2(e) * x);
  }

  lemma {:induction false} LeadSum(n: nat)
    ensures var s := Lead(n);
            && s[|s| - 1] % 128 + 1 + Sum(s, |s| - 1) == n + 1
            && forall i :: 0 <= i < |s| ==> s[i] >= 128
  {
    if n > 0x7F {
      LeadSum(n / 128 - 1);
      SumFront(Lead(n / 128 - 1), n % 128 + 0x80, |Lead(n / 128 - 1)|);
    }
  }

  /** The bytes of a number add up to it as documented: all but the last have the top bit set. */
  lemma VarIntSum(n: nat)
    ensures var s := VarInt(n);
            && n == s[|s| - 1] % 128 + Sum(s, |s| - 1)
            && s[|s| - 1] < 128 && forall i :: 0 <= i < |s| - 1 ==> s[i] >= 128
  {
    if n > 0x7F {
      LeadSum(n / 128 - 1);
      LastSum(Lead(n / 128 - 1), n / 128, n % 128, n);
    }
  }

  lemma LastSum(s: seq<Byte>, m: nat, d: Byte, n: nat)
    requires s != [] && d < 128 && n == 128 * m + d && s[|s| - 1] % 128 + 1 + Sum(s, |s| - 1) == m
    ensures var t := s + [d]; n == t[|t| - 1] % 128 + Sum(t, |t| - 1)
  {
    SumFront(s, d, |s|);
  }

  /** Two rows of the documented table are slips: they give these bytes for 16511 and 65535 ... */
  lemma DocumentedSlips()
    ensures Read(0, [0x80, 0xFF, 0x7F]) == Some((32895, [])) && Read(0, [0x82, 0xFD, 0x7F]) == Some((65407, []))
    ensures VarInt(16511) == [0xFF, 0x7F] && VarInt(65535) == [0x82, 0xFE, 0x7F]
  {
    assert Lead(127) == [0xFF] && Lead(2) == [0x82] && Lead(510) == [0x82, 0xFE];
    ThreeRead(0, 0x7F, 0x7F);
    ThreeRead(2, 0x7D, 0x7F);
  }

  lemma ThreeRead(a: nat, b: nat, c: nat)
    requires a < 128 && b < 128 && c < 128
    ensures var n: nat := ((a + 1) * 128 + b + 1) * 128 + c; Read(0, [a + 0x80, b + 0x80, c]) == Some((n, []))
  {
    assert [a + 0x80, b + 0x80, c] == [a + 0x80] + ([b + 0x80] + ([c] + []));
    ReadDigit(0, a, [b + 0x80] + ([c] + []));
    ReadDigit(a + 1, b, [c] + []);
    ReadDigit((a + 1) * 128 + b + 1, c, []);
  }

  /** ... and the others are right. */
  lemma DocumentedCodes()
    ensures VarInt(0) == [0x00] && VarInt(1) == [0x01] && VarInt(127) == [0x7F]
    ensures VarInt(128) == [0x80, 0x00] && VarInt(255) == [0x80, 0x7F] && VarInt(256) == [0x81, 0x00]
    ensures VarInt(16383) == [0xFE, 0x7F] && VarInt(16384) == [0xFF, 0x00]
    ensures VarInt(0x1_0000_0000) == [0x8E, 0xFE, 0xFE, 0xFF, 0x00]
  {
    assert Lead(0) == [0x80] && Lead(1) == [0x81] && Lead(126) == [0xFE] && Lead(127) == [0xFF];
    assert Lead(14) == [0x8E];
    LeadNext(14, 0x7E, 2046, [0x8E]);
    LeadNext(2046, 0x7E, 262142, [0x8E, 0xFE]);
    LeadNext(262142, 0x7F, 33554431, [0x8E, 0xFE, 0xFE]);
    CodeNext(33554431, 0, 0x1_0000_0000, [0x8E, 0xFE, 0xFE, 0xFF]);
  }

  lemma LeadNext(n: nat, d: nat, m: nat, s: seq<Byte>)
    requires d < 128 && m == (n + 1) * 128 + d && Lead(n) == s
    ensures Lead(m) == s + [d + 0x80]
  {
    assert m / 128 == n + 1 && m % 128 == d;
  }

  lemma CodeNext(n: nat, d: nat, m: nat, s: seq<Byte>)
    requires d < 128 && m == (n + 1) * 128 + d && Lead(n) == s
    ensures VarInt(m) == s + [d]
  {
    assert m / 128 == n + 1 && m % 128 == d;
  }

  /** The largest number, plus one, that takes at most `k` digits. */
  function Reach(k: nat): nat {
    if k == 0 then 0 else 128 * (Reach(k - 1) + 1)
  }

  // ---------- streams ----------

  class Stream {
    var vch: seq<Byte>

    constructor (bytes: seq<Byte>)
      ensures vch == bytes
    {
      vch := bytes;
    }

    method Write(bytes: seq<Byte>)
      modifies this
      ensures vch == old(vch) + bytes
    {
      vch := vch + bytes;
    }

    /** Reading past the end is an error. */
    method Take(n: nat) returns (r: Option<seq<Byte>>)
      modifies this
      ensures n > |old(vch)| ==> r.None? && vch == old(vch)
      ensures n <= |old(vch)| ==> r == Some(old(vch)[..n]) && vch == old(vch)[n..]
    {
      if n > |vch| { return None; }
      r := Some(vch[..n]);
      vch := vch[n..];
    }

    method TakeByte() returns (r: Option<Byte>)
      modifies this
      ensures old(vch) == [] ==> r.None? && vch == []
      ensures old(vch) != [] ==> r == Some(old(vch)[0]) && vch == old(vch)[1..]
    {
      if vch == [] { return None; }
      r := Some(vch[0]);
      vch := vch[1..];
    }
  }

  // ---------- the loops ----------

  /** The digits of `tmp[..len]`, last one first: the order in which they are sent. */
  function Backwards(s: seq<Byte>): (r: seq<Byte>)
    ensures |r| == |s|
  {
    if s == [] then [] else [s[|s| - 1]] + Backwards(s[..|s| - 1])
  }

  /** What is written for a number of a signed type: a negative one passes the test "at most 0x7F" and
      leaves only its low seven bits. */
  function IntCode(n: int): (s: seq<Byte>)
    ensures s != []
  {
    if n < 0 then [n % 128] else VarInt(n)
  }

  /** What is still to be produced for `n` when `len` digits are in the buffer. */
  function Pending(n: int, len: nat): seq<Byte> {
    if len == 0 then IntCode(n) else if n < 0 then [] else Lead(n)
  }

  function Last(n: int, len: nat): Byte {
    n % 128 + (if len != 0 then 0x80 else 0)
  }

  lemma PendingStep(n: int, len: nat)
    requires len == 0 || n >= 0
    ensures n <= 0x7F ==> Pending(n, len) == [Last(n, len)]
    ensures n > 0x7F ==> Pending(n, len) == Pending(n / 128 - 1, len + 1) + [Last(n, len)]
  {
  }

  /** `len` digits of `value` are in the buffer and `n` stands for the others. */
  ghost predicate Begun(value: int, n: int, len: nat, ds: seq<Byte>) {
    && len < |ds| && n < Reach(|ds| - len) && (len == 0 || n >= 0)
    && IntCode(value) == Pending(n, len) + Backwards(ds[..len])
  }

  lemma BegunStep(value: int, n: int, len: nat, ds: seq<Byte>)
    requires Begun(value, n, len, ds)
    ensures var es := ds[len := Last(n, len)];
            if n <= 0x7F then Backwards(es[..len + 1]) == IntCode(value) else Begun(value, n / 128 - 1, len + 1, es)
  {
    var es := ds[len := Last(n, len)];
    BackwardsNext(es, len);
    assert es[..len] == ds[..len];
    PendingStep(n, len);
    if n > 0x7F { ReachStep(n, |ds| - len); }
  }

  /** The digits go into the buffer lowest first; it has (8 * sizeof(n) + 6) / 7 cells, which is enough. */
  method FillDigits(tmp: array<Byte>, value: int) returns (len: nat)
    requires 0 < tmp.Length && value < Reach(tmp.Length)
    modifies tmp
    ensures len < tmp.Length && Backwards(tmp[..len + 1]) == IntCode(value)
  {
    var n := value;
    len := 0;
    while true
      invariant Begun(value, n, len, tmp[..])
      decreases tmp.Length - len
    {
      BegunStep(value, n, len, tmp[..]);
      PutDigit(tmp, len, Last(n, len));
      assert tmp[..len + 1] == tmp[..][..len + 1];
      if n <= 0x7F { return; }
      n := n / 128 - 1;
      len := len + 1;
    }
  }

  method PutDigit(tmp: array<Byte>, len: nat, d: Byte)
    requires len < tmp.Length
    modifies tmp
    ensures tmp[..] == old(tmp[..])[len := d]
  {
    tmp[len] := d;
  }

  /** Send `tmp[len]` down to `tmp[0]`. */
  method SendDigits(os: Stream, tmp: array<Byte>, len: nat)
    requires len < tmp.Length
    modifies os
    ensures os.vch == old(os.vch) + Backwards(tmp[..len + 1])
  {
    var i := len;
    ghost var ds := tmp[..];
    while true
      invariant 0 <= i <= len
      invariant os.vch + Backwards(ds[..i + 1]) == old(os.vch) + Backwards(ds[..len + 1])
      decreases i
    {
      BackwardsNext(ds, i);
      os.Write([tmp[i]]);
      if i == 0 { break; }
      i := i - 1;
    }
    assert ds[..len + 1] == tmp[..len + 1];
  }

  lemma BackwardsNext(ds: seq<Byte>, i: nat)
    requires i < |ds|
    ensures Backwards(ds[..i + 1]) == [ds[i]] + Backwards(ds[..i])
    ensures i == 0 ==> Backwards(ds[..i]) == []
  {
    assert ds[..i + 1][..i] == ds[..i];
  }

  method WriteVarInt(os: Stream, value: int, width: nat)
    requires width > 0 && value < Reach((width + 6) / 7)
    modifies os
    ensures os.vch == old(os.vch) + IntCode(value)
  {
    var tmp := new Byte[(width + 6) / 7](_ => 0);
    var len := FillDigits(tmp, value);
    SendDigits(os, tmp, len);
  }

  /** Numbers of 32 and 64 bits fit their buffers of 5 and 10 digits. */
  lemma Widths()
    ensures U32 <= Reach((32 + 6) / 7) && U64 <= Reach((64 + 6) / 7)
  {
    assert Reach(5) == 34630287488;
    assert Reach(8) == 72624976668147840;
    assert Reach(10) == 1189887617730934227072;
  }

  lemma ReachStep(n: nat, k: nat)
    requires 0x7F < n < Reach(k)
    ensures k >= 2 && n / 128 - 1 < Reach(k - 1)
  {
    assert Reach(1) == 128;
  }

  /** The size of what `WriteVarInt` writes. */
  method GetSizeOfVarInt(value: int) returns (size: nat)
    ensures size == |IntCode(value)|
  {
    var n := value;
    size := 0;
    while true
      invariant size == 0 || n >= 0
      invariant |IntCode(value)| == size + |Pending(n, size)|
      decreases if n < 0 then 0 else n
    {
      PendingStep(n, size);
      size := size + 1;
      if n <= 0x7F { break; }
      n := n / 128 - 1;
    }
  }

  /** A number of a type with `limit` values: digits that do not fit are lost. */
  function ReadMod(limit: nat, s: seq<Byte>): Option<(nat, seq<Byte>)>
    requires limit > 0
  {
    match Read(0, s)
    case None => None
    case Some(p) => Some((p.0 % limit, p.1))
  }

  lemma ModStep(limit: nat, a: nat, d: nat)
    requires limit > 0
    ensures (a % limit * 128 + d) % limit == (a * 128 + d) % limit
  {
    DivMod(a, limit);
    var q, r := a / limit, a % limit;
    assert (q * limit + r) * 128 + d == (r * 128 + d) + (128 * q) * limit;
    ModPlus(limit, r * 128 + d, 128 * q);
  }

  lemma ModStep1(limit: nat, a: nat)
    requires limit > 0
    ensures (a % limit + 1) % limit == (a + 1) % limit
  {
    DivMod(a, limit);
    ModPlus(limit, a % limit + 1, a / limit);
  }

  lemma ModPlus(limit: nat, a: nat, k: nat)
    requires limit > 0
    ensures (a + k * limit) % limit == a % limit
  {
    DivMod(a, limit);
    var q, r := a / limit, a % limit;
    assert (q * limit + r) + k * limit == (q + k) * limit + r;
    DivUnique(a + k * limit, limit, q + k, r);
  }

  /** Read a number of a type with `limit` values; None when the stream ends in the middle. */
  method ReadVarIntLoop(is_: Stream, limit: nat) returns (r: Option<nat>)
    requires limit > 0
    modifies is_
    ensures match ReadMod(limit, old(is_.vch))
            case None => r.None?
            case Some(p) => r == Some(p.0) && is_.vch == p.1
  {
    var n := 0;
    ghost var acc: nat := 0;
    while true
      invariant Read(acc, is_.vch) == Read(0, old(is_.vch)) && n == acc % limit
      decreases |is_.vch|
    {
      var ch := is_.TakeByte();
      if ch.None? { return None; }
      var d := ch.value % 128;
      ModStep(limit, acc, d);
      n := (n * 128 + d) % limit;
      acc := acc * 128 + d;
      if ch.value < 0x80 { return Some(n); }
      ModStep1(limit, acc);
      n := (n + 1) % limit;
      acc := acc + 1;
    }
  }
}
