/** Text form of byte strings in base 58: spaces around the word are ignored, each leading zero byte is
    a leading '1'. */
module Base58Text {
  import opened Common
  import opened Base58

  // ---------- characters ----------

  /** Position in 1-9, A-Z without I and O, a-z without l. */
  function CharOf(d: nat): char
    requires d < 58
  {
    if d < 9 then '1' + d as char
    else if d < 17 then 'A' + (d - 9) as char
    else if d < 22 then 'J' + (d - 17) as char
    else if d < 33 then 'P' + (d - 22) as char
    else if d < 44 then 'a' + (d - 33) as char
    else 'm' + (d - 44) as char
  }

  /** The position of a character; 58 when it has none. */
  function ValueOf(c: char): nat {
    if '1' <= c <= '9' then c as nat - '1' as nat
    else if 'A' <= c <= 'H' then c as nat - 'A' as nat + 9
    else if 'J' <= c <= 'N' then c as nat - 'J' as nat + 17
    else if 'P' <= c <= 'Z' then c as nat - 'P' as nat + 22
    else if 'a' <= c <= 'k' then c as nat - 'a' as nat + 33
    else if 'm' <= c <= 'z' then c as nat - 'm' as nat + 44
    else 58
  }

  lemma CharValue(d: nat)
    requires d < 58
    ensures ValueOf(CharOf(d)) == d
  {
  }

  lemma ValueChar(c: char)
    requires ValueOf(c) < 58
    ensures CharOf(ValueOf(c)) == c && !IsSpace(c) && c != '\0'
  {
  }

  /** The alphabet is the digits and letters in the order of their codes, without 0, O, I and l. */
  lemma AlphabetIs(c: char, d: char)
    ensures var letter := '0' <= c <= '9' || 'A' <= c <= 'Z' || 'a' <= c <= 'z';
            ValueOf(c) < 58 <==> letter && c != '0' && c != 'O' && c != 'I' && c != 'l'
    ensures ValueOf(c) < 58 && ValueOf(d) < 58 && c < d ==> ValueOf(c) < ValueOf(d)
  {
  }

  predicate IsSpace(c: char) {
    c == ' ' || '\t' <= c <= '\r'
  }

  ghost predicate AllSpace(s: string) {
    forall i :: 0 <= i < |s| ==> IsSpace(s[i])
  }

  ghost predicate InAlphabet(s: string) {
    forall i :: 0 <= i < |s| ==> ValueOf(s[i]) < 58
  }

  function Chars(ds: seq<nat>): (s: string)
    requires Digits(ds, 58)
    ensures |s| == |ds|
  {
    seq(|ds|, i requires 0 <= i < |ds| => CharOf(ds[i]))
  }

  function Values(s: string): (ds: seq<nat>)
    ensures |ds| == |s|
  {
    seq(|s|, i requires 0 <= i < |s| => ValueOf(s[i]))
  }

  lemma ValuesOfChars(ds: seq<nat>)
    requires Digits(ds, 58)
    ensures Values(Chars(ds)) == ds && InAlphabet(Chars(ds))
  {
    forall i | 0 <= i < |ds| ensures ValueOf(Chars(ds)[i]) == ds[i] { CharValue(ds[i]); }
  }

  lemma CharsOfValues(s: string)
    requires InAlphabet(s)
    ensures Digits(Values(s), 58) && Chars(Values(s)) == s
  {
    assert Digits(Values(s), 58);
    forall i | 0 <= i < |s| ensures CharOf(ValueOf(s[i])) == s[i] { ValueChar(s[i]); }
  }

  // ---------- what the text means ----------

  /** A C string stops at its first NUL. */
  function CString(s: string): string {
    if s == [] || s[0] == '\0' then [] else [s[0]] + CString(s[1..])
  }

  function TrimLeft(s: string): string {
    if s != [] && IsSpace(s[0]) then TrimLeft(s[1..]) else s
  }

  function TrimRight(s: string): string {
    if s != [] && IsSpace(s[|s| - 1]) then TrimRight(s[..|s| - 1]) else s
  }

  function Trim(s: string): string {
    TrimRight(TrimLeft(s))
  }

  /** How often `x` is repeated at the start. */
  function Lead<T(==)>(s: seq<T>, x: T): (k: nat)
    ensures k <= |s| && (forall i :: 0 <= i < k ==> s[i] == x) && (k < |s| ==> s[k] != x)
  {
    if s != [] && s[0] == x then 1 + Lead(s[1..], x) else 0
  }

  lemma LeadUnique<T>(s: seq<T>, x: T, k: nat)
    requires k <= |s| && (forall i :: 0 <= i < k ==> s[i] == x) && (k < |s| ==> s[k] != x)
    ensures Lead(s, x) == k
  {
    var l := Lead(s, x);
    assert l < |s| ==> s[l] != x;
  }

  function Repeat<T>(x: T, k: nat): (s: seq<T>)
    ensures |s| == k && forall i :: 0 <= i < k ==> s[i] == x
  {
    seq(k, i requires 0 <= i < k => x)
  }

  /** The same string, split after the repetitions of `x` at its start. */
  lemma LeadSplit<T>(s: seq<T>, x: T)
    ensures s == Repeat(x, Lead(s, x)) + s[Lead(s, x)..]
  {
  }

  lemma LeadJoin<T>(x: T, k: nat, t: seq<T>)
    requires t != [] ==> t[0] != x
    ensures Lead(Repeat(x, k) + t, x) == k && (Repeat(x, k) + t)[k..] == t
  {
    var s := Repeat(x, k) + t;
    if t != [] { assert s[k] == t[0]; }
    LeadUnique(s, x, k);
  }

  /** The text of a byte string. */
  function Encode(b: seq<nat>): string
    requires Digits(b, 256)
  {
    var z := Lead(b, 0);
    var n := Number(b[z..], 256);
    ToDigitsOk(n, 58);
    Repeat('1', z) + Chars(ToDigits(n, 58))
  }

  /** The bytes a word over the alphabet stands for. */
  function Meaning(w: string): seq<nat> {
    var z := Lead(w, '1');
    Repeat(0, z) + ToDigits(Number(Values(w[z..]), 58), 256)
  }

  /** The bytes of a text; None when what is left without the spaces around it is no word over the alphabet. */
  ghost function Decode(s: string): Option<seq<nat>> {
    var w := Trim(CString(s));
    if InAlphabet(w) then Some(Meaning(w)) else None
  }

  // ---------- round trips ----------

  lemma EncodeIsWord(b: seq<nat>)
    requires Digits(b, 256)
    ensures InAlphabet(Encode(b)) && Meaning(Encode(b)) == b
  {
    var z := Lead(b, 0);
    var n := Number(b[z..], 256);
    ToDigitsOk(n, 58);
    var ds := ToDigits(n, 58);
    var cs := Chars(ds);
    ValuesOfChars(ds);
    NotOne(ds);
    LeadJoin('1', z, cs);
    ShortestUnique(b[z..], 256);
    LeadSplit(b, 0);
    WordJoin(z, cs);
  }

  lemma NotOne(ds: seq<nat>)
    requires Digits(ds, 58) && Shortest(ds)
    ensures ds != [] ==> Chars(ds)[0] != '1'
  {
    if ds != [] { CharValue(ds[0]); }
  }

  lemma WordJoin(z: nat, cs: string)
    requires InAlphabet(cs)
    ensures InAlphabet(Repeat('1', z) + cs)
  {
    assert ValueOf('1') == 0;
  }

  lemma MeaningEncodes(w: string)
    requires InAlphabet(w)
    ensures Digits(Meaning(w), 256) && Encode(Meaning(w)) == w
  {
    var z := Lead(w, '1');
    var rest := w[z..];
    CharsOfValues(rest);
    var ds := Values(rest);
    if rest != [] { ValueChar(rest[0]); }
    assert Shortest(ds);
    ShortestUnique(ds, 58);
    var n := Number(ds, 58);
    ToDigitsOk(n, 256);
    LeadJoin(0, z, ToDigits(n, 256));
    LeadSplit(w, '1');
  }

  lemma {:induction false} CStringWord(w: string)
    requires forall i :: 0 <= i < |w| ==> w[i] != '\0'
    ensures CString(w) == w
  {
    if w != [] { CStringWord(w[1..]); }
  }

  lemma TrimWord(w: string)
    requires InAlphabet(w)
    ensures Trim(CString(w)) == w
  {
    forall i | 0 <= i < |w| ensures w[i] != '\0' && !IsSpace(w[i]) { ValueChar(w[i]); }
    CStringWord(w);
  }

  /** Decoding the text of a byte string gives it back. */
  lemma DecodeEncode(b: seq<nat>)
    requires Digits(b, 256)
    ensures Decode(Encode(b)) == Some(b)
  {
    EncodeIsWord(b);
    TrimWord(Encode(b));
  }

  /** A text decodes to `b` exactly when, without the spaces around it, it is the text of `b`. */
  lemma DecodeExact(s: string, b: seq<nat>)
    requires Digits(b, 256)
    ensures Decode(s) == Some(b) <==> Trim(CString(s)) == Encode(b)
  {
    var w := Trim(CString(s));
    EncodeIsWord(b);
    if InAlphabet(w) { MeaningEncodes(w); }
  }

  /** Whatever decodes is bytes. */
  lemma DecodeBytes(s: string)
    ensures Decode(s).Some? ==> Digits(Decode(s).value, 256)
  {
    var w := Trim(CString(s));
    if InAlphabet(w) { MeaningEncodes(w); }
  }

  /** Texts that the program's own tests give. */
  lemma TestedTexts()
    ensures Digits([0x61], 256) && Encode([0x61]) == "2g"
    ensures Digits([0x62, 0x62, 0x62], 256) && Encode([0x62, 0x62, 0x62]) == "a3gV"
  {
    NumberOne(0x61, 256);
    NumberTwo(1, 39, 58);
    assert [0x61][0..] == [0x61];
    TestedText([0x61], 0, 97, [1, 39]);
    NumberThree(0x62, 0x62, 0x62, 256);
    NumberFour(33, 2, 39, 28, 58);
    assert [0x62, 0x62, 0x62][0..] == [0x62, 0x62, 0x62];
    TestedText([0x62, 0x62, 0x62], 0, 6447714, [33, 2, 39, 28]);
  }

  lemma NumberOne(a: nat, x: nat)
    ensures Number([a], x) == a
  {
    assert [a][..0] == [];
  }

  lemma NumberTwo(a: nat, b: nat, x: nat)
    ensures Number([a, b], x) == a * x + b
  {
    assert [a, b][..1] == [a];
    NumberOne(a, x);
  }

  lemma NumberThree(a: nat, b: nat, c: nat, x: nat)
    ensures Number([a, b, c], x) == (a * x + b) * x + c
  {
    assert [a, b, c][..2] == [a, b];
    NumberTwo(a, b, x);
  }

  lemma NumberFour(a: nat, b: nat, c: nat, d: nat, x: nat)
    ensures Number([a, b, c, d], x) == ((a * x + b) * x + c) * x + d
  {
    assert [a, b, c, d][..3] == [a, b, c];
    NumberThree(a, b, c, x);
  }

  lemma TestedText(b: seq<nat>, z: nat, n: nat, ds: seq<nat>)
    requires Digits(b, 256) && z == Lead(b, 0) && n == Number(b[z..], 256)
    requires Digits(ds, 58) && Shortest(ds) && Number(ds, 58) == n
    ensures Encode(b) == Repeat('1', z) + Chars(ds)
  {
    ShortestUnique(ds, 58);
  }

  // ---------- with a checksum ----------

  /** The first four bytes of the double hash of a byte string. */
  ghost predicate IsChecksum(check: seq<nat> -> seq<nat>) {
    forall b :: |check(b)| == 4 && Digits(check(b), 256)
  }

  lemma WithChecksum(b: seq<nat>, c: seq<nat>)
    requires Digits(b, 256) && Digits(c, 256)
    ensures Digits(b + c, 256)
  {
  }

  function EncodeCheck(check: seq<nat> -> seq<nat>, b: seq<nat>): string
    requires Digits(b, 256) && IsChecksum(check)
  {
    WithChecksum(b, check(b));
    Encode(b + check(b))
  }

  /** The first decoding outcome counts only when its last four bytes are the checksum of the others. */
  function Unchecked(check: seq<nat> -> seq<nat>, d: Option<seq<nat>>): Option<seq<nat>> {
    if d.None? || |d.value| < 4 then None
    else
      var b := d.value[..|d.value| - 4];
      if check(b) == d.value[|b|..] then Some(b) else None
  }

  ghost function DecodeCheck(check: seq<nat> -> seq<nat>, s: string): Option<seq<nat>> {
    Unchecked(check, Decode(s))
  }

  /** A text passes the checksum and gives `b` exactly when it is the checked text of `b` between spaces. */
  lemma DecodeCheckExact(check: seq<nat> -> seq<nat>, s: string, b: seq<nat>)
    requires Digits(b, 256) && IsChecksum(check)
    ensures DecodeCheck(check, s) == Some(b) <==> Trim(CString(s)) == EncodeCheck(check, b)
  {
    WithChecksum(b, check(b));
    var full := b + check(b);
    DecodeExact(s, full);
    if Decode(s) == Some(full) {
      assert full[..|full| - 4] == b && full[|b|..] == check(b);
    }
    if DecodeCheck(check, s) == Some(b) {
      var v := Decode(s).value;
      assert v == v[..|v| - 4] + v[|v| - 4..] == full;
    }
  }

  // ---------- the code's loops ----------

  method CountLead<T(==)>(s: seq<T>, x: T) returns (k: nat)
    ensures k == Lead(s, x)
  {
    k := 0;
    while k < |s| && s[k] == x
      invariant k <= |s| && forall i :: 0 <= i < k ==> s[i] == x
    {
      k := k + 1;
    }
    LeadUnique(s, x, k);
  }

  lemma {:induction false} StripIsLead(s: seq<nat>)
    ensures Strip(s) == s[Lead(s, 0)..]
  {
    if s != [] && s[0] == 0 { StripIsLead(s[1..]); }
  }

  lemma {:induction false} ZeroNumber(s: seq<nat>, b: nat)
    requires forall i :: 0 <= i < |s| ==> s[i] == 0
    ensures Number(s, b) == 0
  {
    if s != [] { ZeroNumber(s[..|s| - 1], b); }
  }

  method NewBuffer(n: nat) returns (buf: array<nat>)
    ensures fresh(buf) && buf.Length == n && forall b :: b > 0 ==> Number(buf[..], b) == 0 && Digits(buf[..], b)
  {
    buf := new nat[n](_ => 0);
    forall b | b > 0 ensures Number(buf[..], b) == 0 { ZeroNumber(buf[..], b); }
  }

  /** What is left of a buffer without its leading zeros. */
  method Shorten(buf: array<nat>, base: nat) returns (ds: seq<nat>)
    requires base > 1 && Digits(buf[..], base)
    ensures ds == ToDigits(Number(buf[..], base), base)
  {
    var it := CountLead(buf[..], 0);
    ds := buf[it..];
    StripIsLead(buf[..]);
    StripOk(buf[..], base);
  }

  /** Bytes to base 58 digits. */
  method ToBase58(b: seq<nat>) returns (ds: seq<nat>)
    requires Digits(b, 256)
    ensures ds == ToDigits(Number(b, 256), 58)
  {
    var buf := NewBuffer(|b| * 138 / 100 + 1);
    EncodeRoom(|b|);
    var p := 0;
    while p < |b|
      invariant p <= |b|
      invariant Digits(buf[..], 58) && Number(buf[..], 58) == Number(b[..p], 256)
    {
      Absorb(buf, 58, 256, b[p], b[..p], |b|);
      assert b[..p + 1] == b[..p] + [b[p]];
      p := p + 1;
    }
    assert b[..p] == b;
    ds := Shorten(buf, 58);
  }

  method EncodeBase58(b: seq<nat>) returns (s: string)
    requires Digits(b, 256)
    ensures s == Encode(b)
  {
    var z := CountLead(b, 0);
    var ds := ToBase58(b[z..]);
    ToDigitsOk(Number(b[z..], 256), 58);
    s := Repeat('1', z) + Chars(ds);
  }

  /** Base 58 digits to bytes; stops at the first space or the end, fails at any other foreign character.
      The buffer is sized by everything up to the end of the text, spaces included. */
  method FromBase58(s: string) returns (r: Option<seq<nat>>, q: nat)
    ensures q <= |s| && InAlphabet(s[..q])
    ensures r.Some? ==> r.value == ToDigits(Number(Values(s[..q]), 58), 256) && (q < |s| ==> IsSpace(s[q]))
    ensures r.None? ==> q < |s| && !IsSpace(s[q]) && ValueOf(s[q]) == 58
  {
    var buf := NewBuffer(|s| * 733 / 1000 + 1);
    DecodeRoom(|s|);
    q := 0;
    assert Values(s[..0]) == [];
    while q < |s| && !IsSpace(s[q])
      invariant q <= |s| && InAlphabet(s[..q])
      invariant Digits(buf[..], 256) && Number(buf[..], 256) == Number(Values(s[..q]), 58)
    {
      var d := ValueOf(s[q]);
      if d == 58 { return None, q; }
      Absorb(buf, 256, 58, d, Values(s[..q]), |s|);
      assert s[..q + 1] == s[..q] + [s[q]];
      assert Values(s[..q + 1]) == Values(s[..q]) + [d];
      q := q + 1;
    }
    var ds := Shorten(buf, 256);
    r := Some(ds);
  }

  method SkipSpaces(s: string, p: nat) returns (q: nat)
    requires p <= |s|
    ensures p <= q <= |s| && AllSpace(s[p..q]) && (q < |s| ==> !IsSpace(s[q]))
  {
    q := p;
    while q < |s| && IsSpace(s[q])
      invariant p <= q <= |s| && forall i :: p <= i < q ==> IsSpace(s[i])
    {
      q := q + 1;
    }
  }

  lemma {:induction false} TrimLeftAt(s: string, p: nat)
    requires p <= |s| && AllSpace(s[..p]) && (p < |s| ==> !IsSpace(s[p]))
    ensures TrimLeft(s) == s[p..]
  {
    if p > 0 {
      assert s[..p][0] == s[0];
      assert s[1..][..p - 1] == s[..p][1..];
      TrimLeftAt(s[1..], p - 1);
    }
  }

  lemma {:induction false} TrimRightAt(s: string, k: nat)
    requires k <= |s| && AllSpace(s[k..]) && (k > 0 ==> !IsSpace(s[k - 1]))
    ensures TrimRight(s) == s[..k]
  {
    var n := |s| - 1;
    if k <= n {
      assert s[k..][n - k] == s[n];
      assert s[..n][k..] == s[k..][..n - k];
      TrimRightAt(s[..n], k);
      assert s[..n][..k] == s[..k];
    }
  }

  lemma {:induction false} TrimRightKeeps(s: string, i: nat)
    requires i < |s| && !IsSpace(s[i])
    ensures i < |TrimRight(s)| && TrimRight(s)[..i + 1] == s[..i + 1]
  {
    var n := |s| - 1;
    if IsSpace(s[n]) {
      TrimRightKeeps(s[..n], i);
      assert s[..n][..i + 1] == s[..i + 1];
    }
  }

  /** A character that is no digit, followed by one that is no space, cannot be trimmed away. */
  lemma ForeignInside(s: string, k: nat, i: nat)
    requires k <= i < |s| && ValueOf(s[k]) == 58 && !IsSpace(s[i])
    ensures !InAlphabet(TrimRight(s))
  {
    TrimRightKeeps(s, i);
    var t := TrimRight(s);
    assert t[k] == t[..i + 1][k] == s[..i + 1][k] == s[k];
  }

  /** A word, then spaces. */
  lemma TrimTail(u: string, k: nat)
    requires k <= |u| && InAlphabet(u[..k]) && AllSpace(u[k..])
    ensures TrimRight(u) == u[..k]
  {
    WordEnd(u, k);
    TrimRightAt(u, k);
  }

  lemma WordEnd(u: string, k: nat)
    requires k <= |u| && InAlphabet(u[..k])
    ensures k > 0 ==> !IsSpace(u[k - 1])
  {
    if k > 0 { ValueChar(u[..k][k - 1]); }
  }

  lemma WordPrefix(u: string, z: nat, v: string)
    requires z == Lead(u, '1') && z + |v| <= |u| && v == u[z..z + |v|] && InAlphabet(v)
    ensures var w := u[..z + |v|];
            InAlphabet(w) && Lead(w, '1') == z && w[z..] == v
  {
    var w := u[..z + |v|];
    forall i | 0 <= i < |w| ensures ValueOf(w[i]) < 58 {
      if i >= z { assert v[i - z] == w[i]; }
    }
    LeadUnique(w, '1', z);
  }

  /** Ones, digits, and then only spaces. */
  lemma WordAlone(u: string, z: nat, v: string)
    requires z == Lead(u, '1') && z + |v| <= |u| && v == u[z..z + |v|] && InAlphabet(v) && AllSpace(u[z + |v|..])
    ensures var w := TrimRight(u);
            InAlphabet(w) && Meaning(w) == Repeat(0, z) + ToDigits(Number(Values(v), 58), 256)
  {
    WordPrefix(u, z, v);
    TrimTail(u, z + |v|);
  }

  /** The decoder on a C string, given up to its NUL. */
  method DecodeBase58(s: string) returns (r: Option<seq<nat>>)
    requires CString(s) == s
    ensures r == Decode(s)
  {
    var p := SkipSpaces(s, 0);
    assert s[0..p] == s[..p];
    TrimLeftAt(s, p);
    r := DecodeWord(s[p..]);
  }

  method DecodeWord(u: string) returns (r: Option<seq<nat>>)
    ensures r == if InAlphabet(TrimRight(u)) then Some(Meaning(TrimRight(u))) else None
  {
    var z := CountLead(u, '1');
    var ds, q := FromBase58(u[z..]);
    if ds.None? {
      ForeignInside(u, z + q, z + q);
      return None;
    }
    var end := SkipSpaces(u, z + q);
    if end != |u| {
      ForeignInside(u, z + q, end);
      return None;
    }
    assert u[z + q..] == u[z + q..end];
    assert u[z..z + q] == u[z..][..q];
    WordAlone(u, z, u[z..z + q]);
    r := Some(Repeat(0, z) + ds.value);
  }

  lemma {:induction false} CStringAgain(s: string)
    ensures CString(CString(s)) == CString(s)
  {
    if s != [] && s[0] != '\0' { CStringAgain(s[1..]); }
  }

  /** A std::string is decoded through its C string. */
  method DecodeBase58String(str: string) returns (r: Option<seq<nat>>)
    ensures r == Decode(str) && (r.Some? ==> Digits(r.value, 256))
  {
    DecodeBytes(str);
    CStringAgain(str);
    r := DecodeBase58(CString(str));
  }

  method EncodeBase58Check(check: seq<nat> -> seq<nat>, b: seq<nat>) returns (s: string)
    requires Digits(b, 256) && IsChecksum(check)
    ensures s == EncodeCheck(check, b)
  {
    WithChecksum(b, check(b));
    s := EncodeBase58(b + check(b));
  }

  method DecodeBase58Check(check: seq<nat> -> seq<nat>, str: string) returns (r: Option<seq<nat>>)
    ensures r == DecodeCheck(check, str)
  {
    var d := DecodeBase58String(str);
    r := Unchecked(check, d);
  }
}
