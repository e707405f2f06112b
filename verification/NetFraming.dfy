/** Cutting a byte stream into network messages while it arrives in pieces of any size. */
module NetFraming {
  import opened Common

  const MAX_SIZE: nat := 0x02000000
  const MAX_PROTOCOL_MESSAGE_LENGTH: nat := 2 * 1024 * 1024

  // ---------- one byte at a time ----------

  /** What has been received of one message: its 24-byte header, then its data. */
  type Raw = seq<Byte>

  /** The little-endian length field behind the network magic and the command. */
  function SizeOf(m: Raw): nat
    requires |m| >= 24
  {
    Le32(m[16], m[17], m[18], m[19])
  }

  function Le32(a: nat, b: nat, c: nat, d: nat): nat {
    a + 256 * b + 65536 * c + 16777216 * d
  }

  predicate Complete(m: Raw) {
    |m| >= 24 && |m| == 24 + SizeOf(m)
  }

  predicate Oversized(m: Raw) {
    |m| >= 24 && SizeOf(m) > MAX_PROTOCOL_MESSAGE_LENGTH
  }

  /** The connection goes on with these messages, or is cut after these complete ones. */
  datatype Outcome = Running(msgs: seq<Raw>) | Rejected(done: seq<Raw>)

  function Finished(q: seq<Raw>): seq<Raw> {
    if q == [] || Complete(q[|q| - 1]) then q else q[..|q| - 1]
  }

  /** The message under construction. */
  function Current(q: seq<Raw>): Raw {
    if q == [] || Complete(q[|q| - 1]) then [] else q[|q| - 1]
  }

  function Step(q: seq<Raw>, b: Byte): Outcome {
    var m := Current(q) + [b];
    if |m| == 24 && Oversized(m) then Rejected(Finished(q)) else Running(Finished(q) + [m])
  }

  function Next(o: Outcome, b: Byte): Outcome {
    match o
    case Rejected(_) => o
    case Running(q) => Step(q, b)
  }

  type Automaton = (Outcome, Byte) -> Outcome

  /** The first `n` bytes of a stream, one after the other. */
  function Drive(next: Automaton, o: Outcome, s: seq<Byte>, n: nat): Outcome
    requires n <= |s|
  {
    if n == 0 then o else next(Drive(next, o, s, n - 1), s[n - 1])
  }

  lemma {:induction false} DrivePrefix(next: Automaton, o: Outcome, s: seq<Byte>, t: seq<Byte>, n: nat)
    requires n <= |s| && n <= |t| && forall i :: 0 <= i < n ==> s[i] == t[i]
    ensures Drive(next, o, s, n) == Drive(next, o, t, n)
  {
    if n > 0 { DrivePrefix(next, o, s, t, n - 1); }
  }

  lemma {:induction false} DriveSplit(next: Automaton, o: Outcome, a: seq<Byte>, b: seq<Byte>, n: nat)
    requires n <= |b|
    ensures Drive(next, Drive(next, o, a, |a|), b, n) == Drive(next, o, a + b, |a| + n)
  {
    if n == 0 {
      DrivePrefix(next, o, a + b, a, |a|);
    } else {
      DriveSplit(next, o, a, b, n - 1);
      assert (a + b)[|a| + n - 1] == b[n - 1];
    }
  }

  function Framer(): Automaton {
    (o: Outcome, b: Byte) => Next(o, b)
  }

  function Feed(o: Outcome, s: seq<Byte>): Outcome {
    Drive(Framer(), o, s, |s|)
  }

  lemma FeedLast(o: Outcome, s: seq<Byte>, b: Byte)
    ensures Feed(o, s + [b]) == Next(Feed(o, s), b)
  {
    DrivePrefix(Framer(), o, s + [b], s, |s|);
  }

  /** Pieces do not matter. */
  lemma FeedSplit(o: Outcome, a: seq<Byte>, b: seq<Byte>)
    ensures Feed(Feed(o, a), b) == Feed(o, a + b)
  {
    DriveSplit(Framer(), o, a, b, |b|);
  }

  function Concat(chunks: seq<seq<Byte>>): seq<Byte> {
    if chunks == [] then [] else chunks[0] + Concat(chunks[1..])
  }

  function FeedAll(o: Outcome, chunks: seq<seq<Byte>>): Outcome
    decreases |chunks|
  {
    if chunks == [] then o else FeedAll(Feed(o, chunks[0]), chunks[1..])
  }

  /** However a stream is cut into pieces, the verdict and the messages are those of the whole stream. */
  lemma {:induction false} ChunkIndependent(o: Outcome, chunks: seq<seq<Byte>>)
    ensures FeedAll(o, chunks) == Feed(o, Concat(chunks))
    decreases |chunks|
  {
    if chunks != [] {
      ChunkIndependent(Feed(o, chunks[0]), chunks[1..]);
      FeedSplit(o, chunks[0], Concat(chunks[1..]));
    }
  }

  // ---------- what the framing is ----------

  ghost predicate Fits(m: Raw) {
    m != [] && (|m| >= 24 ==> SizeOf(m) <= MAX_PROTOCOL_MESSAGE_LENGTH && |m| <= 24 + SizeOf(m))
  }

  /** Every message but the last is complete; none is empty, oversized or too long. */
  ghost predicate Framed(q: seq<Raw>) {
    && (forall i :: 0 <= i < |q| ==> Fits(q[i]))
    && (forall i :: 0 <= i < |q| - 1 ==> Complete(q[i]))
  }

  function Join(q: seq<Raw>): seq<Byte> {
    if q == [] then [] else Join(q[..|q| - 1]) + q[|q| - 1]
  }

  lemma CurrentJoin(q: seq<Raw>)
    ensures Join(q) == Join(Finished(q)) + Current(q)
  {
  }

  lemma StepFrames(q: seq<Raw>, b: Byte)
    requires Framed(q)
    ensures match Step(q, b)
            case Running(r) => Framed(r) && Join(r) == Join(q) + [b]
            case Rejected(d) => d == Finished(q) && |Current(q)| == 23 && Oversized(Current(q) + [b])
  {
    var m := Current(q) + [b];
    if !(|m| == 24 && Oversized(m)) {
      CurrentGrows(q, b);
      FinishedComplete(q);
      CurrentJoin(q);
      OneMoreFramed(Finished(q), m);
    }
  }

  lemma OneMoreFramed(d: seq<Raw>, m: Raw)
    requires AllComplete(d) && Fits(m)
    ensures Framed(d + [m]) && Join(d + [m]) == Join(d) + m
  {
    var q := d + [m];
    assert q[..|d|] == d;
    forall i | 0 <= i < |q| ensures Fits(q[i]) { assert i < |d| ==> q[i] == d[i]; }
    forall i | 0 <= i < |q| - 1 ensures Complete(q[i]) { assert q[i] == d[i]; }
  }

  lemma CurrentGrows(q: seq<Raw>, b: Byte)
    requires Framed(q) && !(|Current(q) + [b]| == 24 && Oversized(Current(q) + [b]))
    ensures Fits(Current(q) + [b])
  {
    if Current(q) != [] {
      assert Fits(q[|q| - 1]);
      SizeGrows(q[|q| - 1], b);
    }
  }

  lemma FinishedComplete(q: seq<Raw>)
    requires Framed(q)
    ensures AllComplete(Finished(q))
  {
    var d := Finished(q);
    forall i | 0 <= i < |d| ensures Fits(d[i]) && Complete(d[i]) { assert d[i] == q[i]; }
  }

  lemma SizeGrows(m: Raw, b: Byte)
    ensures |m| >= 24 ==> SizeOf(m + [b]) == SizeOf(m)
  {
  }

  /** A stream that is not cut is exactly the messages put together again. */
  lemma {:induction false} FeedFrames(s: seq<Byte>)
    ensures var o := Feed(Running([]), s); o.Running? ==> Framed(o.msgs) && Join(o.msgs) == s
  {
    if s != [] {
      var n := |s| - 1;
      FeedFrames(s[..n]);
      var o := Feed(Running([]), s[..n]);
      FeedLast(Running([]), s[..n], s[n]);
      if o.Running? { StepFrames(o.msgs, s[n]); }
      assert s == s[..n] + [s[n]];
    }
  }

  ghost predicate AllComplete(q: seq<Raw>) {
    forall i :: 0 <= i < |q| ==> Fits(q[i]) && Complete(q[i])
  }

  /** The stream starts with these complete messages and an oversized header. */
  ghost predicate Cut(d: seq<Raw>, s: seq<Byte>) {
    var n := |Join(d)|;
    AllComplete(d) && n + 24 <= |s| && s[..n] == Join(d) && Oversized(s[n..n + 24])
  }

  lemma CutLonger(d: seq<Raw>, s: seq<Byte>, b: Byte)
    requires Cut(d, s)
    ensures Cut(d, s + [b])
  {
    var n := |Join(d)|;
    assert (s + [b])[..n] == s[..n] && (s + [b])[n..n + 24] == s[n..n + 24];
  }

  lemma CutNow(q: seq<Raw>, b: Byte)
    requires Framed(q) && |Current(q)| == 23 && Oversized(Current(q) + [b])
    ensures Cut(Finished(q), Join(q) + [b])
  {
    CurrentJoin(q);
    var d, s := Finished(q), Join(q) + [b];
    assert s == Join(d) + (Current(q) + [b]);
    assert s[..|Join(d)|] == Join(d) && s[|Join(d)|..|Join(d)| + 24] == Current(q) + [b];
  }

  lemma {:induction false} RejectedCut(s: seq<Byte>)
    ensures var o := Feed(Running([]), s); o.Rejected? ==> Cut(o.done, s)
  {
    if s != [] {
      var n := |s| - 1;
      var o := Feed(Running([]), s[..n]);
      FeedLast(Running([]), s[..n], s[n]);
      assert s == s[..n] + [s[n]];
      if o.Rejected? {
        RejectedCut(s[..n]);
        CutLonger(o.done, s[..n], s[n]);
      } else {
        FeedFrames(s[..n]);
        StepFrames(o.msgs, s[n]);
        if Step(o.msgs, s[n]).Rejected? { CutNow(o.msgs, s[n]); }
      }
    }
  }

  /** Bytes that belong to the current message only make it longer. */
  lemma {:induction false} Grow(q: seq<Raw>, s: seq<Byte>)
    requires s != [] && Fits(Current(q) + s)
    ensures Feed(Running(q), s) == Running(Finished(q) + [Current(q) + s])
  {
    var n := |s| - 1;
    var c, t := Current(q), s[..n];
    FeedLast(Running(q), t, s[n]);
    assert s == t + [s[n]];
    assert c + s == (c + t) + [s[n]];
    SizeGrows(c + t, s[n]);
    if t == [] {
      assert c + t == c;
    } else {
      Grow(q, t);
      var r := Finished(q) + [c + t];
      assert Finished(r) == Finished(q) && Current(r) == c + t;
    }
  }

  lemma {:induction false} StaysRejected(d: seq<Raw>, s: seq<Byte>)
    ensures Feed(Rejected(d), s) == Rejected(d)
  {
    if s != [] {
      var n := |s| - 1;
      StaysRejected(d, s[..n]);
      FeedLast(Rejected(d), s[..n], s[n]);
      assert s == s[..n] + [s[n]];
    }
  }

  lemma {:induction false} FramesFeed(q: seq<Raw>)
    requires Framed(q)
    ensures Feed(Running([]), Join(q)) == Running(q)
  {
    if q != [] {
      var n := |q| - 1;
      FrontComplete(q);
      FramesFeed(q[..n]);
      GrowNew(q[..n], q[n], Join(q[..n]));
      assert q == q[..n] + [q[n]];
    }
  }

  lemma FrontComplete(q: seq<Raw>)
    requires Framed(q) && q != []
    ensures var n := |q| - 1; Framed(q[..n]) && AllComplete(q[..n]) && Fits(q[n])
  {
    var d := q[..|q| - 1];
    forall i | 0 <= i < |d| ensures Fits(d[i]) && Complete(d[i]) { assert d[i] == q[i]; }
  }

  lemma GrowNew(d: seq<Raw>, m: Raw, s: seq<Byte>)
    requires AllComplete(d) && Fits(m) && Feed(Running([]), s) == Running(d)
    ensures Feed(Running([]), s + m) == Running(d + [m])
  {
    assert Current(d) + m == m;
    Grow(d, m);
    FeedSplit(Running([]), s, m);
  }

  lemma HeaderCuts(q: seq<Raw>, s: seq<Byte>)
    requires s != [] && |Current(q) + s| == 24 && Oversized(Current(q) + s)
    ensures Feed(Running(q), s) == Rejected(Finished(q))
  {
    var n := |s| - 1;
    var c, t := Current(q), s[..n];
    FeedLast(Running(q), t, s[n]);
    assert s == t + [s[n]];
    assert c + s == (c + t) + [s[n]];
    if t == [] {
      assert c + t == c;
    } else {
      Grow(q, t);
      var r := Finished(q) + [c + t];
      assert Finished(r) == Finished(q) && Current(r) == c + t;
    }
  }

  lemma CutRejects(d: seq<Raw>, s: seq<Byte>)
    requires Cut(d, s)
    ensures Feed(Running([]), s) == Rejected(d)
  {
    var n := |Join(d)|;
    FramesFeed(d);
    CutHeader(d, s[n..n + 24]);
    FeedMore(Running([]), s, n, 24);
    assert s[n..][..24] == s[n..n + 24];
    FeedRest(Running([]), s, n + 24);
  }

  lemma CutHeader(d: seq<Raw>, h: Raw)
    requires AllComplete(d) && |h| == 24 && Oversized(h)
    ensures Feed(Running(d), h) == Rejected(d)
  {
    assert Finished(d) == d && Current(d) + h == h;
    HeaderCuts(d, h);
  }

  /** What a whole stream leads to: it goes on with `q` exactly when `q` is a framing of it, and is cut
      after `d` exactly when `d` and an oversized header come first. So there is one framing at most. */
  lemma FeedExact(s: seq<Byte>, q: seq<Raw>)
    ensures Feed(Running([]), s) == Running(q) <==> Framed(q) && Join(q) == s
    ensures Feed(Running([]), s) == Rejected(q) <==> Cut(q, s)
  {
    FeedFrames(s);
    RejectedCut(s);
    if Framed(q) { FramesFeed(q); }
    if Cut(q, s) { CutRejects(q, s); }
  }

  /** The header of a message of `n` bytes: network magic, command, length with its lowest byte first, checksum. */
  function FrameHeader(magic: seq<Byte>, command: seq<Byte>, n: nat, sum: seq<Byte>): seq<Byte>
    requires n < 0x1_0000_0000
  {
    magic + command + [n % 256, n / 256 % 256, n / 65536 % 256, n / 16777216] + sum
  }

  lemma FrameSize(magic: seq<Byte>, command: seq<Byte>, n: nat, sum: seq<Byte>, data: seq<Byte>)
    requires |magic| == 4 && |command| == 12 && |sum| == 4 && n < 0x1_0000_0000
    ensures var m := FrameHeader(magic, command, n, sum) + data; |m| == 24 + |data| && SizeOf(m) == n
  {
    var m := FrameHeader(magic, command, n, sum) + data;
    assert m[16] == n % 256 && m[17] == n / 256 % 256 && m[18] == n / 65536 % 256 && m[19] == n / 16777216;
    FourBytes(n);
  }

  lemma FourBytes(n: nat)
    ensures Le32(n % 256, n / 256 % 256, n / 65536 % 256, n / 16777216) == n
  {
    assert n / 65536 == n / 256 / 256 && n / 16777216 == n / 256 / 256 / 256;
  }

  /** A message of at most two megabytes, written as the protocol says, is received as one; the header of a larger
      one ends the connection. */
  lemma FrameReceived(magic: seq<Byte>, command: seq<Byte>, sum: seq<Byte>, data: seq<Byte>)
    requires |magic| == 4 && |command| == 12 && |sum| == 4 && |data| < 0x1_0000_0000
    ensures var h := FrameHeader(magic, command, |data|, sum);
            if |data| <= 2097152 then Feed(Running([]), h + data) == Running([h + data]) && Complete(h + data)
            else Feed(Running([]), h) == Rejected([])
  {
    var h := FrameHeader(magic, command, |data|, sum);
    FrameSize(magic, command, |data|, sum, data);
    FrameSize(magic, command, |data|, sum, []);
    assert h + [] == h;
    if |data| <= 2097152 {
      assert [h + data][..0] == [];
      assert Join([h + data]) == [] + (h + data);
      FeedExact(h + data, [h + data]);
    } else {
      assert Join([]) + h == h;
      FeedExact(h, []);
    }
  }

  /** Taking finished messages off the front between two pieces disturbs nothing. */
  lemma {:induction false} TakenOff(p: seq<Raw>, q: seq<Raw>, s: seq<Byte>)
    requires q == [] && p != [] ==> Complete(p[|p| - 1])
    ensures Feed(Running(p + q), s)
         == match Feed(Running(q), s) case Running(r) => Running(p + r) case Rejected(d) => Rejected(p + d)
  {
    if s != [] {
      var n := |s| - 1;
      TakenOff(p, q, s[..n]);
      FeedLast(Running(q), s[..n], s[n]);
      FeedLast(Running(p + q), s[..n], s[n]);
      assert s == s[..n] + [s[n]];
      var o := Feed(Running(q), s[..n]);
      if o.Running? {
        NotEmptied(q, s[..n]);
        StepTakenOff(p, o.msgs, s[n]);
      }
    }
  }

  /** Once there is a message, there is one. */
  lemma {:induction false} NotEmptied(q: seq<Raw>, s: seq<Byte>)
    ensures var o := Feed(Running(q), s); o.Running? && (q != [] || s != []) ==> o.msgs != []
  {
    if s != [] {
      var n := |s| - 1;
      FeedLast(Running(q), s[..n], s[n]);
      assert s == s[..n] + [s[n]];
    }
  }

  lemma StepTakenOff(p: seq<Raw>, q: seq<Raw>, b: Byte)
    requires q == [] && p != [] ==> Complete(p[|p| - 1])
    ensures Step(p + q, b) == match Step(q, b) case Running(r) => Running(p + r) case Rejected(d) => Rejected(p + d)
  {
    assert Finished(p + q) == p + Finished(q) && Current(p + q) == Current(q) by {
      if q != [] { assert (p + q)[..|p + q| - 1] == p + q[..|q| - 1]; } else { assert p + q == p; }
    }
    var m := Current(q) + [b];
    assert p + Finished(q) + [m] == p + (Finished(q) + [m]);
  }

  // ---------- the receiving objects ----------

  datatype Header = Header(start: seq<Byte>, command: seq<Byte>, size: nat, checksum: seq<Byte>)

  function ParseHeader(b: seq<Byte>): Header
    requires |b| == 24
  {
    Header(b[..4], b[4..16], SizeOf(b), b[20..])
  }

  function SizeBytes(n: nat): (b: seq<Byte>)
    ensures |b| == 4
  {
    var p := n / 256;
    var q := p / 256;
    [n % 256, p % 256, q % 256, q / 256 % 256]
  }

  function HeaderBytes(h: Header): seq<Byte> {
    h.start + h.command + SizeBytes(h.size) + h.checksum
  }

  lemma SizeRoundTrip(a: Byte, b: Byte, c: Byte, d: Byte)
    ensures SizeBytes(Le32(a, b, c, d)) == [a, b, c, d]
  {
    LowByte(a, b + 256 * (c + 256 * d));
    LowByte(b, c + 256 * d);
    LowByte(c, d);
  }

  lemma LowByte(a: nat, rest: nat)
    requires a < 256
    ensures (a + 256 * rest) % 256 == a && (a + 256 * rest) / 256 == rest
  {
  }

  lemma HeaderRoundTrip(b: seq<Byte>)
    requires |b| == 24
    ensures HeaderBytes(ParseHeader(b)) == b
  {
    SizeRoundTrip(b[16], b[17], b[18], b[19]);
    assert b == b[..4] + b[4..16] + b[16..20] + b[20..];
  }

  lemma {:induction false} HeaderSize(h: Header, data: seq<Byte>)
    requires |h.start| == 4 && |h.command| == 12 && |h.checksum| == 4 && h.size < 0x1_0000_0000
    ensures |HeaderBytes(h)| == 24 && SizeOf(HeaderBytes(h) + data) == h.size
  {
    var m := HeaderBytes(h) + data;
    var z := SizeBytes(h.size);
    assert m[16] == z[0] && m[17] == z[1] && m[18] == z[2] && m[19] == z[3];
    SizeValue(h.size);
  }

  lemma SizeValue(n: nat)
    requires n < 0x1_0000_0000
    ensures var b := SizeBytes(n); Le32(b[0], b[1], b[2], b[3]) == n
  {
  }

  class NetMessage {
    var inData: bool
    var hdrbuf: seq<Byte>
    var hdr: Header
    var nHdrPos: nat
    var vRecv: seq<Byte>
    var nDataPos: nat

    ghost predicate Valid()
      reads this
    {
      if inData then
        && |hdr.start| == 4 && |hdr.command| == 12 && |hdr.checksum| == 4
        && hdr.size <= MAX_PROTOCOL_MESSAGE_LENGTH
        && nDataPos <= |vRecv| <= hdr.size
      else
        nHdrPos < 24 == |hdrbuf| && nDataPos == 0 && vRecv == []
    }

    /** The bytes received so far; the tail of either buffer is room for what is to come. */
    ghost function Raw(): Raw
      requires Valid()
      reads this
    {
      if inData then HeaderBytes(hdr) + vRecv[..nDataPos] else hdrbuf[..nHdrPos]
    }

    constructor ()
      ensures Valid() && Raw() == []
    {
      inData := false;
      hdrbuf := seq(24, i => 0);
      hdr := Header([], [], 0, []);
      nHdrPos := 0;
      vRecv := [];
      nDataPos := 0;
    }

    lemma WhenComplete()
      requires Valid()
      ensures Complete(Raw()) <==> inData && hdr.size == nDataPos
      ensures Complete(Raw()) ==> |vRecv| == nDataPos == hdr.size
      ensures inData ==> |Raw()| == 24 + nDataPos && SizeOf(Raw()) == hdr.size
    {
      if inData { HeaderSize(hdr, vRecv[..nDataPos]); }
    }

    method IsComplete() returns (r: bool)
      requires Valid()
      ensures r == Complete(Raw())
    {
      WhenComplete();
      r := inData && hdr.size == nDataPos;
    }

    /** Take header bytes; -1 when the header is complete and announces more than MAX_SIZE. */
    method ReadHeader(pch: seq<Byte>) returns (handled: int, ghost n: nat)
      requires Valid() && !inData && pch != []
      modifies this
      ensures 0 < n <= |pch| && (handled >= 0 ==> handled == n)
      ensures var m := old(Raw()) + pch[..n];
              if handled < 0 || (inData && hdr.size > MAX_PROTOCOL_MESSAGE_LENGTH) then |m| == 24 && Oversized(m)
              else Valid() && Raw() == m && Fits(m)
    {
      var nRemaining := 24 - nHdrPos;
      var nCopy := if nRemaining < |pch| then nRemaining else |pch|;
      n := nCopy;
      ghost var m := Raw() + pch[..n];
      hdrbuf := hdrbuf[..nHdrPos] + pch[..nCopy] + hdrbuf[nHdrPos + nCopy..];
      nHdrPos := nHdrPos + nCopy;
      assert hdrbuf[..nHdrPos] == m;
      if nHdrPos < 24 { return nCopy, n; }
      assert hdrbuf == m;
      hdr := ParseHeader(hdrbuf);
      HeaderRoundTrip(hdrbuf);
      hdrbuf := [];
      if hdr.size > MAX_SIZE { return -1, n; }
      inData := true;
      assert vRecv[..nDataPos] == [];
      return nCopy, n;
    }

    /** Take data bytes; room is made ahead of need, up to 256 KiB and never beyond the message. */
    method ReadData(pch: seq<Byte>) returns (handled: int)
      requires Valid() && inData && nDataPos < hdr.size
      modifies this
      ensures Valid() && inData && hdr == old(hdr)
      ensures handled == if hdr.size - old(nDataPos) < |pch| then hdr.size - old(nDataPos) else |pch|
      ensures Raw() == old(Raw()) + pch[..handled]
    {
      var nRemaining := hdr.size - nDataPos;
      var nCopy := if nRemaining < |pch| then nRemaining else |pch|;
      ghost var was := vRecv[..nDataPos];
      if |vRecv| < nDataPos + nCopy {
        var room := nDataPos + nCopy + 256 * 1024;
        vRecv := Resize(vRecv, if hdr.size < room then hdr.size else room);
      }
      assert vRecv[..nDataPos] == was;
      vRecv := vRecv[..nDataPos] + pch[..nCopy] + vRecv[nDataPos + nCopy..];
      nDataPos := nDataPos + nCopy;
      assert vRecv[..nDataPos] == was + pch[..nCopy];
      return nCopy;
    }
  }

  ghost predicate AllValid(v: seq<NetMessage>)
    reads v
  {
    forall i :: 0 <= i < |v| ==> v[i].Valid()
  }

  ghost function Raws(v: seq<NetMessage>): (q: seq<Raw>)
    requires AllValid(v)
    reads v
    ensures |q| == |v|
  {
    seq(|v|, i requires 0 <= i < |v| && v[i].Valid() reads v => v[i].Raw())
  }

  class Node {
    var vRecvMsg: seq<NetMessage>

    ghost function Objects(): set<NetMessage>
      reads this
    {
      set m | m in vRecvMsg
    }

    ghost predicate Valid()
      reads this, vRecvMsg
    {
      && (forall i, j :: 0 <= i < j < |vRecvMsg| ==> vRecvMsg[i] != vRecvMsg[j])
      && AllValid(vRecvMsg)
    }

    ghost function Messages(): seq<Raw>
      requires Valid()
      reads this, vRecvMsg
    {
      Raws(vRecvMsg)
    }

    constructor ()
      ensures Valid() && Messages() == []
    {
      vRecvMsg := [];
    }

    /** The message to fill: the last one, or a new one when there is none or it is complete. */
    method CurrentMessage() returns (msg: NetMessage)
      requires Valid()
      modifies this
      ensures Valid() && vRecvMsg != [] && msg == vRecvMsg[|vRecvMsg| - 1]
      ensures msg in old(vRecvMsg) || fresh(msg)
      ensures !Complete(msg.Raw()) && msg.Raw() == Current(old(Messages()))
      ensures Raws(vRecvMsg[..|vRecvMsg| - 1]) == Finished(old(Messages()))
      ensures fresh(Objects() - old(Objects()))
    {
      var create := vRecvMsg == [];
      if !create {
        create := vRecvMsg[|vRecvMsg| - 1].IsComplete();
      }
      if create {
        msg := AddMessage();
      } else {
        msg := vRecvMsg[|vRecvMsg| - 1];
      }
    }

    method AddMessage() returns (msg: NetMessage)
      requires Valid()
      modifies this
      ensures fresh(msg) && msg.Valid() && msg.Raw() == []
      ensures Valid() && vRecvMsg == old(vRecvMsg) + [msg]
      ensures vRecvMsg[..|vRecvMsg| - 1] == old(vRecvMsg) && Raws(old(vRecvMsg)) == old(Messages())
    {
      msg := new NetMessage();
      vRecvMsg := vRecvMsg + [msg];
    }

    /** One turn of the loop: at least one byte goes into the current message. */
    method Absorb(pch: seq<Byte>) returns (ok: bool, handled: int, ghost used: nat)
      requires Valid() && pch != []
      modifies this, Objects()
      ensures fresh(Objects() - old(Objects()))
      ensures 0 < used <= |pch| && vRecvMsg != [] && (ok ==> handled == used)
      ensures ok ==> Valid() && Feed(Running(old(Messages())), pch[..used]) == Running(Messages())
      ensures !ok ==> AllValid(vRecvMsg[..|vRecvMsg| - 1])
      ensures !ok ==> Feed(Running(old(Messages())), pch[..used]) == Rejected(Raws(vRecvMsg[..|vRecvMsg| - 1]))
    {
      ghost var q := Messages();
      var msg := CurrentMessage();
      ok, handled, used := FillLast(msg, pch, Finished(q));
      if ok {
        Grow(q, pch[..used]);
      } else {
        HeaderCuts(q, pch[..used]);
      }
    }

    /** Filling the last message leaves the finished ones alone. */
    method FillLast(msg: NetMessage, pch: seq<Byte>, ghost d: seq<Raw>)
      returns (ok: bool, handled: int, ghost used: nat)
      requires Valid() && vRecvMsg != [] && msg == vRecvMsg[|vRecvMsg| - 1]
      requires !Complete(msg.Raw()) && pch != [] && Raws(vRecvMsg[..|vRecvMsg| - 1]) == d
      modifies msg
      ensures 0 < used <= |pch| && (ok ==> handled == used)
      ensures AllValid(vRecvMsg[..|vRecvMsg| - 1]) && Raws(vRecvMsg[..|vRecvMsg| - 1]) == d
      ensures var m := old(msg.Raw()) + pch[..used];
              if ok then Valid() && Messages() == d + [m] && Fits(m) else |m| == 24 && Oversized(m)
    {
      ok, handled, used := Fill(msg, pch);
      ghost var front := vRecvMsg[..|vRecvMsg| - 1];
      assert forall i :: 0 <= i < |front| ==> front[i] == vRecvMsg[i] != msg;
      assert AllValid(front) && Raws(front) == d;
      if ok { assert vRecvMsg == front + [msg]; }
    }

    method Fill(msg: NetMessage, pch: seq<Byte>) returns (ok: bool, handled: int, ghost used: nat)
      requires msg.Valid() && !Complete(msg.Raw()) && pch != []
      modifies msg
      ensures 0 < used <= |pch| && (ok ==> handled == used)
      ensures var m := old(msg.Raw()) + pch[..used];
              if ok then msg.Valid() && msg.Raw() == m && Fits(m) else |m| == 24 && Oversized(m)
    {
      msg.WhenComplete();
      if !msg.inData {
        handled, used := msg.ReadHeader(pch);
      } else {
        handled := msg.ReadData(pch);
        used := handled;
        msg.WhenComplete();
      }
      ok := handled >= 0 && !(msg.inData && msg.hdr.size > MAX_PROTOCOL_MESSAGE_LENGTH);
    }

    /** A turn that starts at byte `at` of a piece. */
    method Turn(pch: seq<Byte>, at: nat, ghost start: Outcome) returns (ok: bool, next: nat)
      requires Valid() && at < |pch| && Feed(start, pch[..at]) == Running(Messages())
      modifies this, Objects()
      ensures fresh(Objects() - old(Objects()))
      ensures ok ==> Valid() && at < next <= |pch| && Feed(start, pch[..next]) == Running(Messages())
      ensures !ok ==> vRecvMsg != [] && AllValid(vRecvMsg[..|vRecvMsg| - 1])
      ensures !ok ==> Feed(start, pch) == Rejected(Raws(vRecvMsg[..|vRecvMsg| - 1]))
    {
      ghost var q := Messages();
      var going, handled, used := Absorb(pch[at..]);
      TurnFed(start, pch, at, used, q);
      if going { return true, at + handled; }
      return false, at;
    }

    /** All bytes of one piece; the loop stops early only when the connection is to be cut. */
    method ReceiveMsgBytes(pch: seq<Byte>) returns (ok: bool)
      requires Valid()
      modifies this, Objects()
      ensures fresh(Objects() - old(Objects()))
      ensures ok ==> Valid() && Feed(Running(old(Messages())), pch) == Running(Messages())
      ensures !ok ==> vRecvMsg != [] && AllValid(vRecvMsg[..|vRecvMsg| - 1])
      ensures !ok ==> Feed(Running(old(Messages())), pch) == Rejected(Raws(vRecvMsg[..|vRecvMsg| - 1]))
    {
      ghost var start := Running(Messages());
      var at := 0;
      ok := true;
      while at < |pch|
        invariant 0 <= at <= |pch| && Valid() && ok
        invariant fresh(Objects() - old(Objects()))
        invariant Feed(start, pch[..at]) == Running(Messages())
      {
        ok, at := Turn(pch, at, start);
        if !ok { return; }
      }
      assert pch[..at] == pch;
    }
  }

  lemma TurnFed(start: Outcome, pch: seq<Byte>, at: nat, used: nat, q: seq<Raw>)
    requires at + used <= |pch| && Feed(start, pch[..at]) == Running(q)
    ensures var o := Feed(Running(q), pch[at..][..used]);
            Feed(start, pch[..at + used]) == o && (o.Rejected? ==> Feed(start, pch) == o)
  {
    FeedMore(start, pch, at, used);
    if Feed(start, pch[..at + used]).Rejected? { FeedRest(start, pch, at + used); }
  }

  lemma FeedMore(o: Outcome, s: seq<Byte>, at: nat, n: nat)
    requires at + n <= |s|
    ensures Feed(Feed(o, s[..at]), s[at..][..n]) == Feed(o, s[..at + n])
  {
    FeedSplit(o, s[..at], s[at..][..n]);
    assert s[..at] + s[at..][..n] == s[..at + n];
  }

  lemma FeedRest(o: Outcome, s: seq<Byte>, at: nat)
    requires at <= |s| && Feed(o, s[..at]).Rejected?
    ensures Feed(o, s) == Feed(o, s[..at])
  {
    FeedSplit(o, s[..at], s[at..]);
    StaysRejected(Feed(o, s[..at]).done, s[at..]);
    assert s[..at] + s[at..] == s;
  }

  function Resize(s: seq<Byte>, n: nat): (r: seq<Byte>)
    requires |s| <= n
    ensures |r| == n && s <= r
  {
    s + seq(n - |s|, i => 0)
  }
}
