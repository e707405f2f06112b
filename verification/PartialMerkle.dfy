/** Partial Merkle trees: a subset of a block's transaction ids, encoded so that the receiver can
    recover them together with the Merkle root.  Encoder and decoder are depth-first traversals
    that write and read a stream of bits and a stream of hashes. */
module PartialMerkle {
  import opened Arith
  import opened Bits
  import opened Common

  type Hash = int

  /** The all-zero hash, which stands for failure. */
  const ZERO: Hash := 0

  /** The hash of two hashes. */
  type Pairing = (Hash, Hash) -> Hash

  ghost predicate Injective(h: Pairing) {
    forall a, b, c, d :: h(a, b) == h(c, d) ==> a == c && b == d
  }

  /** The first transaction under a node. */
  function Lo(height: nat, pos: nat): nat {
    if height == 0 then pos else Lo(height - 1, 2 * pos)
  }

  lemma {:induction false} LoIsShift(height: nat, pos: nat)
    ensures Lo(height, pos) == pos * Pow2(height)
  {
    if height > 0 {
      LoIsShift(height - 1, 2 * pos);
      assert (2 * pos) * Pow2(height - 1) == pos * (2 * Pow2(height - 1));
    }
  }

  lemma {:induction false} LoGrows(height: nat, pos: nat)
    ensures Lo(height, pos) < Lo(height, pos + 1)
  {
    if height > 0 {
      LoGrows(height - 1, 2 * pos);
      LoGrows(height - 1, 2 * pos + 1);
    }
  }

  /** A node exists when there is a transaction under it. */
  predicate Node(n: nat, height: nat, pos: nat) {
    Lo(height, pos) < n
  }

  /** The number of nodes at a height, over `n` transactions. */
  function Width(n: nat, height: nat): nat {
    (n + Pow2(height) - 1) / Pow2(height)
  }

  lemma DivBound(a: nat, p: nat, q: nat)
    requires p > 0
    ensures a / p > q <==> a >= (q + 1) * p
  {
    var d, r := a / p, a % p;
    assert a == d * p + r;
    if d > q { MulLess(q + 1, d, p); } else { MulLess(d + 1, q + 1, p); }
  }

  lemma WidthExact(n: nat, height: nat, pos: nat)
    ensures pos < Width(n, height) <==> Node(n, height, pos)
  {
    var p := Pow2(height);
    LoIsShift(height, pos);
    DivBound(n + p - 1, p, pos);
    assert (pos + 1) * p == pos * p + p;
  }

  /** The transaction after the last one under a node. */
  function Hi(n: nat, height: nat, pos: nat): nat {
    Min(n, Lo(height, pos + 1))
  }

  /** The transactions under a node are those under its left child, then those under its right. */
  lemma Split(n: nat, height: nat, pos: nat)
    requires height > 0 && Node(n, height, pos)
    ensures Node(n, height - 1, 2 * pos)
    ensures Lo(height - 1, 2 * pos) == Lo(height, pos) < Hi(n, height, pos)
    ensures if Node(n, height - 1, 2 * pos + 1)
            then Hi(n, height - 1, 2 * pos) == Lo(height - 1, 2 * pos + 1)
                 && Hi(n, height - 1, 2 * pos + 1) == Hi(n, height, pos)
                 && Lo(height, pos) < Lo(height - 1, 2 * pos + 1) < Hi(n, height, pos)
            else Hi(n, height - 1, 2 * pos) == Hi(n, height, pos)
  {
    LoGrows(height - 1, 2 * pos);
    LoGrows(height - 1, 2 * pos + 1);
  }

  lemma RangeNonempty(n: nat, height: nat, pos: nat)
    requires Node(n, height, pos)
    ensures Lo(height, pos) < Hi(n, height, pos) <= n
  {
    LoGrows(height, pos);
  }

  // ---------- the tree ----------

  function CalcHash(h: Pairing, txids: seq<Hash>, height: nat, pos: nat): Hash
    requires Node(|txids|, height, pos)
    decreases height
  {
    if height == 0 then txids[pos]
    else
      Split(|txids|, height, pos);
      var left := CalcHash(h, txids, height - 1, 2 * pos);
      var right := if Node(|txids|, height - 1, 2 * pos + 1) then CalcHash(h, txids, height - 1, 2 * pos + 1) else left;
      h(left, right)
  }

  ghost predicate Distinct(s: seq<Hash>) {
    forall i, j :: 0 <= i < j < |s| ==> s[i] != s[j]
  }

  /** One level of the tree from the one below: neighbours are hashed together, a last odd one with itself. */
  function Pairs(h: Pairing, level: seq<Hash>): (up: seq<Hash>)
    ensures |up| == (|level| + 1) / 2
  {
    if level == [] then []
    else if |level| == 1 then [h(level[0], level[0])]
    else [h(level[0], level[1])] + Pairs(h, level[2..])
  }

  /** The Merkle root of a list, level by level until one hash is left. */
  function MerkleRoot(h: Pairing, level: seq<Hash>): Hash
    requires level != []
    decreases |level|
  {
    if |level| == 1 then level[0] else MerkleRoot(h, Pairs(h, level))
  }

  lemma {:induction false} PairsAt(h: Pairing, level: seq<Hash>, i: nat)
    requires i < |Pairs(h, level)|
    ensures 2 * i < |level|
    ensures Pairs(h, level)[i] == h(level[2 * i], if 2 * i + 1 < |level| then level[2 * i + 1] else level[2 * i])
  {
    if i > 0 {
      PairsAt(h, level[2..], i - 1);
    }
  }

  function Level(h: Pairing, txids: seq<Hash>, height: nat): seq<Hash> {
    if height == 0 then txids else Pairs(h, Level(h, txids, height - 1))
  }

  /** The recursive hash of a node is the one that stands in its level. */
  lemma {:induction false} LevelIs(h: Pairing, txids: seq<Hash>, height: nat, pos: nat)
    ensures pos < |Level(h, txids, height)| <==> Node(|txids|, height, pos)
    ensures Node(|txids|, height, pos) ==> Level(h, txids, height)[pos] == CalcHash(h, txids, height, pos)
    decreases height
  {
    if height > 0 {
      LevelIs(h, txids, height - 1, 2 * pos);
      LevelIs(h, txids, height - 1, 2 * pos + 1);
      if pos < |Level(h, txids, height)| { PairsAt(h, Level(h, txids, height - 1), pos); }
    }
  }

  lemma {:induction false} RootOfLevel(h: Pairing, txids: seq<Hash>, height: nat)
    requires txids != [] && forall k :: 0 <= k < height ==> |Level(h, txids, k)| > 1
    ensures Level(h, txids, height) != []
    ensures MerkleRoot(h, Level(h, txids, height)) == MerkleRoot(h, txids)
  {
    if height > 0 {
      RootOfLevel(h, txids, height - 1);
      assert |Level(h, txids, height - 1)| > 1;
    }
  }

  /** The hash of the root node is the Merkle root of the whole list. */
  lemma RootIsMerkleRoot(h: Pairing, txids: seq<Hash>, height: nat)
    requires txids != [] && IsHeight(|txids|, height)
    ensures Node(|txids|, height, 0) && CalcHash(h, txids, height, 0) == MerkleRoot(h, txids)
  {
    RootSpans(|txids|, height);
    forall k | 0 <= k < height ensures |Level(h, txids, k)| > 1 {
      WidthExact(|txids|, k, 1);
      LevelIs(h, txids, k, 1);
    }
    RootOfLevel(h, txids, height);
    LevelIs(h, txids, height, 0);
    LevelIs(h, txids, height, 1);
    WidthExact(|txids|, height, 1);
  }

  /** Different nodes at the same height have different hashes. */
  lemma {:induction false} HashesDiffer(h: Pairing, txids: seq<Hash>, height: nat, p: nat, q: nat)
    requires Injective(h) && Distinct(txids)
    requires Node(|txids|, height, p) && Node(|txids|, height, q) && p != q
    ensures CalcHash(h, txids, height, p) != CalcHash(h, txids, height, q)
  {
    if height > 0 {
      Split(|txids|, height, p);
      Split(|txids|, height, q);
      HashesDiffer(h, txids, height - 1, 2 * p, 2 * q);
    }
  }

  /** Whether any transaction in a range is to be revealed. */
  predicate Any(match_: seq<bool>, lo: nat, hi: nat)
    requires hi <= |match_|
  {
    exists i :: lo <= i < hi && match_[i]
  }

  // ---------- the encoder ----------

  datatype Streams = Streams(bits: seq<bool>, hashes: seq<Hash>)

  function Concat(a: Streams, b: Streams): Streams {
    Streams(a.bits + b.bits, a.hashes + b.hashes)
  }

  lemma ConcatAssoc(a: Streams, b: Streams, c: Streams)
    ensures Concat(Concat(a, b), c) == Concat(a, Concat(b, c))
  {
    assert a.bits + b.bits + c.bits == a.bits + (b.bits + c.bits);
    assert a.hashes + b.hashes + c.hashes == a.hashes + (b.hashes + c.hashes);
  }

  function Encode(h: Pairing, txids: seq<Hash>, match_: seq<bool>, height: nat, pos: nat): Streams
    requires |match_| == |txids| && Node(|txids|, height, pos)
    decreases height, 1
  {
    var parent := Any(match_, Lo(height, pos), Hi(|txids|, height, pos));
    if height == 0 || !parent then Streams([parent], [CalcHash(h, txids, height, pos)])
    else Concat(Streams([parent], []), EncodeBelow(h, txids, match_, height, pos))
  }

  function EncodeBelow(h: Pairing, txids: seq<Hash>, match_: seq<bool>, height: nat, pos: nat): Streams
    requires |match_| == |txids| && Node(|txids|, height, pos) && height > 0
    decreases height, 0
  {
    Split(|txids|, height, pos);
    var left := Encode(h, txids, match_, height - 1, 2 * pos);
    if Node(|txids|, height - 1, 2 * pos + 1)
    then Concat(left, Encode(h, txids, match_, height - 1, 2 * pos + 1)) else left
  }

  /** At most one hash for every transaction, and at least one bit for every hash. */
  lemma {:induction false} EncodeSize(h: Pairing, txids: seq<Hash>, match_: seq<bool>, height: nat, pos: nat)
    requires |match_| == |txids| && Node(|txids|, height, pos)
    ensures var e := Encode(h, txids, match_, height, pos);
            |e.hashes| <= Hi(|txids|, height, pos) - Lo(height, pos) && |e.hashes| <= |e.bits|
    decreases height
  {
    var n := |txids|;
    RangeNonempty(n, height, pos);
    if height > 0 && Any(match_, Lo(height, pos), Hi(n, height, pos)) {
      Split(n, height, pos);
      EncodeSize(h, txids, match_, height - 1, 2 * pos);
      if Node(n, height - 1, 2 * pos + 1) { EncodeSize(h, txids, match_, height - 1, 2 * pos + 1); }
    }
  }

  /** The nodes that are written out with a single child. */
  function Singles(match_: seq<bool>, height: nat, pos: nat): nat
    requires Node(|match_|, height, pos)
    decreases height
  {
    var n := |match_|;
    if height == 0 || !Any(match_, Lo(height, pos), Hi(n, height, pos)) then 0
    else
      Split(n, height, pos);
      Singles(match_, height - 1, 2 * pos) +
      if Node(n, height - 1, 2 * pos + 1) then Singles(match_, height - 1, 2 * pos + 1) else 1
  }

  /** How many bits there are for N hashes: 2N-1, and one more for every node with a single child. */
  lemma {:induction false} BitsExact(h: Pairing, txids: seq<Hash>, match_: seq<bool>, height: nat, pos: nat)
    requires |match_| == |txids| && Node(|txids|, height, pos)
    ensures var e := Encode(h, txids, match_, height, pos);
            |e.bits| == 2 * |e.hashes| - 1 + Singles(match_, height, pos)
    decreases height
  {
    var n := |txids|;
    if height > 0 && Any(match_, Lo(height, pos), Hi(n, height, pos)) {
      Split(n, height, pos);
      BitsExact(h, txids, match_, height - 1, 2 * pos);
      if Node(n, height - 1, 2 * pos + 1) { BitsExact(h, txids, match_, height - 1, 2 * pos + 1); }
    }
  }

  /** Three transactions, of which the last is revealed: the bits go down to it, and the hashes are that of the
      pair it is not in and its own. */
  lemma LastOfThree(h: Pairing, a: Hash, b: Hash, c: Hash)
    ensures Lo(2, 0) == 0
    ensures Encode(h, [a, b, c], [false, false, true], 2, 0) == Streams([true, false, true, true], [h(a, b), c])
  {
    var t, m := [a, b, c], [false, false, true];
    assert Lo(2, 0) == 0 && Lo(1, 0) == 0 && Lo(1, 1) == 2 && Lo(2, 1) == 4 && Lo(1, 2) == 4;
    assert m[2];
    assert Encode(h, t, m, 1, 0) == Streams([false], [h(a, b)]);
    assert Encode(h, t, m, 0, 2) == Streams([true], [c]);
    assert Encode(h, t, m, 1, 1) == Streams([true, true], [c]);
  }

  /** Of three transactions the last has no partner: six bits for three hashes. */
  lemma ThreeTransactions(h: Pairing, txids: seq<Hash>)
    requires |txids| == 3
    ensures Lo(2, 0) == 0
    ensures var e := Encode(h, txids, [true, true, true], 2, 0); |e.hashes| == 3 && |e.bits| == 6
  {
    var m := [true, true, true];
    assert Lo(2, 0) == 0 && Lo(1, 0) == 0 && Lo(1, 1) == 2 && Lo(2, 1) == 4 && Lo(1, 2) == 4;
    assert m[0] && m[2];
    assert |Encode(h, txids, m, 1, 0).hashes| == 2 && |Encode(h, txids, m, 1, 0).bits| == 3;
    assert |Encode(h, txids, m, 1, 1).hashes| == 1 && |Encode(h, txids, m, 1, 1).bits| == 2;
  }

  // ---------- the decoder ----------

  /** What the traversal has used and found so far, and the hash of the node it has just left. */
  datatype Walk = Walk(hash: Hash, bitsUsed: nat, hashUsed: nat, found: seq<Hash>, bad: bool)

  /** Read one node from the two streams `s`, over `n` transactions, after `w`. */
  function Extract(h: Pairing, n: nat, s: Streams, height: nat, pos: nat, w: Walk): Walk
    decreases height, 1
  {
    if w.bitsUsed >= |s.bits| then w.(hash := ZERO, bad := true)
    else
      var parent := s.bits[w.bitsUsed];
      var v := w.(bitsUsed := w.bitsUsed + 1);
      if height == 0 || !parent then
        if v.hashUsed >= |s.hashes| then v.(hash := ZERO, bad := true)
        else
          var hash := s.hashes[v.hashUsed];
          v.(hash := hash, hashUsed := v.hashUsed + 1,
             found := if height == 0 && parent then v.found + [hash] else v.found)
      else ExtractBelow(h, n, s, height, pos, v)
  }

  function ExtractBelow(h: Pairing, n: nat, s: Streams, height: nat, pos: nat, v: Walk): Walk
    requires height > 0
    decreases height, 0
  {
    var left := Extract(h, n, s, height - 1, 2 * pos, v);
    if Node(n, height - 1, 2 * pos + 1) then
      var right := Extract(h, n, s, height - 1, 2 * pos + 1, left);
      right.(hash := h(left.hash, right.hash), bad := right.bad || right.hash == left.hash)
    else left.(hash := h(left.hash, left.hash))
  }

  /** The hash of the node before has no influence. */
  lemma HashIgnored(h: Pairing, n: nat, s: Streams, height: nat, pos: nat, w: Walk)
    ensures Extract(h, n, s, height, pos, w) == Extract(h, n, s, height, pos, w.(hash := ZERO))
    decreases height
  {
    if height > 0 && w.bitsUsed < |s.bits| && s.bits[w.bitsUsed] {
      HashIgnored(h, n, s, height - 1, 2 * pos, w.(bitsUsed := w.bitsUsed + 1));
    }
  }

  /** The transactions of a range that are to be revealed, in block order. */
  function Selected(txids: seq<Hash>, match_: seq<bool>, lo: nat, hi: nat): seq<Hash>
    requires lo <= hi <= |txids| == |match_|
  {
    if lo == hi then []
    else Selected(txids, match_, lo, hi - 1) + (if match_[hi - 1] then [txids[hi - 1]] else [])
  }

  lemma {:induction false} SelectedSplit(txids: seq<Hash>, match_: seq<bool>, lo: nat, mid: nat, hi: nat)
    requires lo <= mid <= hi <= |txids| == |match_|
    ensures Selected(txids, match_, lo, hi) == Selected(txids, match_, lo, mid) + Selected(txids, match_, mid, hi)
  {
    if mid < hi { SelectedSplit(txids, match_, lo, mid, hi - 1); }
  }

  lemma {:induction false} SelectedNone(txids: seq<Hash>, match_: seq<bool>, lo: nat, hi: nat)
    requires lo <= hi <= |txids| == |match_| && !Any(match_, lo, hi)
    ensures Selected(txids, match_, lo, hi) == []
  {
    if lo < hi {
      assert !match_[hi - 1];
      SelectedNone(txids, match_, lo, hi - 1);
    }
  }

  /** `t` stands in `s` at position `i`. */
  ghost predicate StandsAt<T>(s: seq<T>, i: nat, t: seq<T>) {
    i + |t| <= |s| && forall k :: 0 <= k < |t| ==> s[i + k] == t[k]
  }

  lemma StandsSplit<T>(s: seq<T>, i: nat, a: seq<T>, b: seq<T>)
    requires StandsAt(s, i, a + b)
    ensures StandsAt(s, i, a) && StandsAt(s, i + |a|, b)
  {
    forall k | 0 <= k < |a| ensures s[i + k] == a[k] { assert (a + b)[k] == a[k]; }
    forall k | 0 <= k < |b| ensures s[i + |a| + k] == b[k] { assert (a + b)[|a| + k] == b[k]; }
  }

  ghost predicate Ahead(s: Streams, w: Walk, e: Streams) {
    StandsAt(s.bits, w.bitsUsed, e.bits) && StandsAt(s.hashes, w.hashUsed, e.hashes)
  }

  /** Where the decoder stands after reading back `e`, having met hash `hash` and `more` matches. */
  function After(w: Walk, e: Streams, hash: Hash, more: seq<Hash>): Walk {
    w.(hash := hash, bitsUsed := w.bitsUsed + |e.bits|, hashUsed := w.hashUsed + |e.hashes|, found := w.found + more)
  }

  ghost predicate Reads(h: Pairing, txids: seq<Hash>, match_: seq<bool>, s: Streams, height: nat, pos: nat, w: Walk)
    requires |match_| == |txids| && Node(|txids|, height, pos)
  {
    && Lo(height, pos) <= Hi(|txids|, height, pos)
    && Extract(h, |txids|, s, height, pos, w) ==
       After(w, Encode(h, txids, match_, height, pos), CalcHash(h, txids, height, pos),
             Selected(txids, match_, Lo(height, pos), Hi(|txids|, height, pos)))
  }

  /** Reading back what the encoder wrote for a node gives its hash and the selected transactions
      under it, uses up exactly what was written, and never raises the alarm. */
  lemma {:induction false} ExtractEncode(
    h: Pairing, txids: seq<Hash>, match_: seq<bool>, s: Streams, height: nat, pos: nat, w: Walk)
    requires Injective(h) && Distinct(txids) && |match_| == |txids| && Node(|txids|, height, pos)
    requires Ahead(s, w, Encode(h, txids, match_, height, pos))
    ensures Reads(h, txids, match_, s, height, pos, w)
    decreases height
  {
    var n := |txids|;
    RangeNonempty(n, height, pos);
    if height == 0 || !Any(match_, Lo(height, pos), Hi(n, height, pos)) {
      ReadsLeaf(h, txids, match_, s, height, pos, w);
    } else {
      EncodedChildren(h, txids, match_, s, height, pos, w);
      var v := w.(bitsUsed := w.bitsUsed + 1);
      ExtractEncode(h, txids, match_, s, height - 1, 2 * pos, v);
      if Node(n, height - 1, 2 * pos + 1) {
        var u := Extract(h, n, s, height - 1, 2 * pos, v);
        AheadAfter(s, v, u, Encode(h, txids, match_, height - 1, 2 * pos),
                   Encode(h, txids, match_, height - 1, 2 * pos + 1));
        ExtractEncode(h, txids, match_, s, height - 1, 2 * pos + 1, u);
        ReadsBoth(h, txids, match_, s, height, pos, w);
      } else {
        ReadsOnly(h, txids, match_, s, height, pos, w);
      }
    }
  }

  lemma AheadAfter(s: Streams, v: Walk, u: Walk, l: Streams, r: Streams)
    requires u.bitsUsed == v.bitsUsed + |l.bits| && u.hashUsed == v.hashUsed + |l.hashes|
    requires Ahead(s, v.(bitsUsed := v.bitsUsed + |l.bits|, hashUsed := v.hashUsed + |l.hashes|), r)
    ensures Ahead(s, u, r)
  {
  }

  lemma ReadsLeaf(h: Pairing, txids: seq<Hash>, match_: seq<bool>, s: Streams, height: nat, pos: nat, w: Walk)
    requires |match_| == |txids| && Node(|txids|, height, pos)
    requires height == 0 || !Any(match_, Lo(height, pos), Hi(|txids|, height, pos))
    requires Ahead(s, w, Encode(h, txids, match_, height, pos))
    ensures Reads(h, txids, match_, s, height, pos, w)
  {
    if Any(match_, Lo(height, pos), Hi(|txids|, height, pos)) {
      ReadsMatched(h, txids, match_, s, pos, w);
    } else {
      ReadsBare(h, txids, match_, s, height, pos, w);
    }
  }

  /** A bit and a hash. */
  lemma AheadOne(s: Streams, w: Walk, bit: bool, hash: Hash)
    requires Ahead(s, w, Streams([bit], [hash]))
    ensures w.bitsUsed < |s.bits| && s.bits[w.bitsUsed] == bit
    ensures w.hashUsed < |s.hashes| && s.hashes[w.hashUsed] == hash
  {
    assert s.bits[w.bitsUsed + 0] == [bit][0] && s.hashes[w.hashUsed + 0] == [hash][0];
  }

  lemma SelectedOne(txids: seq<Hash>, match_: seq<bool>, pos: nat)
    requires pos < |txids| == |match_| && match_[pos]
    ensures Selected(txids, match_, pos, pos + 1) == [txids[pos]]
  {
    assert Selected(txids, match_, pos, pos) == [];
  }

  lemma ReadsMatched(h: Pairing, txids: seq<Hash>, match_: seq<bool>, s: Streams, pos: nat, w: Walk)
    requires |match_| == |txids| && Node(|txids|, 0, pos) && Any(match_, Lo(0, pos), Hi(|txids|, 0, pos))
    requires Ahead(s, w, Encode(h, txids, match_, 0, pos))
    ensures Reads(h, txids, match_, s, 0, pos, w)
  {
    assert Lo(0, pos) == pos && Hi(|txids|, 0, pos) == pos + 1;
    AheadOne(s, w, true, txids[pos]);
    SelectedOne(txids, match_, pos);
  }

  lemma ReadsBare(h: Pairing, txids: seq<Hash>, match_: seq<bool>, s: Streams, height: nat, pos: nat, w: Walk)
    requires |match_| == |txids| && Node(|txids|, height, pos)
    requires !Any(match_, Lo(height, pos), Hi(|txids|, height, pos))
    requires Ahead(s, w, Encode(h, txids, match_, height, pos))
    ensures Reads(h, txids, match_, s, height, pos, w)
  {
    var hash := CalcHash(h, txids, height, pos);
    RangeNonempty(|txids|, height, pos);
    AheadOne(s, w, false, hash);
    SelectedNone(txids, match_, Lo(height, pos), Hi(|txids|, height, pos));
    assert w.found + [] == w.found;
  }

  /** What the encoder wrote for an inner node: a bit, then the children. */
  lemma EncodedChildren(h: Pairing, txids: seq<Hash>, match_: seq<bool>, s: Streams, height: nat, pos: nat, w: Walk)
    requires |match_| == |txids| && Node(|txids|, height, pos)
    requires height > 0 && Any(match_, Lo(height, pos), Hi(|txids|, height, pos))
    requires Ahead(s, w, Encode(h, txids, match_, height, pos))
    ensures Node(|txids|, height - 1, 2 * pos)
    ensures w.bitsUsed < |s.bits| && s.bits[w.bitsUsed]
    ensures var v, l := w.(bitsUsed := w.bitsUsed + 1), Encode(h, txids, match_, height - 1, 2 * pos);
            && Ahead(s, v, l)
            && (Node(|txids|, height - 1, 2 * pos + 1) ==>
                  Ahead(s, v.(bitsUsed := v.bitsUsed + |l.bits|, hashUsed := v.hashUsed + |l.hashes|),
                        Encode(h, txids, match_, height - 1, 2 * pos + 1)))
  {
    Split(|txids|, height, pos);
    var l := Encode(h, txids, match_, height - 1, 2 * pos);
    assert Encode(h, txids, match_, height, pos) ==
           Concat(Streams([true], []), EncodeBelow(h, txids, match_, height, pos));
    if Node(|txids|, height - 1, 2 * pos + 1) {
      var r := Encode(h, txids, match_, height - 1, 2 * pos + 1);
      StandsSplit(s.bits, w.bitsUsed, [true], l.bits + r.bits);
      StandsSplit(s.bits, w.bitsUsed + 1, l.bits, r.bits);
      assert [] + (l.hashes + r.hashes) == l.hashes + r.hashes;
      StandsSplit(s.hashes, w.hashUsed, l.hashes, r.hashes);
    } else {
      StandsSplit(s.bits, w.bitsUsed, [true], l.bits);
      assert [] + l.hashes == l.hashes;
    }
    assert s.bits[w.bitsUsed + 0] == [true][0];
  }

  lemma ReadsBoth(h: Pairing, txids: seq<Hash>, match_: seq<bool>, s: Streams, height: nat, pos: nat, w: Walk)
    requires Injective(h) && Distinct(txids) && |match_| == |txids| && Node(|txids|, height, pos)
    requires height > 0 && Any(match_, Lo(height, pos), Hi(|txids|, height, pos))
    requires w.bitsUsed < |s.bits| && s.bits[w.bitsUsed]
    requires Node(|txids|, height - 1, 2 * pos) && Node(|txids|, height - 1, 2 * pos + 1)
    requires var v := w.(bitsUsed := w.bitsUsed + 1);
             && Reads(h, txids, match_, s, height - 1, 2 * pos, v)
             && Reads(h, txids, match_, s, height - 1, 2 * pos + 1, Extract(h, |txids|, s, height - 1, 2 * pos, v))
    ensures Reads(h, txids, match_, s, height, pos, w)
  {
    var lo, mid, hi := Lo(height, pos), Lo(height - 1, 2 * pos + 1), Hi(|txids|, height, pos);
    Split(|txids|, height, pos);
    HashesDiffer(h, txids, height - 1, 2 * pos, 2 * pos + 1);
    SelectedSplit(txids, match_, lo, mid, hi);
    var a, b := Selected(txids, match_, lo, mid), Selected(txids, match_, mid, hi);
    assert (w.found + a) + b == w.found + (a + b);
  }

  lemma ReadsOnly(h: Pairing, txids: seq<Hash>, match_: seq<bool>, s: Streams, height: nat, pos: nat, w: Walk)
    requires |match_| == |txids| && Node(|txids|, height, pos)
    requires height > 0 && Any(match_, Lo(height, pos), Hi(|txids|, height, pos))
    requires w.bitsUsed < |s.bits| && s.bits[w.bitsUsed]
    requires Node(|txids|, height - 1, 2 * pos) && !Node(|txids|, height - 1, 2 * pos + 1)
    requires Reads(h, txids, match_, s, height - 1, 2 * pos, w.(bitsUsed := w.bitsUsed + 1))
    ensures Reads(h, txids, match_, s, height, pos, w)
  {
    Split(|txids|, height, pos);
  }

  // ---------- the height of the tree ----------

  lemma {:induction false} LoZero(height: nat)
    ensures Lo(height, 0) == 0
  {
    if height > 0 { LoZero(height - 1); }
  }

  lemma {:induction false} PowGrows(k: nat)
    ensures Pow2(k) > k
  {
    if k > 0 { PowGrows(k - 1); }
  }

  /** The least height at which one node is left. */
  method TreeHeight(n: nat) returns (height: nat)
    ensures Width(n, height) <= 1
    ensures forall k :: 0 <= k < height ==> Width(n, k) > 1
  {
    height := 0;
    while Width(n, height) > 1
      invariant height <= n && forall k :: 0 <= k < height ==> Width(n, k) > 1
      decreases n - height
    {
      WidthExact(n, height, 1);
      LoIsShift(height, 1);
      PowGrows(height);
      height := height + 1;
    }
  }

  /** The root spans all transactions. */
  lemma RootSpans(n: nat, height: nat)
    requires n > 0 && Width(n, height) <= 1
    ensures Node(n, height, 0) && Lo(height, 0) == 0 && Hi(n, height, 0) == n
  {
    LoZero(height);
    WidthExact(n, height, 1);
  }

  /** The least height at which at most one node is left. */
  ghost predicate IsHeight(n: nat, height: nat) {
    Width(n, height) <= 1 && forall k :: 0 <= k < height ==> Width(n, k) > 1
  }

  // ---------- the whole message ----------

  const MAX_TRANSACTIONS := 1000000 / 60

  /** `ExtractMatches`: the root, or zero, and the transaction ids found on the way. */
  function ExtractMatches(h: Pairing, n: nat, s: Streams, bad: bool, height: nat): (Hash, seq<Hash>) {
    if n == 0 || n > MAX_TRANSACTIONS || |s.hashes| > n || |s.bits| < |s.hashes| then (ZERO, [])
    else
      var w := Extract(h, n, s, height, 0, Walk(ZERO, 0, 0, [], bad));
      if w.bad || (w.bitsUsed + 7) / 8 != (|s.bits| + 7) / 8 || w.hashUsed != |s.hashes| then (ZERO, w.found)
      else (w.hash, w.found)
  }

  /** Bits as they come off the wire: filled up with zeros to whole bytes. */
  ghost predicate Padded(bits: seq<bool>, wire: seq<bool>) {
    && |wire| == 8 * ((|bits| + 7) / 8)
    && forall p :: 0 <= p < |wire| ==> wire[p] == (p < |bits| && bits[p])
  }

  /** The receiver of a partial tree gets the Merkle root and exactly the selected transaction ids,
      in block order. */
  lemma RoundTrip(h: Pairing, txids: seq<Hash>, match_: seq<bool>, height: nat, wire: seq<bool>)
    requires Injective(h) && Distinct(txids) && |match_| == |txids| && 0 < |txids| <= MAX_TRANSACTIONS
    requires IsHeight(|txids|, height) && Node(|txids|, height, 0)
    requires Padded(Encode(h, txids, match_, height, 0).bits, wire)
    ensures ExtractMatches(h, |txids|, Streams(wire, Encode(h, txids, match_, height, 0).hashes), false, height) ==
            (MerkleRoot(h, txids), Selected(txids, match_, 0, |txids|))
  {
    RootIsMerkleRoot(h, txids, height);
    var e, w := Encode(h, txids, match_, height, 0), Walk(ZERO, 0, 0, [], false);
    var s := Streams(wire, e.hashes);
    RootSpans(|txids|, height);
    EncodeSize(h, txids, match_, height, 0);
    assert |e.bits| <= |wire|;
    assert Ahead(s, w, e);
    ExtractEncode(h, txids, match_, s, height, 0, w);
    assert [] + Selected(txids, match_, 0, |txids|) == Selected(txids, match_, 0, |txids|);
    assert (|e.bits| + 7) / 8 == (|wire| + 7) / 8;
  }

  // ---------- soundness ----------

  /** `m` is what is left of `s` when some elements are struck out. */
  ghost predicate Subsequence(m: seq<Hash>, s: seq<Hash>) {
    if m == [] then true
    else if s == [] then false
    else Subsequence(m, s[..|s| - 1]) || (m[|m| - 1] == s[|s| - 1] && Subsequence(m[..|m| - 1], s[..|s| - 1]))
  }

  lemma {:induction false} SubsequenceConcat(a: seq<Hash>, s: seq<Hash>, b: seq<Hash>, t: seq<Hash>)
    requires Subsequence(a, s) && Subsequence(b, t)
    ensures Subsequence(a + b, s + t)
  {
    if t == [] {
      assert a + b == a && s + t == s;
    } else {
      var t' := t[..|t| - 1];
      assert (s + t)[..|s + t| - 1] == s + t';
      if b != [] && b[|b| - 1] == t[|t| - 1] && Subsequence(b[..|b| - 1], t') {
        SubsequenceConcat(a, s, b[..|b| - 1], t');
        assert (a + b)[..|a + b| - 1] == a + b[..|b| - 1];
      } else {
        SubsequenceConcat(a, s, b, t');
      }
    }
  }

  /** The alarm, once raised, stays raised. */
  lemma {:induction false} BadStays(h: Pairing, n: nat, s: Streams, height: nat, pos: nat, w: Walk)
    ensures w.bad ==> Extract(h, n, s, height, pos, w).bad
    decreases height
  {
    if height > 0 && w.bitsUsed < |s.bits| {
      var v := w.(bitsUsed := w.bitsUsed + 1);
      BadStays(h, n, s, height - 1, 2 * pos, v);
      BadStays(h, n, s, height - 1, 2 * pos + 1, Extract(h, n, s, height - 1, 2 * pos, v));
    }
  }

  /** Whatever streams are presented, and whatever number of transactions is claimed: if a node is read without
      alarm and hashes to what the block has there, then what was found under it is a subsequence of the block's
      transactions there.  Against a false number the alarm at equal neighbours is needed: where a node is
      claimed that the block does not have, it is a copy of its neighbour. */
  lemma {:induction false} ExtractSound(
    h: Pairing, txids: seq<Hash>, n: nat, s: Streams, height: nat, pos: nat, w: Walk)
    requires Injective(h) && Node(|txids|, height, pos) && (n == |txids| || Distinct(txids))
    requires var r := Extract(h, n, s, height, pos, w);
             !r.bad && r.hash == CalcHash(h, txids, height, pos)
    ensures var r, lo, hi := Extract(h, n, s, height, pos, w), Lo(height, pos), Hi(|txids|, height, pos);
            && lo <= hi <= |txids|
            && w.found <= r.found && Subsequence(r.found[|w.found|..], txids[lo..hi])
    decreases height
  {
    var r := Extract(h, n, s, height, pos, w);
    var lo, hi := Lo(height, pos), Hi(|txids|, height, pos);
    RangeNonempty(|txids|, height, pos);
    var v := w.(bitsUsed := w.bitsUsed + 1);
    if height == 0 {
      SoundLeaf(h, txids, n, s, pos, w);
    } else if s.bits[w.bitsUsed] {
      Split(|txids|, height, pos);
      SameChildren(h, txids, n, s, height, pos, v);
      var left := Extract(h, n, s, height - 1, 2 * pos, v);
      if Node(|txids|, height - 1, 2 * pos + 1) {
        BadStays(h, n, s, height - 1, 2 * pos + 1, left);
        ExtractSound(h, txids, n, s, height - 1, 2 * pos, v);
        ExtractSound(h, txids, n, s, height - 1, 2 * pos + 1, left);
        SoundBoth(txids, lo, Lo(height - 1, 2 * pos + 1), hi, w.found, left.found, r.found);
      } else {
        ExtractSound(h, txids, n, s, height - 1, 2 * pos, v);
      }
    }
  }

  /** Below a node that comes out right, the claimed tree has a right child just where the block has one. */
  lemma SameChildren(h: Pairing, txids: seq<Hash>, n: nat, s: Streams, height: nat, pos: nat, v: Walk)
    requires Injective(h) && height > 0 && Node(|txids|, height, pos) && (n == |txids| || Distinct(txids))
    requires var r := ExtractBelow(h, n, s, height, pos, v); !r.bad && r.hash == CalcHash(h, txids, height, pos)
    ensures Node(n, height - 1, 2 * pos + 1) <==> Node(|txids|, height - 1, 2 * pos + 1)
  {
    Split(|txids|, height, pos);
    if Node(|txids|, height - 1, 2 * pos + 1) && n != |txids| {
      HashesDiffer(h, txids, height - 1, 2 * pos, 2 * pos + 1);
    }
  }

  lemma SoundBoth(txids: seq<Hash>, lo: nat, mid: nat, hi: nat, a: seq<Hash>, b: seq<Hash>, c: seq<Hash>)
    requires lo <= mid <= hi <= |txids| && a <= b <= c
    requires Subsequence(b[|a|..], txids[lo..mid]) && Subsequence(c[|b|..], txids[mid..hi])
    ensures Subsequence(c[|a|..], txids[lo..hi])
  {
    SubsequenceConcat(b[|a|..], txids[lo..mid], c[|b|..], txids[mid..hi]);
    assert txids[lo..mid] + txids[mid..hi] == txids[lo..hi];
    assert b[|a|..] + c[|b|..] == c[|a|..];
  }

  lemma SoundLeaf(h: Pairing, txids: seq<Hash>, n: nat, s: Streams, pos: nat, w: Walk)
    requires pos < |txids|
    requires var r := Extract(h, n, s, 0, pos, w); !r.bad && r.hash == txids[pos]
    ensures var r := Extract(h, n, s, 0, pos, w);
            w.found <= r.found && Subsequence(r.found[|w.found|..], txids[pos..pos + 1])
  {
    var r, one := Extract(h, n, s, 0, pos, w), txids[pos..pos + 1];
    if s.bits[w.bitsUsed] {
      var more := r.found[|w.found|..];
      assert more == [txids[pos]] && one[..0] == [] && more[..0] == [];
    }
  }

  /** Whatever a peer sends, the receiver accepts nothing under the root of a block but transactions of the
      block, in block order.  The number of transactions may be false too, as long as the height is right. */
  lemma Sound(h: Pairing, txids: seq<Hash>, n: nat, s: Streams, bad: bool, height: nat)
    requires Injective(h) && txids != [] && IsHeight(|txids|, height) && (n == |txids| || Distinct(txids))
    requires MerkleRoot(h, txids) != ZERO
    requires ExtractMatches(h, n, s, bad, height).0 == MerkleRoot(h, txids)
    ensures Subsequence(ExtractMatches(h, n, s, bad, height).1, txids)
  {
    var w := Walk(ZERO, 0, 0, [], bad);
    RootIsMerkleRoot(h, txids, height);
    RootSpans(|txids|, height);
    ExtractSound(h, txids, n, s, height, 0, w);
    var r := Extract(h, n, s, height, 0, w);
    assert r.found[0..] == r.found && txids[0..|txids|] == txids;
  }

  /** What an accepted message must look like: a sensible number of transactions, no more hashes than
      transactions or bits, no alarm, and nothing left over but the padding of the last byte. */
  lemma AcceptedWhole(h: Pairing, n: nat, s: Streams, bad: bool, height: nat)
    requires ExtractMatches(h, n, s, bad, height).0 != ZERO
    ensures 0 < n <= 16666 && |s.hashes| <= n && |s.hashes| <= |s.bits|
    ensures var r := Extract(h, n, s, height, 0, Walk(ZERO, 0, 0, [], bad));
            !r.bad && r.hashUsed == |s.hashes| && |s.bits| - (|s.bits| - 1) % 8 <= r.bitsUsed <= |s.bits|
  {
    UsesNoMore(h, n, s, height, 0, Walk(ZERO, 0, 0, [], bad));
    BadStays(h, n, s, height, 0, Walk(ZERO, 0, 0, [], bad));
  }

  lemma {:induction false} UsesNoMore(h: Pairing, n: nat, s: Streams, height: nat, pos: nat, w: Walk)
    requires w.bitsUsed <= |s.bits|
    ensures Extract(h, n, s, height, pos, w).bitsUsed <= |s.bits|
    decreases height
  {
    if height > 0 && w.bitsUsed < |s.bits| && s.bits[w.bitsUsed] {
      var v := w.(bitsUsed := w.bitsUsed + 1);
      UsesNoMore(h, n, s, height - 1, 2 * pos, v);
      UsesNoMore(h, n, s, height - 1, 2 * pos + 1, Extract(h, n, s, height - 1, 2 * pos, v));
    }
  }

  // ---------- bits and bytes ----------

  /** The first `p` bits are in place, and the others are still zero. */
  ghost predicate Packed(bits: seq<bool>, bytes: seq<bv8>, p: nat)
    requires p <= |bits|
  {
    && |bytes| == (|bits| + 7) / 8
    && forall q :: 0 <= q < 8 * |bytes| ==> BitAt(bytes, q) == (q < p && bits[q])
  }

  lemma PackStep(bits: seq<bool>, bytes: seq<bv8>, p: nat, b: bv8)
    requires p < |bits| && Packed(bits, bytes, p)
    requires b == bytes[p / 8] | (if bits[p] then Mask(p % 8) else 0)
    ensures Packed(bits, bytes[p / 8 := b], p + 1)
  {
    var after := bytes[p / 8 := b];
    forall q | 0 <= q < 8 * |after| ensures BitAt(after, q) == (q < p + 1 && bits[q]) {
      PackStepAt(bits, bytes, p, b, q);
    }
  }

  lemma PackStepAt(bits: seq<bool>, bytes: seq<bv8>, p: nat, b: bv8, q: nat)
    requires p < |bits| && p < 8 * |bytes| && q < 8 * |bytes|
    requires BitAt(bytes, q) == (q < p && bits[q])
    requires b == bytes[p / 8] | (if bits[p] then Mask(p % 8) else 0)
    ensures BitAt(bytes[p / 8 := b], q) == (q < p + 1 && bits[q])
  {
    SetOne(bytes, p, b, bits[p], q);
  }

  method Pack(bits: seq<bool>) returns (bytes: seq<bv8>)
    ensures Packed(bits, bytes, |bits|)
  {
    bytes := seq((|bits| + 7) / 8, i => 0);
    forall q | 0 <= q < 8 * |bytes| ensures !BitAt(bytes, q) { ZeroBit(q % 8); }
    var p := 0;
    while p < |bits|
      invariant 0 <= p <= |bits| && Packed(bits, bytes, p)
    {
      var b := bytes[p / 8] | (if bits[p] then Mask(p % 8) else 0);
      PackStep(bits, bytes, p, b);
      bytes := bytes[p / 8 := b];
      p := p + 1;
    }
  }

  method Unpack(bytes: seq<bv8>) returns (bits: seq<bool>)
    ensures |bits| == 8 * |bytes|
    ensures forall p :: 0 <= p < |bits| ==> bits[p] == BitAt(bytes, p)
  {
    bits := seq(8 * |bytes|, i => false);
    var p := 0;
    while p < |bits|
      invariant 0 <= p <= |bits| == 8 * |bytes|
      invariant forall q :: 0 <= q < p ==> bits[q] == BitAt(bytes, q)
    {
      bits := bits[p := Bit(bytes[p / 8], p % 8)];
      p := p + 1;
    }
  }
}
