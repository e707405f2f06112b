/** The partial Merkle tree as an object whose streams grow while it is built and whose alarm flag
    is raised while it is read. */
module PartialMerkleTree {
  import opened PartialMerkle
  import opened Bits
  import opened Common

  class Tree {
    const h: Pairing
    var nTransactions: nat
    var vBits: seq<bool>
    var vHash: seq<Hash>
    var fBad: bool

    ghost function Data(): Streams
      reads this
    {
      Streams(vBits, vHash)
    }

    /** Build the tree that reveals the transactions marked in `vMatch`. */
    constructor Build(h: Pairing, vTxid: seq<Hash>, vMatch: seq<bool>, ghost height: nat)
      requires |vMatch| == |vTxid| > 0 && IsHeight(|vTxid|, height)
      ensures this.h == h && nTransactions == |vTxid| && !fBad
      ensures Node(|vTxid|, height, 0) && Data() == Encode(h, vTxid, vMatch, height, 0)
    {
      this.h := h;
      nTransactions, vBits, vHash, fBad := |vTxid|, [], [], false;
      new;
      var nHeight := TreeHeight(|vTxid|);
      assert nHeight == height;
      RootSpans(|vTxid|, height);
      TraverseAndBuild(nHeight, 0, vTxid, vMatch);
    }

    method TraverseAndBuild(height: nat, pos: nat, vTxid: seq<Hash>, vMatch: seq<bool>)
      requires |vMatch| == |vTxid| == nTransactions && Node(nTransactions, height, pos)
      modifies this`vBits, this`vHash
      ensures Data() == Concat(old(Data()), Encode(h, vTxid, vMatch, height, pos))
      decreases height, 1
    {
      var fParentOfMatch := AnyMatch(vMatch, height, pos);
      vBits := vBits + [fParentOfMatch];
      if height == 0 || !fParentOfMatch {
        vHash := vHash + [CalcHash(h, vTxid, height, pos)];
      } else {
        assert Data() == Concat(old(Data()), Streams([true], []));
        BuildBelow(height, pos, vTxid, vMatch);
        ConcatAssoc(old(Data()), Streams([true], []), EncodeBelow(h, vTxid, vMatch, height, pos));
      }
    }

    method BuildBelow(height: nat, pos: nat, vTxid: seq<Hash>, vMatch: seq<bool>)
      requires |vMatch| == |vTxid| == nTransactions && Node(nTransactions, height, pos) && height > 0
      modifies this`vBits, this`vHash
      ensures Data() == Concat(old(Data()), EncodeBelow(h, vTxid, vMatch, height, pos))
      decreases height, 0
    {
      Split(nTransactions, height, pos);
      TraverseAndBuild(height - 1, 2 * pos, vTxid, vMatch);
      WidthExact(nTransactions, height - 1, 2 * pos + 1);
      if pos * 2 + 1 < Width(nTransactions, height - 1) {
        TraverseAndBuild(height - 1, 2 * pos + 1, vTxid, vMatch);
        ConcatAssoc(old(Data()), Encode(h, vTxid, vMatch, height - 1, 2 * pos),
                    Encode(h, vTxid, vMatch, height - 1, 2 * pos + 1));
      }
    }

    /** Whether a node is the parent of a transaction that is to be revealed. */
    method AnyMatch(vMatch: seq<bool>, height: nat, pos: nat) returns (any: bool)
      requires |vMatch| == nTransactions
      ensures any == Any(vMatch, Lo(height, pos), Hi(nTransactions, height, pos))
    {
      LoIsShift(height, pos);
      LoIsShift(height, pos + 1);
      var lo, end := pos * Pow2(height), (pos + 1) * Pow2(height);
      any := false;
      var p := lo;
      while p < end && p < nTransactions
        invariant lo <= p && (p <= end || p == lo) && (p <= nTransactions || p == lo)
        invariant any <==> exists i :: lo <= i < p && i < nTransactions && vMatch[i]
      {
        any := any || vMatch[p];
        p := p + 1;
      }
    }

    /** At the bottom of the traversal: use one hash, or raise the alarm when there is none left. */
    method ExtractLeaf(matched: bool, hashUsed: nat, found: seq<Hash>)
      returns (hash: Hash, nHashUsed: nat, vMatch: seq<Hash>)
      modifies this`fBad
      ensures if hashUsed >= |vHash| then hash == ZERO && nHashUsed == hashUsed && vMatch == found && fBad
              else hash == vHash[hashUsed] && nHashUsed == hashUsed + 1 && fBad == old(fBad)
                   && vMatch == if matched then found + [hash] else found
    {
      nHashUsed, vMatch := hashUsed, found;
      if nHashUsed >= |vHash| {
        fBad := true;
        return ZERO, nHashUsed, vMatch;
      }
      hash := vHash[nHashUsed];
      nHashUsed := nHashUsed + 1;
      if matched { vMatch := vMatch + [hash]; }
    }

    method TraverseAndExtract(height: nat, pos: nat, bitsUsed: nat, hashUsed: nat, found: seq<Hash>)
      returns (hash: Hash, nBitsUsed: nat, nHashUsed: nat, vMatch: seq<Hash>)
      modifies this`fBad
      ensures Walk(hash, nBitsUsed, nHashUsed, vMatch, fBad) ==
              Extract(h, nTransactions, Data(), height, pos, Walk(ZERO, bitsUsed, hashUsed, found, old(fBad)))
      decreases height, 1
    {
      nBitsUsed, nHashUsed, vMatch := bitsUsed, hashUsed, found;
      if nBitsUsed >= |vBits| {
        fBad := true;
        return ZERO, nBitsUsed, nHashUsed, vMatch;
      }
      var fParentOfMatch := vBits[nBitsUsed];
      nBitsUsed := nBitsUsed + 1;
      if height == 0 || !fParentOfMatch {
        hash, nHashUsed, vMatch := ExtractLeaf(height == 0 && fParentOfMatch, nHashUsed, vMatch);
      } else {
        hash, nBitsUsed, nHashUsed, vMatch := ExtractChildren(height, pos, nBitsUsed, nHashUsed, vMatch);
      }
    }

    method ExtractChildren(height: nat, pos: nat, bitsUsed: nat, hashUsed: nat, found: seq<Hash>)
      returns (hash: Hash, nBitsUsed: nat, nHashUsed: nat, vMatch: seq<Hash>)
      requires height > 0
      modifies this`fBad
      ensures Walk(hash, nBitsUsed, nHashUsed, vMatch, fBad) ==
              ExtractBelow(h, nTransactions, Data(), height, pos, Walk(ZERO, bitsUsed, hashUsed, found, old(fBad)))
      decreases height, 0
    {
      var left, right;
      left, nBitsUsed, nHashUsed, vMatch := TraverseAndExtract(height - 1, 2 * pos, bitsUsed, hashUsed, found);
      ghost var w := Walk(left, nBitsUsed, nHashUsed, vMatch, fBad);
      WidthExact(nTransactions, height - 1, 2 * pos + 1);
      if pos * 2 + 1 < Width(nTransactions, height - 1) {
        HashIgnored(h, nTransactions, Data(), height - 1, 2 * pos + 1, w);
        right, nBitsUsed, nHashUsed, vMatch :=
          TraverseAndExtract(height - 1, 2 * pos + 1, nBitsUsed, nHashUsed, vMatch);
        if right == left { fBad := true; }
      } else {
        right := left;
      }
      hash := h(left, right);
    }

    method ExtractMatches(ghost height: nat) returns (root: Hash, vMatch: seq<Hash>)
      requires IsHeight(nTransactions, height)
      modifies this`fBad
      ensures (root, vMatch) == PartialMerkle.ExtractMatches(h, nTransactions, Data(), old(fBad), height)
    {
      vMatch := [];
      if nTransactions == 0 { return ZERO, vMatch; }
      if nTransactions > MAX_TRANSACTIONS { return ZERO, vMatch; }
      if |vHash| > nTransactions { return ZERO, vMatch; }
      if |vBits| < |vHash| { return ZERO, vMatch; }
      var nHeight := TreeHeight(nTransactions);
      assert nHeight == height;
      var nBitsUsed, nHashUsed;
      root, nBitsUsed, nHashUsed, vMatch := TraverseAndExtract(nHeight, 0, 0, 0, vMatch);
      if fBad { return ZERO, vMatch; }
      if (nBitsUsed + 7) / 8 != (|vBits| + 7) / 8 { return ZERO, vMatch; }
      if nHashUsed != |vHash| { return ZERO, vMatch; }
    }

    /** The writing and the reading half of the serialization of the bits. */
    method WriteBits() returns (vBytes: seq<bv8>)
      ensures Packed(vBits, vBytes, |vBits|)
    {
      vBytes := Pack(vBits);
    }

    constructor Read(h: Pairing, n: nat, hashes: seq<Hash>, vBytes: seq<bv8>)
      ensures this.h == h && nTransactions == n && vHash == hashes && !fBad
      ensures |vBits| == 8 * |vBytes| && forall p :: 0 <= p < |vBits| ==> vBits[p] == BitAt(vBytes, p)
    {
      this.h := h;
      nTransactions, vBits, vHash, fBad := n, [], hashes, false;
      new;
      vBits := Unpack(vBytes);
    }
  }

  /** Build, write, read and extract: the receiver ends up with the block's root and exactly the
      selected transaction ids. */
  method Relay(h: Pairing, vTxid: seq<Hash>, vMatch: seq<bool>)
    returns (root: Hash, found: seq<Hash>)
    requires Injective(h) && Distinct(vTxid)
    requires |vMatch| == |vTxid| && 0 < |vTxid| <= MAX_TRANSACTIONS
    ensures root == MerkleRoot(h, vTxid)
    ensures found == Selected(vTxid, vMatch, 0, |vTxid|)
  {
    var height := TreeHeight(|vTxid|);
    RootSpans(|vTxid|, height);
    var sent := new Tree.Build(h, vTxid, vMatch, height);
    var vBytes := sent.WriteBits();
    var received := new Tree.Read(h, sent.nTransactions, sent.vHash, vBytes);
    assert Padded(sent.vBits, received.vBits);
    RoundTrip(h, vTxid, vMatch, height, received.vBits);
    root, found := received.ExtractMatches(height);
  }
}
