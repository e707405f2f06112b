/** The block index: every block knows its parent and, through a skip list, a far ancestor; the
    active chain is an array of blocks by height. */
module ChainIndex {
  import opened Arith
  import opened Common

  // ---------- skip heights ----------

  /** Bitwise and. */
  function And(x: nat, y: nat): (r: nat)
    ensures r <= x && r <= y
    decreases x + y
  {
    if x == 0 || y == 0 then 0
    else 2 * And(x / 2, y / 2) + (if x % 2 == 1 && y % 2 == 1 then 1 else 0)
  }

  /** The largest power of two that divides `n`. */
  function LowestOne(n: nat): nat
    requires n > 0
  {
    if n % 2 == 1 then 1 else 2 * LowestOne(n / 2)
  }

  function InvertLowestOne(n: nat): nat {
    if n == 0 then 0 else And(n, n - 1)
  }

  lemma {:induction false} AndSelf(n: nat)
    ensures And(n, n) == n
  {
    if n > 0 { AndSelf(n / 2); }
  }

  /** `n & (n - 1)` clears the lowest bit that is set, and no other. */
  lemma {:induction false} InvertsLowestOne(n: nat)
    requires n > 0
    ensures InvertLowestOne(n) == n - LowestOne(n) < n
  {
    if n % 2 == 1 {
      assert (n - 1) / 2 == n / 2;
      AndSelf(n / 2);
    } else {
      assert (n - 1) / 2 == n / 2 - 1;
      InvertsLowestOne(n / 2);
    }
  }

  function GetSkipHeight(height: int): (h: int)
    requires height >= 0
    ensures 0 <= h && (height > 0 ==> h < height)
  {
    if height < 2 then 0
    else if height % 2 == 1 then InvertLowestOne(InvertLowestOne(height - 1)) + 1
    else InvertLowestOne(height)
  }

  /** `d` divides `n`, and twice `d` does not. */
  predicate LowestOf(n: nat, d: nat)
    requires d > 0
  {
    n % d == 0 && n / d % 2 == 1
  }

  lemma {:induction false} LowestOneIs(n: nat)
    requires n > 0
    ensures LowestOne(n) > 0 && LowestOf(n, LowestOne(n))
  {
    if n % 2 == 0 {
      var m, d := n / 2, LowestOne(n / 2);
      LowestOneIs(m);
      DivMod(m, d);
      DivUnique(n, 2 * d, m / d, 0);
    }
  }

  /** From an even height the skip clears the lowest one bit; from an odd height the lowest two of the even height
      below it, and one is kept. */
  lemma SkipHeights(height: nat)
    ensures height % 2 == 0 && height > 0 ==> GetSkipHeight(height) == height - LowestOne(height)
    ensures height % 2 == 1 && height > 1 ==>
              var once := height - 1 - LowestOne(height - 1);
              once >= 0 && GetSkipHeight(height) == if once == 0 then 1 else once - LowestOne(once) + 1
  {
    if height > 1 {
      InvertsLowestOne(height - height % 2);
      var once := height - 1 - LowestOne(height - 1);
      if height % 2 == 1 && once > 0 { InvertsLowestOne(once); }
    }
  }

  // ---------- blocks ----------

  class BlockIndex {
    const hash: int
    const pprev: BlockIndex?
    const nHeight: nat
    var pskip: BlockIndex?

    constructor (hash: int, parent: BlockIndex?)
      ensures pprev == parent && pskip == null && this.hash == hash
      ensures nHeight == if parent == null then 0 else parent.nHeight + 1
    {
      this.hash := hash;
      pprev, pskip := parent, null;
      nHeight := if parent == null then 0 else parent.nHeight + 1;
    }
  }

  /** Heights count the parents. */
  ghost predicate Linked(b: BlockIndex)
    decreases b.nHeight
  {
    if b.pprev == null then b.nHeight == 0
    else b.nHeight > 0 && b.pprev.nHeight == b.nHeight - 1 && Linked(b.pprev)
  }

  /** The ancestor at a height, by the plain walk over parents. */
  ghost function Walk(b: BlockIndex, height: nat): (a: BlockIndex)
    requires Linked(b) && height <= b.nHeight
    ensures Linked(a) && a.nHeight == height
    decreases b.nHeight
  {
    if b.nHeight == height then b else Walk(b.pprev, height)
  }

  lemma {:induction false} WalkWalk(b: BlockIndex, mid: nat, low: nat)
    requires Linked(b) && low <= mid <= b.nHeight
    ensures Walk(Walk(b, mid), low) == Walk(b, low)
    decreases b.nHeight
  {
    if b.nHeight > mid { WalkWalk(b.pprev, mid, low); }
  }

  /** The skip link, once set, names the ancestor at the skip height. */
  ghost predicate SkipOk(b: BlockIndex)
    reads b
  {
    Linked(b) && (b.pskip != null ==> b.pskip == Walk(b, GetSkipHeight(b.nHeight)))
  }

  /** A set of blocks that has every parent and every skip target of its members. */
  ghost predicate Tree(tree: set<BlockIndex>)
    reads tree
  {
    forall b :: b in tree ==> SkipOk(b) && (b.pprev != null ==> b.pprev in tree)
  }

  lemma {:induction false} WalkInTree(tree: set<BlockIndex>, b: BlockIndex, height: nat)
    requires Tree(tree) && b in tree && Linked(b) && height <= b.nHeight
    ensures Walk(b, height) in tree
    decreases b.nHeight
  {
    if b.nHeight > height { WalkInTree(tree, b.pprev, height); }
  }

  /** `GetAncestor` follows skips where they help, and still ends where the plain walk ends. */
  method GetAncestor(b: BlockIndex, height: int, ghost tree: set<BlockIndex>) returns (a: BlockIndex?)
    requires Tree(tree) && b in tree
    ensures a == if height > b.nHeight || height < 0 then null else Walk(b, height)
    ensures a != null ==> a in tree
  {
    if height > b.nHeight || height < 0 { return null; }
    var pindexWalk: BlockIndex := b;
    var heightWalk: int := b.nHeight;
    while heightWalk > height
      invariant pindexWalk in tree && heightWalk == pindexWalk.nHeight >= height
      invariant Walk(pindexWalk, height) == Walk(b, height)
      decreases heightWalk
    {
      var heightSkip := GetSkipHeight(heightWalk);
      var heightSkipPrev := GetSkipHeight(heightWalk - 1);
      if pindexWalk.pskip != null &&
         (heightSkip == height ||
          (heightSkip > height && !(heightSkipPrev < heightSkip - 2 && heightSkipPrev >= height))) {
        WalkWalk(pindexWalk, heightSkip, height);
        WalkInTree(tree, pindexWalk, heightSkip);
        pindexWalk := pindexWalk.pskip;
        heightWalk := heightSkip;
      } else {
        pindexWalk := pindexWalk.pprev;
        heightWalk := heightWalk - 1;
      }
    }
    a := pindexWalk;
  }

  /** `BuildSkip` for a block whose parent is in the tree; the block may then join it. */
  method BuildSkip(b: BlockIndex, ghost tree: set<BlockIndex>)
    requires Tree(tree) && SkipOk(b) && (b.pprev != null ==> b.pprev in tree)
    modifies b
    ensures SkipOk(b) && (b.pprev == null ==> b.pskip == old(b.pskip))
    ensures b.pprev != null ==> b.pskip == Walk(b, GetSkipHeight(b.nHeight))
    ensures b !in tree ==> Tree(tree + {b})
  {
    if b.pprev != null {
      b.pskip := GetAncestor(b.pprev, GetSkipHeight(b.nHeight), tree);
    }
  }

  // ---------- the active chain ----------

  /** The chain is the tip with all its ancestors, each at its height. */
  ghost predicate ChainOf(v: seq<BlockIndex?>, tip: BlockIndex) {
    && Linked(tip) && |v| == tip.nHeight + 1
    && forall i :: 0 <= i < |v| ==> v[i] == Walk(tip, i)
  }

  ghost predicate ChainOk(v: seq<BlockIndex?>) {
    v == [] || (v[|v| - 1] != null && ChainOf(v, v[|v| - 1]))
  }

  /** A block stands at its own height in the chain. */
  predicate Member(v: seq<BlockIndex?>, b: BlockIndex) {
    b.nHeight < |v| && v[b.nHeight] == b
  }

  /** With a block, a chain has all its ancestors. */
  lemma MemberDown(v: seq<BlockIndex?>, b: BlockIndex, height: nat)
    requires ChainOk(v) && Member(v, b) && Linked(b) && height <= b.nHeight
    ensures v[height] == Walk(b, height)
  {
    WalkWalk(v[|v| - 1], b.nHeight, height);
  }

  class Chain {
    var vChain: seq<BlockIndex?>

    constructor ()
      ensures vChain == []
    {
      vChain := [];
    }

    function At(height: int): BlockIndex?
      reads this
    {
      if height < 0 || height >= |vChain| then null else vChain[height]
    }

    function Tip(): BlockIndex?
      reads this
    {
      if |vChain| > 0 then vChain[|vChain| - 1] else null
    }

    predicate Contains(b: BlockIndex)
      reads this
      ensures Contains(b) <==> Member(vChain, b)
    {
      At(b.nHeight) == b
    }

    /** The successor in the chain: the one block of the chain whose parent this is. */
    method Next(b: BlockIndex) returns (n: BlockIndex?)
      requires ChainOk(vChain) && Linked(b)
      ensures n == null <==> !Contains(b) || b == Tip()
      ensures n != null ==> Contains(n) && n.pprev == b
    {
      if Contains(b) {
        n := At(b.nHeight + 1);
        if n != null {
          assert n == Walk(vChain[|vChain| - 1], b.nHeight + 1);
          WalkWalk(vChain[|vChain| - 1], b.nHeight + 1, b.nHeight);
        }
      } else {
        n := null;
      }
    }

    /** `SetTip` rewrites the array only down to the first block that is already in place, and still
        leaves every ancestor of the new tip at its height. */
    method SetTip(tip: BlockIndex?)
      requires ChainOk(vChain) && (tip != null ==> Linked(tip))
      modifies this
      ensures ChainOk(vChain) && Tip() == tip
      ensures tip != null ==> ChainOf(vChain, tip)
    {
      if tip == null {
        vChain := [];
        return;
      }
      ghost var before := vChain;
      var n := tip.nHeight + 1;
      vChain := if n <= |vChain| then vChain[..n] else vChain + seq(n - |vChain|, i => null);
      var pindex: BlockIndex? := tip;
      while pindex != null && vChain[pindex.nHeight] != pindex
        invariant |vChain| == n
        invariant pindex != null ==> pindex.nHeight < n && pindex == Walk(tip, pindex.nHeight)
        invariant forall i :: (if pindex == null then 0 else pindex.nHeight + 1) <= i < n ==> vChain[i] == Walk(tip, i)
        invariant pindex != null ==> forall i :: 0 <= i <= pindex.nHeight ==>
          vChain[i] == if i < |before| then before[i] else null
        decreases if pindex == null then 0 else pindex.nHeight + 1
      {
        vChain := vChain[pindex.nHeight := pindex];
        if pindex.pprev != null { WalkWalk(tip, pindex.nHeight, pindex.nHeight - 1); }
        pindex := pindex.pprev;
      }
      if pindex != null {
        forall i | 0 <= i <= pindex.nHeight ensures vChain[i] == Walk(tip, i) {
          MemberDown(before, pindex, i);
          WalkWalk(tip, pindex.nHeight, i);
        }
      }
    }

    /** `FindFork` finds the last block that `b` and the chain have in common. */
    method FindFork(b: BlockIndex?, ghost tree: set<BlockIndex>) returns (f: BlockIndex?)
      requires ChainOk(vChain) && Tree(tree) && (b != null ==> b in tree)
      ensures f != null ==> b != null && f.nHeight <= b.nHeight && f == Walk(b, f.nHeight) && Contains(f)
      ensures b != null ==>
                forall h :: (if f == null then 0 else f.nHeight + 1) <= h <= b.nHeight ==> !Contains(Walk(b, h))
    {
      if b == null { return null; }
      f := b;
      if b.nHeight > |vChain| - 1 { f := GetAncestor(b, |vChain| - 1, tree); }
      while f != null && !Contains(f)
        invariant f != null ==> f in tree && f.nHeight <= b.nHeight && f == Walk(b, f.nHeight)
        invariant forall h :: (if f == null then 0 else f.nHeight + 1) <= h <= b.nHeight ==> !Contains(Walk(b, h))
        decreases if f == null then 0 else f.nHeight + 1
      {
        if f.pprev != null { WalkWalk(b, f.nHeight, f.nHeight - 1); }
        f := f.pprev;
      }
    }

    /** The block and the step for the next entry, when `n` have been listed. */
    method NextEntry(b: BlockIndex, nStep: nat, ghost start: BlockIndex, n: nat, ghost tree: set<BlockIndex>)
      returns (a: BlockIndex, step: nat)
      requires ChainOk(vChain) && Tree(tree) && b in tree && Linked(start) && b.nHeight > 0 && n > 0
      requires b == Walk(start, LocatorHeight(start.nHeight, n - 1)) && nStep == LocatorStep(n - 1)
      ensures a == Walk(start, LocatorHeight(start.nHeight, n)) && a in tree && a.nHeight < b.nHeight
      ensures step == LocatorStep(n)
    {
      a := StepBack(b, nStep, start, n - 1, tree);
      StepDoubles(n - 1);
      step := if n > 10 then nStep * 2 else nStep;
    }

    /** The blocks whose hashes make up a locator from `b`, or from the tip: ten steps of one, then
        steps that double, and genesis last. */
    method GetLocator(b: BlockIndex?, ghost tree: set<BlockIndex>) returns (have: seq<BlockIndex>)
      requires ChainOk(vChain) && Tree(tree) && (b != null ==> b in tree) && (Tip() != null ==> Tip() in tree)
      ensures var start := if b == null then Tip() else b;
              if start == null then have == []
              else
                && have != [] && Listed(start, have)
                && LocatorHeight(start.nHeight, |have| - 1) == 0
                && (forall k :: 0 <= k < |have| - 1 ==> Above(start.nHeight, k))
                && Descending(have)
    {
      have := [];
      var nStep := 1;
      var pindex := if b == null then Tip() else b;
      ghost var start := pindex;
      if pindex == null { return; }
      while true
        invariant start != null && pindex != null && pindex in tree && Locating(start, have, pindex, nStep)
        decreases pindex.nHeight
      {
        LocatingMore(start, have, pindex, nStep);
        have := have + [pindex];
        if pindex.nHeight == 0 {
          ListedDescends(start, have);
          break;
        }
        pindex, nStep := NextEntry(pindex, nStep, start, |have|, tree);
      }
    }

    /** From entry `k` to the next: by the array inside the chain, by the skip list outside it. */
    method StepBack(b: BlockIndex, nStep: nat, ghost start: BlockIndex, ghost k: nat, ghost tree: set<BlockIndex>)
      returns (a: BlockIndex)
      requires ChainOk(vChain) && Tree(tree) && b in tree && Linked(start) && b.nHeight > 0
      requires b == Walk(start, LocatorHeight(start.nHeight, k)) && nStep == LocatorStep(k)
      ensures a == Walk(start, LocatorHeight(start.nHeight, k + 1)) && a in tree && a.nHeight < b.nHeight
    {
      var nHeight := if b.nHeight - nStep > 0 then b.nHeight - nStep else 0;
      assert nHeight == LocatorHeight(start.nHeight, k + 1);
      WalkWalk(start, b.nHeight, nHeight);
      WalkInTree(tree, b, nHeight);
      if Contains(b) {
        MemberDown(vChain, b, nHeight);
        a := At(nHeight);
      } else {
        a := GetAncestor(b, nHeight, tree);
      }
    }
  }

  /** The step back after entry `k` of a locator. */
  function LocatorStep(k: nat): (step: nat)
    ensures step > 0
  {
    if k <= 10 then 1 else Pow2(k - 10)
  }

  lemma StepDoubles(k: nat)
    ensures LocatorStep(k + 1) == if k >= 10 then 2 * LocatorStep(k) else LocatorStep(k)
  {
  }

  /** The height of entry `k` of a locator that starts at height `start`. */
  function LocatorHeight(start: nat, k: nat): (h: nat)
    ensures h <= start
  {
    if k == 0 then start
    else
      var h, step := LocatorHeight(start, k - 1), LocatorStep(k - 1);
      if h > step then h - step else 0
  }

  lemma {:induction false} LocatorClosed(start: nat, k: nat)
    ensures LocatorHeight(start, k) ==
            var h := if k <= 10 then start - k else start - 9 - Pow2(k - 10);
            if h < 0 then 0 else h
  {
    if k > 0 { LocatorClosed(start, k - 1); }
  }

  /** The entries are ancestors at the right heights. */
  ghost predicate Listed(start: BlockIndex, have: seq<BlockIndex>) {
    Linked(start) && forall k :: ListedAt(start, have, k)
  }

  ghost predicate ListedAt(start: BlockIndex, have: seq<BlockIndex>, k: int)
    requires Linked(start)
  {
    0 <= k < |have| ==> have[k] == Walk(start, LocatorHeight(start.nHeight, k))
  }

  /** Entry `k` of a locator is not yet genesis. */
  predicate Above(start: nat, k: nat) {
    LocatorHeight(start, k) > 0
  }

  lemma ListedMore(start: BlockIndex, have: seq<BlockIndex>, b: BlockIndex)
    requires Listed(start, have) && b == Walk(start, LocatorHeight(start.nHeight, |have|))
    ensures Listed(start, have + [b])
  {
    forall k ensures ListedAt(start, have + [b], k) {
      assert ListedAt(start, have, k);
      ListedAtMore(start, have, b, k);
    }
  }

  /** The entries so far, the block for the next one and the step after it. */
  ghost predicate Locating(start: BlockIndex, have: seq<BlockIndex>, b: BlockIndex, step: nat) {
    && Listed(start, have) && b == Walk(start, LocatorHeight(start.nHeight, |have|)) && step == LocatorStep(|have|)
    && forall k :: 0 <= k < |have| ==> Above(start.nHeight, k)
  }

  lemma LocatingMore(start: BlockIndex, have: seq<BlockIndex>, b: BlockIndex, step: nat)
    requires Locating(start, have, b, step)
    ensures Listed(start, have + [b]) && LocatorHeight(start.nHeight, |have|) == b.nHeight
    ensures b.nHeight > 0 ==> forall k :: 0 <= k < |have| + 1 ==> Above(start.nHeight, k)
  {
    ListedMore(start, have, b);
  }

  lemma ListedAtMore(start: BlockIndex, have: seq<BlockIndex>, b: BlockIndex, k: int)
    requires Linked(start) && ListedAt(start, have, k) && b == Walk(start, LocatorHeight(start.nHeight, |have|))
    ensures ListedAt(start, have + [b], k)
  {
  }

  ghost predicate Descending(have: seq<BlockIndex>) {
    forall k :: 0 < k < |have| ==> have[k].nHeight < have[k - 1].nHeight
  }

  lemma ListedDescends(start: BlockIndex, have: seq<BlockIndex>)
    requires Listed(start, have) && forall k :: 0 <= k < |have| - 1 ==> Above(start.nHeight, k)
    ensures Descending(have)
  {
    forall k | 0 < k < |have| ensures have[k].nHeight < have[k - 1].nHeight {
      assert ListedAt(start, have, k) && ListedAt(start, have, k - 1) && Above(start.nHeight, k - 1);
      LocatorDescends(start.nHeight, k - 1);
    }
  }

  /** A locator that starts at height 10 or more has exactly 11 + ceil(log2(start - 9)) entries. */
  lemma LocatorLength(start: nat, last: nat)
    requires start >= 10 && LocatorHeight(start, last) == 0
    requires forall k :: 0 <= k < last ==> Above(start, k)
    ensures last >= 10 && Pow2(last - 10) >= start - 9 && (last > 10 ==> Pow2(last - 11) < start - 9)
  {
    LocatorClosed(start, last);
    if last > 0 {
      assert Above(start, last - 1);
      LocatorClosed(start, last - 1);
    }
  }

  /** Heights strictly fall along a locator. */
  lemma LocatorDescends(start: nat, k: nat)
    requires LocatorHeight(start, k) > 0
    ensures LocatorHeight(start, k + 1) < LocatorHeight(start, k)
  {
  }
}
