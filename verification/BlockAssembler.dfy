/** Selection of transactions for a new block: a scheduler over the dependency graph of the memory
    pool, with two queues, two sets of transactions waiting for their parents, and several limits. */
module BlockAssembler {
  import opened Common

  const MAX_BLOCK_SIZE := 1000000
  const MAX_BLOCK_SIGOPS := MAX_BLOCK_SIZE / 50
  const RESERVED_SIZE := 1000
  const RESERVED_SIGOPS := 100

  type Id = int

  /** A memory pool entry; `parents` and `children` are those within the pool. */
  datatype Entry = Entry(
    size: nat, sigOps: nat, fee: int, modifiedFee: int, priority: int, isFinal: bool,
    parents: set<Id>, children: set<Id>)

  type Pool = map<Id, Entry>

  /** The graph is the same seen from both ends. */
  ghost predicate Graph(pool: Pool) {
    forall p, c :: p in pool && c in pool ==> (c in pool[p].children <==> p in pool[c].parents)
  }

  /** `order` lists the pool by mining score, best first, each transaction once. */
  ghost predicate Listing(pool: Pool, order: seq<Id>) {
    && (forall i :: 0 <= i < |order| ==> order[i] in pool)
    && (forall t :: t in pool ==> t in order)
    && (forall i, j :: 0 <= i < j < |order| ==> order[i] != order[j])
  }

  /** Options, with the limits the program forces on them. */
  datatype Limits = Limits(maxSize: nat, prioritySize: nat, minSize: nat)

  function MakeLimits(maxSize: nat, prioritySize: nat, minSize: nat): (l: Limits)
    ensures RESERVED_SIZE <= l.maxSize <= MAX_BLOCK_SIZE - 1000
    ensures l.prioritySize <= l.maxSize && l.minSize <= l.maxSize
    ensures 1000 <= maxSize <= 999000 ==> l.maxSize == maxSize
    ensures (maxSize < 1000 ==> l.maxSize == 1000) && (maxSize > 999000 ==> l.maxSize == 999000)
    ensures l.prioritySize == (if prioritySize > l.maxSize then l.maxSize else prioritySize)
    ensures l.minSize == (if minSize > l.maxSize then l.maxSize else minSize)
  {
    var m := Max(1000, Min(MAX_BLOCK_SIZE - 1000, maxSize));
    Limits(m, Min(m, prioritySize), Min(m, minSize))
  }

  // ---------- what a selection must be ----------

  ghost function SumSize(pool: Pool, s: seq<Id>): nat
    requires forall i :: 0 <= i < |s| ==> s[i] in pool
  {
    if s == [] then 0 else SumSize(pool, s[..|s| - 1]) + pool[s[|s| - 1]].size
  }

  ghost function SumSigOps(pool: Pool, s: seq<Id>): nat
    requires forall i :: 0 <= i < |s| ==> s[i] in pool
  {
    if s == [] then 0 else SumSigOps(pool, s[..|s| - 1]) + pool[s[|s| - 1]].sigOps
  }

  ghost function SumFees(pool: Pool, s: seq<Id>): int
    requires forall i :: 0 <= i < |s| ==> s[i] in pool
  {
    if s == [] then 0 else SumFees(pool, s[..|s| - 1]) + pool[s[|s| - 1]].fee
  }

  /** Known, final, not selected before, and with all its parents before it. */
  ghost predicate Placed(pool: Pool, s: seq<Id>, i: int) {
    0 <= i < |s| ==>
      && s[i] in pool && pool[s[i]].isFinal && s[i] !in s[..i]
      && forall p :: p in pool[s[i]].parents ==> p in s[..i]
  }

  ghost predicate Selection(pool: Pool, s: seq<Id>) {
    forall i :: Placed(pool, s, i)
  }

  lemma Extend(pool: Pool, s: seq<Id>, t: Id)
    requires Selection(pool, s) && t in pool && pool[t].isFinal && t !in s
    requires forall p :: p in pool[t].parents ==> p in s
    ensures Selection(pool, s + [t])
  {
    forall i ensures Placed(pool, s + [t], i) {
      assert Placed(pool, s, i);
      if 0 <= i <= |s| { assert (s + [t])[..i] == s[..i]; }
      if i == |s| { assert s[..i] == s; }
    }
  }

  /** A transaction that cannot be added any more, because it is not final or does not fit. */
  predicate Excluded(pool: Pool, t: Id, maxSize: nat, size: nat, sigOps: nat)
    requires t in pool
  {
    !pool[t].isFinal || size + pool[t].size >= maxSize || sigOps + pool[t].sigOps >= MAX_BLOCK_SIGOPS
  }

  /** No transaction that could still be added has been left out. */
  ghost predicate Exhausted(pool: Pool, s: seq<Id>, maxSize: nat, size: nat, sigOps: nat) {
    forall t :: t in pool && t !in s ==>
      (exists p :: p in pool[t].parents && p !in s) || Excluded(pool, t, maxSize, size, sigOps)
  }

  /** What the program hands on: the order, the reserved-plus-selected totals and the fees. */
  datatype Template = Template(
    txs: seq<Id>, vTxFees: seq<int>, vTxSigOps: seq<int>, coinbaseValue: int,
    blockSize: nat, blockSigOps: nat, blockTx: nat)

  ghost predicate Totals(pool: Pool, s: seq<Id>, size: int, sigOps: int, fees: int, vFees: seq<int>, vSigOps: seq<int>)
    requires forall i :: 0 <= i < |s| ==> s[i] in pool
  {
    && size == RESERVED_SIZE + SumSize(pool, s)
    && sigOps == RESERVED_SIGOPS + SumSigOps(pool, s)
    && fees == SumFees(pool, s)
    && |vFees| == |vSigOps| == |s| + 1
    && (forall i :: 0 <= i < |s| ==> vFees[i + 1] == pool[s[i]].fee && vSigOps[i + 1] == pool[s[i]].sigOps)
  }

  lemma ExtendTotals(
    pool: Pool, s: seq<Id>, t: Id, size: int, sigOps: int, fees: int, vFees: seq<int>, vSigOps: seq<int>)
    requires t in pool && forall i :: 0 <= i < |s| ==> s[i] in pool
    requires Totals(pool, s, size, sigOps, fees, vFees, vSigOps)
    ensures var e := pool[t];
            Totals(pool, s + [t], size + e.size, sigOps + e.sigOps, fees + e.fee, vFees + [e.fee], vSigOps + [e.sigOps])
  {
    assert (s + [t])[..|s|] == s;
  }

  // ---------- the order of a selection ----------

  ghost function Elems(s: seq<Id>): set<Id> {
    set t | t in s
  }

  /** `x` could be added to a block with these transactions, this size and this many signature operations. */
  ghost predicate Addable(pool: Pool, inBlock: set<Id>, maxSize: nat, size: nat, sigOps: nat, x: Id) {
    && x in pool && x !in inBlock && (forall p :: p in pool[x].parents ==> p in inBlock)
    && !Excluded(pool, x, maxSize, size, sigOps)
  }

  /** Nothing that could be added has a higher priority than `t`, or stands before it in the order. */
  ghost predicate Foremost(
    pool: Pool, order: seq<Id>, inBlock: set<Id>, maxSize: nat, size: nat, sigOps: nat, t: Id, byPriority: bool)
    requires t in pool
  {
    forall x :: Addable(pool, inBlock, maxSize, size, sigOps, x) ==>
      if byPriority then pool[x].priority <= pool[t].priority else Rank(order, t) <= Rank(order, x)
  }

  /** Transaction `i` was the foremost of all that could be added when it was: by priority among the first
      `byPriority`, by score after that. */
  ghost predicate GreedyAt(pool: Pool, order: seq<Id>, s: seq<Id>, byPriority: nat, maxSize: nat, i: int)
    requires forall j :: 0 <= j < |s| ==> s[j] in pool
  {
    0 <= i < |s| ==>
      Foremost(pool, order, Elems(s[..i]), maxSize, RESERVED_SIZE + SumSize(pool, s[..i]),
               RESERVED_SIGOPS + SumSigOps(pool, s[..i]), s[i], i < byPriority)
  }

  ghost predicate Greedy(pool: Pool, order: seq<Id>, s: seq<Id>, byPriority: nat, maxSize: nat)
    requires forall j :: 0 <= j < |s| ==> s[j] in pool
  {
    forall i :: GreedyAt(pool, order, s, byPriority, maxSize, i)
  }

  lemma GreedyMore(
    pool: Pool, order: seq<Id>, s: seq<Id>, byPriority: nat, maxSize: nat, t: Id, priorityTx: bool, inBlock: set<Id>)
    requires (forall j :: 0 <= j < |s| ==> s[j] in pool) && t in pool && byPriority <= |s|
    requires Greedy(pool, order, s, byPriority, maxSize) && (priorityTx ==> byPriority == |s|)
    requires forall x :: x in inBlock <==> x in s
    requires Foremost(pool, order, inBlock, maxSize, RESERVED_SIZE + SumSize(pool, s),
                      RESERVED_SIGOPS + SumSigOps(pool, s), t, priorityTx)
    ensures Greedy(pool, order, s + [t], if priorityTx then byPriority + 1 else byPriority, maxSize)
  {
    var u, n := s + [t], if priorityTx then byPriority + 1 else byPriority;
    forall x ensures x in inBlock <==> x in Elems(s) { assert x in inBlock <==> x in s; }
    assert inBlock == Elems(s);
    forall i ensures GreedyAt(pool, order, u, n, maxSize, i) {
      if 0 <= i < |s| {
        assert GreedyAt(pool, order, s, byPriority, maxSize, i);
        assert u[..i] == s[..i];
      } else if i == |s| {
        assert u[..i] == s;
      }
    }
  }

  /** The priorities in the queues are those of the pool, and whoever waits with a score has had its turn. */
  ghost predicate Ordered(
    pool: Pool, order: seq<Id>, q: seq<(int, Id)>, m: map<Id, int>, c: seq<Id>, w: set<Id>, mi: nat)
  {
    && (forall i :: 0 <= i < |q| ==> q[i].1 in pool && q[i].0 == pool[q[i].1].priority)
    && (forall t :: t in m ==> t in pool && m[t] == pool[t].priority)
    && (forall i :: 0 <= i < |c| ==> Rank(order, c[i]) < mi)
    && (forall t :: t in w ==> Rank(order, t) < mi)
  }

  lemma {:induction false} RankAt(order: seq<Id>, i: nat)
    requires i < |order| && forall j, k :: 0 <= j < k < |order| ==> order[j] != order[k]
    ensures Rank(order, order[i]) == i
  {
    if i > 0 {
      assert order[0] != order[i];
      RankAt(order[1..], i - 1);
    }
  }

  lemma OrderedQueue(
    pool: Pool, order: seq<Id>, q: seq<(int, Id)>, q': seq<(int, Id)>, m: map<Id, int>, c: seq<Id>, w: set<Id>, mi: nat,
    children: set<Id>)
    requires Ordered(pool, order, q, m, c, w, mi) && Appended(q', q, Waiting(m, children))
    ensures Ordered(pool, order, q', m - children, c, w, mi)
  {
    forall i | 0 <= i < |q'| ensures q'[i].1 in pool && q'[i].0 == pool[q'[i].1].priority {
      if i < |q| { assert q'[i] == q[i]; } else { assert q'[i] in q'[|q|..]; }
    }
  }

  lemma OrderedCleared(
    pool: Pool, order: seq<Id>, q: seq<(int, Id)>, m: map<Id, int>, c: seq<Id>, c': seq<Id>, w: set<Id>, mi: nat,
    children: set<Id>)
    requires Ordered(pool, order, q, m, c, w, mi) && Appended(c', c, w * children)
    ensures Ordered(pool, order, q, m, c', w - children, mi)
  {
    forall i | 0 <= i < |c'| ensures Rank(order, c'[i]) < mi {
      if i < |c| { assert c'[i] == c[i]; } else { assert c'[i] in c'[|c|..]; }
    }
  }

  // ---------- the scheduler ----------

  /** Policy that the memory pool brings along: the minimum fee for a size, and which priorities
      are high enough to go free. */
  datatype Policy = Policy(minFee: nat -> int, allowFree: int -> bool)

  // ---------- where every transaction is ----------

  /** The state of the selection, as far as it says where a transaction is. */
  datatype View = View(
    pool: Pool, order: seq<Id>, maxSize: nat, inBlock: set<Id>, waitSet: set<Id>, vecPriority: seq<(int, Id)>,
    waitPri: map<Id, int>, cleared: seq<Id>, mi: nat, priorityBlock: bool, size: nat, sigOps: nat)

  /** Some parent of `t` in the pool is not yet in the block. */
  ghost predicate Lacking(v: View, t: Id)
    requires t in v.pool
  {
    exists p :: p in v.pool[t].parents && p !in v.inBlock
  }

  predicate Out(v: View, t: Id)
    requires t in v.pool
  {
    Excluded(v.pool, t, v.maxSize, v.size, v.sigOps)
  }

  /** Where a transaction that is not in the block may be once the priority area is closed: still to come,
      cleared, waiting for a parent, or out. */
  ghost predicate Tracked(v: View, t: Id)
    requires v.mi <= |v.order|
  {
    t in v.pool && t !in v.inBlock ==>
      t in v.order[v.mi..] || t in v.cleared || (t in v.waitSet && Lacking(v, t)) || Out(v, t)
  }

  /** While the priority area is open: in the priority queue, waiting with its priority, or out. */
  ghost predicate PriTracked(v: View, t: Id) {
    t in v.pool && t !in v.inBlock ==> Queued(v.vecPriority, t) || (t in v.waitPri && Lacking(v, t)) || Out(v, t)
  }

  ghost predicate Settled(v: View, t: Id) {
    t in v.pool && t !in v.inBlock ==> Lacking(v, t) || Out(v, t)
  }

  /** Nothing can be added any more. */
  ghost predicate Stuck(v: View) {
    forall t :: Settled(v, t)
  }

  /** Nothing is ever lost sight of, except for the moment those in `but`.  When the priority queue runs dry
      before the area is full, nothing can be added any more. */
  ghost predicate Tracking(v: View, but: set<Id>) {
    v.mi <= |v.order| && (Stuck(v) || (if v.priorityBlock then OpenTracking(v, but) else ClosedTracking(v, but)))
  }

  ghost predicate OpenTracking(v: View, but: set<Id>) {
    v.mi == 0 && v.cleared == [] && forall t :: t !in but ==> PriTracked(v, t)
  }

  ghost predicate ClosedTracking(v: View, but: set<Id>)
    requires v.mi <= |v.order|
  {
    forall t :: t !in but ==> Tracked(v, t)
  }

  lemma AllToCome(v: View, t: Id)
    requires Listing(v.pool, v.order) && v.mi == 0
    ensures Tracked(v, t)
  {
    assert v.order[0..] == v.order;
  }

  lemma StartTracks(v: View)
    requires Listing(v.pool, v.order) && v.mi == 0 && v.cleared == []
    requires v.priorityBlock ==> |v.vecPriority| == |v.order|
    requires v.priorityBlock ==> forall k :: 0 <= k < |v.order| ==> v.vecPriority[k].1 == v.order[k]
    ensures Tracking(v, {})
  {
    forall t ensures Tracked(v, t) { AllToCome(v, t); }
    forall t | v.priorityBlock ensures PriTracked(v, t) {
      if t in v.pool {
        var k :| 0 <= k < |v.order| && v.order[k] == t;
        assert v.vecPriority[k].1 == t;
      }
    }
  }

  // ---------- the next one is the foremost ----------

  ghost predicate InOrder(v: View) {
    Ordered(v.pool, v.order, v.vecPriority, v.waitPri, v.cleared, v.waitSet, v.mi)
  }

  ghost predicate IsForemost(v: View, t: Id, priorityTx: bool)
    requires t in v.pool
  {
    Foremost(v.pool, v.order, v.inBlock, v.maxSize, v.size, v.sigOps, t, priorityTx)
  }

  ghost predicate Ready(v: View, x: Id) {
    Addable(v.pool, v.inBlock, v.maxSize, v.size, v.sigOps, x)
  }

  lemma StuckMisses(v: View, t: Id)
    ensures Stuck(v) ==> Settled(v, t)
  {
  }

  lemma StuckForemost(v: View, t: Id, priorityTx: bool)
    requires Stuck(v) && t in v.pool
    ensures IsForemost(v, t, priorityTx)
  {
    forall x ensures !Addable(v.pool, v.inBlock, v.maxSize, v.size, v.sigOps, x) { assert Settled(v, x); }
  }

  lemma PriorityForemost(v: View, k: nat)
    requires Tracking(v, {}) && InOrder(v) && v.priorityBlock && k < |v.vecPriority|
    requires forall i :: 0 <= i < |v.vecPriority| ==> v.vecPriority[i].0 <= v.vecPriority[k].0
    ensures v.vecPriority[k].1 in v.pool && IsForemost(v, v.vecPriority[k].1, true)
  {
    var t := v.vecPriority[k].1;
    if Stuck(v) {
      StuckForemost(v, t, true);
    } else {
      forall x | Ready(v, x) ensures v.pool[x].priority <= v.pool[t].priority {
        assert PriTracked(v, x);
        var i :| 0 <= i < |v.vecPriority| && v.vecPriority[i].1 == x;
      }
    }
  }

  lemma ClearedForemost(v: View, k: nat)
    requires Tracking(v, {}) && InOrder(v) && Listing(v.pool, v.order) && k < |v.cleared| && v.cleared[k] in v.pool
    requires v.priorityBlock ==> Stuck(v)
    requires forall i :: 0 <= i < |v.cleared| ==> Rank(v.order, v.cleared[k]) <= Rank(v.order, v.cleared[i])
    ensures IsForemost(v, v.cleared[k], false)
  {
    if Stuck(v) {
      StuckForemost(v, v.cleared[k], false);
    } else {
      forall x | Ready(v, x) ensures Rank(v.order, v.cleared[k]) <= Rank(v.order, x) {
        assert Tracked(v, x);
        if x in v.order[v.mi..] { LaterRank(v.order, v.mi, x); }
      }
    }
  }

  lemma LaterRank(order: seq<Id>, mi: nat, x: Id)
    requires mi <= |order| && x in order[mi..] && forall j, k :: 0 <= j < k < |order| ==> order[j] != order[k]
    ensures Rank(order, x) >= mi
  {
    var i :| 0 <= i < |order| - mi && order[mi..][i] == x;
    RankAt(order, mi + i);
  }

  lemma OrderForemost(v: View)
    requires Tracking(v, {}) && Listing(v.pool, v.order) && v.cleared == [] && v.mi < |v.order|
    requires v.priorityBlock ==> Stuck(v)
    ensures v.order[v.mi] in v.pool && IsForemost(v, v.order[v.mi], false) && Rank(v.order, v.order[v.mi]) == v.mi
  {
    RankAt(v.order, v.mi);
    if Stuck(v) {
      StuckForemost(v, v.order[v.mi], false);
    } else {
      forall x | Ready(v, x) ensures v.mi <= Rank(v.order, x) {
        assert Tracked(v, x);
        LaterRank(v.order, v.mi, x);
      }
    }
  }

  /** The facts that do not depend on the queues. */
  lemma StuckStays(v: View, u: View)
    requires u.pool == v.pool && u.inBlock == v.inBlock && u.maxSize == v.maxSize
    requires u.size == v.size && u.sigOps == v.sigOps
    ensures Stuck(v) <==> Stuck(u)
    ensures forall t :: t in v.pool ==> (Lacking(v, t) <==> Lacking(u, t)) && (Out(v, t) <==> Out(u, t))
  {
    forall t ensures Settled(v, t) <==> Settled(u, t) {}
    if Stuck(v) { forall t ensures Settled(u, t) { assert Settled(v, t); } }
    if Stuck(u) { forall t ensures Settled(v, t) { assert Settled(u, t); } }
  }

  lemma PopPriority(v: View, k: nat)
    requires Tracking(v, {}) && v.priorityBlock && k < |v.vecPriority|
    ensures Tracking(v.(vecPriority := Without(v.vecPriority, k)), {v.vecPriority[k].1})
  {
    var u := v.(vecPriority := Without(v.vecPriority, k));
    StuckStays(v, u);
    if !Stuck(v) {
      forall t | t != v.vecPriority[k].1 ensures PriTracked(u, t) {
        assert PriTracked(v, t);
        if Queued(v.vecPriority, t) { StillQueued(v.vecPriority, k, t); }
      }
    }
  }

  /** An open priority area with an empty queue: whatever is left waits for a parent or is out. */
  lemma RunDry(v: View)
    requires Tracking(v, {})
    ensures v.priorityBlock && v.vecPriority == [] ==> Stuck(v)
  {
    if v.priorityBlock && v.vecPriority == [] && OpenTracking(v, {}) {
      forall t ensures Settled(v, t) { assert PriTracked(v, t); }
    }
  }

  lemma PopOrder(v: View)
    requires Tracking(v, {}) && v.mi < |v.order| && (v.priorityBlock ==> Stuck(v))
    ensures Tracking(v.(mi := v.mi + 1), {v.order[v.mi]}) && (v.priorityBlock ==> Stuck(v.(mi := v.mi + 1)))
  {
    var u := v.(mi := v.mi + 1);
    StuckStays(v, u);
    if !Stuck(v) {
      forall t | t != v.order[v.mi] ensures Tracked(u, t) {
        assert Tracked(v, t);
        LaterOrNow(v.order, v.mi, t);
      }
    }
  }

  lemma PopCleared(v: View, k: nat)
    requires Tracking(v, {}) && k < |v.cleared| && (v.priorityBlock ==> Stuck(v))
    ensures var u := v.(cleared := Without(v.cleared, k)); Tracking(u, {v.cleared[k]}) && (u.priorityBlock ==> Stuck(u))
  {
    var u := v.(cleared := Without(v.cleared, k));
    StuckStays(v, u);
    if !Stuck(v) {
      forall t | t != v.cleared[k] ensures Tracked(u, t) {
        assert Tracked(v, t);
        StillThere(v.cleared, k, t);
      }
    }
  }

  /** Closing the priority area loses nothing: the walk through the pool has not begun. */
  lemma CloseTracks(v: View, t: Id)
    requires Tracking(v, {t}) && v.priorityBlock && Listing(v.pool, v.order)
    ensures Tracking(v.(priorityBlock := false, waitPri := map[]), {t})
  {
    var u := v.(priorityBlock := false, waitPri := map[]);
    StuckStays(v, u);
    if !Stuck(v) { forall x ensures Tracked(u, x) { AllToCome(u, x); } }
  }

  lemma PassTracks(v: View, t: Id)
    requires Tracking(v, {t}) && t in v.pool && Out(v, t)
    ensures Tracking(v, {})
  {
    if !Stuck(v) {
      if v.priorityBlock {
        forall x ensures PriTracked(v, x) { if x != t { assert PriTracked(v, x); } }
      } else {
        forall x ensures Tracked(v, x) { if x != t { assert Tracked(v, x); } }
      }
    }
  }

  lemma AlreadyIn(v: View, t: Id)
    requires Tracking(v, {t}) && t in v.inBlock
    ensures Tracking(v, {})
  {
    if !Stuck(v) {
      if v.priorityBlock {
        forall x ensures PriTracked(v, x) { if x != t { assert PriTracked(v, x); } }
      } else {
        forall x ensures Tracked(v, x) { if x != t { assert Tracked(v, x); } }
      }
    }
  }

  lemma WaitTracks(v: View, u: View, t: Id, priorityTx: bool)
    requires Tracking(v, {t}) && t in v.pool && Lacking(v, t)
    requires (priorityTx ==> v.priorityBlock) && (!priorityTx && v.priorityBlock ==> Stuck(v))
    requires u == v.(waitPri := u.waitPri, waitSet := u.waitSet)
    requires v.waitSet <= u.waitSet && v.waitPri.Keys <= u.waitPri.Keys
    requires if priorityTx then t in u.waitPri else t in u.waitSet
    ensures Tracking(u, {})
  {
    StuckStays(v, u);
    if !Stuck(v) {
      if v.priorityBlock {
        forall x ensures PriTracked(u, x) { if x != t { assert PriTracked(v, x); } }
      } else {
        forall x ensures Tracked(u, x) { if x != t { assert Tracked(v, x); } }
      }
    }
  }

  /** What adding `t` and bringing back its children does to the view. */
  ghost predicate Admitted(v: View, u: View, t: Id)
    requires t in v.pool
  {
    && u == v.(inBlock := v.inBlock + {t}, vecPriority := u.vecPriority, waitPri := u.waitPri, cleared := u.cleared,
               waitSet := u.waitSet, size := u.size, sigOps := u.sigOps)
    && v.size <= u.size && v.sigOps <= u.sigOps
    && if v.priorityBlock then
         && Appended(u.vecPriority, v.vecPriority, Waiting(v.waitPri, v.pool[t].children))
         && u.waitPri == v.waitPri - v.pool[t].children && u.cleared == v.cleared && u.waitSet == v.waitSet
       else
         && Appended(u.cleared, v.cleared, v.waitSet * v.pool[t].children)
         && u.waitSet == v.waitSet - v.pool[t].children && u.vecPriority == v.vecPriority && u.waitPri == v.waitPri
  }

  /** A transaction that lacks a parent still does after `t` went in, unless it is a child of `t`. */
  lemma LacksOther(v: View, u: View, t: Id, x: Id)
    requires Graph(v.pool) && t in v.pool && x in v.pool && Admitted(v, u, t) && Lacking(v, x)
    ensures x in v.pool[t].children || Lacking(u, x)
  {
    if x !in v.pool[t].children {
      var p :| p in v.pool[x].parents && p !in v.inBlock;
      assert p != t;
    }
  }

  lemma OutStays(v: View, u: View, t: Id, x: Id)
    requires t in v.pool && x in v.pool && Admitted(v, u, t) && Out(v, x)
    ensures Out(u, x)
  {
  }

  lemma AdmitTracks(v: View, u: View, t: Id)
    requires Graph(v.pool) && Tracking(v, {t}) && t in v.pool && t !in v.inBlock && !Lacking(v, t) && !Out(v, t)
    requires Admitted(v, u, t)
    ensures Tracking(u, {})
  {
    assert !Settled(v, t);
    if v.priorityBlock {
      forall x ensures PriTracked(u, x) { if x != t { AdmitOpen(v, u, t, x); } }
    } else {
      forall x ensures Tracked(u, x) { if x != t { AdmitClosed(v, u, t, x); } }
    }
  }

  lemma AdmitOpen(v: View, u: View, t: Id, x: Id)
    requires Graph(v.pool) && t in v.pool && v.priorityBlock && Admitted(v, u, t) && OpenTracking(v, {t}) && x != t
    ensures PriTracked(u, x)
  {
    assert PriTracked(v, x);
    if x in v.pool && x !in v.inBlock {
      StayQueued(u.vecPriority, v.vecPriority, v.waitPri, v.pool[t].children, x);
      if Out(v, x) { OutStays(v, u, t, x); }
      if Lacking(v, x) { LacksOther(v, u, t, x); }
    }
  }

  lemma AdmitClosed(v: View, u: View, t: Id, x: Id)
    requires v.mi <= |v.order|
    requires Graph(v.pool) && t in v.pool && !v.priorityBlock && Admitted(v, u, t) && Tracked(v, x) && x != t
    ensures Tracked(u, x)
  {
    if x in v.pool && x !in v.inBlock {
      AppendedHas(u.cleared, v.cleared, v.waitSet * v.pool[t].children, x);
      if Out(v, x) { OutStays(v, u, t, x); }
      if Lacking(v, x) { LacksOther(v, u, t, x); }
    }
  }

  /** At the end of both queues nothing that could be added is left. */
  lemma NothingLeft(v: View, txs: seq<Id>)
    requires Tracking(v, {}) && v.mi == |v.order| && v.cleared == [] && Listing(v.pool, v.order)
    requires forall t :: t in v.inBlock <==> t in txs
    ensures Exhausted(v.pool, txs, v.maxSize, v.size, v.sigOps)
  {
    forall t ensures Settled(v, t) {
      if !Stuck(v) && !v.priorityBlock { assert Tracked(v, t); }
    }
    forall t | t in v.pool && t !in txs
      ensures (exists p :: p in v.pool[t].parents && p !in txs) || Out(v, t)
    {
      assert Settled(v, t);
    }
  }

  class Assembler {
    const pool: Pool
    const order: seq<Id>
    const limits: Limits
    const policy: Policy

    var inBlock: set<Id>
    var waitSet: set<Id>
    var vecPriority: seq<(int, Id)>
    var waitPri: map<Id, int>
    var cleared: seq<Id>
    var mi: nat
    var priorityBlock: bool
    var actualPriority: int

    var txs: seq<Id>
    var vTxFees: seq<int>
    var vTxSigOps: seq<int>
    var nBlockSize: nat
    var nBlockSigOps: nat
    var nFees: int
    var lastFewTxs: nat

    /** How many transactions were chosen by priority. */
    ghost var byPriority: nat

    /** The selection is greedy, first by priority and then by score. */
    ghost predicate Lined()
      reads this
    {
      && (forall j :: 0 <= j < |txs| ==> txs[j] in pool)
      && Greedy(pool, order, txs, byPriority, limits.maxSize) && byPriority <= |txs|
      && (priorityBlock ==> byPriority == |txs| && limits.prioritySize > 0)
      && (byPriority > 0 ==> limits.prioritySize > 0)
    }

    /** The queues name pool entries. */
    ghost predicate Queues()
      reads this
    {
      && mi <= |order| && Listing(pool, order)
      && (forall i :: 0 <= i < |vecPriority| ==> vecPriority[i].1 in pool)
      && (forall t :: t in waitPri ==> t in pool)
      && (forall i :: 0 <= i < |cleared| ==> cleared[i] in pool)
      && waitSet <= pool.Keys
    }

    ghost predicate Built()
      reads this
    {
      && Selection(pool, txs)
      && (forall i :: 0 <= i < |txs| ==> txs[i] in pool)
      && (forall t :: t in inBlock <==> t in txs)
      && Totals(pool, txs, nBlockSize, nBlockSigOps, nFees, vTxFees, vTxSigOps)
      && nBlockSize <= limits.maxSize && (txs != [] ==> nBlockSize < limits.maxSize)
      && nBlockSigOps < MAX_BLOCK_SIGOPS
      && limits.maxSize >= RESERVED_SIZE
    }

    ghost function Now(): View
      reads this
    {
      View(pool, order, limits.maxSize, inBlock, waitSet, vecPriority, waitPri, cleared, mi, priorityBlock,
           nBlockSize, nBlockSigOps)
    }

    /** Candidates that do not fit are counted only near the end of the block. */
    ghost predicate Closing()
      reads this
    {
      lastFewTxs > 0 ==> nBlockSize > limits.maxSize - 1000
    }

    ghost predicate Valid()
      reads this
    {
      Graph(pool) && Queues() && Built() && Closing()
    }

    /** Whether candidate `t` ends the selection. */
    predicate EndsWith(t: Id, priorityTx: bool)
      requires t in pool
      reads this
    {
      var e := pool[t];
      || (!priorityTx && e.modifiedFee < policy.minFee(e.size) && nBlockSize >= limits.minSize)
      || (if nBlockSize + e.size >= limits.maxSize then nBlockSize > limits.maxSize - 100 || lastFewTxs > 50
          else e.isFinal && nBlockSigOps + e.sigOps >= MAX_BLOCK_SIGOPS && nBlockSigOps > MAX_BLOCK_SIGOPS - 2)
    }

    /** The only reasons to end the selection early.  Candidate `t` is not in the block and has all its parents
        there, and it pays too little for a block that has its minimal size, or does not fit into what is nearly
        a full block: within 100 bytes, or within 1000 after more than 50 others did not, or within one
        signature operation. */
    ghost predicate StopsAt(t: Id)
      reads this
    {
      && t in pool && t !in inBlock && !Lacking(Now(), t)
      && var e := pool[t];
         || (e.modifiedFee < policy.minFee(e.size) && nBlockSize >= limits.minSize)
         || (nBlockSize + e.size >= limits.maxSize &&
             (nBlockSize > limits.maxSize - 100 || (lastFewTxs > 50 && nBlockSize > limits.maxSize - 1000)))
         || (e.isFinal && nBlockSigOps + e.sigOps >= MAX_BLOCK_SIGOPS && nBlockSigOps > MAX_BLOCK_SIGOPS - 2)
    }

    ghost function Pending(): nat
      reads this
    {
      (if mi <= |order| then |order| - mi else 0) + |vecPriority| + |cleared|
    }

    constructor (pool: Pool, order: seq<Id>, limits: Limits, policy: Policy)
      requires Graph(pool) && Listing(pool, order) && limits.maxSize >= RESERVED_SIZE
      ensures this.pool == pool && this.order == order && this.limits == limits && this.policy == policy
      ensures Valid() && Tracking(Now(), {}) && txs == []
      ensures InOrder(Now()) && Lined()
      ensures priorityBlock == (limits.prioritySize > 0)
      ensures waitPri == map[] && waitSet == {} && cleared == [] && mi == 0
      ensures |vecPriority| == if priorityBlock then |order| else 0
      ensures forall i :: 0 <= i < |vecPriority| ==>
                order[i] in pool && vecPriority[i] == (pool[order[i]].priority, order[i])
    {
      this.pool, this.order, this.limits, this.policy := pool, order, limits, policy;
      inBlock, waitSet, vecPriority, waitPri, cleared := {}, {}, [], map[], [];
      mi, priorityBlock, actualPriority := 0, false, -1;
      txs, vTxFees, vTxSigOps := [], [-1], [-1];
      nBlockSize, nBlockSigOps, nFees, lastFewTxs := RESERVED_SIZE, RESERVED_SIGOPS, 0, 0;
      byPriority := 0;
      new;
      priorityBlock := limits.prioritySize > 0;
      if priorityBlock {
        var i := 0;
        while i < |order|
          invariant 0 <= i <= |order| && |vecPriority| == i
          invariant forall k :: 0 <= k < |vecPriority| ==>
                      order[k] in pool && vecPriority[k] == (pool[order[k]].priority, order[k])
          modifies this`vecPriority
        {
          vecPriority := vecPriority + [(pool[order[i]].priority, order[i])];
          i := i + 1;
        }
      }
      forall i ensures Placed(pool, txs, i) {}
      StartTracks(Now());
    }

    /** The next candidate: from the priority queue while the priority area is open, else a child
        whose parents have all gone in, else the next best in the pool. */
    method Next() returns (t: Id, priorityTx: bool, ghost k: nat)
      requires Valid() && Tracking(Now(), {}) && InOrder(Now()) && (mi < |order| || cleared != [])
      modifies this`vecPriority, this`cleared, this`mi, this`actualPriority
      ensures InOrder(Now()) && t in pool && IsForemost(Now(), t, priorityTx)
      ensures if priorityTx then actualPriority == pool[t].priority else Rank(order, t) < mi
      ensures Valid() && Tracking(Now(), {t}) && t in pool && Pending() < old(Pending())
      ensures priorityTx <==> priorityBlock && old(vecPriority) != []
      ensures !priorityTx && priorityBlock ==> Stuck(Now())
      ensures priorityTx ==>
        && k < |old(vecPriority)| && old(vecPriority)[k] == (actualPriority, t)
        && vecPriority == Without(old(vecPriority), k)
        && (forall i :: 0 <= i < |old(vecPriority)| ==> old(vecPriority)[i].0 <= actualPriority)
        && cleared == old(cleared) && mi == old(mi)
      ensures !priorityTx && old(cleared) != [] ==>
        && k < |old(cleared)| && old(cleared)[k] == t && cleared == Without(old(cleared), k)
        && (forall i :: 0 <= i < |old(cleared)| ==> Rank(order, t) <= Rank(order, old(cleared)[i]))
        && vecPriority == old(vecPriority) && mi == old(mi)
      ensures !priorityTx && old(cleared) == [] ==>
        && old(mi) < |order| && t == order[old(mi)] && mi == old(mi) + 1
        && vecPriority == old(vecPriority) && cleared == []
    {
      RunDry(Now());
      if priorityBlock && vecPriority != [] {
        t, k := NextPriority();
        priorityTx := true;
      } else if cleared == [] {
        k := 0;
        t, priorityTx := order[mi], false;
        OrderForemost(Now());
        PopOrder(Now());
        mi := mi + 1;
      } else {
        t, k := NextCleared();
        priorityTx := false;
      }
    }

    method NextPriority() returns (t: Id, k: nat)
      requires Valid() && Tracking(Now(), {}) && InOrder(Now()) && priorityBlock && vecPriority != []
      modifies this`vecPriority, this`actualPriority
      ensures InOrder(Now()) && t in pool && IsForemost(Now(), t, true) && actualPriority == pool[t].priority
      ensures k < |old(vecPriority)| && vecPriority == Without(old(vecPriority), k)
      ensures old(vecPriority)[k] == (actualPriority, t)
      ensures forall i :: 0 <= i < |old(vecPriority)| ==> old(vecPriority)[i].0 <= actualPriority
      ensures Valid() && Tracking(Now(), {t}) && t in pool
    {
      k := Highest(vecPriority);
      PriorityForemost(Now(), k);
      PopPriority(Now(), k);
      t, actualPriority := vecPriority[k].1, vecPriority[k].0;
      vecPriority := Without(vecPriority, k);
    }

    method NextCleared() returns (t: Id, k: nat)
      requires Valid() && Tracking(Now(), {}) && InOrder(Now())
      requires cleared != [] && (priorityBlock ==> Stuck(Now()))
      modifies this`cleared
      ensures InOrder(Now()) && t in pool && IsForemost(Now(), t, false) && Rank(order, t) < mi
      ensures k < |old(cleared)| && old(cleared)[k] == t && cleared == Without(old(cleared), k)
      ensures forall i :: 0 <= i < |old(cleared)| ==> Rank(order, t) <= Rank(order, old(cleared)[i])
      ensures Valid() && Tracking(Now(), {t}) && t in pool && (priorityBlock ==> Stuck(Now()))
    {
      k := Best(cleared, order);
      ClearedForemost(Now(), k);
      PopCleared(Now(), k);
      t := cleared[k];
      cleared := Without(cleared, k);
    }

    method Orphan(t: Id) returns (fOrphan: bool)
      requires t in pool
      ensures fOrphan <==> Lacking(Now(), t)
    {
      var left := pool[t].parents;
      fOrphan := false;
      while left != {}
        invariant left <= pool[t].parents
        invariant forall p :: p in pool[t].parents && p !in left ==> p in inBlock
        decreases |left|
      {
        var p := Pick(left);
        if p !in inBlock { return true; }
        left := left - {p};
      }
    }

    /** The block has taken in `t`. */
    method Take(t: Id)
      requires Valid() && t in pool && t !in inBlock && pool[t].isFinal
      requires forall p :: p in pool[t].parents ==> p in inBlock
      requires nBlockSize + pool[t].size < limits.maxSize && nBlockSigOps + pool[t].sigOps < MAX_BLOCK_SIGOPS
      modifies this`txs, this`vTxFees, this`vTxSigOps, this`nBlockSize, this`nBlockSigOps, this`nFees, this`inBlock
      ensures Valid() && inBlock == old(inBlock) + {t} && txs == old(txs) + [t]
      ensures nBlockSize >= old(nBlockSize) && nBlockSigOps >= old(nBlockSigOps)
    {
      var e := pool[t];
      Extend(pool, txs, t);
      ExtendTotals(pool, txs, t, nBlockSize, nBlockSigOps, nFees, vTxFees, vTxSigOps);
      txs := txs + [t];
      vTxFees := vTxFees + [e.fee];
      vTxSigOps := vTxSigOps + [e.sigOps];
      nBlockSize := nBlockSize + e.size;
      nBlockSigOps := nBlockSigOps + e.sigOps;
      nFees := nFees + e.fee;
      inBlock := inBlock + {t};
    }

    /** Bring back the children of `t` that were waiting: into the priority queue, each with its priority,
        while the priority area is open, and else among the cleared ones. */
    method Requeue(t: Id)
      requires Valid() && t in pool
      modifies this`vecPriority, this`waitPri, this`cleared, this`waitSet
      ensures Valid() && (old(InOrder(Now())) ==> InOrder(Now()))
      ensures priorityBlock ==>
        && Appended(vecPriority, old(vecPriority), Waiting(old(waitPri), pool[t].children))
        && waitPri == old(waitPri) - pool[t].children && cleared == old(cleared) && waitSet == old(waitSet)
      ensures !priorityBlock ==>
        && Appended(cleared, old(cleared), old(waitSet) * pool[t].children)
        && waitSet == old(waitSet) - pool[t].children && vecPriority == old(vecPriority) && waitPri == old(waitPri)
    {
      ghost var v := Now();
      if priorityBlock {
        RequeuePriority(pool[t].children);
        if InOrder(v) {
          OrderedQueue(pool, order, v.vecPriority, vecPriority, v.waitPri, v.cleared, v.waitSet, mi, pool[t].children);
        }
      } else {
        RequeueCleared(pool[t].children);
        if InOrder(v) {
          OrderedCleared(pool, order, v.vecPriority, v.waitPri, v.cleared, cleared, v.waitSet, mi, pool[t].children);
        }
      }
    }

    method PrioritizeOne(child: Id, ghost q: seq<(int, Id)>, ghost m: map<Id, int>, ghost done: set<Id>)
      requires Queues() && child !in done && MovedToQueue(vecPriority, waitPri, q, m, done)
      modifies this`vecPriority, this`waitPri
      ensures Queues() && MovedToQueue(vecPriority, waitPri, q, m, done + {child})
    {
      MovedToQueueNext(vecPriority, waitPri, q, m, done, child);
      if child in waitPri {
        vecPriority := vecPriority + [(waitPri[child], child)];
        waitPri := waitPri - {child};
      }
    }

    method RequeuePriority(children: set<Id>)
      requires Queues()
      modifies this`vecPriority, this`waitPri
      ensures Queues() && MovedToQueue(vecPriority, waitPri, old(vecPriority), old(waitPri), children)
    {
      ghost var q, m := vecPriority, waitPri;
      var left := children;
      ghost var done: set<Id> := {};
      MovedToQueueNone(vecPriority, waitPri);
      while left != {}
        invariant left <= children && done == children - left
        invariant Queues() && MovedToQueue(vecPriority, waitPri, q, m, done)
        decreases |left|
      {
        var child := Pick(left);
        OneLess(children, left, child);
        PrioritizeOne(child, q, m, done);
        left, done := left - {child}, done + {child};
      }
      assert done == children;
    }

    method ClearOne(child: Id, ghost q: seq<Id>, ghost w: set<Id>, ghost done: set<Id>)
      requires Queues() && child !in done && MovedToCleared(cleared, waitSet, q, w, done)
      modifies this`cleared, this`waitSet
      ensures Queues() && MovedToCleared(cleared, waitSet, q, w, done + {child})
    {
      MovedToClearedNext(cleared, waitSet, q, w, done, child);
      if child in waitSet {
        cleared := cleared + [child];
        waitSet := waitSet - {child};
      }
    }

    method RequeueCleared(children: set<Id>)
      requires Queues()
      modifies this`cleared, this`waitSet
      ensures Queues() && MovedToCleared(cleared, waitSet, old(cleared), old(waitSet), children)
    {
      ghost var q, w := cleared, waitSet;
      var left := children;
      ghost var done: set<Id> := {};
      MovedToClearedNone(cleared, waitSet);
      while left != {}
        invariant left <= children && done == children - left
        invariant Queues() && MovedToCleared(cleared, waitSet, q, w, done)
        decreases |left|
      {
        var child := Pick(left);
        OneLess(children, left, child);
        ClearOne(child, q, w, done);
        left, done := left - {child}, done + {child};
      }
      assert done == children;
    }

    /** Candidate `t` is the foremost; and by score only when nothing can be added by priority any more. */
    ghost predicate Proposed(t: Id, priorityTx: bool)
      reads this
    {
      && InOrder(Now()) && Lined() && t in pool && IsForemost(Now(), t, priorityTx)
      && (if priorityTx then byPriority == |txs| && limits.prioritySize > 0 else priorityBlock ==> Stuck(Now()))
    }

    /** A candidate that has no parent missing: add it, pass over it, or stop. */
    method Consider(t: Id, priorityTx: bool) returns (stop: bool)
      requires Valid() && Tracking(Now(), {t}) && t in pool && t !in inBlock
      requires forall p :: p in pool[t].parents ==> p in inBlock
      requires Proposed(t, priorityTx)
      modifies this
      ensures Valid() && InOrder(Now()) && Lined()
      ensures !stop ==> Tracking(Now(), {})
      ensures stop ==> StopsAt(t)
      ensures stop <==> old(EndsWith(t, priorityTx))
      ensures t in inBlock <==> !stop && !old(Out(Now(), t))
      ensures priorityBlock <==>
        && old(priorityBlock) && old(nBlockSize) + pool[t].size < limits.prioritySize
        && policy.allowFree(old(actualPriority))
      ensures lastFewTxs == old(lastFewTxs) +
              if !stop && old(nBlockSize) + pool[t].size >= limits.maxSize && old(nBlockSize) > limits.maxSize - 1000
              then 1 else 0
      ensures inBlock == old(inBlock) + {t} || (inBlock == old(inBlock) && Pending() == old(Pending()))
    {
      ClosePriority(pool[t].size, t);
      stop := Judge(t, priorityTx);
    }

    /** The tests that the candidate has to pass. */
    method Judge(t: Id, priorityTx: bool) returns (stop: bool)
      requires Valid() && Tracking(Now(), {t}) && t in pool && t !in inBlock
      requires forall p :: p in pool[t].parents ==> p in inBlock
      requires Proposed(t, priorityTx)
      modifies this`txs, this`vTxFees, this`vTxSigOps, this`nBlockSize, this`nBlockSigOps, this`nFees, this`inBlock
      modifies this`vecPriority, this`waitPri, this`cleared, this`waitSet, this`lastFewTxs, this`byPriority
      ensures Valid() && InOrder(Now()) && Lined()
      ensures !stop ==> Tracking(Now(), {})
      ensures stop ==> StopsAt(t)
      ensures stop <==> old(EndsWith(t, priorityTx))
      ensures t in inBlock <==> !stop && !old(Out(Now(), t))
      ensures lastFewTxs == old(lastFewTxs) +
              if !stop && old(nBlockSize) + pool[t].size >= limits.maxSize && old(nBlockSize) > limits.maxSize - 1000
              then 1 else 0
      ensures inBlock == old(inBlock) + {t} || (inBlock == old(inBlock) && Pending() == old(Pending()))
    {
      var e := pool[t];
      if !priorityTx && e.modifiedFee < policy.minFee(e.size) && nBlockSize >= limits.minSize { return true; }
      if nBlockSize + e.size >= limits.maxSize {
        if nBlockSize > limits.maxSize - 100 || lastFewTxs > 50 { return true; }
        if nBlockSize > limits.maxSize - 1000 { lastFewTxs := lastFewTxs + 1; }
        PassTracks(Now(), t);
        return false;
      }
      if !e.isFinal { PassTracks(Now(), t); return false; }
      if nBlockSigOps + e.sigOps >= MAX_BLOCK_SIGOPS {
        if nBlockSigOps > MAX_BLOCK_SIGOPS - 2 { return true; }
        PassTracks(Now(), t);
        return false;
      }
      assert priorityTx || !priorityBlock by { StuckMisses(Now(), t); }
      Admit(t, priorityTx);
      return false;
    }

    /** The priority area ends where it is full or the priorities become too low. */
    method ClosePriority(size: nat, ghost t: Id)
      requires Valid() && Tracking(Now(), {t})
      modifies this`priorityBlock, this`waitPri
      ensures Valid() && Tracking(Now(), {t})
      ensures priorityBlock <==>
        old(priorityBlock) && nBlockSize + size < limits.prioritySize && policy.allowFree(actualPriority)
      ensures waitPri == if old(priorityBlock) && !priorityBlock then map[] else old(waitPri)
    {
      if priorityBlock && (nBlockSize + size >= limits.prioritySize || !policy.allowFree(actualPriority)) {
        CloseTracks(Now(), t);
        priorityBlock := false;
        waitPri := map[];
      }
    }

    /** The foremost candidate goes in, and the selection stays greedy. */
    method Choose(t: Id, ghost priorityTx: bool)
      requires Valid() && t in pool && t !in inBlock && pool[t].isFinal
      requires forall p :: p in pool[t].parents ==> p in inBlock
      requires nBlockSize + pool[t].size < limits.maxSize && nBlockSigOps + pool[t].sigOps < MAX_BLOCK_SIGOPS
      requires Proposed(t, priorityTx) && (priorityTx || !priorityBlock)
      modifies this`txs, this`vTxFees, this`vTxSigOps, this`nBlockSize, this`nBlockSigOps, this`nFees, this`inBlock
      modifies this`byPriority
      ensures Valid() && Lined() && inBlock == old(inBlock) + {t}
      ensures nBlockSize >= old(nBlockSize) && nBlockSigOps >= old(nBlockSigOps)
    {
      ghost var n := if priorityTx then byPriority + 1 else byPriority;
      GreedyMore(pool, order, txs, byPriority, limits.maxSize, t, priorityTx, inBlock);
      assert Greedy(pool, order, txs + [t], n, limits.maxSize);
      Take(t);
      byPriority := n;
    }

    method Admit(t: Id, ghost priorityTx: bool)
      requires Valid() && Tracking(Now(), {t}) && t in pool && t !in inBlock && pool[t].isFinal
      requires Proposed(t, priorityTx) && (priorityTx || !priorityBlock)
      requires forall p :: p in pool[t].parents ==> p in inBlock
      requires nBlockSize + pool[t].size < limits.maxSize && nBlockSigOps + pool[t].sigOps < MAX_BLOCK_SIGOPS
      modifies this`txs, this`vTxFees, this`vTxSigOps, this`nBlockSize, this`nBlockSigOps, this`nFees, this`inBlock
      modifies this`vecPriority, this`waitPri, this`cleared, this`waitSet, this`byPriority
      ensures Valid() && Tracking(Now(), {}) && inBlock == old(inBlock) + {t}
      ensures InOrder(Now()) && Lined()
    {
      ghost var v := Now();
      Choose(t, priorityTx);
      Requeue(t);
      AdmitTracks(v, Now(), t);
    }

    /** One turn of the selection loop. */
    method Turn() returns (stop: bool)
      requires Valid() && Tracking(Now(), {}) && InOrder(Now()) && Lined() && (mi < |order| || cleared != [])
      modifies this
      ensures Valid() && (!stop ==> Tracking(Now(), {})) && (stop ==> exists t :: StopsAt(t))
      ensures InOrder(Now()) && Lined()
      ensures || |pool.Keys - inBlock| < |pool.Keys - old(inBlock)|
              || (inBlock == old(inBlock) && Pending() < old(Pending()))
    {
      var t, priorityTx, _ := Next();
      stop := Try(t, priorityTx);
    }

    /** A candidate that has come off a queue. */
    method Try(t: Id, priorityTx: bool) returns (stop: bool)
      requires Valid() && Tracking(Now(), {t}) && t in pool
      requires (priorityTx ==> priorityBlock) && (!priorityTx && priorityBlock ==> Stuck(Now()))
      requires Proposed(t, priorityTx)
      requires if priorityTx then actualPriority == pool[t].priority else Rank(order, t) < mi
      modifies this
      ensures Valid() && (!stop ==> Tracking(Now(), {})) && (stop ==> StopsAt(t))
      ensures InOrder(Now()) && Lined()
      ensures || |pool.Keys - inBlock| < |pool.Keys - old(inBlock)|
              || (inBlock == old(inBlock) && Pending() == old(Pending()))
    {
      stop := false;
      if t in inBlock {
        AlreadyIn(Now(), t);
        return;
      }
      var fOrphan := Orphan(t);
      if fOrphan {
        Postpone(t, priorityTx);
      } else {
        LessOpen(pool.Keys, inBlock, t);
        stop := Consider(t, priorityTx);
      }
    }

    /** The selection loop and the coinbase totals.  It ends on every input: each turn puts a new
        transaction into the block or takes one out of the queues. */
    method CreateNewBlock(subsidy: int) returns (r: Template, stopped: bool)
      requires Valid() && Tracking(Now(), {}) && txs == [] && InOrder(Now()) && Lined()
      modifies this
      ensures Selection(pool, r.txs) && (forall i :: 0 <= i < |r.txs| ==> r.txs[i] in pool)
      ensures r.blockSize == RESERVED_SIZE + SumSize(pool, r.txs) <= limits.maxSize
      ensures r.txs != [] ==> r.blockSize < limits.maxSize
      ensures r.blockSigOps == RESERVED_SIGOPS + SumSigOps(pool, r.txs) < MAX_BLOCK_SIGOPS
      ensures r.coinbaseValue == subsidy + SumFees(pool, r.txs)
      ensures |r.vTxFees| == |r.txs| + 1 && r.vTxFees[0] == -SumFees(pool, r.txs)
      ensures forall i :: 0 <= i < |r.txs| ==> r.vTxFees[i + 1] == pool[r.txs[i]].fee
      ensures |r.vTxSigOps| == |r.txs| + 1
      ensures forall i :: 0 <= i < |r.txs| ==> r.vTxSigOps[i + 1] == pool[r.txs[i]].sigOps
      ensures r.blockTx == |r.txs|
      ensures !stopped ==> Exhausted(pool, r.txs, limits.maxSize, r.blockSize, r.blockSigOps)
      ensures stopped ==> exists t :: StopsAt(t)
      ensures Greedy(pool, order, r.txs, byPriority, limits.maxSize) && byPriority <= |r.txs|
      ensures limits.prioritySize == 0 ==> byPriority == 0
      ensures r.blockSize == nBlockSize && r.blockSigOps == nBlockSigOps && forall t :: t in inBlock <==> t in r.txs
    {
      stopped := false;
      while (mi < |order| || cleared != []) && !stopped
        invariant Valid() && (!stopped ==> Tracking(Now(), {})) && (stopped ==> exists t :: StopsAt(t))
        invariant InOrder(Now()) && Lined()
        decreases |pool.Keys - inBlock|, Pending(), !stopped
      {
        stopped := Turn();
      }
      if !stopped { NothingLeft(Now(), txs); }
      r := Template(txs, vTxFees[0 := -nFees], vTxSigOps, nFees + subsidy, nBlockSize, nBlockSigOps, |txs|);
    }

    /** A transaction whose parent is missing waits, with its priority if it came with one. */
    method Postpone(t: Id, priorityTx: bool)
      requires Valid() && Tracking(Now(), {t}) && t in pool && Lacking(Now(), t)
      requires (priorityTx ==> priorityBlock) && (!priorityTx && priorityBlock ==> Stuck(Now()))
      requires if priorityTx then actualPriority == pool[t].priority else Rank(order, t) < mi
      modifies this`waitPri, this`waitSet
      ensures Valid() && Tracking(Now(), {}) && (old(InOrder(Now())) ==> InOrder(Now()))
      ensures priorityTx ==>
        && waitSet == old(waitSet)
        && waitPri == if t in old(waitPri) then old(waitPri) else old(waitPri)[t := actualPriority]
      ensures !priorityTx ==> waitSet == old(waitSet) + {t} && waitPri == old(waitPri)
    {
      ghost var v := Now();
      if priorityTx {
        if t !in waitPri { waitPri := waitPri[t := actualPriority]; }
      } else {
        waitSet := waitSet + {t};
      }
      WaitTracks(v, Now(), t, priorityTx);
    }
  }

  // ---------- queues ----------

  function Without<T>(q: seq<T>, k: nat): seq<T>
    requires k < |q|
  {
    q[..k] + q[k + 1..]
  }

  ghost predicate Queued(q: seq<(int, Id)>, t: Id) {
    exists i :: 0 <= i < |q| && q[i].1 == t
  }

  lemma StillQueued(q: seq<(int, Id)>, k: nat, x: Id)
    requires k < |q| && x != q[k].1 && Queued(q, x)
    ensures Queued(Without(q, k), x)
  {
    var i :| 0 <= i < |q| && q[i].1 == x;
    assert Without(q, k)[if i < k then i else i - 1] == q[i];
  }

  /** `q` is `was` with the elements of `added` behind it, each once. */
  ghost predicate Appended<T(!new)>(q: seq<T>, was: seq<T>, added: set<T>) {
    was <= q && |q| == |was| + |added| && forall x :: x in q[|was|..] <==> x in added
  }

  lemma AppendedNext<T(!new)>(q: seq<T>, was: seq<T>, added: set<T>, x: T)
    requires Appended(q, was, added) && x !in added
    ensures Appended(q + [x], was, added + {x})
  {
    assert (q + [x])[|was|..] == q[|was|..] + [x];
  }

  lemma AppendedHas<T(!new)>(q: seq<T>, was: seq<T>, added: set<T>, x: T)
    requires Appended(q, was, added)
    ensures x in was || x in added ==> x in q
  {
    assert q == was + q[|was|..];
  }

  /** The waiting ones among `children`, with their priorities. */
  ghost function Waiting(m: map<Id, int>, children: set<Id>): set<(int, Id)> {
    set x | x in children && x in m :: (m[x], x)
  }

  lemma WaitingNext(m: map<Id, int>, done: set<Id>, c: Id)
    requires c !in done
    ensures c in m ==> (m[c], c) !in Waiting(m, done) && Waiting(m, done + {c}) == Waiting(m, done) + {(m[c], c)}
    ensures c !in m ==> Waiting(m, done + {c}) == Waiting(m, done)
  {
  }

  /** The waiting children in `done` have moved from `m` to the end of `q`. */
  ghost predicate MovedToQueue(
    q': seq<(int, Id)>, m': map<Id, int>, q: seq<(int, Id)>, m: map<Id, int>, done: set<Id>)
  {
    m' == m - done && Appended(q', q, Waiting(m, done))
  }

  lemma MovedToQueueNone(q: seq<(int, Id)>, m: map<Id, int>)
    ensures MovedToQueue(q, m, q, m, {})
  {
    assert m - {} == m && Waiting(m, {}) == {};
  }

  lemma MovedToQueueNext(
    q': seq<(int, Id)>, m': map<Id, int>, q: seq<(int, Id)>, m: map<Id, int>, done: set<Id>, c: Id)
    requires MovedToQueue(q', m', q, m, done) && c !in done
    ensures if c in m' then MovedToQueue(q' + [(m'[c], c)], m' - {c}, q, m, done + {c})
            else MovedToQueue(q', m', q, m, done + {c})
  {
    WaitingNext(m, done, c);
    assert m - (done + {c}) == (m - done) - {c};
    if c in m' {
      AppendedNext(q', q, Waiting(m, done), (m[c], c));
    } else {
      assert m - (done + {c}) == m - done;
    }
  }

  ghost predicate MovedToCleared(q': seq<Id>, w': set<Id>, q: seq<Id>, w: set<Id>, done: set<Id>) {
    w' == w - done && Appended(q', q, w * done)
  }

  lemma MovedToClearedNone(q: seq<Id>, w: set<Id>)
    ensures MovedToCleared(q, w, q, w, {})
  {
    assert w - {} == w && w * {} == {};
  }

  lemma MovedToClearedNext(q': seq<Id>, w': set<Id>, q: seq<Id>, w: set<Id>, done: set<Id>, c: Id)
    requires MovedToCleared(q', w', q, w, done) && c !in done
    ensures if c in w' then MovedToCleared(q' + [c], w' - {c}, q, w, done + {c})
            else MovedToCleared(q', w', q, w, done + {c})
  {
    assert w - (done + {c}) == (w - done) - {c};
    if c in w' {
      AppendedNext(q', q, w * done, c);
      assert w * (done + {c}) == w * done + {c};
    } else {
      assert w * (done + {c}) == w * done;
    }
  }

  lemma StayQueued(q: seq<(int, Id)>, was: seq<(int, Id)>, m: map<Id, int>, children: set<Id>, x: Id)
    requires Appended(q, was, Waiting(m, children))
    ensures Queued(was, x) || (x in m && x in children) ==> Queued(q, x)
  {
    if Queued(was, x) {
      var i :| 0 <= i < |was| && was[i].1 == x;
      assert q[i] == was[i];
    } else if x in m && x in children {
      assert (m[x], x) in q[|was|..];
      var i :| 0 <= i < |q[|was|..]| && q[|was|..][i] == (m[x], x);
      assert q[|was| + i] == (m[x], x);
    }
  }

  lemma OneLess(all: set<Id>, left: set<Id>, c: Id)
    requires c in left && left <= all
    ensures all - left + {c} == all - (left - {c})
  {
  }

  lemma LessOpen(all: set<Id>, taken: set<Id>, t: Id)
    requires t in all && t !in taken
    ensures |all - (taken + {t})| < |all - taken|
  {
    assert all - (taken + {t}) == all - taken - {t};
  }

  lemma LaterOrNow(order: seq<Id>, mi: nat, x: Id)
    requires mi < |order|
    ensures x in order[mi..] && x != order[mi] ==> x in order[mi + 1..]
  {
    assert order[mi..] == [order[mi]] + order[mi + 1..];
  }

  lemma StillThere(q: seq<Id>, k: nat, x: Id)
    requires k < |q|
    ensures x in q && x != q[k] ==> x in q[..k] + q[k + 1..]
  {
    assert q == q[..k] + [q[k]] + q[k + 1..];
  }

  method Highest(q: seq<(int, Id)>) returns (k: nat)
    requires q != []
    ensures k < |q| && forall i :: 0 <= i < |q| ==> q[i].0 <= q[k].0
  {
    k := 0;
    var i := 1;
    while i < |q|
      invariant k < i <= |q| && forall j :: 0 <= j < i ==> q[j].0 <= q[k].0
    {
      if q[i].0 > q[k].0 { k := i; }
      i := i + 1;
    }
  }

  /** The place of a transaction in the order by score. */
  function Rank(order: seq<Id>, t: Id): nat {
    if order == [] || order[0] == t then 0 else 1 + Rank(order[1..], t)
  }

  method Best(q: seq<Id>, order: seq<Id>) returns (k: nat)
    requires q != []
    ensures k < |q| && forall i :: 0 <= i < |q| ==> Rank(order, q[k]) <= Rank(order, q[i])
  {
    k := 0;
    var i := 1;
    while i < |q|
      invariant k < i <= |q| && forall j :: 0 <= j < i ==> Rank(order, q[k]) <= Rank(order, q[j])
    {
      if Rank(order, q[i]) < Rank(order, q[k]) { k := i; }
      i := i + 1;
    }
  }
}