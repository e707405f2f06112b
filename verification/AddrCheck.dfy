/** The address manager's own consistency check, on any state whatever, and what it is worth: it passes
    exactly on the consistent states with plausible times, apart from stray index entries it does not
    look for. */
module AddrCheck {
  import Common
  import opened AddrTable
  import opened AddrRules
  import opened AddrManager
  import opened AddrSave

  // ---------- what is checked ----------

  /** Reading the index inserts id 0 for a missing address. */
  function Indexed(addr: map<Ip, int>, ip: Ip): int {
    if ip in addr then addr[ip] else 0
  }

  /** The code for one entry; 0 when it is in order. */
  function EntryCode(i: Info, id: int, addr: map<Ip, int>, random: seq<int>): int {
    if i.inTried && i.lastSuccess == 0 then -1
    else if i.inTried && i.refCount != 0 then -2
    else if !i.inTried && !(0 <= i.refCount <= MAX_REFS) then -3
    else if !i.inTried && i.refCount == 0 then -4
    else if Indexed(addr, i.addr.svc.ip) != id then -5
    else if !(0 <= i.randomPos < |random|) || random[i.randomPos] != id then -14
    else if i.lastTry < 0 then -6
    else if i.lastSuccess < 0 then -8
    else 0
  }

  ghost predicate EntryFine(s: State, id: int) {
    id in s.info ==> EntryCode(s.info[id], id, s.addr, s.random) == 0
  }

  ghost predicate TriedFine(k: Hasher, s: State, l: Slot) {
    l in s.triedTab && s.triedTab[l] != NONE ==>
      s.triedTab[l] in TriedIds(s.info) && l == TriedSlot(k, s.info[s.triedTab[l]].addr.svc)
  }

  ghost predicate NewFine(k: Hasher, s: State, l: Slot) {
    l in s.newTab && s.newTab[l] != NONE ==>
      s.newTab[l] in NewIds(s.info) && l == NewSlot(k, l.0, s.info[s.newTab[l]].addr.svc)
  }

  ghost predicate TriedHeld(s: State, id: int) {
    id in TriedIds(s.info) ==> id != NONE && Holders(s.triedTab, id) != {}
  }

  ghost predicate NewHeld(s: State, id: int) {
    id in NewIds(s.info) ==> id != NONE && |Holders(s.newTab, id)| == s.info[id].refCount
  }

  ghost predicate TablesFine(k: Hasher, s: State) {
    && (forall l :: TriedFine(k, s, l)) && (forall id :: TriedHeld(s, id))
    && (forall l :: NewFine(k, s, l)) && (forall id :: NewHeld(s, id))
  }

  ghost predicate Passes(k: Hasher, s: State) {
    && |s.random| == s.nTried + s.nNew
    && (forall id :: EntryFine(s, id))
    && |TriedIds(s.info)| == s.nTried && |NewIds(s.info)| == s.nNew
    && TablesFine(k, s)
  }

  // ---------- what it is worth ----------

  /** What the check does not look for: ids that were never given out, addresses indexed without an entry,
      a missing address that the check itself would index as 0. */
  ghost predicate NoStray(s: State) {
    && 0 <= s.idCount
    && (forall id :: id in s.info ==> 0 <= id < s.idCount && s.info[id].addr.svc.ip in s.addr)
    && (forall ip :: IpOk(s, ip))
  }

  ghost predicate Gridded(s: State) {
    && (forall l :: l in s.newTab <==> InGrid(l, NEW_BUCKETS))
    && (forall l :: l in s.triedTab <==> InGrid(l, TRIED_BUCKETS))
  }

  lemma ConsistentPasses(k: Hasher, s: State)
    requires Consistent(k, s) && Timely(s)
    ensures Passes(k, s)
  {
    forall id ensures EntryFine(s, id) && TriedHeld(s, id) && NewHeld(s, id) {
      assert AddrOk(s, id) && PosOk(s, id) && CountOk(k, s, id, {}) && TimesOk(s, id);
      if id in TriedIds(s.info) { assert TriedSlot(k, s.info[id].addr.svc) in Holders(s.triedTab, id); }
    }
    forall l ensures TriedFine(k, s, l) && NewFine(k, s, l) { assert TriedOk(k, s, l) && NewOk(k, s, l); }
    assert NewIds(s.info) - {} == NewIds(s.info);
    AllListed(s);
  }

  /** As many places as entries. */
  lemma AllListed(s: State)
    requires Shuffled(s)
    ensures |s.random| == |TriedIds(s.info)| + |NewIds(s.info)|
  {
    SplitIds(s.info);
    ListSize(s, |s.random|);
    forall id | id in s.info.Keys ensures id in Front(s.random, |s.random|) { assert PosOk(s, id); }
    assert Front(s.random, |s.random|) == s.info.Keys;
  }

  lemma SplitIds(info: map<int, Info>)
    ensures |info.Keys| == |TriedIds(info)| + |NewIds(info)|
  {
    assert info.Keys == TriedIds(info) + NewIds(info);
    assert TriedIds(info) * NewIds(info) == {};
  }

  ghost function Front(r: seq<int>, n: nat): set<int>
    requires n <= |r|
  {
    set i | 0 <= i < n :: r[i]
  }

  lemma {:induction false} ListSize(s: State, n: nat)
    requires n <= |s.random| && forall i :: RandOk(s, i)
    ensures |Front(s.random, n)| == n && Front(s.random, n) <= s.info.Keys
  {
    if n > 0 {
      ListSize(s, n - 1);
      assert RandOk(s, n - 1);
      assert Front(s.random, n) == Front(s.random, n - 1) + {s.random[n - 1]};
      forall i | 0 <= i < n - 1 ensures s.random[i] != s.random[n - 1] { assert RandOk(s, i); }
    }
  }

  lemma {:induction false} FrontSize(r: seq<int>, n: nat)
    requires n <= |r|
    ensures |Front(r, n)| <= n
  {
    if n > 0 {
      FrontSize(r, n - 1);
      assert Front(r, n) == Front(r, n - 1) + {r[n - 1]};
    }
  }

  lemma {:induction false} RepeatedSize(r: seq<int>, n: nat, i: nat, j: nat)
    requires i < j < n <= |r| && r[i] == r[j]
    ensures |Front(r, n)| < n
  {
    assert Front(r, n) == Front(r, n - 1) + {r[n - 1]};
    if j == n - 1 {
      assert r[j] in Front(r, n - 1);
      assert Front(r, n) == Front(r, n - 1);
      FrontSize(r, n - 1);
    } else {
      RepeatedSize(r, n - 1, i, j);
    }
  }

  lemma SameSize(a: set<int>, b: set<int>)
    requires a <= b && |b| <= |a|
    ensures a == b
  {
    assert |b - a| == |b| - |a|;
  }

  /** A list as long as there are entries, in which each entry has its own place, has nothing else. */
  lemma ListExact(s: State)
    requires |s.random| == |s.info.Keys| && forall id :: PosOk(s, id)
    ensures forall i :: RandOk(s, i)
  {
    var n := |s.random|;
    var f := Front(s.random, n);
    forall id | id in s.info.Keys ensures id in f { assert PosOk(s, id); }
    FrontSize(s.random, n);
    SameSize(s.info.Keys, f);
    forall i ensures RandOk(s, i) {
      if 0 <= i < n {
        assert s.random[i] in f;
        OwnPlace(s, i);
      }
    }
  }

  lemma OwnPlace(s: State, i: nat)
    requires i < |s.random| && s.random[i] in s.info && PosOk(s, s.random[i])
    requires |Front(s.random, |s.random|)| == |s.random|
    ensures s.info[s.random[i]].randomPos == i
  {
    var j := s.info[s.random[i]].randomPos;
    if j < i { RepeatedSize(s.random, |s.random|, j, i); }
    if i < j { RepeatedSize(s.random, |s.random|, i, j); }
  }

  lemma PassedCounts(k: Hasher, s: State, id: int)
    requires TablesFine(k, s) && EntryFine(s, id)
    ensures CountOk(k, s, id, {})
  {
    assert TriedHeld(s, id) && NewHeld(s, id);
    if id in TriedIds(s.info) {
      var l :| l in Holders(s.triedTab, id);
      assert TriedFine(k, s, l);
      assert l == TriedSlot(k, s.info[id].addr.svc);
    } else if id in s.info {
      assert id in NewIds(s.info);
    }
  }

  lemma PassedConsistent(k: Hasher, s: State)
    requires Passes(k, s) && NoStray(s) && Gridded(s)
    ensures Consistent(k, s) && Timely(s)
  {
    forall id ensures AddrOk(s, id) && PosOk(s, id) && CountOk(k, s, id, {}) && TimesOk(s, id) {
      assert EntryFine(s, id);
      PassedCounts(k, s, id);
    }
    SplitIds(s.info);
    ListExact(s);
    forall l ensures NewOk(k, s, l) && TriedOk(k, s, l) { assert NewFine(k, s, l) && TriedFine(k, s, l); }
    assert NewIds(s.info) - {} == NewIds(s.info);
  }

  /** The check and the invariant are the same thing, up to strays. */
  lemma CheckExact(k: Hasher, s: State)
    requires Gridded(s)
    ensures Consistent(k, s) && Timely(s) <==> Passes(k, s) && NoStray(s)
  {
    if Consistent(k, s) && Timely(s) {
      ConsistentPasses(k, s);
      forall id | id in s.info ensures 0 <= id < s.idCount && s.info[id].addr.svc.ip in s.addr { assert AddrOk(s, id); }
    }
    if Passes(k, s) && NoStray(s) { PassedConsistent(k, s); }
  }

  /** After every run with sensible times the check passes. */
  lemma RunPasses(k: Hasher, ops: seq<Op>)
    requires forall i :: 0 <= i < |ops| ==> Dated(ops[i])
    ensures Passes(k, Run(k, ops))
  {
    RunTimely(k, ops);
    ConsistentPasses(k, Run(k, ops));
  }

  /** In every state that passes as it should, one more address can be indexed, under any entry, and the check
      does not notice. */
  lemma StrayUnnoticed(k: Hasher, s: State, ip: Ip, id: int)
    requires Consistent(k, s) && Timely(s) && id in s.info && ip !in s.addr
    ensures var t := s.(addr := s.addr[ip := id]); Gridded(t) && Passes(k, t) && !NoStray(t)
  {
    var t := s.(addr := s.addr[ip := id]);
    ConsistentPasses(k, s);
    assert AddrOk(s, id);
    assert !IpOk(t, ip);
    forall l ensures (l in t.newTab <==> InGrid(l, NEW_BUCKETS)) && (l in t.triedTab <==> InGrid(l, TRIED_BUCKETS)) {
      assert NewOk(k, s, l) && TriedOk(k, s, l);
    }
    forall x ensures EntryFine(t, x) { assert EntryFine(s, x) && AddrOk(s, x); }
    TablesSame(k, s, t);
  }

  lemma TablesSame(k: Hasher, s: State, t: State)
    requires TablesFine(k, s) && t == s.(addr := t.addr)
    ensures TablesFine(k, t)
  {
    forall l ensures TriedFine(k, t, l) && NewFine(k, t, l) { assert TriedFine(k, s, l) && NewFine(k, s, l); }
    forall id ensures TriedHeld(t, id) && NewHeld(t, id) { assert TriedHeld(s, id) && NewHeld(s, id); }
  }

  // ---------- the loops ----------

  ghost predicate Gathered(info: map<int, Info>, done: set<int>, setTried: set<int>, mapNew: map<int, int>) {
    && (forall id :: id in setTried <==> id in done && id in TriedIds(info))
    && (forall id :: id in mapNew <==> id in done && id in NewIds(info))
    && (forall id :: id in mapNew ==> mapNew[id] == info[id].refCount)
  }

  lemma GatheredAll(info: map<int, Info>, setTried: set<int>, mapNew: map<int, int>)
    requires Gathered(info, info.Keys, setTried, mapNew)
    ensures setTried == TriedIds(info) && mapNew.Keys == NewIds(info)
  {
    forall id ensures id in setTried <==> id in TriedIds(info) { }
    forall id ensures id in mapNew.Keys <==> id in NewIds(info) { }
  }

  /** The walk over the entries, in any order. */
  method CheckEntries(m: AddrMan) returns (code: int, setTried: set<int>, mapNew: map<int, int>)
    ensures code == 0 <==> forall id :: EntryFine(m.St(), id)
    ensures code == 0 ==> Gathered(m.mapInfo, m.mapInfo.Keys, setTried, mapNew)
  {
    code, setTried, mapNew := 0, {}, map[];
    ghost var s := m.St();
    var todo := m.mapInfo.Keys;
    while todo != {}
      invariant todo <= m.mapInfo.Keys && code == 0
      invariant forall id :: id in m.mapInfo && id !in todo ==> EntryFine(s, id)
      invariant Gathered(m.mapInfo, m.mapInfo.Keys - todo, setTried, mapNew)
      decreases todo
    {
      var n := Common.Pick(todo);
      var info := m.mapInfo[n];
      code := EntryCode(info, n, m.mapAddr, m.vRandom);
      if code != 0 {
        assert !EntryFine(m.St(), n);
        return;
      }
      if info.inTried {
        setTried := setTried + {n};
      } else {
        mapNew := mapNew[n := info.refCount];
      }
      todo := todo - {n};
    }
    forall id ensures EntryFine(s, id) { }
    assert m.mapInfo.Keys - todo == m.mapInfo.Keys;
  }

  /** The slots before position `i` of bucket `n` that hold `id`. */
  ghost function HeldBefore(g: map<Slot, int>, id: int, n: int, i: int): set<Slot> {
    set l | l in g && g[l] == id && id != NONE && Before(l, n, i)
  }

  lemma HeldNext(g: map<Slot, int>, id: int, n: int, i: int)
    requires (n, i) in g
    ensures HeldBefore(g, id, n, i + 1) == HeldBefore(g, id, n, i) + (if g[(n, i)] == id != NONE then {(n, i)} else {})
    ensures (n, i) !in HeldBefore(g, id, n, i)
  {
    var a, b := HeldBefore(g, id, n, i), HeldBefore(g, id, n, i + 1);
    forall l ensures l in b <==> l in a || (l == (n, i) && g[(n, i)] == id != NONE) { assert l == (l.0, l.1); }
  }

  /** Everything before (`n`, `i`) is in order, and `left` are the tried entries not met yet. */
  ghost predicate TriedSeen(k: Hasher, s: State, left: set<int>, n: int, i: int) {
    && (forall l :: Before(l, n, i) ==> TriedFine(k, s, l))
    && (forall id :: id in left <==> id in TriedIds(s.info) && HeldBefore(s.triedTab, id, n, i) == {})
  }

  function Erase(left: set<int>, x: int): set<int> {
    if x == NONE then left else left - {x}
  }

  lemma TriedSeenNext(k: Hasher, s: State, left: set<int>, n: int, i: int)
    requires TriedSeen(k, s, left, n, i) && (n, i) in s.triedTab
    ensures TriedFine(k, s, (n, i)) ==> TriedSeen(k, s, Erase(left, s.triedTab[(n, i)]), n, i + 1)
    ensures s.triedTab[(n, i)] != NONE && s.triedTab[(n, i)] !in left ==> !TriedFine(k, s, (n, i))
  {
    var x := s.triedTab[(n, i)];
    if x != NONE && x !in left && x in TriedIds(s.info) {
      var l :| l in HeldBefore(s.triedTab, x, n, i);
      assert TriedFine(k, s, l);
    }
    if TriedFine(k, s, (n, i)) {
      forall l | Before(l, n, i + 1) ensures TriedFine(k, s, l) {
        assert l == (l.0, l.1);
        assert Before(l, n, i) || l == (n, i);
      }
      forall id ensures id in Erase(left, x) <==> id in TriedIds(s.info) && HeldBefore(s.triedTab, id, n, i + 1) == {} {
        HeldNext(s.triedTab, id, n, i);
      }
    }
  }

  /** One slot of the tried table. */
  method CheckTriedSlot(m: AddrMan, n: int, i: int, setTried: set<int>) returns (code: int, left: set<int>)
    requires m.Shaped() && 0 <= n < TRIED_BUCKETS && 0 <= i < BUCKET_SIZE
    requires TriedSeen(m.key, m.St(), setTried, n, i)
    ensures code == 0 <==> TriedFine(m.key, m.St(), (n, i))
    ensures code == 0 ==> TriedSeen(m.key, m.St(), left, n, i + 1)
  {
    GridAt(m.vvTried, n, i);
    TriedSeenNext(m.key, m.St(), setTried, n, i);
    var x := m.vvTried[n, i];
    code, left := 0, Erase(setTried, x);
    if x != NONE {
      if x !in setTried { return -11, left; }
      assert x in TriedIds(m.mapInfo);
      var svc := m.mapInfo[x].addr.svc;
      if TriedBucket(m.key, svc) != n { return -17, left; }
      if Position(m.key, false, n, svc) != i { return -18, left; }
    }
  }

  method CheckTriedTable(m: AddrMan, setTried: set<int>) returns (code: int, left: set<int>)
    requires m.Shaped() && setTried == TriedIds(m.mapInfo)
    ensures code == 0 <==> forall l :: TriedFine(m.key, m.St(), l)
    ensures code == 0 ==> forall id :: id in left <==> !TriedHeld(m.St(), id)
  {
    ghost var s := m.St();
    code, left := 0, setTried;
    TriedSeenStart(m.key, m);
    var n := 0;
    while n < TRIED_BUCKETS
      invariant 0 <= n <= TRIED_BUCKETS && code == 0 && TriedSeen(m.key, s, left, n, 0)
    {
      var i := 0;
      while i < BUCKET_SIZE
        invariant 0 <= i <= BUCKET_SIZE && code == 0 && TriedSeen(m.key, s, left, n, i)
      {
        code, left := CheckTriedSlot(m, n, i, left);
        if code != 0 { return; }
        i := i + 1;
      }
      TriedSeenRow(m, left, n);
      n := n + 1;
    }
    TriedSeenAll(m, left);
  }

  lemma GridShape(m: AddrMan, l: Slot)
    requires m.Shaped()
    ensures l in m.St().triedTab <==> InGrid(l, TRIED_BUCKETS)
    ensures l in m.St().newTab <==> InGrid(l, NEW_BUCKETS)
  {
    assert l == (l.0, l.1);
  }

  lemma TriedSeenStart(k: Hasher, m: AddrMan)
    requires m.Shaped()
    ensures TriedSeen(k, m.St(), TriedIds(m.mapInfo), 0, 0)
  {
    var s := m.St();
    forall l | Before(l, 0, 0) ensures TriedFine(k, s, l) { GridShape(m, l); }
    forall id ensures HeldBefore(s.triedTab, id, 0, 0) == {} {
      forall l | l in s.triedTab ensures !Before(l, 0, 0) { GridShape(m, l); }
    }
  }

  lemma TriedSeenRow(m: AddrMan, left: set<int>, n: int)
    requires m.Shaped() && TriedSeen(m.key, m.St(), left, n, BUCKET_SIZE)
    ensures TriedSeen(m.key, m.St(), left, n + 1, 0)
  {
    var s, c := m.St(), n + 1;
    forall l ensures l in s.triedTab ==> (Before(l, n, BUCKET_SIZE) <==> Before(l, c, 0)) { GridShape(m, l); }
    forall id ensures HeldBefore(s.triedTab, id, n, BUCKET_SIZE) == HeldBefore(s.triedTab, id, c, 0) { }
    forall l | Before(l, c, 0) ensures TriedFine(m.key, s, l) {
      if l in s.triedTab { assert Before(l, n, BUCKET_SIZE); }
    }
  }

  lemma TriedSeenAll(m: AddrMan, left: set<int>)
    requires m.Shaped() && TriedSeen(m.key, m.St(), left, TRIED_BUCKETS, 0)
    ensures forall l :: TriedFine(m.key, m.St(), l)
    ensures forall id :: id in left <==> !TriedHeld(m.St(), id)
  {
    var s := m.St();
    forall l ensures l in s.triedTab ==> Before(l, TRIED_BUCKETS, 0) { GridShape(m, l); }
    forall l ensures TriedFine(m.key, s, l) { }
    forall id ensures id in left <==> !TriedHeld(s, id) {
      assert id != NONE ==> HeldBefore(s.triedTab, id, TRIED_BUCKETS, 0) == Holders(s.triedTab, id);
    }
  }

  /** Everything before (`n`, `i`) is in order, and `left` are the references not met yet. */
  ghost predicate NewSeen(k: Hasher, s: State, left: map<int, int>, n: int, i: int) {
    && (forall l :: Before(l, n, i) ==> NewFine(k, s, l))
    && (forall id :: RefsLeft(s, left, id, n, i))
  }

  ghost predicate RefsLeft(s: State, left: map<int, int>, id: int, n: int, i: int) {
    if id in NewIds(s.info) then
      var rest := s.info[id].refCount - |HeldBefore(s.newTab, id, n, i)|;
      && s.info[id].refCount > 0
      && (if rest > 0 then id in left && left[id] == rest else rest == 0 && id !in left)
    else
      id !in left
  }

  function Decrement(left: map<int, int>, x: int): map<int, int>
    requires x in left
  {
    if left[x] == 1 then left - {x} else left[x := left[x] - 1]
  }

  /** No more references than counted, and none to a stranger. */
  lemma NewSeenNext(k: Hasher, s: State, left: map<int, int>, n: int, i: int, after: map<int, int>)
    requires NewSeen(k, s, left, n, i) && (n, i) in s.newTab && NewFine(k, s, (n, i))
    requires s.newTab[(n, i)] != NONE ==> s.newTab[(n, i)] in left
    requires after == if s.newTab[(n, i)] == NONE then left else Decrement(left, s.newTab[(n, i)])
    ensures NewSeen(k, s, after, n, i + 1)
  {
    var j := i + 1;
    forall l | Before(l, n, j) ensures NewFine(k, s, l) {
      assert l == (l.0, l.1);
      assert Before(l, n, i) || l == (n, i);
    }
    forall id ensures RefsLeft(s, after, id, n, j) {
      assert RefsLeft(s, left, id, n, i);
      HeldNext(s.newTab, id, n, i);
    }
  }

  /** A slot whose occupant has no reference left is one too many. */
  lemma TooMany(k: Hasher, s: State, left: map<int, int>, n: int, i: int)
    requires NewSeen(k, s, left, n, i) && (n, i) in s.newTab && s.newTab[(n, i)] !in left
    ensures !NewFine(k, s, (n, i)) || s.newTab[(n, i)] == NONE || !NewHeld(s, s.newTab[(n, i)])
  {
    var x := s.newTab[(n, i)];
    assert RefsLeft(s, left, x, n, i);
    var all, some := Holders(s.newTab, x), HeldBefore(s.newTab, x, n, i);
    HeldNext(s.newTab, x, n, i);
    Smaller(some + {(n, i)}, all);
  }

  ghost predicate NewTableFine(k: Hasher, s: State) {
    (forall l :: NewFine(k, s, l)) && (forall id :: NewHeld(s, id))
  }

  /** One slot of the new table. */
  method CheckNewSlot(m: AddrMan, n: int, i: int, mapNew: map<int, int>) returns (code: int, left: map<int, int>)
    requires m.Shaped() && 0 <= n < NEW_BUCKETS && 0 <= i < BUCKET_SIZE
    requires NewSeen(m.key, m.St(), mapNew, n, i)
    ensures code != 0 ==> !NewTableFine(m.key, m.St())
    ensures code == 0 ==> NewSeen(m.key, m.St(), left, n, i + 1)
  {
    ghost var s := m.St();
    GridAt(m.vvNew, n, i);
    var x := m.vvNew[n, i];
    code, left := 0, mapNew;
    if x != NONE {
      if x !in mapNew {
        TooMany(m.key, s, mapNew, n, i);
        return -12, left;
      }
      assert RefsLeft(s, mapNew, x, n, i);
      if Position(m.key, true, n, m.mapInfo[x].addr.svc) != i {
        assert !NewFine(m.key, m.St(), (n, i));
        return -19, left;
      }
      left := Decrement(mapNew, x);
    }
    NewSeenNext(m.key, s, mapNew, n, i, left);
  }

  method CheckNewTable(m: AddrMan, mapNew: map<int, int>) returns (code: int, left: map<int, int>)
    requires m.Shaped() && NewSeen(m.key, m.St(), mapNew, 0, 0)
    ensures code != 0 ==> !NewTableFine(m.key, m.St())
    ensures code == 0 ==> (left == map[] <==> NewTableFine(m.key, m.St()))
  {
    ghost var s := m.St();
    code, left := 0, mapNew;
    var n := 0;
    while n < NEW_BUCKETS
      invariant 0 <= n <= NEW_BUCKETS && code == 0 && NewSeen(m.key, s, left, n, 0)
    {
      var i := 0;
      while i < BUCKET_SIZE
        invariant 0 <= i <= BUCKET_SIZE && code == 0 && NewSeen(m.key, s, left, n, i)
      {
        code, left := CheckNewSlot(m, n, i, left);
        if code != 0 { return; }
        i := i + 1;
      }
      NewSeenRow(m, left, n);
      n := n + 1;
    }
    NewSeenAll(m, left);
  }

  lemma NewSeenStart(m: AddrMan, mapNew: map<int, int>)
    requires m.Shaped() && (forall id :: EntryFine(m.St(), id))
    requires Gathered(m.mapInfo, m.mapInfo.Keys, TriedIds(m.mapInfo), mapNew)
    ensures NewSeen(m.key, m.St(), mapNew, 0, 0)
  {
    var s := m.St();
    forall l | Before(l, 0, 0) ensures NewFine(m.key, s, l) { GridShape(m, l); }
    forall id ensures RefsLeft(s, mapNew, id, 0, 0) {
      forall l | l in s.newTab ensures !Before(l, 0, 0) { GridShape(m, l); }
      assert HeldBefore(s.newTab, id, 0, 0) == {};
      assert EntryFine(s, id);
    }
  }

  lemma NewSeenRow(m: AddrMan, left: map<int, int>, n: int)
    requires m.Shaped() && NewSeen(m.key, m.St(), left, n, BUCKET_SIZE)
    ensures NewSeen(m.key, m.St(), left, n + 1, 0)
  {
    var s, c := m.St(), n + 1;
    forall l ensures l in s.newTab ==> (Before(l, n, BUCKET_SIZE) <==> Before(l, c, 0)) { GridShape(m, l); }
    forall l | Before(l, c, 0) ensures NewFine(m.key, s, l) {
      if l in s.newTab { assert Before(l, n, BUCKET_SIZE); }
    }
    forall id ensures RefsLeft(s, left, id, c, 0) {
      assert HeldBefore(s.newTab, id, n, BUCKET_SIZE) == HeldBefore(s.newTab, id, c, 0);
      assert RefsLeft(s, left, id, n, BUCKET_SIZE);
    }
  }

  lemma NewSeenAll(m: AddrMan, left: map<int, int>)
    requires m.Shaped() && NewSeen(m.key, m.St(), left, NEW_BUCKETS, 0)
    ensures left == map[] <==> NewTableFine(m.key, m.St())
  {
    var s := m.St();
    forall l ensures l in s.newTab ==> Before(l, NEW_BUCKETS, 0) { GridShape(m, l); }
    forall l ensures NewFine(m.key, s, l) { }
    forall id ensures id in left <==> !NewHeld(s, id) {
      assert RefsLeft(s, left, id, NEW_BUCKETS, 0);
      assert id != NONE ==> HeldBefore(s.newTab, id, NEW_BUCKETS, 0) == Holders(s.newTab, id);
    }
    if NewTableFine(m.key, s) {
      forall id ensures id !in left { assert NewHeld(s, id); }
      assert left == map[];
    }
  }

  /** Returns 0 exactly when everything is in order and the key, which the hashes stand for here, is not null. */
  method Check_(m: AddrMan, keyIsNull: bool) returns (code: int)
    requires m.Shaped()
    ensures code == 0 <==> Passes(m.key, m.St()) && !keyIsNull
  {
    if |m.vRandom| != m.nTried + m.nNew { return -7; }
    var setTried, mapNew;
    code, setTried, mapNew := CheckEntries(m);
    if code != 0 { return; }
    GatheredAll(m.mapInfo, setTried, mapNew);
    if |setTried| != m.nTried { return -9; }
    if |mapNew.Keys| != m.nNew { return -10; }
    NewSeenStart(m, mapNew);
    code := CheckTables(m, setTried, mapNew);
    if code != 0 { return; }
    if keyIsNull { return -16; }
  }

  method CheckTables(m: AddrMan, setTried: set<int>, mapNew: map<int, int>) returns (code: int)
    requires m.Shaped() && setTried == TriedIds(m.mapInfo) && NewSeen(m.key, m.St(), mapNew, 0, 0)
    ensures code == 0 <==> TablesFine(m.key, m.St())
  {
    var triedLeft, newLeft;
    code, triedLeft := CheckTriedTable(m, setTried);
    if code != 0 { return; }
    code, newLeft := CheckNewTable(m, mapNew);
    if code != 0 { return; }
    if triedLeft != {} {
      var id := Common.Pick(triedLeft);
      assert !TriedHeld(m.St(), id);
      return -13;
    }
    if newLeft != map[] { return -15; }
  }
}
