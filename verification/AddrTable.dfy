/** The state of the stochastic address manager as a value, its elementary steps, and the
    consistency invariant that every one of them keeps.

    An entry is known by a numeric id.  It is either "new" (held by up to eight slots of the
    new table) or "tried" (held by exactly one slot of the tried table).  Two indexes, by
    address and by random position, must agree with the table of entries at all times.
 */
module AddrTable {

  const NEW_BUCKETS := 1024
  const TRIED_BUCKETS := 256
  const BUCKET_SIZE := 64
  const MAX_REFS := 8
  const GETADDR_MAX_PCT := 23
  const GETADDR_MAX := 2500
  const NONE := -1

  /** An address without port.  Two services with the same `Ip` share one table entry. */
  type Ip = nat

  datatype Service = Service(ip: Ip, port: nat)

  /** `services` is the set of service bits that are on. */
  datatype Address = Address(svc: Service, services: set<nat>, time: int)

  datatype Info = Info(
    addr: Address, source: Ip, lastTry: int, lastSuccess: int, attempts: int,
    refCount: int, inTried: bool, randomPos: int)

  type Slot = (int, int)

  const TRIED_BUCKETS_PER_GROUP := 8
  const NEW_BUCKETS_PER_SOURCE_GROUP := 64

  /** The network group of an address, and the keyed hashes, before reduction to a bucket or a position.  A
      bucket takes two: the first picks one of a few for the group, the second says which bucket that is. */
  datatype Hasher = Hasher(
    group: Ip -> nat, triedKey: Service -> nat, triedHash: (nat, nat) -> nat,
    newKey: (nat, nat) -> nat, newHash: (nat, nat) -> nat, posHash: (bool, int, Service) -> nat)

  function TriedBucket(k: Hasher, svc: Service): (b: int)
    ensures 0 <= b < TRIED_BUCKETS
  {
    k.triedHash(k.group(svc.ip), k.triedKey(svc) % TRIED_BUCKETS_PER_GROUP) % TRIED_BUCKETS
  }

  function NewBucket(k: Hasher, ip: Ip, source: Ip): (b: int)
    ensures 0 <= b < NEW_BUCKETS
  {
    var from := k.group(source);
    k.newHash(from, k.newKey(k.group(ip), from) % NEW_BUCKETS_PER_SOURCE_GROUP) % NEW_BUCKETS
  }

  function Position(k: Hasher, isNew: bool, bucket: int, svc: Service): (p: int)
    ensures 0 <= p < BUCKET_SIZE
  {
    k.posHash(isNew, bucket, svc) % BUCKET_SIZE
  }

  /** The only slot of new bucket `bucket` that may hold `svc`. */
  function NewSlot(k: Hasher, bucket: int, svc: Service): Slot {
    (bucket, Position(k, true, bucket, svc))
  }

  function TriedSlot(k: Hasher, svc: Service): Slot {
    var b := TriedBucket(k, svc);
    (b, Position(k, false, b, svc))
  }

  ghost predicate InGrid(s: Slot, buckets: int) {
    0 <= s.0 < buckets && 0 <= s.1 < BUCKET_SIZE
  }

  datatype State = State(
    idCount: int, info: map<int, Info>, addr: map<Ip, int>, random: seq<int>,
    nTried: int, nNew: int, triedTab: map<Slot, int>, newTab: map<Slot, int>)

  // ---------- the invariant ----------

  ghost function Holders(g: map<Slot, int>, id: int): set<Slot> {
    set s | s in g && g[s] == id
  }

  ghost function TriedIds(info: map<int, Info>): set<int> {
    set id | id in info && info[id].inTried
  }

  ghost function NewIds(info: map<int, Info>): set<int> {
    set id | id in info && !info[id].inTried
  }

  /** `mapAddr` finds every entry, under its own address ... */
  ghost predicate AddrOk(s: State, id: int) {
    id in s.info ==>
      && 0 <= id < s.idCount
      && s.info[id].addr.svc.ip in s.addr && s.addr[s.info[id].addr.svc.ip] == id
  }

  /** ... and nothing else. */
  ghost predicate IpOk(s: State, ip: Ip) {
    ip in s.addr ==> s.addr[ip] in s.info && s.info[s.addr[ip]].addr.svc.ip == ip
  }

  /** `vRandom` lists every entry, at the position the entry remembers ... */
  ghost predicate PosOk(s: State, id: int) {
    id in s.info ==>
      0 <= s.info[id].randomPos < |s.random| && s.random[s.info[id].randomPos] == id
  }

  /** ... and nothing else. */
  ghost predicate RandOk(s: State, i: int) {
    0 <= i < |s.random| ==> s.random[i] in s.info && s.info[s.random[i]].randomPos == i
  }

  ghost predicate Shuffled(s: State) {
    && (forall id :: PosOk(s, id))
    && (forall i :: RandOk(s, i))
  }

  ghost predicate ByAddress(s: State) {
    && 0 <= s.idCount
    && (forall id :: AddrOk(s, id))
    && (forall ip :: IpOk(s, ip))
  }

  /** An occupied slot of the new table holds a new entry, at the place its hash says. */
  ghost predicate NewOk(k: Hasher, s: State, l: Slot) {
    && (l in s.newTab <==> InGrid(l, NEW_BUCKETS))
    && (l in s.newTab && s.newTab[l] != NONE ==>
          && s.newTab[l] in s.info && !s.info[s.newTab[l]].inTried
          && l == NewSlot(k, l.0, s.info[s.newTab[l]].addr.svc))
  }

  ghost predicate TriedOk(k: Hasher, s: State, l: Slot) {
    && (l in s.triedTab <==> InGrid(l, TRIED_BUCKETS))
    && (l in s.triedTab && s.triedTab[l] != NONE ==>
          && s.triedTab[l] in s.info && s.info[s.triedTab[l]].inTried
          && l == TriedSlot(k, s.info[s.triedTab[l]].addr.svc))
  }

  ghost predicate Placed(k: Hasher, s: State) {
    && (forall l :: NewOk(k, s, l))
    && (forall l :: TriedOk(k, s, l))
  }

  /** A tried entry holds its own slot; the reference count of a new entry counts its slots.
      Entries in `idle` are, for the moment, held by no slot at all. */
  ghost predicate CountOk(k: Hasher, s: State, id: int, idle: set<int>) {
    id in s.info ==>
      var i := s.info[id];
      if i.inTried then
        && i.refCount == 0
        && TriedSlot(k, i.addr.svc) in s.triedTab && s.triedTab[TriedSlot(k, i.addr.svc)] == id
      else
        && i.refCount == |Holders(s.newTab, id)| <= MAX_REFS
        && (i.refCount == 0 <==> id in idle)
  }

  /** Entries in `uncounted` are left out of `nNew` for the moment. */
  ghost predicate Counted(k: Hasher, s: State, idle: set<int>, uncounted: set<int>) {
    && (forall id :: CountOk(k, s, id, idle))
    && uncounted <= idle <= NewIds(s.info)
    && s.nTried == |TriedIds(s.info)|
    && s.nNew == |NewIds(s.info) - uncounted|
  }

  ghost predicate IdOk(s: State, id: int) {
    id in s.info ==> 0 <= id < s.idCount
  }

  /** Everything but the index by address. */
  ghost predicate Tables(k: Hasher, s: State, idle: set<int>, uncounted: set<int>) {
    && 0 <= s.idCount && (forall id :: IdOk(s, id))
    && Shuffled(s) && Placed(k, s) && Counted(k, s, idle, uncounted)
  }

  ghost predicate Inv(k: Hasher, s: State, idle: set<int>, uncounted: set<int>) {
    ByAddress(s) && Shuffled(s) && Placed(k, s) && Counted(k, s, idle, uncounted)
  }

  ghost predicate Consistent(k: Hasher, s: State) {
    Inv(k, s, {}, {})
  }

  lemma InvTables(k: Hasher, s: State, idle: set<int>, uncounted: set<int>)
    ensures Inv(k, s, idle, uncounted) <==> Tables(k, s, idle, uncounted) && ByAddress(s)
  {
    if ByAddress(s) {
      forall id ensures IdOk(s, id) { assert AddrOk(s, id); }
    }
  }

  // ---------- elementary steps ----------

  function SetInfo(s: State, id: int, i: Info): State {
    s.(info := s.info[id := i])
  }

  function Create(s: State, a: Address, source: Ip): State {
    var id := s.idCount;
    s.(idCount := id + 1,
       info := s.info[id := Info(a, source, 0, 0, 0, 0, false, |s.random|)],
       addr := s.addr[a.svc.ip := id],
       random := s.random + [id])
  }

  function SwapRandom(s: State, p1: int, p2: int): State
    requires 0 <= p1 < |s.random| && 0 <= p2 < |s.random|
    requires RandOk(s, p1) && RandOk(s, p2)
  {
    if p1 == p2 then s
    else
      var id1, id2 := s.random[p1], s.random[p2];
      var info1 := s.info[id1 := s.info[id1].(randomPos := p2)];
      s.(info := info1[id2 := info1[id2].(randomPos := p1)],
         random := s.random[p1 := id2][p2 := id1])
  }

  function Delete(s: State, id: int): State
    requires Deletable(s, id)
  {
    var t := SwapRandom(s, s.info[id].randomPos, |s.random| - 1);
    t.(random := t.random[..|t.random| - 1],
       addr := t.addr - {t.info[id].addr.svc.ip},
       info := t.info - {id},
       nNew := t.nNew - 1)
  }

  /** Take one reference away from the occupant of slot `l`. */
  function Release(s: State, l: Slot): State
    requires l in s.newTab && s.newTab[l] in s.info
  {
    var i := s.info[s.newTab[l]];
    SetInfo(s, s.newTab[l], i.(refCount := i.refCount - 1)).(newTab := s.newTab[l := NONE])
  }

  /** Give slot `l` to entry `id`. */
  function Hold(s: State, l: Slot, id: int): State
    requires id in s.info
  {
    SetInfo(s, id, s.info[id].(refCount := s.info[id].refCount + 1)).(newTab := s.newTab[l := id])
  }

  function ClearNew(s: State, l: Slot): State
    requires Clearable(s, l)
  {
    if s.newTab[l] == NONE then s
    else
      var t := Release(s, l);
      if t.info[s.newTab[l]].refCount == 0 then Delete(t, s.newTab[l]) else t
  }

  /** The slots of the first `n` new buckets that hold `id` at its own position. */
  ghost function OwnSlots(k: Hasher, s: State, id: int, n: int): set<Slot>
    requires id in s.info
  {
    set l | l in s.newTab && s.newTab[l] == id && l.0 < n && l == NewSlot(k, l.0, s.info[id].addr.svc)
  }

  /** Take `id` out of the first `n` new buckets, all at once. */
  ghost function Purged(k: Hasher, s: State, id: int, n: int): State
    requires id in s.info
  {
    var own := OwnSlots(k, s, id, n);
    SetInfo(s, id, s.info[id].(refCount := s.info[id].refCount - |own|)).(
      newTab := map l | l in s.newTab :: if l in own then NONE else s.newTab[l])
  }

  /** The same, bucket by bucket. */
  ghost function Detach(k: Hasher, s: State, id: int, n: nat): (d: State)
    requires id in s.info && Placed(k, s) && n <= NEW_BUCKETS
    ensures id in d.info && d.newTab.Keys == s.newTab.Keys && d.info[id].addr == s.info[id].addr
  {
    if n == 0 then s
    else
      var d := Detach(k, s, id, n - 1);
      var l := NewSlot(k, n - 1, s.info[id].addr.svc);
      assert NewOk(k, s, l);
      if d.newTab[l] == id then Release(d, l) else d
  }

  lemma DetachOnce(k: Hasher, s: State, id: int, n: nat, d: State)
    requires id in s.info && Placed(k, s) && n < NEW_BUCKETS && d == Detach(k, s, id, n)
    ensures var l := NewSlot(k, n, s.info[id].addr.svc);
            && l in d.newTab && id in d.info
            && Detach(k, s, id, n + 1) == if d.newTab[l] == id then Release(d, l) else d
  {
    assert NewOk(k, s, NewSlot(k, n, s.info[id].addr.svc));
  }

  /** Where an entry evicted from the tried table goes: by its own source. */
  function HomeSlot(k: Hasher, i: Info): Slot {
    NewSlot(k, NewBucket(k, i.addr.svc.ip, i.source), i.addr.svc)
  }

  function Demote(s: State, t: Slot): State
    requires t in s.triedTab && s.triedTab[t] in s.info
  {
    var e := s.triedTab[t];
    SetInfo(s, e, s.info[e].(inTried := false)).(
      triedTab := s.triedTab[t := NONE], nTried := s.nTried - 1)
  }

  function Promote(s: State, t: Slot, id: int): State
    requires id in s.info
  {
    SetInfo(s, id, s.info[id].(inTried := true)).(
      triedTab := s.triedTab[t := id], nTried := s.nTried + 1)
  }

  // ---------- what the steps keep ----------

  /** Entries as they were, apart from their place in the random order. */
  ghost predicate SameButPos(i: Info, j: Info) {
    i == j.(randomPos := i.randomPos)
  }

  /** `t` has the entries of `s` except those in `gone`; nothing but the random order differs. */
  ghost predicate Keeps(s: State, t: State, gone: set<int>) {
    && t.info.Keys == s.info.Keys - gone
    && (forall id :: id in t.info ==> SameButPos(t.info[id], s.info[id]))
  }

  /** `t` has the entries of `s` except those in `gone`, rewritten as `changed` says;
      nothing else differs but the random order. */
  ghost predicate Effect(s: State, t: State, changed: map<int, Info>, gone: set<int>) {
    && t.info.Keys == s.info.Keys - gone
    && (forall id :: id in t.info ==>
          SameButPos(t.info[id], if id in changed then changed[id] else s.info[id]))
  }

  lemma HoldersUpdate(g: map<Slot, int>, l: Slot, x: int, id: int)
    requires l in g
    ensures Holders(g[l := x], id) ==
            if x == id then Holders(g, id) + {l} else Holders(g, id) - {l}
    ensures |Holders(g[l := x], id)| == |Holders(g, id)|
                                        + (if x == id && g[l] != id then 1 else 0)
                                        - (if x != id && g[l] == id then 1 else 0)
  {
    var a, b := Holders(g, id), Holders(g[l := x], id);
    assert b == if x == id then a + {l} else a - {l};
    assert l in a <==> g[l] == id;
  }

  /** The occupant of a slot is never idle. */
  lemma OccupantBusy(k: Hasher, s: State, l: Slot, idle: set<int>, uncounted: set<int>)
    requires Placed(k, s) && Counted(k, s, idle, uncounted)
    requires l in s.newTab && s.newTab[l] != NONE
    ensures s.newTab[l] !in idle && s.newTab[l] in s.info && s.info[s.newTab[l]].refCount > 0
  {
    assert NewOk(k, s, l);
    assert CountOk(k, s, s.newTab[l], idle);
    assert l in Holders(s.newTab, s.newTab[l]);
  }

  /** Removing entries that no slot holds leaves the tables well placed and counted. */
  lemma FrameTables(k: Hasher, s: State, t: State, gone: set<int>, idle: set<int>, uncounted: set<int>)
    requires Placed(k, s) && Counted(k, s, idle, uncounted)
    requires Keeps(s, t, gone) && gone <= idle - uncounted
    requires t.newTab == s.newTab && t.triedTab == s.triedTab
    requires t.nTried == s.nTried && t.nNew == s.nNew - |gone|
    ensures Placed(k, t) && Counted(k, t, idle - gone, uncounted)
  {
    forall l ensures NewOk(k, t, l) {
      assert NewOk(k, s, l);
      if l in s.newTab && s.newTab[l] != NONE {
        OccupantBusy(k, s, l, idle, uncounted);
      }
    }
    forall l ensures TriedOk(k, t, l) {
      assert TriedOk(k, s, l);
    }
    forall id ensures CountOk(k, t, id, idle - gone) {
      assert CountOk(k, s, id, idle);
    }
    FrameNewIds(s, t, gone);
    FrameTriedIds(s, t, gone);
    var a := NewIds(s.info);
    assert (a - gone) - uncounted == (a - uncounted) - gone;
  }

  lemma FrameNewIds(s: State, t: State, gone: set<int>)
    requires Keeps(s, t, gone)
    ensures NewIds(t.info) == NewIds(s.info) - gone
  {
    forall id ensures id in NewIds(t.info) <==> id in NewIds(s.info) - gone {
      assert id in t.info <==> id in s.info.Keys - gone;
    }
  }

  lemma FrameTriedIds(s: State, t: State, gone: set<int>)
    requires Keeps(s, t, gone) && gone <= NewIds(s.info)
    ensures TriedIds(t.info) == TriedIds(s.info)
  {
    forall id ensures id in TriedIds(t.info) <==> id in TriedIds(s.info) {
      assert id in t.info <==> id in s.info.Keys - gone;
    }
  }

  lemma SwapShuffles(s: State, p1: int, p2: int)
    requires Shuffled(s)
    requires 0 <= p1 < |s.random| && 0 <= p2 < |s.random|
    ensures RandOk(s, p1) && RandOk(s, p2)
    ensures Shuffled(SwapRandom(s, p1, p2)) && Keeps(s, SwapRandom(s, p1, p2), {})
  {
    assert RandOk(s, p1) && RandOk(s, p2);
    var t := SwapRandom(s, p1, p2);
    forall i ensures RandOk(t, i) {
      assert RandOk(s, i);
    }
    forall id ensures PosOk(t, id) {
      assert PosOk(s, id);
    }
  }

  lemma ByAddressFrame(s: State, t: State, gone: set<int>)
    requires ByAddress(s) && Keeps(s, t, gone) && t.idCount == s.idCount
    requires forall ip :: ip in t.addr <==> ip in s.addr && s.addr[ip] !in gone
    requires forall ip :: ip in t.addr ==> t.addr[ip] == s.addr[ip]
    ensures ByAddress(t)
  {
    forall ip ensures IpOk(t, ip) {
      assert IpOk(s, ip);
      assert ip in t.addr ==> s.addr[ip] in t.info.Keys;
    }
    forall id ensures AddrOk(t, id) {
      assert AddrOk(s, id);
      assert id in t.info ==> id !in gone;
    }
  }

  lemma SwapOrder(s: State, p1: int, p2: int)
    requires 0 <= p1 < |s.random| && 0 <= p2 < |s.random| && RandOk(s, p1) && RandOk(s, p2)
    ensures var t := SwapRandom(s, p1, p2);
            && t == s.(info := t.info, random := t.random)
            && t.random == s.random[p1 := s.random[p2]][p2 := s.random[p1]]
  {
  }

  lemma ReorderKeeps(k: Hasher, s: State, t: State, idle: set<int>, uncounted: set<int>)
    requires Inv(k, s, idle, uncounted) && Keeps(s, t, {}) && Shuffled(t)
    requires t == s.(info := t.info, random := t.random)
    ensures Inv(k, t, idle, uncounted)
  {
    FrameTables(k, s, t, {}, idle, uncounted);
    ByAddressFrame(s, t, {});
    assert idle - {} == idle;
  }

  lemma SwapRandomKeeps(k: Hasher, s: State, p1: int, p2: int, idle: set<int>, uncounted: set<int>)
    requires Inv(k, s, idle, uncounted)
    requires 0 <= p1 < |s.random| && 0 <= p2 < |s.random|
    ensures RandOk(s, p1) && RandOk(s, p2)
    ensures var t := SwapRandom(s, p1, p2);
            && Inv(k, t, idle, uncounted)
            && Keeps(s, t, {})
            && t == s.(info := t.info, random := t.random)
            && t.random == s.random[p1 := s.random[p2]][p2 := s.random[p1]]
  {
    SwapShuffles(s, p1, p2);
    SwapOrder(s, p1, p2);
    ReorderKeeps(k, s, SwapRandom(s, p1, p2), idle, uncounted);
  }

  ghost predicate Deletable(s: State, id: int) {
    id in s.info && PosOk(s, id) && RandOk(s, s.info[id].randomPos) && RandOk(s, |s.random| - 1)
  }

  lemma DeleteShuffles(s: State, id: int)
    requires Shuffled(s) && id in s.info
    ensures Deletable(s, id)
    ensures Shuffled(Delete(s, id)) && Keeps(s, Delete(s, id), {id})
  {
    assert PosOk(s, id);
    var last := |s.random| - 1;
    SwapShuffles(s, s.info[id].randomPos, last);
    var m := SwapRandom(s, s.info[id].randomPos, last);
    var t := Delete(s, id);
    assert RandOk(m, last) && m.random[last] == id;
    forall x ensures PosOk(t, x) {
      assert PosOk(m, x);
    }
    forall i ensures RandOk(t, i) {
      assert RandOk(m, i);
    }
  }

  /** Deleting an idle entry removes it from every index and nothing else. */
  lemma DeleteKeeps(k: Hasher, s: State, id: int, idle: set<int>, uncounted: set<int>)
    requires Inv(k, s, idle, uncounted)
    requires id in idle && id !in uncounted
    ensures Deletable(s, id)
    ensures var t := Delete(s, id);
            && Inv(k, t, idle - {id}, uncounted)
            && Keeps(s, t, {id})
            && t.newTab == s.newTab && t.triedTab == s.triedTab && t.idCount == s.idCount
  {
    InvTables(k, s, idle, uncounted);
    DeleteTables(k, s, id, idle, uncounted);
    DeleteIndexed(s, id);
    InvTables(k, Delete(s, id), idle - {id}, uncounted);
  }

  lemma DeleteIndexed(s: State, id: int)
    requires ByAddress(s) && Deletable(s, id) && Keeps(s, Delete(s, id), {id})
    ensures ByAddress(Delete(s, id))
  {
    var t := Delete(s, id);
    forall ip ensures ip in t.addr <==> ip in s.addr && s.addr[ip] != id {
      assert AddrOk(s, id) && IpOk(s, ip);
    }
    ByAddressFrame(s, t, {id});
  }

  lemma DeleteTables(k: Hasher, s: State, id: int, idle: set<int>, uncounted: set<int>)
    requires Tables(k, s, idle, uncounted) && id in idle && id !in uncounted
    ensures Deletable(s, id) && Tables(k, Delete(s, id), idle - {id}, uncounted) && Keeps(s, Delete(s, id), {id})
  {
    DeleteShuffles(s, id);
    var t := Delete(s, id);
    forall x ensures IdOk(t, x) { assert IdOk(s, x); }
    FrameTables(k, s, t, {id}, idle, uncounted);
  }

  /** Rewriting one entry without moving it leaves both indexes exact. */
  lemma SetInfoIndexes(s: State, t: State, id: int)
    requires ByAddress(s) && Shuffled(s) && id in s.info && Rewritten(s, t, id)
    ensures ByAddress(t) && Shuffled(t)
  {
    SetInfoShuffled(s, t, id);
    SetInfoIndexed(s, t, id);
  }

  lemma SetInfoIndexed(s: State, t: State, id: int)
    requires ByAddress(s) && id in s.info && Rewritten(s, t, id)
    ensures ByAddress(t)
  {
    forall x ensures AddrOk(t, x) {
      assert AddrOk(s, x);
    }
    forall ip ensures IpOk(t, ip) {
      assert IpOk(s, ip);
    }
  }

  /** `t` differs from `s` in entry `id` and perhaps in the tables and counters, not in any index. */
  ghost predicate Rewritten(s: State, t: State, id: int)
    requires id in s.info
  {
    && id in t.info && t.info == s.info[id := t.info[id]]
    && t.info[id].addr.svc == s.info[id].addr.svc && t.info[id].randomPos == s.info[id].randomPos
    && t.addr == s.addr && t.random == s.random && t.idCount == s.idCount
  }

  lemma SetInfoShuffled(s: State, t: State, id: int)
    requires Shuffled(s) && id in s.info && Rewritten(s, t, id)
    ensures Shuffled(t) && forall x :: IdOk(s, x) ==> IdOk(t, x)
  {
    forall x ensures PosOk(t, x) { assert PosOk(s, x); }
    forall i ensures RandOk(t, i) { assert RandOk(s, i); }
  }

  /** Statistics, services and times play no part in consistency. */
  ghost predicate SameRole(i: Info, j: Info) {
    && i.addr.svc == j.addr.svc && i.source == j.source && i.refCount == j.refCount
    && i.inTried == j.inTried && i.randomPos == j.randomPos
  }

  lemma TouchKeeps(k: Hasher, s: State, id: int, i: Info, idle: set<int>, uncounted: set<int>)
    requires Inv(k, s, idle, uncounted) && id in s.info && SameRole(i, s.info[id])
    ensures Inv(k, SetInfo(s, id, i), idle, uncounted)
  {
    SetInfoIndexes(s, SetInfo(s, id, i), id);
    InvTables(k, s, idle, uncounted);
    TouchTables(k, s, id, i, idle, uncounted);
  }

  lemma TouchTables(k: Hasher, s: State, id: int, i: Info, idle: set<int>, uncounted: set<int>)
    requires Tables(k, s, idle, uncounted) && id in s.info && SameRole(i, s.info[id])
    ensures Tables(k, SetInfo(s, id, i), idle, uncounted)
  {
    var t := SetInfo(s, id, i);
    SetInfoShuffled(s, t, id);
    forall l ensures NewOk(k, t, l) && TriedOk(k, t, l) {
      assert NewOk(k, s, l) && TriedOk(k, s, l);
    }
    forall x ensures CountOk(k, t, x, idle) {
      assert CountOk(k, s, x, idle);
    }
    assert NewIds(t.info) == NewIds(s.info);
    assert TriedIds(t.info) == TriedIds(s.info);
  }

  lemma ReleaseKeeps(k: Hasher, s: State, l: Slot, idle: set<int>, uncounted: set<int>)
    requires Inv(k, s, idle, uncounted)
    requires l in s.newTab && s.newTab[l] != NONE && s.newTab[l] in s.info
    ensures var t, d := Release(s, l), s.newTab[l];
            && Inv(k, t, if t.info[d].refCount == 0 then idle + {d} else idle, uncounted)
            && d !in idle
  {
    var t, d := Release(s, l), s.newTab[l];
    OccupantBusy(k, s, l, idle, uncounted);
    var idle' := if t.info[d].refCount == 0 then idle + {d} else idle;
    assert NewOk(k, s, l) && AddrOk(s, d);
    SetInfoIndexes(s, t, d);
    forall m ensures NewOk(k, t, m) && TriedOk(k, t, m) {
      assert NewOk(k, s, m) && TriedOk(k, s, m);
    }
    forall x ensures CountOk(k, t, x, idle') {
      assert CountOk(k, s, x, idle) && AddrOk(s, x);
      HoldersUpdate(s.newTab, l, NONE, x);
    }
    assert NewIds(t.info) == NewIds(s.info);
    assert TriedIds(t.info) == TriedIds(s.info);
  }

  /** What `ClearNew` does to the occupant of `l`: one reference less ... */
  ghost function Lowered(s: State, l: Slot): map<int, Info> {
    if l in s.newTab && s.newTab[l] in s.info && s.info[s.newTab[l]].refCount != 1 then
      var d := s.newTab[l]; map[d := s.info[d].(refCount := s.info[d].refCount - 1)]
    else map[]
  }

  /** ... or gone with the last one. */
  ghost function Dropped(s: State, l: Slot): set<int> {
    if l in s.newTab && s.newTab[l] in s.info && s.info[s.newTab[l]].refCount == 1 then {s.newTab[l]} else {}
  }

  ghost predicate Cleared(s: State, t: State, l: Slot) {
    && t.newTab == s.newTab[l := NONE] && t.triedTab == s.triedTab && t.idCount == s.idCount
    && Effect(s, t, Lowered(s, l), Dropped(s, l))
  }

  ghost predicate Clearable(s: State, l: Slot) {
    && l in s.newTab
    && (s.newTab[l] != NONE ==> s.newTab[l] in s.info && Deletable(Release(s, l), s.newTab[l]))
  }

  lemma ClearNewKeeps(k: Hasher, s: State, l: Slot, idle: set<int>, uncounted: set<int>)
    requires Inv(k, s, idle, uncounted)
    requires l in s.newTab
    ensures Clearable(s, l)
    ensures Inv(k, ClearNew(s, l), idle, uncounted) && Cleared(s, ClearNew(s, l), l)
  {
    var d := s.newTab[l];
    if d == NONE {
      assert AddrOk(s, NONE);
      assert s.newTab[l := NONE] == s.newTab;
    } else {
      assert NewOk(k, s, l);
      ReleaseKeeps(k, s, l, idle, uncounted);
      var t := Release(s, l);
      DeleteShuffles(t, d);
      if t.info[d].refCount == 0 {
        DeleteKeeps(k, t, d, idle + {d}, uncounted);
        assert idle + {d} - {d} == idle;
        ReleasedEffect(s, l, Delete(t, d));
      }
    }
  }

  lemma ReleasedEffect(s: State, l: Slot, t: State)
    requires l in s.newTab && s.newTab[l] in s.info && s.info[s.newTab[l]].refCount == 1
    requires Keeps(Release(s, l), t, {s.newTab[l]})
    ensures Effect(s, t, Lowered(s, l), Dropped(s, l))
  {
  }

  /** Giving an empty slot at the right place to a new entry. */
  lemma HoldKeeps(k: Hasher, s: State, l: Slot, id: int, idle: set<int>, uncounted: set<int>)
    requires Inv(k, s, idle, uncounted) && id in s.info && !s.info[id].inTried && id !in uncounted
    requires s.info[id].refCount < MAX_REFS
    requires l in s.newTab && s.newTab[l] == NONE && l == NewSlot(k, l.0, s.info[id].addr.svc)
    ensures Inv(k, Hold(s, l, id), idle - {id}, uncounted)
  {
    SetInfoIndexes(s, Hold(s, l, id), id);
    InvTables(k, s, idle, uncounted);
    HoldTables(k, s, l, id, idle, uncounted);
  }

  lemma HoldTables(k: Hasher, s: State, l: Slot, id: int, idle: set<int>, uncounted: set<int>)
    requires Tables(k, s, idle, uncounted) && id in s.info && !s.info[id].inTried && id !in uncounted
    requires s.info[id].refCount < MAX_REFS
    requires l in s.newTab && s.newTab[l] == NONE && l == NewSlot(k, l.0, s.info[id].addr.svc)
    ensures Tables(k, Hold(s, l, id), idle - {id}, uncounted)
  {
    var t := Hold(s, l, id);
    assert IdOk(s, id) && CountOk(k, s, id, idle);
    SetInfoShuffled(s, t, id);
    forall m ensures NewOk(k, t, m) && TriedOk(k, t, m) {
      assert NewOk(k, s, m) && TriedOk(k, s, m);
    }
    forall x ensures CountOk(k, t, x, idle - {id}) {
      assert CountOk(k, s, x, idle) && IdOk(s, x);
      HoldCount(k, s, l, id, idle, x);
    }
    assert NewIds(t.info) == NewIds(s.info);
    assert TriedIds(t.info) == TriedIds(s.info);
  }

  lemma HoldCount(k: Hasher, s: State, l: Slot, id: int, idle: set<int>, x: int)
    requires id in s.info && !s.info[id].inTried && s.info[id].refCount < MAX_REFS
    requires l in s.newTab && s.newTab[l] == NONE
    requires CountOk(k, s, x, idle) && IdOk(s, x)
    ensures CountOk(k, Hold(s, l, id), x, idle - {id})
  {
    HoldersUpdate(s.newTab, l, id, x);
  }

  /** Entries in `uncounted` that come back into the count. */
  lemma Recount(k: Hasher, s: State, id: int, idle: set<int>, uncounted: set<int>)
    requires Inv(k, s, idle, uncounted) && id in uncounted
    ensures Inv(k, s.(nNew := s.nNew + 1), idle, uncounted - {id})
  {
    InvTables(k, s, idle, uncounted);
    RecountTables(k, s, id, idle, uncounted);
    RenumberIndexed(s, s.(nNew := s.nNew + 1));
  }

  lemma RecountTables(k: Hasher, s: State, id: int, idle: set<int>, uncounted: set<int>)
    requires Tables(k, s, idle, uncounted) && id in uncounted
    ensures Tables(k, s.(nNew := s.nNew + 1), idle, uncounted - {id})
  {
    var t := s.(nNew := s.nNew + 1);
    assert NewIds(s.info) - (uncounted - {id}) == (NewIds(s.info) - uncounted) + {id};
    RenumberKeeps(k, s, t, idle);
    forall x ensures IdOk(t, x) { assert IdOk(s, x); }
  }

  lemma RenumberIndexed(s: State, t: State)
    requires ByAddress(s) && t == s.(nNew := t.nNew)
    ensures ByAddress(t)
  {
    forall x ensures AddrOk(t, x) { assert AddrOk(s, x); }
    forall ip ensures IpOk(t, ip) { assert IpOk(s, ip); }
  }

  lemma Uncount(k: Hasher, s: State, id: int, idle: set<int>, uncounted: set<int>)
    requires Inv(k, s, idle, uncounted) && id in idle - uncounted
    ensures Inv(k, s.(nNew := s.nNew - 1), idle, uncounted + {id})
  {
    var t := s.(nNew := s.nNew - 1);
    assert NewIds(s.info) - (uncounted + {id}) == (NewIds(s.info) - uncounted) - {id};
    RenumberKeeps(k, s, t, idle);
    RenumberIndexed(s, t);
  }

  lemma RenumberKeeps(k: Hasher, s: State, t: State, idle: set<int>)
    requires Shuffled(s) && Placed(k, s) && forall x :: CountOk(k, s, x, idle)
    requires t == s.(nNew := t.nNew)
    ensures Shuffled(t) && Placed(k, t) && forall x :: CountOk(k, t, x, idle)
  {
    forall x ensures PosOk(t, x) && CountOk(k, t, x, idle) {
      assert PosOk(s, x) && CountOk(k, s, x, idle);
    }
    forall i ensures RandOk(t, i) { assert RandOk(s, i); }
    forall l ensures NewOk(k, t, l) && TriedOk(k, t, l) { assert NewOk(k, s, l) && TriedOk(k, s, l); }
  }

  /** A created entry is idle and not yet counted. */
  lemma CreateKeeps(k: Hasher, s: State, a: Address, source: Ip, idle: set<int>)
    requires Inv(k, s, idle, {}) && a.svc.ip !in s.addr
    ensures Inv(k, Create(s, a, source), idle + {s.idCount}, {s.idCount})
    ensures s.idCount !in s.info
  {
    CreateIndexed(s, a, source);
    InvTables(k, s, idle, {});
    CreateTables(k, s, a, source, idle);
  }

  lemma CreateTables(k: Hasher, s: State, a: Address, source: Ip, idle: set<int>)
    requires Tables(k, s, idle, {})
    ensures Tables(k, Create(s, a, source), idle + {s.idCount}, {s.idCount}) && s.idCount !in s.info
  {
    assert IdOk(s, s.idCount);
    CreateShuffled(s, a, source);
    CreatePlaced(k, s, a, source);
    CreateCounted(k, s, a, source, idle);
  }

  lemma CreateIndexed(s: State, a: Address, source: Ip)
    requires ByAddress(s) && a.svc.ip !in s.addr
    ensures ByAddress(Create(s, a, source))
  {
    var t := Create(s, a, source);
    forall x ensures AddrOk(t, x) {
      assert AddrOk(s, x);
      assert x in s.info ==> s.info[x].addr.svc.ip != a.svc.ip;
    }
    forall ip ensures IpOk(t, ip) { assert IpOk(s, ip) && AddrOk(s, s.idCount); }
  }

  lemma CreateShuffled(s: State, a: Address, source: Ip)
    requires 0 <= s.idCount && (forall id :: IdOk(s, id)) && Shuffled(s)
    ensures Shuffled(Create(s, a, source)) && forall id :: IdOk(Create(s, a, source), id)
  {
    var t := Create(s, a, source);
    assert IdOk(s, s.idCount);
    forall x ensures IdOk(t, x) && PosOk(t, x) { assert IdOk(s, x) && PosOk(s, x); }
    forall i ensures RandOk(t, i) { assert RandOk(s, i); }
  }

  /** The next id is in no slot. */
  lemma NobodyYet(k: Hasher, s: State, l: Slot)
    requires 0 <= s.idCount && s.idCount !in s.info && Placed(k, s) && l in s.newTab
    ensures s.newTab[l] != s.idCount
  {
    assert NewOk(k, s, l);
  }

  lemma CreatePlaced(k: Hasher, s: State, a: Address, source: Ip)
    requires s.idCount !in s.info && Placed(k, s)
    ensures Placed(k, Create(s, a, source))
  {
    var t := Create(s, a, source);
    forall l ensures NewOk(k, t, l) && TriedOk(k, t, l) { assert NewOk(k, s, l) && TriedOk(k, s, l); }
  }

  lemma CreateCounted(k: Hasher, s: State, a: Address, source: Ip, idle: set<int>)
    requires 0 <= s.idCount && s.idCount !in s.info && Placed(k, s) && Counted(k, s, idle, {})
    ensures Counted(k, Create(s, a, source), idle + {s.idCount}, {s.idCount})
  {
    var t, id := Create(s, a, source), s.idCount;
    forall l | l in s.newTab ensures s.newTab[l] != id { NobodyYet(k, s, l); }
    assert Holders(s.newTab, id) == {};
    forall x ensures CountOk(k, t, x, idle + {id}) { assert CountOk(k, s, x, idle); }
    assert NewIds(t.info) == NewIds(s.info) + {id};
    assert NewIds(t.info) - {id} == NewIds(s.info) - {};
    assert TriedIds(t.info) == TriedIds(s.info);
  }

  /** Going through all buckets at the entry's own positions finds every slot that holds it. */
  lemma OwnSlotsComplete(k: Hasher, s: State, id: int)
    requires Placed(k, s) && id in s.info && id != NONE
    ensures OwnSlots(k, s, id, NEW_BUCKETS) == Holders(s.newTab, id)
  {
    forall l | l in Holders(s.newTab, id) ensures l in OwnSlots(k, s, id, NEW_BUCKETS) {
      assert NewOk(k, s, l);
    }
  }

  lemma OwnSlotsStep(k: Hasher, s: State, id: int, n: nat)
    requires id in s.info && Placed(k, s) && n < NEW_BUCKETS
    ensures var l, own := NewSlot(k, n, s.info[id].addr.svc), OwnSlots(k, s, id, n);
            && l in s.newTab && l !in own
            && OwnSlots(k, s, id, n + 1) == if s.newTab[l] == id then own + {l} else own
  {
    var l := NewSlot(k, n, s.info[id].addr.svc);
    assert NewOk(k, s, l);
    var own, own' := OwnSlots(k, s, id, n), OwnSlots(k, s, id, n + 1);
    forall m | m in own' && m !in own ensures m == l {}
  }

  lemma PurgedStep(k: Hasher, s: State, id: int, n: nat, d: State)
    requires id in s.info && Placed(k, s) && n < NEW_BUCKETS && d == Purged(k, s, id, n)
    ensures var l := NewSlot(k, n, s.info[id].addr.svc);
            && l in d.newTab && id in d.info
            && Purged(k, s, id, n + 1) == if d.newTab[l] == id then Release(d, l) else d
  {
    var l := NewSlot(k, n, s.info[id].addr.svc);
    OwnSlotsStep(k, s, id, n);
    if s.newTab[l] == id {
      assert Purged(k, s, id, n + 1).newTab == d.newTab[l := NONE];
    }
  }

  lemma PurgedZero(k: Hasher, s: State, id: int)
    requires id in s.info && Placed(k, s)
    ensures Purged(k, s, id, 0) == s
  {
    forall l | l in s.newTab ensures l.0 >= 0 { assert NewOk(k, s, l); }
    assert OwnSlots(k, s, id, 0) == {};
    assert s.info[id := s.info[id]] == s.info;
  }

  lemma DetachStep(k: Hasher, s: State, id: int, n: nat, d: State)
    requires id in s.info && Placed(k, s) && n < NEW_BUCKETS && d == Detach(k, s, id, n) == Purged(k, s, id, n)
    ensures Detach(k, s, id, n + 1) == Purged(k, s, id, n + 1)
  {
    PurgedStep(k, s, id, n, d);
    DetachOnce(k, s, id, n, d);
  }

  lemma {:induction false} DetachPurges(k: Hasher, s: State, id: int, n: nat)
    requires id in s.info && Placed(k, s) && n <= NEW_BUCKETS
    ensures Detach(k, s, id, n) == Purged(k, s, id, n)
  {
    if n == 0 {
      PurgedZero(k, s, id);
    } else {
      var m := n - 1;
      DetachPurges(k, s, id, m);
      DetachStep(k, s, id, m, Detach(k, s, id, m));
    }
  }

  lemma DetachKeeps(k: Hasher, s: State, id: int)
    requires Consistent(k, s) && id in s.info && !s.info[id].inTried
    ensures var t := Detach(k, s, id, NEW_BUCKETS);
            && Inv(k, t, {id}, {})
            && t.info[id].refCount == 0 && t.info == s.info[id := t.info[id]]
            && t == s.(info := t.info, newTab := t.newTab)
            && t.info[id] == s.info[id].(refCount := 0)
            && forall l :: l in s.newTab ==> t.newTab[l] == if s.newTab[l] == id then NONE else s.newTab[l]
  {
    var t := Detach(k, s, id, NEW_BUCKETS);
    DetachPurges(k, s, id, NEW_BUCKETS);
    assert AddrOk(s, id) && CountOk(k, s, id, {});
    OwnSlotsComplete(k, s, id);
    assert forall l :: l in s.newTab ==> t.newTab[l] == if s.newTab[l] == id then NONE else s.newTab[l];
    SetInfoIndexes(s, t, id);
    forall m ensures NewOk(k, t, m) && TriedOk(k, t, m) {
      assert NewOk(k, s, m) && TriedOk(k, s, m);
    }
    forall x ensures CountOk(k, t, x, {id}) {
      assert CountOk(k, s, x, {}) && AddrOk(s, x);
      assert x in s.info ==> Holders(t.newTab, x) == if x == id then {} else Holders(s.newTab, x);
    }
    assert NewIds(t.info) == NewIds(s.info);
    assert TriedIds(t.info) == TriedIds(s.info);
  }

  lemma DemoteKeeps(k: Hasher, s: State, l: Slot, idle: set<int>, uncounted: set<int>)
    requires Inv(k, s, idle, uncounted)
    requires l in s.triedTab && s.triedTab[l] != NONE && s.triedTab[l] in s.info
    ensures var e := s.triedTab[l];
            && e !in idle
            && Inv(k, Demote(s, l), idle + {e}, uncounted + {e})
  {
    var t, e := Demote(s, l), s.triedTab[l];
    assert TriedOk(k, s, l) && AddrOk(s, e) && CountOk(k, s, e, idle);
    SetInfoIndexes(s, t, e);
    forall m | m in s.newTab ensures s.newTab[m] != e { assert NewOk(k, s, m); }
    assert Holders(s.newTab, e) == {};
    forall m ensures NewOk(k, t, m) && TriedOk(k, t, m) {
      assert NewOk(k, s, m) && TriedOk(k, s, m);
    }
    forall x ensures CountOk(k, t, x, idle + {e}) {
      assert CountOk(k, s, x, idle) && AddrOk(s, x);
    }
    assert NewIds(t.info) == NewIds(s.info) + {e};
    assert NewIds(t.info) - (uncounted + {e}) == NewIds(s.info) - uncounted;
    assert TriedIds(t.info) == TriedIds(s.info) - {e};
  }

  lemma PromoteKeeps(k: Hasher, s: State, id: int, l: Slot, idle: set<int>)
    requires Inv(k, s, idle + {id}, {id}) && id !in idle
    requires l == TriedSlot(k, s.info[id].addr.svc) && l in s.triedTab && s.triedTab[l] == NONE
    ensures Inv(k, Promote(s, l, id), idle, {})
  {
    assert AddrOk(s, id) && id in NewIds(s.info);
    SetInfoIndexes(s, Promote(s, l, id), id);
    InvTables(k, s, idle + {id}, {id});
    PromoteTables(k, s, id, l, idle);
  }

  lemma PromoteTables(k: Hasher, s: State, id: int, l: Slot, idle: set<int>)
    requires Tables(k, s, idle + {id}, {id}) && id !in idle
    requires l == TriedSlot(k, s.info[id].addr.svc) && l in s.triedTab && s.triedTab[l] == NONE
    ensures Tables(k, Promote(s, l, id), idle, {})
  {
    assert id in NewIds(s.info);
    SetInfoShuffled(s, Promote(s, l, id), id);
    PromotePlaced(k, s, id, l, idle);
    PromoteCounted(k, s, id, l, idle);
  }

  lemma PromotePlaced(k: Hasher, s: State, id: int, l: Slot, idle: set<int>)
    requires Placed(k, s) && Counted(k, s, idle + {id}, {id})
    requires l == TriedSlot(k, s.info[id].addr.svc) && l in s.triedTab
    ensures Placed(k, Promote(s, l, id))
  {
    var t := Promote(s, l, id);
    forall m ensures NewOk(k, t, m) && TriedOk(k, t, m) {
      assert NewOk(k, s, m) && TriedOk(k, s, m);
      if m in s.newTab && s.newTab[m] != NONE { OccupantBusy(k, s, m, idle + {id}, {id}); }
    }
  }

  lemma PromoteCountOk(k: Hasher, s: State, id: int, l: Slot, idle: set<int>, x: int)
    requires IdOk(s, x) && CountOk(k, s, x, idle + {id}) && CountOk(k, s, id, idle + {id}) && id !in idle
    requires id in s.info && !s.info[id].inTried
    requires l == TriedSlot(k, s.info[id].addr.svc) && l in s.triedTab && s.triedTab[l] == NONE
    ensures CountOk(k, Promote(s, l, id), x, idle)
  {
  }

  lemma PromoteIds(s: State, id: int, l: Slot)
    requires id in NewIds(s.info)
    ensures var t := Promote(s, l, id);
            && NewIds(t.info) == NewIds(s.info) - {id}
            && TriedIds(t.info) == TriedIds(s.info) + {id} && id !in TriedIds(s.info)
  {
  }

  lemma PromoteCounted(k: Hasher, s: State, id: int, l: Slot, idle: set<int>)
    requires (forall x :: IdOk(s, x)) && Counted(k, s, idle + {id}, {id}) && id !in idle
    requires l == TriedSlot(k, s.info[id].addr.svc) && l in s.triedTab && s.triedTab[l] == NONE
    ensures Counted(k, Promote(s, l, id), idle, {})
  {
    var t := Promote(s, l, id);
    assert CountOk(k, s, id, idle + {id}) && id in NewIds(s.info);
    forall x ensures CountOk(k, t, x, idle) {
      assert IdOk(s, x) && CountOk(k, s, x, idle + {id});
      PromoteCountOk(k, s, id, l, idle, x);
    }
    PromoteIds(s, id, l);
    assert NewIds(t.info) - {} == NewIds(t.info);
  }

  // ---------- moving an entry to the tried table ----------

  /** Make room in tried slot `t`: its occupant goes back to the new table, by its own source. */
  ghost function Evict(k: Hasher, s: State, t: Slot): State
    requires t in s.triedTab && s.triedTab[t] in s.info
    requires Clearable(Demote(s, t), HomeSlot(k, s.info[s.triedTab[t]]))
    requires s.triedTab[t] in ClearNew(Demote(s, t), HomeSlot(k, s.info[s.triedTab[t]])).info
  {
    var e := s.triedTab[t];
    var home := HomeSlot(k, s.info[e]);
    var c := ClearNew(Demote(s, t), home);
    Hold(c.(nNew := c.nNew + 1), home, e)
  }

  ghost predicate Evictable(k: Hasher, s: State, t: Slot) {
    && t in s.triedTab && s.triedTab[t] in s.info
    && Clearable(Demote(s, t), HomeSlot(k, s.info[s.triedTab[t]]))
    && s.triedTab[t] in ClearNew(Demote(s, t), HomeSlot(k, s.info[s.triedTab[t]])).info
  }

  lemma EvictStart(k: Hasher, s: State, l: Slot, id: int)
    requires Inv(k, s, {id}, {id}) && l in s.triedTab && s.triedTab[l] != NONE
    ensures Evictable(k, s, l)
    ensures var e, d := s.triedTab[l], Demote(s, l);
            var home := HomeSlot(k, s.info[e]);
            && e != id && id in s.info && home in s.newTab
            && Inv(k, ClearNew(d, home), {id, e}, {id, e})
            && Cleared(d, ClearNew(d, home), home)
  {
    var e := s.triedTab[l];
    assert TriedOk(k, s, l);
    DemoteKeeps(k, s, l, {id}, {id});
    assert {id} + {e} == {id, e};
    var home, d := HomeSlot(k, s.info[e]), Demote(s, l);
    assert NewOk(k, d, home);
    ClearNewKeeps(k, d, home, {id, e}, {id, e});
  }

  lemma EvictKeeps(k: Hasher, s: State, l: Slot, id: int)
    requires Inv(k, s, {id}, {id}) && l in s.triedTab && s.triedTab[l] != NONE
    ensures Evictable(k, s, l)
    ensures Inv(k, Evict(k, s, l), {id}, {id})
  {
    EvictStart(k, s, l, id);
    var e := s.triedTab[l];
    var home := HomeSlot(k, s.info[e]);
    ReenterKeeps(k, ClearNew(Demote(s, l), home), home, e, id);
  }

  /** An idle, uncounted entry gets a free slot and is counted again. */
  lemma ReenterKeeps(k: Hasher, c: State, home: Slot, e: int, id: int)
    requires Inv(k, c, {id, e}, {id, e}) && e != id && e in c.info
    requires home in c.newTab && c.newTab[home] == NONE && home == NewSlot(k, home.0, c.info[e].addr.svc)
    ensures Inv(k, Hold(c.(nNew := c.nNew + 1), home, e), {id}, {id})
  {
    assert CountOk(k, c, e, {id, e}) && e in NewIds(c.info);
    Recount(k, c, e, {id, e}, {id, e});
    assert {id, e} - {e} == {id};
    HoldKeeps(k, c.(nNew := c.nNew + 1), home, e, {id, e}, {id});
  }

  ghost predicate Reenterable(k: Hasher, d: State, e: int) {
    && e in d.info && Clearable(d, HomeSlot(k, d.info[e]))
    && var c := ClearNew(d, HomeSlot(k, d.info[e])); e in c.info && c.info[e].refCount == 0
  }

  /** An entry outside both tables goes to its home slot in the new table. */
  ghost function Reenter(k: Hasher, d: State, e: int): State
    requires Reenterable(k, d, e)
  {
    var home := HomeSlot(k, d.info[e]);
    var c := ClearNew(d, home);
    Hold(c.(nNew := c.nNew + 1), home, e)
  }

  lemma ReenterIs(k: Hasher, d: State, e: int, home: Slot, c: State)
    requires Reenterable(k, d, e) && home == HomeSlot(k, d.info[e]) && c == ClearNew(d, home)
    ensures e in c.info && c.info[e].refCount == 0 && Reenter(k, d, e) == Hold(c.(nNew := c.nNew + 1), home, e)
  {
  }

  /** While its home slot is cleared, an evicted entry stays, without references. */
  lemma EvictIsReenter(k: Hasher, s: State, l: Slot, id: int)
    requires Inv(k, s, {id}, {id}) && l in s.triedTab && s.triedTab[l] != NONE
    ensures Evictable(k, s, l)
    ensures var e, d := s.triedTab[l], Demote(s, l); Reenterable(k, d, e) && Reenter(k, d, e) == Evict(k, s, l)
  {
    EvictStart(k, s, l, id);
    var e, d := s.triedTab[l], Demote(s, l);
    var home := HomeSlot(k, s.info[e]);
    assert HomeSlot(k, d.info[e]) == home;
    FreedEntry(k, ClearNew(d, home), e, id);
  }

  lemma FreedEntry(k: Hasher, c: State, e: int, id: int)
    requires Inv(k, c, {id, e}, {id, e})
    ensures e in c.info && c.info[e].refCount == 0
  {
    assert e in NewIds(c.info) && CountOk(k, c, e, {id, e});
  }

  lemma EvictTables(k: Hasher, s: State, l: Slot, id: int)
    requires Inv(k, s, {id}, {id}) && l in s.triedTab && s.triedTab[l] != NONE
    ensures Evictable(k, s, l)
    ensures Evict(k, s, l).triedTab == s.triedTab[l := NONE]
    ensures var e := s.triedTab[l];
            Evict(k, s, l).newTab == s.newTab[HomeSlot(k, s.info[e]) := e]
  {
    EvictStart(k, s, l, id);
  }

  lemma HomeOccupant(k: Hasher, s: State, l: Slot, id: int)
    requires Inv(k, s, {id}, {id}) && l in s.triedTab && s.triedTab[l] != NONE && s.triedTab[l] in s.info
    ensures var e, d := s.triedTab[l], Demote(s, l);
            var home := HomeSlot(k, s.info[e]);
            && s.info[e].refCount == 0 && e != id
            && home in s.newTab && s.newTab[home] != e && s.newTab[home] != id
            && Dropped(d, home) == Dropped(s, home) && Lowered(d, home) == Lowered(s, home)
  {
    var e := s.triedTab[l];
    var home := HomeSlot(k, s.info[e]);
    assert TriedOk(k, s, l) && NewOk(k, s, home) && AddrOk(s, e) && AddrOk(s, id);
    assert CountOk(k, s, e, {id}) && id in NewIds(s.info);
    if s.newTab[home] != NONE { OccupantBusy(k, s, home, {id}, {id}); }
  }

  /** Eviction rewrites the evicted entry and the one it displaces, and no other. */
  lemma EvictEffect(k: Hasher, s: State, l: Slot, id: int)
    requires Inv(k, s, {id}, {id}) && l in s.triedTab && s.triedTab[l] != NONE
    ensures Evictable(k, s, l)
    ensures var e := s.triedTab[l];
            var home := HomeSlot(k, s.info[e]);
            && e !in Dropped(s, home) && id !in Dropped(s, home)
            && id !in Lowered(s, home) && e != id && id in s.info
            && Effect(s, Evict(k, s, l),
                      Lowered(s, home)[e := s.info[e].(inTried := false, refCount := 1)],
                      Dropped(s, home))
  {
    EvictStart(k, s, l, id);
    HomeOccupant(k, s, l, id);
    var e, d := s.triedTab[l], Demote(s, l);
    var home := HomeSlot(k, s.info[e]);
    EnteredEffect(s, d, ClearNew(d, home), Evict(k, s, l), e, Lowered(s, home), Dropped(s, home));
  }

  /** An entry taken out of the tried table and given one slot, while `low` and `gone` happen to others. */
  lemma EnteredEffect(s: State, d: State, c: State, t: State, e: int, low: map<int, Info>, gone: set<int>)
    requires e in s.info && d.info == s.info[e := s.info[e].(inTried := false)] && s.info[e].refCount == 0
    requires Effect(d, c, low, gone) && e !in low && e !in gone
    requires e in c.info && t.info == c.info[e := c.info[e].(refCount := c.info[e].refCount + 1)]
    ensures Effect(s, t, low[e := s.info[e].(inTried := false, refCount := 1)], gone)
  {
  }

  /** `MakeTried`: out of the new table, make room, into the tried table. */
  ghost function MakeTried(k: Hasher, s: State, id: int): State
    requires Consistent(k, s) && id in s.info && !s.info[id].inTried
  {
    var d := Detach(k, s, id, NEW_BUCKETS);
    var u := d.(nNew := d.nNew - 1);
    var l := TriedSlot(k, s.info[id].addr.svc);
    DetachReady(k, s, id);
    var v := if u.triedTab[l] == NONE then u else (EvictKeeps(k, u, l, id); Evict(k, u, l));
    Promote(v, l, id)
  }

  /** Slot `l` is free, or can be made so without losing `id`. */
  ghost predicate Takeable(k: Hasher, u: State, l: Slot, id: int) {
    && l in u.triedTab && id in u.info
    && (u.triedTab[l] != NONE ==>
          && Evictable(k, u, l) && id in Evict(k, u, l).info
          && l in Evict(k, u, l).triedTab && Evict(k, u, l).triedTab[l] == NONE)
  }

  ghost function Take(k: Hasher, u: State, l: Slot, id: int): State
    requires Takeable(k, u, l, id)
  {
    Promote(if u.triedTab[l] == NONE then u else Evict(k, u, l), l, id)
  }

  lemma DetachReady(k: Hasher, s: State, id: int)
    requires Consistent(k, s) && id in s.info && !s.info[id].inTried
    ensures var d := Detach(k, s, id, NEW_BUCKETS);
            && Inv(k, d.(nNew := d.nNew - 1), {id}, {id})
            && TriedSlot(k, s.info[id].addr.svc) in d.triedTab
  {
    DetachKeeps(k, s, id);
    var d := Detach(k, s, id, NEW_BUCKETS);
    Uncount(k, d, id, {id}, {});
    assert {} + {id} == {id};
    assert TriedOk(k, s, TriedSlot(k, s.info[id].addr.svc));
  }

  /** From `d`, in which no slot holds `id` any more, what is left to do. */
  ghost predicate TriedBy(k: Hasher, s: State, id: int, d: State)
    requires Consistent(k, s) && id in s.info && !s.info[id].inTried && id in d.info
  {
    var u, l := d.(nNew := d.nNew - 1), TriedSlot(k, s.info[id].addr.svc);
    && Inv(k, u, {id}, {id}) && d.info[id] == s.info[id].(refCount := 0)
    && Takeable(k, u, l, id) && MakeTried(k, s, id) == Take(k, u, l, id)
  }

  lemma MakeTriedSteps(k: Hasher, s: State, id: int)
    requires Consistent(k, s) && id in s.info && !s.info[id].inTried
    ensures TriedBy(k, s, id, Detach(k, s, id, NEW_BUCKETS))
  {
    DetachReady(k, s, id);
    DetachKeeps(k, s, id);
    var d := Detach(k, s, id, NEW_BUCKETS);
    var u, l := d.(nNew := d.nNew - 1), TriedSlot(k, s.info[id].addr.svc);
    if u.triedTab[l] != NONE {
      EvictTables(k, u, l, id);
      EvictEffect(k, u, l, id);
    }
  }

  lemma MakeTriedKeeps(k: Hasher, s: State, id: int)
    requires Consistent(k, s) && id in s.info && !s.info[id].inTried
    ensures Consistent(k, MakeTried(k, s, id))
  {
    DetachReady(k, s, id);
    var d := Detach(k, s, id, NEW_BUCKETS);
    var u := d.(nNew := d.nNew - 1);
    var l := TriedSlot(k, s.info[id].addr.svc);
    if u.triedTab[l] == NONE {
      assert {} + {id} == {id};
      PromoteKeeps(k, u, id, l, {});
    } else {
      EvictKeeps(k, u, l, id);
      EvictTables(k, u, l, id);
      EvictEffect(k, u, l, id);
      assert {} + {id} == {id};
      PromoteKeeps(k, Evict(k, u, l), id, l, {});
    }
  }

  ghost function Without(g: map<Slot, int>, id: int): map<Slot, int> {
    map l | l in g :: if g[l] == id then NONE else g[l]
  }

  /** The entries rewritten when `id` takes tried slot `l`: itself, the entry `e` it evicts
      and the entry that `e` displaces in the new table. */
  ghost function Moved(k: Hasher, s: State, id: int, l: Slot): map<int, Info>
    requires id in s.info && l in s.triedTab && (s.triedTab[l] != NONE ==> s.triedTab[l] in s.info)
  {
    var base := s.(newTab := Without(s.newTab, id));
    var e := s.triedTab[l];
    (if e == NONE then map[]
     else Lowered(base, HomeSlot(k, s.info[e]))[e := s.info[e].(inTried := false, refCount := 1)])
    [id := s.info[id].(inTried := true, refCount := 0)]
  }

  /** The entry that leaves the manager altogether, if any. */
  ghost function Lost(k: Hasher, s: State, id: int, l: Slot): set<int>
    requires l in s.triedTab && (s.triedTab[l] != NONE ==> s.triedTab[l] in s.info)
  {
    if s.triedTab[l] == NONE then {}
    else Dropped(s.(newTab := Without(s.newTab, id)), HomeSlot(k, s.info[s.triedTab[l]]))
  }

  lemma DetachEffect(k: Hasher, s: State, id: int)
    requires Consistent(k, s) && id in s.info && !s.info[id].inTried
    ensures var d := Detach(k, s, id, NEW_BUCKETS);
            && d == s.(newTab := Without(s.newTab, id), info := s.info[id := s.info[id].(refCount := 0)])
  {
    DetachKeeps(k, s, id);
  }

  /** Everything `MakeTried` does to both tables ... */
  lemma MakeTriedTables(k: Hasher, s: State, id: int)
    requires Consistent(k, s) && id in s.info && !s.info[id].inTried
    ensures var l, t := TriedSlot(k, s.info[id].addr.svc), MakeTried(k, s, id);
            && l in s.triedTab && (s.triedTab[l] != NONE ==> s.triedTab[l] in s.info && s.triedTab[l] != id)
            && t.triedTab == s.triedTab[l := id]
            && t.newTab == (if s.triedTab[l] == NONE then Without(s.newTab, id)
                            else Without(s.newTab, id)[HomeSlot(k, s.info[s.triedTab[l]]) := s.triedTab[l]])
  {
    var l := TriedSlot(k, s.info[id].addr.svc);
    DetachReady(k, s, id);
    DetachEffect(k, s, id);
    assert TriedOk(k, s, l);
    var d := Detach(k, s, id, NEW_BUCKETS);
    if s.triedTab[l] != NONE { EvictTables(k, d.(nNew := d.nNew - 1), l, id); }
  }

  /** ... and to the entries. */
  lemma MakeTriedEffect(k: Hasher, s: State, id: int)
    requires Consistent(k, s) && id in s.info && !s.info[id].inTried
    ensures var l := TriedSlot(k, s.info[id].addr.svc);
            && l in s.triedTab && (s.triedTab[l] != NONE ==> s.triedTab[l] in s.info)
            && Effect(s, MakeTried(k, s, id), Moved(k, s, id, l), Lost(k, s, id, l))
  {
    var l := TriedSlot(k, s.info[id].addr.svc);
    MakeTriedTables(k, s, id);
    DetachReady(k, s, id);
    DetachEffect(k, s, id);
    var d := Detach(k, s, id, NEW_BUCKETS);
    var u := d.(nNew := d.nNew - 1);
    if s.triedTab[l] != NONE {
      EvictEffect(k, u, l, id);
      MovedSame(k, s, u, id, l);
    }
  }

  lemma MovedSame(k: Hasher, s: State, u: State, id: int, l: Slot)
    requires Inv(k, u, {id}, {id}) && id in s.info
    requires u.newTab == Without(s.newTab, id) && u.triedTab == s.triedTab
    requires u.info == s.info[id := s.info[id].(refCount := 0)]
    requires l in s.triedTab && s.triedTab[l] != NONE && s.triedTab[l] in s.info && s.triedTab[l] != id
    ensures var home := HomeSlot(k, s.info[s.triedTab[l]]);
            var base := s.(newTab := Without(s.newTab, id));
            && HomeSlot(k, u.info[s.triedTab[l]]) == home
            && Dropped(u, home) == Dropped(base, home) && Lowered(u, home) == Lowered(base, home)
  {
    var home := HomeSlot(k, s.info[s.triedTab[l]]);
    assert AddrOk(u, id);
    assert u.newTab.Keys == s.newTab.Keys;
    assert home in s.newTab ==> u.newTab[home] != id;
  }
}
