/** What the calls on the address manager mean for its slots and entries, with every bucket, position, time and
    count written out. */
module AddrEffects {
  import Common
  import opened AddrTable
  import opened AddrRules
  import opened AddrFile

  // ---------- slots ----------

  /** Where everything goes: a reference by the groups of its address and its source, a tried entry by its full
      address among the buckets of its group. */
  lemma SlotsWritten(k: Hasher, i: Info, source: Ip)
    ensures var svc, g, from := i.addr.svc, k.group(i.addr.svc.ip), k.group(source);
            var b := k.newHash(from, k.newKey(g, from) % 64) % 1024;
            TargetSlot(k, i, source) == NewSlot(k, NewBucket(k, svc.ip, source), svc)
              == (b, k.posHash(true, b, svc) % 64)
    ensures HomeSlot(k, i) == TargetSlot(k, i, i.source)
    ensures var svc := i.addr.svc;
            var b := k.triedHash(k.group(svc.ip), k.triedKey(svc) % 8) % 256;
            TriedSlot(k, svc) == (b, k.posHash(false, b, svc) % 64)
  {
  }

  /** All that the sources of one group can reach with `n` choices, and all that its tried entries can. */
  ghost function NewBucketsOf(k: Hasher, from: nat, n: nat): set<int> {
    set j: nat | j < n :: k.newHash(from, j) % 1024
  }

  ghost function TriedBucketsOf(k: Hasher, g: nat, n: nat): set<int> {
    set j: nat | j < n :: k.triedHash(g, j) % 256
  }

  lemma {:induction false} NewBucketsSize(k: Hasher, from: nat, n: nat)
    ensures |NewBucketsOf(k, from, n)| <= n
  {
    if n > 0 {
      NewBucketsSize(k, from, n - 1);
      assert NewBucketsOf(k, from, n) == NewBucketsOf(k, from, n - 1) + {k.newHash(from, n - 1) % 1024};
    }
  }

  lemma {:induction false} TriedBucketsSize(k: Hasher, g: nat, n: nat)
    ensures |TriedBucketsOf(k, g, n)| <= n
  {
    if n > 0 {
      TriedBucketsSize(k, g, n - 1);
      assert TriedBucketsOf(k, g, n) == TriedBucketsOf(k, g, n - 1) + {k.triedHash(g, n - 1) % 256};
    }
  }

  /** Whatever addresses the members of one network group announce, they end up in at most 64 buckets of the new
      table. */
  lemma SourceGroupBound(k: Hasher, from: nat)
    ensures |NewBucketsOf(k, from, 64)| <= 64
    ensures forall i, source :: k.group(source) == from ==> TargetSlot(k, i, source).0 in NewBucketsOf(k, from, 64)
  {
    NewBucketsSize(k, from, 64);
  }

  /** The slots of some buckets. */
  ghost function SlotsIn(buckets: set<int>, n: nat): set<Slot> {
    set b, p | b in buckets && 0 <= p < n :: (b, p)
  }

  ghost function Across(buckets: set<int>, p: int): set<Slot> {
    set b | b in buckets :: (b, p)
  }

  lemma {:induction false} AcrossSize(buckets: set<int>, p: int)
    ensures |Across(buckets, p)| <= |buckets|
  {
    if buckets == {} {
      assert Across(buckets, p) == {};
    } else {
      var x := Element(buckets);
      AcrossSize(buckets - {x}, p);
      assert Across(buckets, p) == Across(buckets - {x}, p) + {(x, p)};
    }
  }

  lemma {:induction false} SlotsInSize(buckets: set<int>, n: nat)
    ensures |SlotsIn(buckets, n)| <= n * |buckets|
  {
    if n == 0 {
      assert SlotsIn(buckets, 0) == {};
    } else {
      SlotsInSize(buckets, n - 1);
      AcrossSize(buckets, n - 1);
      SlotsInNext(buckets, n - 1);
      OneMoreRow(n, |buckets|);
    }
  }

  lemma SlotsInNext(buckets: set<int>, n: nat)
    ensures SlotsIn(buckets, n + 1) == SlotsIn(buckets, n) + Across(buckets, n)
  {
    var m := n + 1;
    forall l ensures l in SlotsIn(buckets, m) <==> l in SlotsIn(buckets, n) + Across(buckets, n) {
      assert l == (l.0, l.1);
    }
  }

  lemma OneMoreRow(n: nat, c: nat)
    requires n > 0
    ensures n * c == (n - 1) * c + c
  {
  }

  lemma Element<T>(s: set<T>) returns (x: T)
    requires s != {}
    ensures x in s
  {
    x :| x in s;
  }

  ghost function TriedOfGroup(k: Hasher, s: State, g: nat): set<int> {
    set id | id in TriedIds(s.info) && k.group(s.info[id].addr.svc.ip) == g
  }

  lemma {:induction false} HolderBound(s: State, ids: set<int>, slots: set<Slot>)
    requires forall id :: id in ids ==> exists l :: l in slots && l in s.triedTab && s.triedTab[l] == id
    ensures |ids| <= |slots|
  {
    if ids != {} {
      var x := Element(ids);
      var l :| l in slots && l in s.triedTab && s.triedTab[l] == x;
      forall id | id in ids - {x} ensures exists m :: m in slots - {l} && m in s.triedTab && s.triedTab[m] == id {
        var m :| m in slots && m in s.triedTab && s.triedTab[m] == id;
        assert m in slots - {l};
      }
      HolderBound(s, ids - {x}, slots - {l});
    }
  }

  /** In every consistent state, one network group holds at most 512 of the 16384 tried slots, and only in its
      own eight buckets. */
  lemma TriedGroupBound(k: Hasher, s: State, g: nat)
    requires Consistent(k, s)
    ensures |TriedOfGroup(k, s, g)| <= 512 && |TriedBucketsOf(k, g, 8)| <= 8
    ensures forall l :: l in s.triedTab && s.triedTab[l] in TriedOfGroup(k, s, g) ==> l.0 in TriedBucketsOf(k, g, 8)
  {
    TriedBucketsSize(k, g, 8);
    var slots := SlotsIn(TriedBucketsOf(k, g, 8), 64);
    SlotsInSize(TriedBucketsOf(k, g, 8), 64);
    forall id | id in TriedOfGroup(k, s, g) ensures exists l :: l in slots && l in s.triedTab && s.triedTab[l] == id {
      assert CountOk(k, s, id, {});
      assert TriedSlot(k, s.info[id].addr.svc) in slots;
    }
    HolderBound(s, TriedOfGroup(k, s, g), slots);
    forall l | l in s.triedTab && s.triedTab[l] in TriedOfGroup(k, s, g) ensures l.0 in TriedBucketsOf(k, g, 8) {
      assert TriedOk(k, s, l) && AddrOk(s, s.triedTab[l]);
    }
  }

  // ---------- Add ----------

  /** The slot that an address gets from a source. */
  function SlotFor(k: Hasher, svc: Service, source: Ip): Slot {
    var from := k.group(source);
    var b := k.newHash(from, k.newKey(k.group(svc.ip), from) % 64) % 1024;
    (b, k.posHash(true, b, svc) % 64)
  }

  function TriedSlotFor(k: Hasher, svc: Service): Slot {
    var b := k.triedHash(k.group(svc.ip), k.triedKey(svc) % 8) % 256;
    (b, k.posHash(false, b, svc) % 64)
  }

  /** Entry `id` has given up one reference, and is gone with the last one. */
  ghost predicate OneLess(s: State, t: State, id: int) {
    id in s.info ==>
      if s.info[id].refCount == 1 then id !in t.info
      else id in t.info && SameButPos(t.info[id], s.info[id].(refCount := s.info[id].refCount - 1))
  }

  ghost predicate Same(s: State, t: State, id: int) {
    (id in t.info <==> id in s.info) && (id in s.info ==> SameButPos(t.info[id], s.info[id]))
  }

  /** Apart from the entries in `own`, only `loser` notices, unless it is NONE. */
  ghost predicate Others(s: State, t: State, own: set<int>, loser: int) {
    forall id :: id !in own ==> if id == loser then OneLess(s, t, id) else Same(s, t, id)
  }

  /** News of a known address: a time that is newer by more than the interval and the penalty is taken over, less
      the penalty; services are added. */
  function Refreshed(i: Info, x: AddInput): Info {
    var interval := if x.now - x.a.time < 86400 then 3600 else 86400;
    var newer := x.a.time != 0 && (i.addr.time == 0 || i.addr.time + interval + x.penalty < x.a.time);
    var time := if x.a.time > x.penalty then x.a.time - x.penalty else 0;
    i.(addr := Address(i.addr.svc, i.addr.services + x.a.services,
                       if newer then time % 0x1_0000_0000 else i.addr.time))
  }

  /** A new entry with fewer than eight references gets another one when the news is newer than what is now known
      of it and the draw comes out zero. */
  predicate MoreWanted(i: Info, x: AddInput) {
    var time := Refreshed(i, x).addr.time;
    && x.a.time != 0 && (time == 0 || x.a.time > time)
    && !i.inTried && i.refCount < 8 && x.coin == 0
  }

  lemma RefreshIs(i: Info, x: AddInput)
    ensures Refresh(i, x.a, x.penalty, x.now) == Refreshed(i, x)
  {
  }

  /** Each reference makes the next one twice as hard. */
  lemma {:induction false} FactorIs(n: nat)
    ensures StochasticFactor(n) == Common.Pow2(n) && (StochasticFactor(n) > 1 <==> n > 0)
  {
    if n > 0 { FactorIs(n - 1); }
  }

  lemma EligibleIs(k: Hasher, s: State, id: int, x: AddInput)
    requires Consistent(k, s) && id in s.info
    ensures var i := s.info[id];
            && Eligible(Refreshed(i, x), x.a, x.coin) == MoreWanted(i, x)
            && (!i.inTried ==> i.refCount > 0)
  {
    assert CountOk(k, s, id, {});
    if !s.info[id].inTried { FactorIs(s.info[id].refCount); }
  }

  /** What `Inserted` says, entry by entry, for an entry that has references or has just been created. */
  lemma PlacedOthers(s: State, t: State, id: int, l: Slot, now: int)
    requires id in s.info && l in s.newTab && Inserted(s, t, id, l, now) && s.newTab[l] != id
    requires s.newTab[l] == NONE || (s.newTab[l] in s.info && GivesWay(s.info[s.newTab[l]], s.info[id].refCount, now))
    requires NONE !in s.info
    ensures id in t.info && SameButPos(t.info[id], s.info[id].(refCount := s.info[id].refCount + 1))
    ensures Others(s, t, {id}, s.newTab[l])
  {
    var o := s.newTab[l];
    forall x | x != id ensures if x == o then OneLess(s, t, x) else Same(s, t, x) {
      assert x in t.info <==> x in s.info.Keys - Dropped(s, l);
    }
    assert id in s.info.Keys - Dropped(s, l);
  }

  /** A known address announced again, by any source: its entry is refreshed; and if it wants another reference,
      it takes the slot that this source gives it, provided that is free or held by a terrible entry. */
  lemma AddKnownEffect(k: Hasher, s: State, x: AddInput)
    requires Consistent(k, s) && x.routable && x.a.svc.ip in s.addr
    ensures var id := s.addr[x.a.svc.ip];
            && id in s.info
            && var i, t := s.info[id], Add(k, s, x).0;
            var l := SlotFor(k, i.addr.svc, x.source);
            && l in s.newTab && (s.newTab[l] != NONE ==> s.newTab[l] in s.info)
            && if MoreWanted(i, x) && s.newTab[l] != id
                  && (s.newTab[l] == NONE || IsTerrible(s.info[s.newTab[l]], x.nowTerrible)) then
                 && t.newTab == s.newTab[l := id] && t.triedTab == s.triedTab
                 && id in t.info && SameButPos(t.info[id], Refreshed(i, x).(refCount := i.refCount + 1))
                 && Others(s, t, {id}, s.newTab[l])
               else t == s.(info := s.info[id := Refreshed(i, x)])
  {
    var id := s.addr[x.a.svc.ip];
    KnownReady(k, s, x);
    RefreshIs(s.info[id], x);
    EligibleIs(k, s, id, x);
    SlotsWritten(k, s.info[id], x.source);
    var m := SetInfo(s, id, Refreshed(s.info[id], x));
    InsertEffect(k, m, id, x.source, x.nowTerrible, {});
    var l := SlotFor(k, s.info[id].addr.svc, x.source);
    assert NewOk(k, s, l) && AddrOk(s, NONE);
    if MoreWanted(s.info[id], x) {
      KnownPlaced(s, m, Insert(k, m, id, x.source, x.nowTerrible), id, l, x.nowTerrible);
    }
  }

  lemma KnownPlaced(s: State, m: State, t: State, id: int, l: Slot, now: int)
    requires id in s.info && id in m.info && m == SetInfo(s, id, m.info[id])
    requires l in s.newTab && Inserted(m, t, id, l, now)
    requires s.newTab[l] != NONE ==> s.newTab[l] in s.info
    requires m.info[id].refCount > 0 && NONE !in s.info
    ensures if s.newTab[l] != id && (s.newTab[l] == NONE || IsTerrible(s.info[s.newTab[l]], now)) then
              && t.newTab == s.newTab[l := id] && t.triedTab == s.triedTab
              && id in t.info && SameButPos(t.info[id], m.info[id].(refCount := m.info[id].refCount + 1))
              && Others(s, t, {id}, s.newTab[l])
            else t == m
  {
    if s.newTab[l] != id && (s.newTab[l] == NONE || IsTerrible(s.info[s.newTab[l]], now)) {
      PlacedOthers(m, t, id, l, now);
      forall x | x != id ensures if x == s.newTab[l] then OneLess(s, t, x) else Same(s, t, x) {
        assert if x == s.newTab[l] then OneLess(m, t, x) else Same(m, t, x);
      }
    }
  }

  /** An unknown address: it takes the slot that its source gives it, provided that is free or held by an entry
      that is terrible or has another reference; otherwise nothing is left of it. */
  lemma AddUnknownEffect(k: Hasher, s: State, x: AddInput)
    requires Consistent(k, s) && x.routable && x.a.svc.ip !in s.addr
    ensures var id, t, l := s.idCount, Add(k, s, x).0, SlotFor(k, x.a.svc, x.source);
            var time := if x.a.time > x.penalty then x.a.time - x.penalty else 0;
            var i := Info(x.a.(time := time % 0x1_0000_0000), x.source, 0, 0, 0, 1, false, 0);
            && id !in s.info && l in s.newTab && (s.newTab[l] != NONE ==> s.newTab[l] in s.info)
            && t.triedTab == s.triedTab
            && if s.newTab[l] == NONE || IsTerrible(s.info[s.newTab[l]], x.nowTerrible)
                  || s.info[s.newTab[l]].refCount > 1 then
                 && t.newTab == s.newTab[l := id] && id in t.info && SameButPos(t.info[id], i)
                 && Others(s, t, {id}, s.newTab[l])
               else t.newTab == s.newTab && Keeps(s, t, {})
  {
    var id, l := s.idCount, SlotFor(k, x.a.svc, x.source);
    var e := Enter(s, x.a, x.source, x.penalty);
    assert AddrOk(s, id) && AddrOk(s, NONE) && NewOk(k, s, l);
    OldOccupant(k, s, l);
    EnterIs(s, x, e);
    UnknownInserted(k, s, x, e);
    UnknownPlaced(s, e, Add(k, s, x).0, id, l, x.nowTerrible);
  }

  lemma EnterIs(s: State, x: AddInput, e: State)
    requires e == Enter(s, x.a, x.source, x.penalty)
    ensures var time := if x.a.time > x.penalty then x.a.time - x.penalty else 0;
            var i := Info(x.a.(time := time % 0x1_0000_0000), x.source, 0, 0, 0, 0, false, |s.random|);
            e.info == s.info[s.idCount := i]
    ensures e.newTab == s.newTab && e.triedTab == s.triedTab
  {
  }

  lemma UnknownInserted(k: Hasher, s: State, x: AddInput, e: State)
    requires Consistent(k, s) && x.routable && x.a.svc.ip !in s.addr && e == Enter(s, x.a, x.source, x.penalty)
    requires SlotFor(k, x.a.svc, x.source) in s.newTab
    ensures s.idCount in e.info
    ensures Inserted(e, Add(k, s, x).0, s.idCount, SlotFor(k, x.a.svc, x.source), x.nowTerrible)
  {
    EnterKeeps(k, s, x.a, x.source, x.penalty);
    EnterIs(s, x, e);
    SlotsWritten(k, e.info[s.idCount], x.source);
    InsertEffect(k, e, s.idCount, x.source, x.nowTerrible, {s.idCount});
  }

  lemma UnknownPlaced(s: State, e: State, t: State, id: int, l: Slot, now: int)
    requires id !in s.info && NONE !in s.info && id != NONE && id in e.info && e.info == s.info[id := e.info[id]]
    requires e.newTab == s.newTab && e.triedTab == s.triedTab && e.info[id].refCount == 0
    requires l in s.newTab && s.newTab[l] != id && (s.newTab[l] != NONE ==> s.newTab[l] in s.info)
    requires Inserted(e, t, id, l, now)
    ensures t.triedTab == s.triedTab
    ensures if s.newTab[l] == NONE || IsTerrible(s.info[s.newTab[l]], now) || s.info[s.newTab[l]].refCount > 1 then
              && t.newTab == s.newTab[l := id] && id in t.info && SameButPos(t.info[id], e.info[id].(refCount := 1))
              && Others(s, t, {id}, s.newTab[l])
            else t.newTab == s.newTab && Keeps(s, t, {})
  {
    if s.newTab[l] == NONE || IsTerrible(s.info[s.newTab[l]], now) || s.info[s.newTab[l]].refCount > 1 {
      PlacedOthers(e, t, id, l, now);
      forall x | x != id ensures if x == s.newTab[l] then OneLess(s, t, x) else Same(s, t, x) {
        assert if x == s.newTab[l] then OneLess(e, t, x) else Same(e, t, x);
      }
    } else {
      assert t.info.Keys == e.info.Keys - {id} == s.info.Keys;
    }
  }

  // ---------- Good ----------

  /** The entry for exactly this service, port included. */
  ghost predicate Entry(s: State, svc: Service, id: int) {
    id in s.info && s.info[id].addr.svc == svc
  }

  lemma EntryFound(k: Hasher, s: State, svc: Service, id: int)
    requires Consistent(k, s) && Entry(s, svc, id)
    ensures Lookup(s, svc) == id && id != NONE
  {
    assert AddrOk(s, id);
  }

  lemma NoEntry(k: Hasher, s: State, svc: Service)
    requires Consistent(k, s) && forall id :: !Entry(s, svc, id)
    ensures Lookup(s, svc) == NONE
  {
    LookupFound(k, s, svc);
    assert !Entry(s, svc, Lookup(s, svc));
  }

  /** A success with a tried entry is noted and no more. */
  lemma GoodTriedEffect(k: Hasher, s: State, svc: Service, time: int, id: int)
    requires Consistent(k, s) && Entry(s, svc, id) && s.info[id].inTried
    ensures Good(k, s, svc, time)
         == s.(info := s.info[id := s.info[id].(lastSuccess := time, lastTry := time, attempts := 0)])
  {
    EntryFound(k, s, svc, id);
  }

  lemma GoodUnknown(k: Hasher, s: State, svc: Service, time: int)
    requires Consistent(k, s) && forall id :: !Entry(s, svc, id)
    ensures Good(k, s, svc, time) == s
  {
    NoEntry(k, s, svc);
  }

  /** A success with a new entry: it leaves all its slots of the new table for its slot of the tried table.  Who
      held that goes back to the new table with one reference, into the slot its own first source gives it, and
      who held that has one reference less. */
  lemma GoodNewEffect(k: Hasher, s: State, svc: Service, time: int, id: int)
    requires Consistent(k, s) && Entry(s, svc, id) && !s.info[id].inTried
    ensures var t, l := Good(k, s, svc, time), TriedSlotFor(k, svc);
            && l in s.triedTab && t.triedTab == s.triedTab[l := id]
            && id in t.info
            && SameButPos(t.info[id], s.info[id].(
                 lastSuccess := time, lastTry := time, attempts := 0, refCount := 0, inTried := true))
            && var e := s.triedTab[l];
            if e == NONE then t.newTab == Without(s.newTab, id) && Others(s, t, {id}, NONE)
            else
              && e in s.info && e != id && e in t.info
              && SameButPos(t.info[e], s.info[e].(inTried := false, refCount := 1))
              && var home := SlotFor(k, s.info[e].addr.svc, s.info[e].source);
              && home in s.newTab && t.newTab == Without(s.newTab, id)[home := e]
              && Others(s, t, {id, e}, if s.newTab[home] == id then NONE else s.newTab[home])
  {
    EntryFound(k, s, svc, id);
    GoodEffect(k, s, svc, time);
    var t, l := Good(k, s, svc, time), TriedSlotFor(k, svc);
    SlotsWritten(k, s.info[id], 0);
    assert AddrOk(s, NONE);
    var m := SetInfo(s, id, MarkGood(s.info[id], time));
    var e := s.triedTab[l];
    if e == NONE {
      MovedAlone(s, m, t, k, id, l, time);
    } else {
      SlotsWritten(k, s.info[e], 0);
      var home := SlotFor(k, s.info[e].addr.svc, s.info[e].source);
      assert NewOk(k, s, home) && TriedOk(k, s, l);
      MovedBoth(s, m, t, k, id, l, e, home, time);
    }
  }

  lemma MovedAlone(s: State, m: State, t: State, k: Hasher, id: int, l: Slot, time: int)
    requires id in s.info && m == SetInfo(s, id, MarkGood(s.info[id], time)) && NONE !in s.info
    requires l in s.triedTab && s.triedTab[l] == NONE
    requires Effect(m, t, Moved(k, m, id, l), Lost(k, m, id, l))
    ensures id in t.info
    ensures SameButPos(t.info[id], s.info[id].(
              lastSuccess := time, lastTry := time, attempts := 0, refCount := 0, inTried := true))
    ensures Others(s, t, {id}, NONE)
  {
    forall x ensures x in t.info <==> x in s.info { assert x in t.info <==> x in m.info.Keys - {}; }
  }

  lemma MovedBoth(
    s: State, m: State, t: State, k: Hasher, id: int, l: Slot, e: int, home: Slot, time: int)
    requires id in s.info && m == SetInfo(s, id, MarkGood(s.info[id], time)) && NONE !in s.info
    requires l in s.triedTab && e == s.triedTab[l] != NONE && e in s.info && e != id && s.info[e].inTried
    requires home == HomeSlot(k, s.info[e]) && home in s.newTab
    requires s.newTab[home] != NONE ==> s.newTab[home] in s.info && !s.info[s.newTab[home]].inTried
    requires Effect(m, t, Moved(k, m, id, l), Lost(k, m, id, l))
    ensures id in t.info && e in t.info
    ensures SameButPos(t.info[id], s.info[id].(
              lastSuccess := time, lastTry := time, attempts := 0, refCount := 0, inTried := true))
    ensures SameButPos(t.info[e], s.info[e].(inTried := false, refCount := 1))
    ensures Others(s, t, {id, e}, if s.newTab[home] == id then NONE else s.newTab[home])
  {
    var d := if s.newTab[home] == id then NONE else s.newTab[home];
    var gone := Lost(k, m, id, l);
    assert gone == if d != NONE && s.info[d].refCount == 1 then {d} else {};
    forall x ensures x in t.info <==> x in s.info && x !in gone { assert x in t.info <==> x in m.info.Keys - gone; }
    forall x | x !in {id, e} ensures if x == d then OneLess(s, t, x) else Same(s, t, x) {}
  }

  // ---------- attempts ----------

  /** An attempt on exactly this service is counted, and its time noted; on any other nothing happens. */
  lemma AttemptEffect(k: Hasher, s: State, svc: Service, time: int)
    requires Consistent(k, s)
    ensures forall id :: Entry(s, svc, id) ==>
              var i := s.info[id];
              Attempt(s, svc, time) == s.(info := s.info[id := i.(lastTry := time, attempts := i.attempts + 1)])
    ensures (forall id :: !Entry(s, svc, id)) ==> Attempt(s, svc, time) == s
  {
    forall id | Entry(s, svc, id) ensures Lookup(s, svc) == id != NONE { EntryFound(k, s, svc, id); }
    if forall id :: !Entry(s, svc, id) { NoEntry(k, s, svc); }
  }

  /** One failed attempt after the other. */
  function Failing(svc: Service, times: seq<int>): seq<Op> {
    seq(|times|, i requires 0 <= i < |times| => OpAttempt(svc, times[i]))
  }

  ghost function ExecAll(k: Hasher, s: State, ops: seq<Op>): (t: State)
    requires Consistent(k, s)
    ensures Consistent(k, t)
  {
    if ops == [] then s
    else
      var m := ExecAll(k, s, ops[..|ops| - 1]);
      ExecKeeps(k, m, ops[|ops| - 1]);
      Exec(k, m, ops[|ops| - 1])
  }

  lemma ExecLast(k: Hasher, s: State, ops: seq<Op>, op: Op)
    requires Consistent(k, s)
    ensures ExecAll(k, s, ops + [op]) == Exec(k, ExecAll(k, s, ops), op)
  {
    assert (ops + [op])[..|ops|] == ops;
  }

  lemma FailingLast(k: Hasher, s: State, svc: Service, times: seq<int>, time: int)
    requires Consistent(k, s)
    ensures ExecAll(k, s, Failing(svc, times + [time])) == Attempt(ExecAll(k, s, Failing(svc, times)), svc, time)
  {
    FailingMore(svc, times, time);
    ExecAttempt(k, s, Failing(svc, times), svc, time);
  }

  lemma FailingMore(svc: Service, times: seq<int>, time: int)
    ensures Failing(svc, times + [time]) == Failing(svc, times) + [OpAttempt(svc, time)]
  {
  }

  lemma ExecAttempt(k: Hasher, s: State, ops: seq<Op>, svc: Service, time: int)
    requires Consistent(k, s)
    ensures ExecAll(k, s, ops + [OpAttempt(svc, time)]) == Attempt(ExecAll(k, s, ops), svc, time)
  {
    ExecLast(k, s, ops, OpAttempt(svc, time));
  }

  /** Entry `id` after `n` more attempts. */
  function Tried(s: State, id: int, last: int, n: nat): State
    requires id in s.info
  {
    s.(info := s.info[id := s.info[id].(lastTry := last, attempts := s.info[id].attempts + n)])
  }

  lemma AttemptAgain(k: Hasher, s: State, svc: Service, last: int, n: nat, time: int, id: int)
    requires Entry(s, svc, id) && Consistent(k, Tried(s, id, last, n))
    ensures Attempt(Tried(s, id, last, n), svc, time) == Tried(s, id, time, n + 1)
  {
    assert Entry(Tried(s, id, last, n), svc, id);
    AttemptEffect(k, Tried(s, id, last, n), svc, time);
  }

  /** What a run of failed attempts makes of an entry. */
  lemma {:induction false} FailingEffect(k: Hasher, s: State, svc: Service, times: seq<int>, id: int)
    requires Consistent(k, s) && Entry(s, svc, id) && times != []
    ensures ExecAll(k, s, Failing(svc, times)) == Tried(s, id, times[|times| - 1], |times|)
  {
    var front, time := times[..|times| - 1], times[|times| - 1];
    assert times == front + [time];
    FailingLast(k, s, svc, front, time);
    if front == [] {
      AttemptEffect(k, s, svc, time);
    } else {
      FailingEffect(k, s, svc, front, id);
      AttemptAgain(k, s, svc, front[|front| - 1], |front|, time, id);
    }
  }

  /** When an entry that has never answered is given up: its time is sensible, and the last of `n` attempts is
      more than a minute ago. */
  lemma NeverAnswered(k: Hasher, s: State, svc: Service, times: seq<int>, id: int, now: int)
    requires Consistent(k, s) && Entry(s, svc, id) && times != []
    requires s.info[id].lastSuccess == 0 && s.info[id].attempts == 0
    requires s.info[id].addr.time != 0 && now - 2592000 <= s.info[id].addr.time <= now + 600
    requires times[|times| - 1] < now - 60
    ensures var t := ExecAll(k, s, Failing(svc, times));
            id in t.info && (IsTerrible(t.info[id], now) <==> |times| >= 3)
  {
    FailingEffect(k, s, svc, times, id);
  }

  /** When an entry that answered at `time` is given up: after ten failures, and not before a week is over. */
  lemma AnsweredBefore(k: Hasher, s: State, svc: Service, time: int, times: seq<int>, id: int, now: int)
    requires Consistent(k, s) && Entry(s, svc, id) && times != [] && s.info[id].inTried && time > 0
    requires s.info[id].addr.time != 0 && now - 2592000 <= s.info[id].addr.time <= now + 600
    requires times[|times| - 1] < now - 60
    ensures Consistent(k, Good(k, s, svc, time))
    ensures var t := ExecAll(k, Good(k, s, svc, time), Failing(svc, times));
            id in t.info && (IsTerrible(t.info[id], now) <==> |times| >= 10 && now - time > 604800)
  {
    GoodKeeps(k, s, svc, time);
    GoodTriedEffect(k, s, svc, time, id);
    FailingEffect(k, Good(k, s, svc, time), svc, times, id);
  }

  /** An entry with a time that is not sensible is given up at once, and one that was tried in the last minute
      never. */
  lemma TimesDecide(i: Info, now: int)
    ensures i.lastTry != 0 && i.lastTry >= now - 60 ==> !IsTerrible(i, now)
    ensures var late := i.addr.time == 0 || i.addr.time < now - 2592000 || i.addr.time > now + 600;
            (i.lastTry == 0 || i.lastTry < now - 60) && late ==> IsTerrible(i, now)
  {
  }

  // ---------- Connected ----------

  /** While connected, the time of an entry follows the clock at a distance of at most twenty minutes. */
  lemma ConnectedEffect(k: Hasher, s: State, svc: Service, time: int)
    requires Consistent(k, s)
    ensures forall id :: Entry(s, svc, id) ==>
              var was, t := s.info[id].addr.time, Connected(s, svc, time);
              && (time - was <= 1200 ==> t == s)
              && (time - was > 1200 ==>
                    var i := s.info[id];
                    t == s.(info := s.info[id := i.(addr := i.addr.(time := time % 0x1_0000_0000))]))
    ensures (forall id :: !Entry(s, svc, id)) ==> Connected(s, svc, time) == s
  {
    forall id | Entry(s, svc, id) ensures Lookup(s, svc) == id != NONE { EntryFound(k, s, svc, id); }
    if forall id :: !Entry(s, svc, id) { NoEntry(k, s, svc); }
  }

  // ---------- GetAddr ----------

  lemma {:induction false} GatherFront(
    s: State, n: nat, limit: int, draw: nat -> nat, clock: nat -> int, acc: seq<Address>, p: nat)
    requires Shuffled(s) && p < n <= |s.random|
    ensures var t := Gather(s, n, limit, draw, clock, acc).0; |t.random| == |s.random| && t.random[p] == s.random[p]
    decreases |s.random| - n
  {
    if n < |s.random| && |acc| < limit {
      var q := Pick(draw, n, |s.random|);
      SwapShuffles(s, n, q);
      var t := SwapRandom(s, n, q);
      assert RandOk(t, n);
      var i := t.info[t.random[n]];
      GatherFront(t, n + 1, limit, draw, clock, if IsTerrible(i, clock(n)) then acc else acc + [i.addr], p);
    }
  }

  /** The entry that the first draw names, any of them, is asked first, and answered unless it is terrible. */
  lemma FirstDrawn(k: Hasher, s: State, draw: nat -> nat, clock: nat -> int)
    requires Consistent(k, s) && 100 <= 23 * |s.random| && draw(0) < |s.random|
    ensures |GetAddr(s, draw, clock).0.random| == |s.random|
    ensures GetAddr(s, draw, clock).0.random[0] == s.random[draw(0)]
  {
    SwapShuffles(s, 0, draw(0));
    var t := SwapRandom(s, 0, draw(0));
    assert RandOk(t, 0);
    var i := t.info[t.random[0]];
    GatherFront(t, 1, GetAddrLimit(|s.random|), draw, clock, if IsTerrible(i, clock(0)) then [] else [] + [i.addr], 0);
  }

  // ---------- loading ----------

  /** One entry of the new table as it is read: known under the next id, and in the slot its source gives it only
      when the saved slots are of no use and that is free. */
  lemma LoadedFresh(k: Hasher, s: State, e: Saved, usable: bool)
    ensures var t, id, l := LoadFreshOne(k, s, e, usable), s.idCount, SlotFor(k, e.addr.svc, e.source);
            var taken := !usable && l in s.newTab && s.newTab[l] == NONE;
            var i := Info(e.addr, e.source, 0, e.lastSuccess, e.attempts, if taken then 1 else 0, false, |s.random|);
            t == State(id + 1, s.info[id := i], s.addr[e.addr.svc.ip := id], s.random + [id], s.nTried, s.nNew + 1,
                       s.triedTab, if taken then s.newTab[l := id] else s.newTab)
  {
    SlotsWritten(k, Restore(s, e).info[s.idCount], e.source);
  }

  /** One entry of the tried table: in its slot, or lost when that is taken. */
  lemma LoadedTried(k: Hasher, s: State, e: Saved)
    ensures var t, id, l := LoadTriedOne(k, s, e), s.idCount, TriedSlotFor(k, e.addr.svc);
            var i := Info(e.addr, e.source, 0, e.lastSuccess, e.attempts, 0, true, |s.random|);
            t == if l in s.triedTab && s.triedTab[l] == NONE then
                   State(id + 1, s.info[id := i], s.addr[e.addr.svc.ip := id], s.random + [id], s.nTried + 1, s.nNew,
                         s.triedTab[l := id], s.newTab)
                 else s
  {
    SlotsWritten(k, Restore(s, e).info[s.idCount], e.source);
  }

  /** One saved slot: taken by the entry it names, if that is new, has less than eight references and finds the
      slot free. */
  lemma LoadedSlot(k: Hasher, s: State, b: int, index: int)
    ensures var t := LoadSlotOne(k, s, b, index);
            if index in s.info && !s.info[index].inTried && s.info[index].refCount < 8
               && (b, k.posHash(true, b, s.info[index].addr.svc) % 64) in s.newTab
               && s.newTab[(b, k.posHash(true, b, s.info[index].addr.svc) % 64)] == NONE then
              var i := s.info[index];
              t == s.(info := s.info[index := i.(refCount := i.refCount + 1)],
                      newTab := s.newTab[(b, k.posHash(true, b, i.addr.svc) % 64) := index])
            else t == s
  {
  }
}
