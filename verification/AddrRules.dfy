/** What the operations of the address manager do to its state, and what every run of them keeps. */
module AddrRules {
  import opened Common
  import opened AddrTable

  const HOUR := 60 * 60
  const DAY := 24 * HOUR
  const HORIZON_DAYS := 30
  const RETRIES := 3
  const MAX_FAILURES := 10
  const MIN_FAIL_DAYS := 7

  /** Stored times are unsigned 32-bit numbers. */
  function U32(x: int): int { x % 0x1_0000_0000 }

  predicate IsTerrible(i: Info, now: int) {
    if i.lastTry != 0 && i.lastTry >= now - 60 then false
    else
      || i.addr.time > now + 10 * 60
      || i.addr.time == 0
      || now - i.addr.time > HORIZON_DAYS * DAY
      || (i.lastSuccess == 0 && i.attempts >= RETRIES)
      || (now - i.lastSuccess > MIN_FAIL_DAYS * DAY && i.attempts >= MAX_FAILURES)
  }

  /** The id of the entry for exactly this service, port included. */
  function Lookup(s: State, svc: Service): int {
    if svc.ip in s.addr && s.addr[svc.ip] in s.info && s.info[s.addr[svc.ip]].addr.svc == svc
    then s.addr[svc.ip] else NONE
  }

  lemma LookupFound(k: Hasher, s: State, svc: Service)
    requires Consistent(k, s)
    ensures Lookup(s, svc) != NONE <==> exists id :: id in s.info && s.info[id].addr.svc == svc
    ensures Lookup(s, svc) != NONE ==> Lookup(s, svc) in s.info && s.info[Lookup(s, svc)].addr.svc == svc
  {
    assert IpOk(s, svc.ip);
    if svc.ip in s.addr { assert AddrOk(s, s.addr[svc.ip]); }
    forall id | id in s.info && s.info[id].addr.svc == svc ensures Lookup(s, svc) == id && id != NONE {
      assert AddrOk(s, id);
    }
  }

  // ---------- Good, Attempt, Connected ----------

  function MarkGood(i: Info, time: int): Info {
    i.(lastSuccess := time, lastTry := time, attempts := 0)
  }

  ghost function Good(k: Hasher, s: State, svc: Service, time: int): State
    requires Consistent(k, s)
  {
    var id := Lookup(s, svc);
    if id == NONE then s
    else
      LookupFound(k, s, svc);
      TouchKeeps(k, s, id, MarkGood(s.info[id], time), {}, {});
      var t := SetInfo(s, id, MarkGood(s.info[id], time));
      if s.info[id].inTried then t else MakeTried(k, t, id)
  }

  function Attempt(s: State, svc: Service, time: int): State {
    var id := Lookup(s, svc);
    if id == NONE then s
    else SetInfo(s, id, s.info[id].(lastTry := time, attempts := s.info[id].attempts + 1))
  }

  function Connected(s: State, svc: Service, time: int): State {
    var id := Lookup(s, svc);
    if id == NONE || time - s.info[id].addr.time <= 20 * 60 then s
    else SetInfo(s, id, s.info[id].(addr := s.info[id].addr.(time := U32(time))))
  }

  lemma GoodKeeps(k: Hasher, s: State, svc: Service, time: int)
    requires Consistent(k, s)
    ensures Consistent(k, Good(k, s, svc, time))
  {
    var id := Lookup(s, svc);
    if id != NONE {
      LookupFound(k, s, svc);
      TouchKeeps(k, s, id, MarkGood(s.info[id], time), {}, {});
      var t := SetInfo(s, id, MarkGood(s.info[id], time));
      if !s.info[id].inTried { MakeTriedKeeps(k, t, id); }
    }
  }

  /** Promoting an entry: what becomes of it, of the entry whose tried slot it takes, and of the
      entry that one displaces.  Every other entry and slot stays as it was. */
  lemma GoodEffect(k: Hasher, s: State, svc: Service, time: int)
    requires Consistent(k, s)
    requires Lookup(s, svc) != NONE && !s.info[Lookup(s, svc)].inTried
    ensures var id, l, t := Lookup(s, svc), TriedSlot(k, svc), Good(k, s, svc, time);
            var m := SetInfo(s, id, MarkGood(s.info[id], time));
            && l in s.triedTab && (s.triedTab[l] != NONE ==> s.triedTab[l] in s.info && s.triedTab[l] != id)
            && t.triedTab == s.triedTab[l := id]
            && t.newTab == (if s.triedTab[l] == NONE then Without(s.newTab, id)
                            else Without(s.newTab, id)[HomeSlot(k, s.info[s.triedTab[l]]) := s.triedTab[l]])
            && Effect(m, t, Moved(k, m, id, l), Lost(k, m, id, l))
  {
    var id := Lookup(s, svc);
    LookupFound(k, s, svc);
    TouchKeeps(k, s, id, MarkGood(s.info[id], time), {}, {});
    var m := SetInfo(s, id, MarkGood(s.info[id], time));
    MakeTriedTables(k, m, id);
    MakeTriedEffect(k, m, id);
  }

  // ---------- Add ----------

  /** News about a known entry: its time and services may be refreshed. */
  function Refresh(i: Info, a: Address, penalty: int, now: int): Info {
    var interval := if now - a.time < DAY then HOUR else DAY;
    var time :=
      if a.time != 0 && (i.addr.time == 0 || i.addr.time < a.time - interval - penalty)
      then U32(Max(0, a.time - penalty)) else i.addr.time;
    i.(addr := i.addr.(time := time, services := i.addr.services + a.services))
  }

  function StochasticFactor(n: int): int
    decreases n
  {
    if n <= 0 then 1 else 2 * StochasticFactor(n - 1)
  }

  /** Whether a known, refreshed entry may get one more reference.  `coin` is the random draw. */
  predicate Eligible(i: Info, a: Address, coin: nat) {
    && a.time != 0 && (i.addr.time == 0 || a.time > i.addr.time)
    && !i.inTried && i.refCount != MAX_REFS
    && (StochasticFactor(i.refCount) > 1 ==> coin == 0)
  }

  /** Whether the occupant of a slot gives way to an entry with `refs` references. */
  predicate GivesWay(occupant: Info, refs: int, now: int) {
    IsTerrible(occupant, now) || (occupant.refCount > 1 && refs == 0)
  }

  function TargetSlot(k: Hasher, i: Info, source: Ip): Slot {
    NewSlot(k, NewBucket(k, i.addr.svc.ip, source), i.addr.svc)
  }

  ghost predicate Insertable(k: Hasher, s: State, id: int, source: Ip) {
    && id in s.info
    && var l := TargetSlot(k, s.info[id], source);
    && l in s.newTab && Clearable(s, l) && Deletable(s, id)
    && (s.newTab[l] != id ==> id in ClearNew(s, l).info)
  }

  /** The tail of `Add_`: put entry `id` into the slot that its address and `source` select. */
  ghost function Insert(k: Hasher, s: State, id: int, source: Ip, now: int): State
    requires Insertable(k, s, id, source)
  {
    var l := TargetSlot(k, s.info[id], source);
    if s.newTab[l] == id then s
    else if s.newTab[l] == NONE || GivesWay(s.info[s.newTab[l]], s.info[id].refCount, now) then
      Hold(ClearNew(s, l), l, id)
    else if s.info[id].refCount == 0 then Delete(s, id)
    else s
  }

  lemma InsertReady(k: Hasher, s: State, id: int, source: Ip, idle: set<int>)
    requires Inv(k, s, idle, {}) && id in s.info
    ensures Insertable(k, s, id, source)
    ensures var l := TargetSlot(k, s.info[id], source);
            s.newTab[l] != id ==>
              && Inv(k, ClearNew(s, l), idle, {}) && Cleared(s, ClearNew(s, l), l)
              && SameButPos(ClearNew(s, l).info[id], s.info[id])
  {
    var l := TargetSlot(k, s.info[id], source);
    assert NewOk(k, s, l);
    ClearNewKeeps(k, s, l, idle, {});
    DeleteShuffles(s, id);
  }

  lemma InsertKeeps(k: Hasher, s: State, id: int, source: Ip, now: int, idle: set<int>)
    requires Inv(k, s, idle, {}) && idle <= {id}
    requires id in s.info && !s.info[id].inTried && s.info[id].refCount < MAX_REFS
    ensures Insertable(k, s, id, source) && Consistent(k, Insert(k, s, id, source, now))
  {
    var l := TargetSlot(k, s.info[id], source);
    InsertReady(k, s, id, source, idle);
    assert CountOk(k, s, id, idle) && NewOk(k, s, l) && AddrOk(s, id);
    if s.newTab[l] == id {
      OccupantBusy(k, s, l, idle, {});
      assert idle == {};
    } else if s.newTab[l] == NONE || GivesWay(s.info[s.newTab[l]], s.info[id].refCount, now) {
      HoldKeeps(k, ClearNew(s, l), l, id, idle, {});
      assert idle - {id} == {};
    } else if s.info[id].refCount == 0 {
      DeleteKeeps(k, s, id, idle, {});
      assert idle - {id} == {};
    } else {
      assert idle == {};
    }
  }

  /** A created entry as `Add_` leaves it, before it gets a slot. */
  function Enter(s: State, a: Address, source: Ip, penalty: int): State {
    var c := Create(s, a, source);
    var i := c.info[s.idCount];
    SetInfo(c, s.idCount, i.(addr := a.(time := U32(Max(0, a.time - penalty))))).(nNew := c.nNew + 1)
  }

  lemma EnterKeeps(k: Hasher, s: State, a: Address, source: Ip, penalty: int)
    requires Consistent(k, s) && a.svc.ip !in s.addr
    ensures Inv(k, Enter(s, a, source, penalty), {s.idCount}, {})
  {
    var c, id := Create(s, a, source), s.idCount;
    CreateKeeps(k, s, a, source, {});
    assert {} + {id} == {id};
    CountIn(k, c, id, c.info[id].(addr := a.(time := U32(Max(0, a.time - penalty)))));
  }

  /** A created entry gets its time and is counted. */
  lemma CountIn(k: Hasher, c: State, id: int, i: Info)
    requires Inv(k, c, {id}, {id}) && id in c.info && SameRole(i, c.info[id])
    ensures Inv(k, SetInfo(c, id, i).(nNew := c.nNew + 1), {id}, {})
  {
    Recount(k, c, id, {id}, {id});
    assert {id} - {id} == {};
    TouchKeeps(k, c.(nNew := c.nNew + 1), id, i, {id}, {});
    assert SetInfo(c.(nNew := c.nNew + 1), id, i) == SetInfo(c, id, i).(nNew := c.nNew + 1);
  }

  datatype AddInput = AddInput(
    a: Address, source: Ip, penalty: int, routable: bool, now: int, nowTerrible: int, coin: nat)

  ghost function Add(k: Hasher, s: State, x: AddInput): (State, bool)
    requires Consistent(k, s)
  {
    if !x.routable then (s, false)
    else if x.a.svc.ip in s.addr then
      var id := s.addr[x.a.svc.ip];
      KnownReady(k, s, x);
      var t := SetInfo(s, id, Refresh(s.info[id], x.a, x.penalty, x.now));
      if !Eligible(t.info[id], x.a, x.coin) then (t, false)
      else (Insert(k, t, id, x.source, x.nowTerrible), false)
    else
      EnterKeeps(k, s, x.a, x.source, x.penalty);
      InsertReady(k, Enter(s, x.a, x.source, x.penalty), s.idCount, x.source, {s.idCount});
      (Insert(k, Enter(s, x.a, x.source, x.penalty), s.idCount, x.source, x.nowTerrible), true)
  }

  lemma KnownReady(k: Hasher, s: State, x: AddInput)
    requires Consistent(k, s) && x.a.svc.ip in s.addr
    ensures var id := s.addr[x.a.svc.ip];
            && id in s.info
            && var t := SetInfo(s, id, Refresh(s.info[id], x.a, x.penalty, x.now));
            && Consistent(k, t) && Insertable(k, t, id, x.source)
  {
    assert IpOk(s, x.a.svc.ip);
    var id := s.addr[x.a.svc.ip];
    var i := Refresh(s.info[id], x.a, x.penalty, x.now);
    TouchKeeps(k, s, id, i, {}, {});
    InsertReady(k, SetInfo(s, id, i), id, x.source, {});
  }

  lemma AddKeeps(k: Hasher, s: State, x: AddInput)
    requires Consistent(k, s)
    ensures Consistent(k, Add(k, s, x).0)
  {
    if x.routable && x.a.svc.ip in s.addr {
      KnownReady(k, s, x);
      var id := s.addr[x.a.svc.ip];
      var t := SetInfo(s, id, Refresh(s.info[id], x.a, x.penalty, x.now));
      assert CountOk(k, t, id, {});
      if Eligible(t.info[id], x.a, x.coin) { InsertKeeps(k, t, id, x.source, x.nowTerrible, {}); }
    } else if x.routable {
      EnterKeeps(k, s, x.a, x.source, x.penalty);
      InsertKeeps(k, Enter(s, x.a, x.source, x.penalty), s.idCount, x.source, x.nowTerrible, {s.idCount});
    }
  }

  lemma HoldEffect(s: State, c: State, l: Slot, id: int)
    requires Cleared(s, c, l) && id in s.info && id !in Dropped(s, l) && id !in Lowered(s, l)
    ensures id in c.info
    ensures Effect(s, Hold(c, l, id), Lowered(s, l)[id := s.info[id].(refCount := s.info[id].refCount + 1)],
                   Dropped(s, l))
    ensures Hold(c, l, id).newTab == s.newTab[l := id]
  {
  }

  /** The slot is cleared for the entry and given to it. */
  lemma TakenEffect(s: State, l: Slot, id: int)
    requires Clearable(s, l) && Cleared(s, ClearNew(s, l), l) && id in s.info && s.newTab[l] != id
    ensures id !in Dropped(s, l) && id in ClearNew(s, l).info
    ensures var t := Hold(ClearNew(s, l), l, id);
            && t.newTab == s.newTab[l := id] && t.triedTab == s.triedTab
            && Effect(s, t, Lowered(s, l)[id := s.info[id].(refCount := s.info[id].refCount + 1)], Dropped(s, l))
  {
    HoldEffect(s, ClearNew(s, l), l, id);
  }

  lemma KeepsSame(s: State)
    ensures Keeps(s, s, {})
  {
  }

  /** The three outcomes: nothing to do, the slot is taken (and its occupant loses a reference or disappears),
      or the entry is turned away (and disappears if it has no reference). */
  ghost predicate Inserted(s: State, t: State, id: int, l: Slot, now: int)
    requires id in s.info && l in s.newTab
  {
    var o := s.newTab[l];
    && t.triedTab == s.triedTab
    && if o == id then t == s
       else if o == NONE || (o in s.info && GivesWay(s.info[o], s.info[id].refCount, now)) then
         && id !in Dropped(s, l)
         && t.newTab == s.newTab[l := id]
         && Effect(s, t, Lowered(s, l)[id := s.info[id].(refCount := s.info[id].refCount + 1)], Dropped(s, l))
       else if s.info[id].refCount == 0 then
         t.newTab == s.newTab && Keeps(s, t, {id})
       else
         t == s
  }

  /** What inserting does to the tables and to every entry. */
  lemma InsertEffect(k: Hasher, s: State, id: int, source: Ip, now: int, idle: set<int>)
    requires Inv(k, s, idle, {}) && id in s.info
    ensures Insertable(k, s, id, source)
    ensures Inserted(s, Insert(k, s, id, source, now), id, TargetSlot(k, s.info[id], source), now)
  {
    InsertCleared(k, s, id, source, idle);
    InsertCases(k, s, id, source, now);
  }

  lemma InsertCleared(k: Hasher, s: State, id: int, source: Ip, idle: set<int>)
    requires Inv(k, s, idle, {}) && id in s.info
    ensures Insertable(k, s, id, source) && Shuffled(s)
    ensures var l := TargetSlot(k, s.info[id], source); s.newTab[l] != id ==> Cleared(s, ClearNew(s, l), l)
  {
    InsertReady(k, s, id, source, idle);
  }

  lemma InsertCases(k: Hasher, s: State, id: int, source: Ip, now: int)
    requires Insertable(k, s, id, source) && Shuffled(s)
    requires var l := TargetSlot(k, s.info[id], source); s.newTab[l] != id ==> Cleared(s, ClearNew(s, l), l)
    ensures Inserted(s, Insert(k, s, id, source, now), id, TargetSlot(k, s.info[id], source), now)
  {
    var l := TargetSlot(k, s.info[id], source);
    if s.newTab[l] != id {
      if s.newTab[l] == NONE || GivesWay(s.info[s.newTab[l]], s.info[id].refCount, now) {
        TakenEffect(s, l, id);
      } else {
        DeleteShuffles(s, id);
        KeepsSame(s);
      }
    }
  }

  /** `Add_` answers true for every routable address it did not know, even when the entry it
      creates finds its slot taken and is deleted again before the call returns.  The address
      stays exactly when its slot is free or the occupant gives way. */
  lemma AddTrueNeedNotStore(k: Hasher, s: State, x: AddInput)
    requires Consistent(k, s)
    ensures Add(k, s, x).1 <==> x.routable && x.a.svc.ip !in s.addr
    ensures var l := NewSlot(k, NewBucket(k, x.a.svc.ip, x.source), x.a.svc);
            && l in s.newTab && (s.newTab[l] != NONE ==> s.newTab[l] in s.info)
            && (Add(k, s, x).1 ==>
                 (x.a.svc.ip in Add(k, s, x).0.addr <==>
                    s.newTab[l] == NONE || GivesWay(s.info[s.newTab[l]], 0, x.nowTerrible)))
  {
    assert NewOk(k, s, NewSlot(k, NewBucket(k, x.a.svc.ip, x.source), x.a.svc));
    if x.routable && x.a.svc.ip !in s.addr {
      var id := s.idCount;
      EnterKeeps(k, s, x.a, x.source, x.penalty);
      InsertStores(k, Enter(s, x.a, x.source, x.penalty), id, x.source, x.nowTerrible);
      OldOccupant(k, s, NewSlot(k, NewBucket(k, x.a.svc.ip, x.source), x.a.svc));
    }
  }

  lemma OldOccupant(k: Hasher, s: State, l: Slot)
    requires Consistent(k, s) && l in s.newTab
    ensures s.newTab[l] != NONE ==> s.newTab[l] in s.info && s.newTab[l] != s.idCount
  {
    assert NewOk(k, s, l) && AddrOk(s, s.newTab[l]);
  }

  /** An entry without references stays exactly when its slot is free or given up. */
  lemma InsertStores(k: Hasher, s: State, id: int, source: Ip, now: int)
    requires Inv(k, s, {id}, {})
    ensures id in s.info && Insertable(k, s, id, source)
    ensures var l, t := TargetSlot(k, s.info[id], source), Insert(k, s, id, source, now);
            (s.info[id].addr.svc.ip in t.addr <==> s.newTab[l] == NONE || GivesWay(s.info[s.newTab[l]], 0, now))
  {
    assert id in NewIds(s.info);
    assert CountOk(k, s, id, {id}) && AddrOk(s, id);
    InsertKeeps(k, s, id, source, now, {id});
    InsertRemains(k, s, id, source, now, {id});
    var l, t := TargetSlot(k, s.info[id], source), Insert(k, s, id, source, now);
    assert s.newTab[l] == id ==> l in Holders(s.newTab, id);
    IndexedIff(s, t, id);
  }

  /** No entry is added or changes its service. */
  ghost predicate SvcKept(s: State, t: State) {
    t.info.Keys <= s.info.Keys && forall y :: y in t.info ==> t.info[y].addr.svc == s.info[y].addr.svc
  }

  lemma InsertRemains(k: Hasher, s: State, id: int, source: Ip, now: int, idle: set<int>)
    requires Inv(k, s, idle, {}) && id in s.info
    ensures Insertable(k, s, id, source)
    ensures Remains(s, Insert(k, s, id, source, now), id, TargetSlot(k, s.info[id], source), now)
  {
    InsertEffect(k, s, id, source, now, idle);
    InsertedRemains(s, Insert(k, s, id, source, now), id, TargetSlot(k, s.info[id], source), now);
  }

  /** Whether an entry without references is still there. */
  ghost predicate Remains(s: State, t: State, id: int, l: Slot, now: int)
    requires id in s.info && l in s.newTab
  {
    var o := s.newTab[l];
    && SvcKept(s, t)
    && (o != id && s.info[id].refCount == 0 ==>
          (id in t.info <==> o == NONE || (o in s.info && GivesWay(s.info[o], 0, now))))
  }

  lemma InsertedRemains(s: State, t: State, id: int, l: Slot, now: int)
    requires id in s.info && l in s.newTab && Inserted(s, t, id, l, now)
    ensures Remains(s, t, id, l, now)
  {
  }

  /** An address is indexed as long as its entry is there. */
  lemma IndexedIff(t: State, r: State, id: int)
    requires ByAddress(t) && ByAddress(r) && id in t.info && SvcKept(t, r)
    ensures t.info[id].addr.svc.ip in r.addr <==> id in r.info
  {
    var ip := t.info[id].addr.svc.ip;
    assert AddrOk(r, id) && IpOk(r, ip) && AddrOk(t, id);
    if ip in r.addr { assert AddrOk(t, r.addr[ip]); }
  }

  // ---------- GetAddr ----------

  function GetAddrLimit(size: int): int {
    var n := GETADDR_MAX_PCT * size / 100;
    if n > GETADDR_MAX then GETADDR_MAX else n
  }

  lemma GetAddrLimitBound(size: nat)
    ensures 0 <= GetAddrLimit(size) <= GETADDR_MAX && 100 * GetAddrLimit(size) <= GETADDR_MAX_PCT * size
  {
  }

  /** The position drawn from `n` up to `size`; a draw outside the range counts as `n`. */
  function Pick(draw: nat -> nat, n: nat, size: nat): (p: nat)
    requires n < size
    ensures n <= p < size
  {
    if draw(n) < size - n then n + draw(n) else n
  }

  /** The shuffle of `GetAddr_` from position `n` on.  `draw` and `clock` give the random number
      and the time seen at each position. */
  ghost function Gather(s: State, n: nat, limit: int, draw: nat -> nat, clock: nat -> int, acc: seq<Address>)
    : (State, seq<Address>)
    requires Shuffled(s) && n <= |s.random|
    decreases |s.random| - n
  {
    if n == |s.random| || |acc| >= limit then (s, acc)
    else
      var p := Pick(draw, n, |s.random|);
      SwapShuffles(s, n, p);
      var t := SwapRandom(s, n, p);
      assert RandOk(t, n);
      var i := t.info[t.random[n]];
      Gather(t, n + 1, limit, draw, clock, if IsTerrible(i, clock(n)) then acc else acc + [i.addr])
  }

  ghost function GetAddr(s: State, draw: nat -> nat, clock: nat -> int): (State, seq<Address>)
    requires Shuffled(s)
  {
    Gather(s, 0, GetAddrLimit(|s.random|), draw, clock, [])
  }

  /** Position `p` of the random order shows address `a`, of an entry not terrible when it was looked at. */
  ghost predicate At(s: State, p: int, a: Address, clock: nat -> int) {
    && 0 <= p < |s.random| && s.random[p] in s.info
    && s.info[s.random[p]].addr == a && !IsTerrible(s.info[s.random[p]], clock(p))
  }

  ghost predicate Shown(s: State, n: nat, a: Address, clock: nat -> int) {
    exists p :: 0 <= p < n && At(s, p, a, clock)
  }

  ghost predicate Covered(s: State, p: int, clock: nat -> int, acc: seq<Address>) {
    0 <= p < |s.random| && s.random[p] in s.info &&
    (IsTerrible(s.info[s.random[p]], clock(p)) || s.info[s.random[p]].addr in acc)
  }

  /** What has been gathered from the first `n` positions: nothing but what they show, no address twice, and
      everything that is not terrible. */
  ghost predicate Gathered(s: State, n: nat, clock: nat -> int, acc: seq<Address>) {
    && n <= |s.random|
    && (forall j :: 0 <= j < |acc| ==> Shown(s, n, acc[j], clock))
    && (forall i, j :: 0 <= i < j < |acc| ==> acc[i].svc.ip != acc[j].svc.ip)
    && (forall p :: 0 <= p < n ==> Covered(s, p, clock, acc))
  }

  /** A position before `n` after the exchange: what it was, and not the address now at `n`. */
  lemma EarlierKept(k: Hasher, s: State, t: State, n: nat, q: nat)
    requires Consistent(k, t) && Keeps(s, t, {})
    requires q < n < |t.random| == |s.random| && t.random[..n] == s.random[..n] && t.random[n] in t.info
    ensures t.random[q] == s.random[q] && t.random[q] in t.info && t.random[q] in s.info
    ensures SameButPos(t.info[t.random[q]], s.info[t.random[q]])
    ensures t.info[t.random[q]].addr.svc.ip != t.info[t.random[n]].addr.svc.ip
  {
    assert t.random[..n][q] == s.random[..n][q];
    assert RandOk(t, n) && RandOk(t, q) && AddrOk(t, t.random[q]) && AddrOk(t, t.random[n]);
    assert t.random[q] in t.info.Keys;
  }

  lemma ShownStays(k: Hasher, s: State, t: State, n: nat, a: Address, clock: nat -> int)
    requires Consistent(k, t) && Keeps(s, t, {})
    requires n < |t.random| == |s.random| && t.random[..n] == s.random[..n] && t.random[n] in t.info
    requires Shown(s, n, a, clock)
    ensures Shown(t, n + 1, a, clock) && a.svc.ip != t.info[t.random[n]].addr.svc.ip
  {
    var q :| 0 <= q < n && At(s, q, a, clock);
    EarlierKept(k, s, t, n, q);
    assert At(t, q, a, clock);
  }

  lemma CoveredStays(k: Hasher, s: State, t: State, n: nat, q: nat, clock: nat -> int, acc: seq<Address>)
    requires Consistent(k, t) && Keeps(s, t, {})
    requires q < n < |t.random| == |s.random| && t.random[..n] == s.random[..n] && t.random[n] in t.info
    requires Covered(s, q, clock, acc)
    ensures Covered(t, q, clock, acc)
  {
    EarlierKept(k, s, t, n, q);
  }

  lemma GatheredExtends(k: Hasher, s: State, t: State, n: nat, clock: nat -> int, acc: seq<Address>)
    requires Consistent(k, t) && Keeps(s, t, {})
    requires n < |t.random| == |s.random| && t.random[..n] == s.random[..n] && t.random[n] in t.info
    requires Gathered(s, n, clock, acc)
    ensures var i := t.info[t.random[n]];
            Gathered(t, n + 1, clock, if IsTerrible(i, clock(n)) then acc else acc + [i.addr])
  {
    var i := t.info[t.random[n]];
    var acc' := if IsTerrible(i, clock(n)) then acc else acc + [i.addr];
    forall j | 0 <= j < |acc'|
      ensures Shown(t, n + 1, acc'[j], clock) && (j < |acc| ==> acc'[j].svc.ip != i.addr.svc.ip)
    {
      if j < |acc| {
        ShownStays(k, s, t, n, acc[j], clock);
      } else {
        assert At(t, n, acc'[j], clock);
      }
    }
    forall q | 0 <= q < n + 1 ensures Covered(t, q, clock, acc') {
      if q < n { CoveredStays(k, s, t, n, q, clock, acc); } else if acc' != acc { assert acc'[|acc|] == i.addr; }
    }
  }

  /** What is known of `(t, r)`, the outcome of the shuffle from `s`. */
  ghost predicate GatherOutcome(k: Hasher, s: State, t: State, r: seq<Address>, limit: int, clock: nat -> int) {
    && Shuffling(k, s, t)
    && |r| <= limit
    && exists m: nat :: Gathered(t, m, clock, r) && (|r| < limit ==> m == |t.random|)
  }

  /** Only the random order has changed. */
  ghost predicate Shuffling(k: Hasher, s: State, t: State) {
    && Consistent(k, t) && Keeps(s, t, {}) && t.newTab == s.newTab && t.triedTab == s.triedTab
    && |t.random| == |s.random|
  }

  lemma ShufflingTwice(k: Hasher, s: State, t: State, u: State)
    requires Shuffling(k, s, t) && Shuffling(k, t, u)
    ensures Shuffling(k, s, u)
  {
  }

  /** One turn: the entry drawn for position `n`, and the answer so far with it. */
  lemma GatherStep(
    k: Hasher, s: State, n: nat, limit: int, draw: nat -> nat, clock: nat -> int, acc: seq<Address>)
    returns (t: State, acc': seq<Address>)
    requires Consistent(k, s) && Gathered(s, n, clock, acc) && n < |s.random| && |acc| < limit
    ensures Shuffling(k, s, t) && Gathered(t, n + 1, clock, acc') && |acc'| <= limit
    ensures Gather(s, n, limit, draw, clock, acc) == Gather(t, n + 1, limit, draw, clock, acc')
  {
    var p := Pick(draw, n, |s.random|);
    SwapRandomKeeps(k, s, n, p, {}, {});
    t := SwapRandom(s, n, p);
    assert RandOk(t, n);
    GatheredExtends(k, s, t, n, clock, acc);
    var i := t.info[t.random[n]];
    acc' := if IsTerrible(i, clock(n)) then acc else acc + [i.addr];
  }

  lemma {:induction false} GatherCorrect(
    k: Hasher, s: State, n: nat, limit: int, draw: nat -> nat, clock: nat -> int, acc: seq<Address>)
    requires Consistent(k, s) && Gathered(s, n, clock, acc) && |acc| <= limit
    ensures var o := Gather(s, n, limit, draw, clock, acc);
            GatherOutcome(k, s, o.0, o.1, limit, clock)
    decreases |s.random| - n
  {
    if n < |s.random| && |acc| < limit {
      var t, acc' := GatherStep(k, s, n, limit, draw, clock, acc);
      GatherCorrect(k, t, n + 1, limit, draw, clock, acc');
      var o := Gather(t, n + 1, limit, draw, clock, acc');
      OutcomeThrough(k, s, t, o.0, o.1, limit, clock);
    } else {
      OutcomeNow(k, s, n, limit, clock, acc);
    }
  }

  lemma OutcomeThrough(k: Hasher, s: State, t: State, u: State, r: seq<Address>, limit: int, clock: nat -> int)
    requires Shuffling(k, s, t) && GatherOutcome(k, t, u, r, limit, clock)
    ensures GatherOutcome(k, s, u, r, limit, clock)
  {
    ShufflingTwice(k, s, t, u);
  }

  lemma OutcomeNow(k: Hasher, s: State, n: nat, limit: int, clock: nat -> int, acc: seq<Address>)
    requires Consistent(k, s) && Gathered(s, n, clock, acc) && |acc| <= limit && (n == |s.random| || |acc| == limit)
    ensures GatherOutcome(k, s, s, acc, limit, clock)
  {
  }

  /** The answer: few enough, no address twice, each of an entry that was not terrible when its turn came,
      and, when the limit was not reached, of all such entries. */
  lemma GetAddrCorrect(k: Hasher, s: State, draw: nat -> nat, clock: nat -> int)
    requires Consistent(k, s)
    ensures var (t, r) := GetAddr(s, draw, clock);
            && Shuffling(k, s, t)
            && 100 * |r| <= GETADDR_MAX_PCT * |s.random| && |r| <= GETADDR_MAX
            && (forall j :: 0 <= j < |r| ==> Known(s, t, r[j], clock))
            && (forall i, j :: 0 <= i < j < |r| ==> r[i].svc.ip != r[j].svc.ip)
            && (100 * (|r| + 1) <= 23 * |s.random| && |r| < 2500 ==> forall id :: Answered(s, t, id, r, clock))
  {
    var limit := GetAddrLimit(|s.random|);
    GetAddrLimitBound(|s.random|);
    assert Gathered(s, 0, clock, []);
    GatherCorrect(k, s, 0, limit, draw, clock, []);
    var t, r := GetAddr(s, draw, clock).0, GetAddr(s, draw, clock).1;
    var m: nat :| Gathered(t, m, clock, r) && (|r| < limit ==> m == |t.random|);
    forall j | 0 <= j < |r| ensures Known(s, t, r[j], clock) {
      assert Shown(t, m, r[j], clock);
      ShownKnown(s, t, m, r[j], clock);
    }
    if |r| < limit {
      forall id ensures Answered(s, t, id, r, clock) { CoveredAnswered(k, s, t, id, r, clock); }
    }
  }

  /** The turn of an entry is its place in the final order. */
  ghost predicate Fine(s: State, t: State, id: int, clock: nat -> int) {
    id in s.info && id in t.info && t.info[id].randomPos >= 0 && !IsTerrible(s.info[id], clock(t.info[id].randomPos))
  }

  ghost predicate Known(s: State, t: State, a: Address, clock: nat -> int) {
    exists id :: Fine(s, t, id, clock) && s.info[id].addr == a
  }

  ghost predicate Answered(s: State, t: State, id: int, r: seq<Address>, clock: nat -> int) {
    id in s.info ==> (s.info[id].addr in r <==> Fine(s, t, id, clock))
  }

  lemma ShownKnown(s: State, t: State, m: nat, a: Address, clock: nat -> int)
    requires Keeps(s, t, {}) && Shuffled(t) && Shown(t, m, a, clock)
    ensures Known(s, t, a, clock)
  {
    var p :| 0 <= p < m && At(t, p, a, clock);
    var id := t.random[p];
    assert id in t.info.Keys && id in s.info && RandOk(t, p);
    assert SameButPos(t.info[id], s.info[id]);
    assert Fine(s, t, id, clock);
  }

  lemma CoveredAnswered(k: Hasher, s: State, t: State, id: int, r: seq<Address>, clock: nat -> int)
    requires Consistent(k, s) && Keeps(s, t, {}) && Shuffled(t)
    requires forall p :: 0 <= p < |t.random| ==> Covered(t, p, clock, r)
    requires forall j :: 0 <= j < |r| ==> Known(s, t, r[j], clock)
    ensures Answered(s, t, id, r, clock)
  {
    assert PosOk(t, id);
    if id in s.info {
      assert id in t.info.Keys;
      assert SameButPos(t.info[id], s.info[id]);
      assert Covered(t, t.info[id].randomPos, clock, r);
      if s.info[id].addr in r { OnlyOwn(s, t, s.info[id].addr, id, clock); }
    }
  }

  /** No two entries have the same address. */
  lemma OnlyOwn(s: State, t: State, a: Address, id: int, clock: nat -> int)
    requires ByAddress(s) && id in s.info && s.info[id].addr == a && Known(s, t, a, clock)
    ensures Fine(s, t, id, clock)
  {
    var x :| Fine(s, t, x, clock) && s.info[x].addr == a;
    assert AddrOk(s, x) && AddrOk(s, id);
  }

  // ---------- runs ----------

  datatype Op =
    | OpAdd(x: AddInput)
    | OpGood(svc: Service, time: int)
    | OpAttempt(svc: Service, time: int)
    | OpConnected(svc: Service, time: int)
    | OpGetAddr(draw: nat -> nat, clock: nat -> int)

  ghost function Exec(k: Hasher, s: State, op: Op): State
    requires Consistent(k, s)
  {
    match op
    case OpAdd(x) => Add(k, s, x).0
    case OpGood(svc, time) => Good(k, s, svc, time)
    case OpAttempt(svc, time) => Attempt(s, svc, time)
    case OpConnected(svc, time) => Connected(s, svc, time)
    case OpGetAddr(draw, clock) => GetAddr(s, draw, clock).0
  }

  lemma ExecKeeps(k: Hasher, s: State, op: Op)
    requires Consistent(k, s)
    ensures Consistent(k, Exec(k, s, op))
  {
    match op
    case OpAdd(x) => AddKeeps(k, s, x);
    case OpGood(svc, time) => GoodKeeps(k, s, svc, time);
    case OpAttempt(svc, time) =>
      var id := Lookup(s, svc);
      if id != NONE {
        TouchKeeps(k, s, id, s.info[id].(lastTry := time, attempts := s.info[id].attempts + 1), {}, {});
      }
    case OpConnected(svc, time) =>
      var id := Lookup(s, svc);
      if id != NONE {
        TouchKeeps(k, s, id, s.info[id].(addr := s.info[id].addr.(time := U32(time))), {}, {});
      }
    case OpGetAddr(draw, clock) => GetAddrCorrect(k, s, draw, clock);
  }

  function EmptyGrid(buckets: nat): map<Slot, int> {
    map b, p | 0 <= b < buckets && 0 <= p < BUCKET_SIZE :: (b, p) := NONE
  }

  function Empty(): State {
    State(0, map[], map[], [], 0, 0, EmptyGrid(TRIED_BUCKETS), EmptyGrid(NEW_BUCKETS))
  }

  lemma EmptyGridSlots(buckets: nat, l: Slot)
    ensures l in EmptyGrid(buckets) <==> InGrid(l, buckets)
    ensures l in EmptyGrid(buckets) ==> EmptyGrid(buckets)[l] == NONE
  {
    assert l == (l.0, l.1);
  }

  lemma EmptyConsistent(k: Hasher)
    ensures Consistent(k, Empty())
  {
    var s := Empty();
    forall l ensures NewOk(k, s, l) && TriedOk(k, s, l) {
      EmptyGridSlots(NEW_BUCKETS, l);
      EmptyGridSlots(TRIED_BUCKETS, l);
    }
    assert NewIds(s.info) == {} && TriedIds(s.info) == {};
  }

  /** Every run from the empty table keeps the whole invariant, so that it can always go on. */
  ghost function Run(k: Hasher, ops: seq<Op>): (s: State)
    ensures Consistent(k, s)
  {
    if ops == [] then EmptyConsistent(k); Empty()
    else
      var s := Run(k, ops[..|ops| - 1]);
      ExecKeeps(k, s, ops[|ops| - 1]);
      Exec(k, s, ops[|ops| - 1])
  }

  // ---------- times ----------

  /** What the consistency check wants of the times of an entry. */
  ghost predicate TimesOk(s: State, id: int) {
    id in s.info ==>
      s.info[id].lastTry >= 0 && s.info[id].lastSuccess >= 0 && (s.info[id].inTried ==> s.info[id].lastSuccess != 0)
  }

  ghost predicate Timely(s: State) {
    forall id :: TimesOk(s, id)
  }

  predicate Dated(op: Op) {
    match op
    case OpGood(_, time) => time > 0
    case OpAttempt(_, time) => time >= 0
    case _ => true
  }

  /** The times of an entry after `Good` on a known service. */
  lemma GoodTimes(k: Hasher, s: State, svc: Service, time: int, x: int)
    requires Consistent(k, s) && Lookup(s, svc) != NONE
    ensures var t := Good(k, s, svc, time);
            && Lookup(s, svc) in t.info
            && (TimesOk(t, Lookup(s, svc)) <==> time > 0)
            && (x != Lookup(s, svc) && TimesOk(s, x) ==> TimesOk(t, x))
  {
    LookupFound(k, s, svc);
    if !s.info[Lookup(s, svc)].inTried { GoodEffect(k, s, svc, time); }
  }

  /** Calling `Good` on a known service with a time that is not positive breaks the check; with
      a positive time, or on an unknown service, it never does. */
  lemma GoodTimely(k: Hasher, s: State, svc: Service, time: int)
    requires Consistent(k, s) && Timely(s)
    ensures Timely(Good(k, s, svc, time)) <==> time > 0 || Lookup(s, svc) == NONE
  {
    var id, t := Lookup(s, svc), Good(k, s, svc, time);
    if id != NONE {
      forall x ensures time > 0 ==> TimesOk(t, x) {
        assert TimesOk(s, x);
        GoodTimes(k, s, svc, time, x);
      }
      GoodTimes(k, s, svc, time, id);
    }
  }

  lemma AttemptTimely(k: Hasher, s: State, svc: Service, time: int)
    requires Consistent(k, s) && Timely(s)
    ensures Timely(Attempt(s, svc, time)) <==> time >= 0 || Lookup(s, svc) == NONE
  {
    var id, t := Lookup(s, svc), Attempt(s, svc, time);
    forall x ensures time >= 0 || id == NONE ==> TimesOk(t, x) { assert TimesOk(s, x); }
    assert id != NONE && TimesOk(t, id) ==> time >= 0;
  }

  lemma KeepsTimely(s: State, t: State, changed: map<int, Info>, gone: set<int>)
    requires Timely(s) && Effect(s, t, changed, gone)
    requires forall x :: x in changed && x in s.info ==> SameTimes(changed[x], s.info[x])
    ensures Timely(t)
  {
    forall x ensures TimesOk(t, x) {
      assert TimesOk(s, x);
      if x in t.info { assert x in s.info.Keys - gone; }
    }
  }

  ghost predicate SameTimes(i: Info, j: Info) {
    i.lastTry == j.lastTry && i.lastSuccess == j.lastSuccess && i.inTried == j.inTried
  }

  lemma InsertTimely(k: Hasher, s: State, id: int, source: Ip, now: int, idle: set<int>)
    requires Inv(k, s, idle, {}) && id in s.info && Timely(s)
    ensures Insertable(k, s, id, source) && Timely(Insert(k, s, id, source, now))
  {
    InsertEffect(k, s, id, source, now, idle);
    InsertedTimely(s, Insert(k, s, id, source, now), id, TargetSlot(k, s.info[id], source), now);
  }

  lemma InsertedTimely(s: State, t: State, id: int, l: Slot, now: int)
    requires id in s.info && l in s.newTab && Inserted(s, t, id, l, now) && Timely(s)
    ensures Timely(t)
  {
    var o := s.newTab[l];
    if o != id {
      if o == NONE || (o in s.info && GivesWay(s.info[o], s.info[id].refCount, now)) {
        KeepsTimely(s, t, Lowered(s, l)[id := s.info[id].(refCount := s.info[id].refCount + 1)], Dropped(s, l));
      } else {
        KeepsTimely(s, t, map[], if s.info[id].refCount == 0 then {id} else {});
      }
    }
  }

  lemma AddTimely(k: Hasher, s: State, x: AddInput)
    requires Consistent(k, s) && Timely(s)
    ensures Timely(Add(k, s, x).0)
  {
    if x.routable && x.a.svc.ip in s.addr {
      KnownReady(k, s, x);
      var id := s.addr[x.a.svc.ip];
      var t := SetInfo(s, id, Refresh(s.info[id], x.a, x.penalty, x.now));
      forall y ensures TimesOk(t, y) { assert TimesOk(s, y); }
      InsertTimely(k, t, id, x.source, x.nowTerrible, {});
    } else if x.routable {
      EnterKeeps(k, s, x.a, x.source, x.penalty);
      var t := Enter(s, x.a, x.source, x.penalty);
      forall y ensures TimesOk(t, y) { assert TimesOk(s, y); }
      InsertTimely(k, t, s.idCount, x.source, x.nowTerrible, {s.idCount});
    }
  }

  lemma ExecTimely(k: Hasher, s: State, op: Op)
    requires Consistent(k, s) && Timely(s) && Dated(op)
    ensures Timely(Exec(k, s, op))
  {
    match op
    case OpAdd(x) => AddTimely(k, s, x);
    case OpGood(svc, time) => GoodTimely(k, s, svc, time);
    case OpAttempt(svc, time) => AttemptTimely(k, s, svc, time);
    case OpConnected(svc, time) =>
      forall y ensures TimesOk(Connected(s, svc, time), y) { assert TimesOk(s, y); }
    case OpGetAddr(draw, clock) =>
      GetAddrCorrect(k, s, draw, clock);
      KeepsTimely(s, GetAddr(s, draw, clock).0, map[], {});
  }

  /** Over every run with positive times of success, and none of attempts before 0, the times stay plausible. */
  lemma {:induction false} RunTimely(k: Hasher, ops: seq<Op>)
    requires forall i :: 0 <= i < |ops| ==> Dated(ops[i])
    ensures Timely(Run(k, ops))
  {
    if ops == [] {
      forall id ensures TimesOk(Empty(), id) {}
    } else {
      RunTimely(k, ops[..|ops| - 1]);
      ExecTimely(k, Run(k, ops[..|ops| - 1]), ops[|ops| - 1]);
    }
  }

  // ---------- two calls that do not do what they seem to ----------

  /** A hash that sends every address to the same slot. */
  const ONE_SLOT := Hasher(
    ip => 0, svc => 0, (g, j) => 0, (g, from) => 0, (from, j) => 0, (isNew, bucket, svc) => 0)

  const FIRST := AddInput(Address(Service(1, 8333), {}, 100), 1, 0, true, 100, 100, 0)
  const SECOND := FIRST.(a := Address(Service(2, 8333), {}, 100))

  ghost function FirstAdded(): State {
    Run(ONE_SLOT, [OpAdd(FIRST)])
  }

  /** An unknown address whose slot is free gets it. */
  lemma AddFree(k: Hasher, s: State, x: AddInput, l: Slot)
    requires Consistent(k, s) && x.routable && x.a.svc.ip !in s.addr
    requires l == NewSlot(k, NewBucket(k, x.a.svc.ip, x.source), x.a.svc) && l in s.newTab && s.newTab[l] == NONE
    ensures Add(k, s, x).0 == Hold(Enter(s, x.a, x.source, x.penalty), l, s.idCount)
  {
  }

  /** What the first address leaves. */
  ghost predicate Alone(s: State) {
    && s.info == map[0 := Info(FIRST.a, 1, 0, 0, 0, 1, false, 0)] && s.addr == map[1 := 0]
    && (0, 0) in s.newTab && s.newTab[(0, 0)] == 0
  }

  lemma AddAlone(k: Hasher, e: State, x: AddInput)
    requires k == ONE_SLOT && x == FIRST && Consistent(k, e)
    requires e.info == map[] && e.addr == map[] && e.idCount == 0 && e.random == []
    requires (0, 0) in e.newTab && e.newTab[(0, 0)] == NONE
    ensures Alone(Add(k, e, x).0)
  {
    AddFree(k, e, x, (0, 0));
  }

  lemma RunFirst(k: Hasher, op: Op)
    ensures Run(k, [op]) == Exec(k, Run(k, []), op) && Run(k, []) == Empty()
  {
    assert [op][..0] == [];
  }

  lemma FirstAddedIs()
    ensures Alone(FirstAdded())
  {
    var k, x := ONE_SLOT, FIRST;
    RunFirst(k, OpAdd(x));
    EmptyGridSlots(NEW_BUCKETS, (0, 0));
    AddAlone(k, Run(k, []), x);
  }

  lemma NoRoom(k: Hasher, s: State)
    requires k == ONE_SLOT && Consistent(k, s) && Alone(s)
    ensures var r := Add(k, s, SECOND); r.1 && SECOND.a.svc.ip !in r.0.addr
  {
    AddTrueNeedNotStore(k, s, SECOND);
    assert NewSlot(k, NewBucket(k, SECOND.a.svc.ip, SECOND.source), SECOND.a.svc) == (0, 0);
  }

  /** The second address is refused its slot: the answer is true, and the address is not there. */
  lemma TrueButNotStored()
    ensures var r := Add(ONE_SLOT, FirstAdded(), SECOND); r.1 && SECOND.a.svc.ip !in r.0.addr
  {
    FirstAddedIs();
    NoRoom(ONE_SLOT, FirstAdded());
  }

  /** A success at time 0 turns plausible times into implausible ones. */
  lemma GoodAtZero()
    ensures Timely(FirstAdded()) && !Timely(Good(ONE_SLOT, FirstAdded(), FIRST.a.svc, 0))
  {
    FirstAddedIs();
    RunTimely(ONE_SLOT, [OpAdd(FIRST)]);
    GoodTimely(ONE_SLOT, FirstAdded(), FIRST.a.svc, 0);
  }
}
