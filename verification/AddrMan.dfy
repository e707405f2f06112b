/** The address manager as the program keeps it: maps, a vector and two fixed bucket arrays,
    updated in place.  Every method is proved to do what `AddrTable` and `AddrRules` say, and
    never to fail one of the program's own assertions. */
module AddrManager {
  import Common
  import opened AddrTable
  import opened AddrRules

  ghost function Grid(a: array2<int>): map<Slot, int>
    reads a
  {
    map b, p | 0 <= b < a.Length0 && 0 <= p < a.Length1 :: (b, p) := a[b, p]
  }

  /** One slot of a bucket array gets a new occupant. */
  method Put(a: array2<int>, b: int, p: int, id: int)
    requires 0 <= b < a.Length0 && 0 <= p < a.Length1
    modifies a
    ensures Grid(a) == old(Grid(a))[(b, p) := id]
  {
    a[b, p] := id;
  }

  lemma GridAt(a: array2<int>, b: int, p: int)
    requires 0 <= b < a.Length0 && 0 <= p < a.Length1
    ensures (b, p) in Grid(a) && Grid(a)[(b, p)] == a[b, p]
  {
  }

  /** The loops of `Clear`. */
  method Wipe(a: array2<int>)
    requires a.Length1 == BUCKET_SIZE
    modifies a
    ensures Grid(a) == EmptyGrid(a.Length0)
  {
    var b := 0;
    while b < a.Length0
      invariant 0 <= b <= a.Length0
      invariant forall i, j :: 0 <= i < b && 0 <= j < BUCKET_SIZE ==> a[i, j] == NONE
    {
      var p := 0;
      while p < BUCKET_SIZE
        invariant 0 <= p <= BUCKET_SIZE
        invariant forall i, j :: 0 <= i < b && 0 <= j < BUCKET_SIZE ==> a[i, j] == NONE
        invariant forall j :: 0 <= j < p ==> a[b, j] == NONE
      {
        a[b, p] := NONE;
        p := p + 1;
      }
      b := b + 1;
    }
    WipedGrid(a);
  }

  lemma WipedGrid(a: array2<int>)
    requires a.Length1 == BUCKET_SIZE
    requires forall i, j :: 0 <= i < a.Length0 && 0 <= j < BUCKET_SIZE ==> a[i, j] == NONE
    ensures Grid(a) == EmptyGrid(a.Length0)
  {
    var g, e := Grid(a), EmptyGrid(a.Length0);
    forall l: Slot ensures (l in g <==> l in e) && (l in g ==> g[l] == e[l]) {
      EmptyGridSlots(a.Length0, l);
      assert l == (l.0, l.1);
    }
  }

  /** The stochastic test in `Add_`: each reference makes the next one twice as hard. */
  method Lucky(refCount: int, coin: nat) returns (ok: bool)
    ensures ok <==> (StochasticFactor(refCount) > 1 ==> coin == 0)
  {
    var nFactor, n := 1, 0;
    while n < refCount
      invariant nFactor == StochasticFactor(n) && 0 <= n && (n <= refCount || n == 0)
    {
      nFactor := nFactor * 2;
      n := n + 1;
    }
    ok := !(nFactor > 1 && coin != 0);
  }

  class AddrMan {
    const key: Hasher
    var nIdCount: int
    var mapInfo: map<int, Info>
    var mapAddr: map<Ip, int>
    var vRandom: seq<int>
    var nTried: int
    var nNew: int
    const vvTried: array2<int>
    const vvNew: array2<int>

    ghost predicate Shaped()
    {
      && vvNew != vvTried
      && vvNew.Length0 == NEW_BUCKETS && vvNew.Length1 == BUCKET_SIZE
      && vvTried.Length0 == TRIED_BUCKETS && vvTried.Length1 == BUCKET_SIZE
    }

    ghost function St(): State
      reads this, vvNew, vvTried
    {
      State(nIdCount, mapInfo, mapAddr, vRandom, nTried, nNew, Grid(vvTried), Grid(vvNew))
    }

    ghost predicate Valid()
      reads this, vvNew, vvTried
    {
      Shaped() && Consistent(key, St())
    }

    constructor (k: Hasher)
      ensures key == k && Valid() && St() == Empty()
      ensures fresh(vvNew) && fresh(vvTried)
    {
      key := k;
      nIdCount, mapInfo, mapAddr, vRandom, nTried, nNew := 0, map[], map[], [], 0, 0;
      vvTried := new int[TRIED_BUCKETS, BUCKET_SIZE];
      vvNew := new int[NEW_BUCKETS, BUCKET_SIZE];
      new;
      Wipe(vvNew);
      Wipe(vvTried);
      EmptyConsistent(k);
    }

    method Find(ip: Ip) returns (nId: int)
      requires Valid()
      ensures nId == NONE <==> ip !in mapAddr
      ensures nId != NONE ==> nId in mapInfo && mapInfo[nId].addr.svc.ip == ip && mapAddr[ip] == nId
    {
      assert IpOk(St(), ip);
      if ip !in mapAddr { return NONE; }
      assert AddrOk(St(), mapAddr[ip]);
      nId := mapAddr[ip];
    }

    method SwapRandom(p1: int, p2: int)
      requires 0 <= p1 < |vRandom| && 0 <= p2 < |vRandom| && RandOk(St(), p1) && RandOk(St(), p2)
      modifies this`mapInfo, this`vRandom
      ensures St() == AddrTable.SwapRandom(old(St()), p1, p2)
    {
      if p1 == p2 { return; }
      var id1, id2 := vRandom[p1], vRandom[p2];
      assert id1 in mapInfo && id2 in mapInfo;
      mapInfo := mapInfo[id1 := mapInfo[id1].(randomPos := p2)];
      mapInfo := mapInfo[id2 := mapInfo[id2].(randomPos := p1)];
      vRandom := vRandom[p1 := id2];
      vRandom := vRandom[p2 := id1];
    }

    method Delete(nId: int)
      requires Deletable(St(), nId)
      requires !mapInfo[nId].inTried && mapInfo[nId].refCount == 0
      modifies this`mapInfo, this`vRandom, this`mapAddr, this`nNew
      ensures St() == AddrTable.Delete(old(St()), nId)
    {
      var info := mapInfo[nId];
      SwapRandom(info.randomPos, |vRandom| - 1);
      vRandom := vRandom[..|vRandom| - 1];
      mapAddr := mapAddr - {info.addr.svc.ip};
      mapInfo := mapInfo - {nId};
      nNew := nNew - 1;
    }

    method ClearNew(b: int, p: int, ghost idle: set<int>, ghost uncounted: set<int>)
      requires Shaped() && Inv(key, St(), idle, uncounted)
      requires 0 <= b < NEW_BUCKETS && 0 <= p < BUCKET_SIZE
      modifies this`mapInfo, this`vRandom, this`mapAddr, this`nNew, vvNew
      ensures Clearable(old(St()), (b, p)) && St() == AddrTable.ClearNew(old(St()), (b, p))
      ensures vvNew[b, p] == NONE
    {
      ghost var s, l := St(), (b, p);
      GridAt(vvNew, b, p);
      ClearNewKeeps(key, s, l, idle, uncounted);
      if vvNew[b, p] != NONE {
        var nIdDelete := vvNew[b, p];
        OccupantBusy(key, s, l, idle, uncounted);
        assert mapInfo[nIdDelete].refCount > 0;
        ReleaseAt(nIdDelete, b, p);
        if mapInfo[nIdDelete].refCount == 0 {
          assert NewOk(key, s, l);
          Delete(nIdDelete);
        }
      }
      GridAt(vvNew, b, p);
    }

    /** The first loop of `MakeTried`: remove the entry from all new buckets. */
    method DetachNew(nId: int)
      requires Shaped() && Placed(key, St()) && nId in mapInfo
      modifies this`mapInfo, vvNew
      ensures St() == Detach(key, old(St()), nId, NEW_BUCKETS)
    {
      ghost var s := St();
      var svc := mapInfo[nId].addr.svc;
      var bucket := 0;
      while bucket < NEW_BUCKETS
        invariant 0 <= bucket <= NEW_BUCKETS
        invariant St() == Detach(key, s, nId, bucket)
      {
        DetachAt(nId, bucket, Position(key, true, bucket, svc), s);
        bucket := bucket + 1;
      }
    }

    /** One turn of that loop. */
    method DetachAt(nId: int, bucket: int, pos: int, ghost s: State)
      requires Shaped() && Placed(key, s) && nId in s.info && 0 <= bucket < NEW_BUCKETS
      requires St() == Detach(key, s, nId, bucket) && pos == Position(key, true, bucket, s.info[nId].addr.svc)
      modifies this`mapInfo, vvNew
      ensures St() == Detach(key, s, nId, bucket + 1)
    {
      DetachOnce(key, s, nId, bucket, St());
      GridAt(vvNew, bucket, pos);
      if vvNew[bucket, pos] == nId {
        ReleaseAt(nId, bucket, pos);
      }
    }

    method ReleaseAt(nId: int, bucket: int, pos: int)
      requires Shaped() && nId in mapInfo && 0 <= bucket < NEW_BUCKETS && 0 <= pos < BUCKET_SIZE
      requires vvNew[bucket, pos] == nId
      modifies this`mapInfo, vvNew
      ensures (bucket, pos) in old(St()).newTab && old(St()).newTab[(bucket, pos)] == nId
      ensures St() == Release(old(St()), (bucket, pos))
    {
      GridAt(vvNew, bucket, pos);
      Put(vvNew, bucket, pos, NONE);
      mapInfo := mapInfo[nId := mapInfo[nId].(refCount := mapInfo[nId].refCount - 1)];
    }

    /** The eviction branch of `MakeTried`. */
    method EvictTried(kb: int, kp: int, ghost nId: int)
      requires Shaped() && Inv(key, St(), {nId}, {nId})
      requires 0 <= kb < TRIED_BUCKETS && 0 <= kp < BUCKET_SIZE && vvTried[kb, kp] != NONE
      modifies this, vvNew, vvTried
      ensures Evictable(key, old(St()), (kb, kp)) && St() == Evict(key, old(St()), (kb, kp))
    {
      ghost var s, l := St(), (kb, kp);
      GridAt(vvTried, kb, kp);
      EvictIsReenter(key, s, l, nId);
      DemoteKeeps(key, s, l, {nId}, {nId});
      var nIdEvict := DemoteTried(kb, kp);
      ReenterEvicted(nIdEvict, {nId} + {nIdEvict});
    }

    /** The evicted entry gets its home slot in the new table. */
    method ReenterEvicted(nIdEvict: int, ghost idle: set<int>)
      requires Shaped() && Inv(key, St(), idle, idle) && Reenterable(key, St(), nIdEvict)
      modifies this`mapInfo, this`vRandom, this`mapAddr, this`nNew, vvNew
      ensures St() == Reenter(key, old(St()), nIdEvict)
    {
      ghost var d := St();
      var ub, up := ClearHome(nIdEvict, idle);
      ReenterIs(key, d, nIdEvict, (ub, up), St());
      EnterAgain(nIdEvict, ub, up);
    }

    /** Free the slot of the new table where an evicted entry goes. */
    method ClearHome(nIdEvict: int, ghost idle: set<int>) returns (ub: int, up: int)
      requires Shaped() && Inv(key, St(), idle, idle) && nIdEvict in mapInfo
      modifies this`mapInfo, this`vRandom, this`mapAddr, this`nNew, vvNew
      ensures 0 <= ub < NEW_BUCKETS && 0 <= up < BUCKET_SIZE && (ub, up) == HomeSlot(key, old(mapInfo[nIdEvict]))
      ensures Clearable(old(St()), (ub, up)) && St() == AddrTable.ClearNew(old(St()), (ub, up))
      ensures vvNew[ub, up] == NONE
    {
      var info := mapInfo[nIdEvict];
      ub := NewBucket(key, info.addr.svc.ip, info.source);
      up := Position(key, true, ub, info.addr.svc);
      ClearNew(ub, up, idle, idle);
    }

    method DemoteTried(kb: int, kp: int) returns (nIdEvict: int)
      requires Shaped()
      requires 0 <= kb < TRIED_BUCKETS && 0 <= kp < BUCKET_SIZE && vvTried[kb, kp] in mapInfo
      modifies this`mapInfo, this`nTried, vvTried
      ensures nIdEvict == old(vvTried[kb, kp])
      ensures (kb, kp) in old(St()).triedTab && old(St()).triedTab[(kb, kp)] == nIdEvict
      ensures St() == Demote(old(St()), (kb, kp))
    {
      GridAt(vvTried, kb, kp);
      nIdEvict := vvTried[kb, kp];
      mapInfo := mapInfo[nIdEvict := mapInfo[nIdEvict].(inTried := false)];
      Put(vvTried, kb, kp, NONE);
      nTried := nTried - 1;
    }

    method EnterAgain(nIdEvict: int, ub: int, up: int)
      requires Shaped() && 0 <= ub < NEW_BUCKETS && 0 <= up < BUCKET_SIZE
      requires nIdEvict in mapInfo && mapInfo[nIdEvict].refCount == 0
      modifies this`mapInfo, this`nNew, vvNew
      ensures St() == Hold(old(St()).(nNew := old(nNew) + 1), (ub, up), nIdEvict)
    {
      mapInfo := mapInfo[nIdEvict := mapInfo[nIdEvict].(refCount := 1)];
      Put(vvNew, ub, up, nIdEvict);
      nNew := nNew + 1;
    }

    method PromoteEntry(nId: int, kb: int, kp: int)
      requires Shaped() && 0 <= kb < TRIED_BUCKETS && 0 <= kp < BUCKET_SIZE && nId in mapInfo
      modifies this`mapInfo, this`nTried, vvTried
      ensures St() == Promote(old(St()), (kb, kp), nId)
    {
      Put(vvTried, kb, kp, nId);
      nTried := nTried + 1;
      mapInfo := mapInfo[nId := mapInfo[nId].(inTried := true)];
    }

    method MakeTried(nId: int)
      requires Valid() && nId in mapInfo && !mapInfo[nId].inTried
      modifies this, vvNew, vvTried
      ensures St() == AddrTable.MakeTried(key, old(St()), nId)
    {
      MakeTriedSteps(key, St(), nId);
      var svc := mapInfo[nId].addr.svc;
      DetachNew(nId);
      nNew := nNew - 1;
      assert mapInfo[nId].refCount == 0;

      var kb := TriedBucket(key, svc);
      var kp := Position(key, false, kb, svc);
      TakeTried(nId, kb, kp);
    }

    /** The end of `MakeTried`: make room in the tried table, and move in. */
    method TakeTried(nId: int, kb: int, kp: int)
      requires Shaped() && Inv(key, St(), {nId}, {nId})
      requires 0 <= kb < TRIED_BUCKETS && 0 <= kp < BUCKET_SIZE
      requires Takeable(key, St(), (kb, kp), nId)
      modifies this, vvNew, vvTried
      ensures St() == Take(key, old(St()), (kb, kp), nId)
    {
      GridAt(vvTried, kb, kp);
      if vvTried[kb, kp] != NONE {
        EvictTried(kb, kp, nId);
        GridAt(vvTried, kb, kp);
      }
      assert vvTried[kb, kp] == NONE;
      PromoteEntry(nId, kb, kp);
    }

    /** Slot of bucket `b` where `svc` would be holds `nId`. */
    ghost predicate InBucket(b: int, svc: Service, nId: int)
      requires Shaped()
      reads vvNew
    {
      0 <= b < NEW_BUCKETS && vvNew[b, Position(key, true, b, svc)] == nId
    }

    function Turn(n: int, nRnd: nat): (b: int)
      ensures 0 <= b < NEW_BUCKETS
    {
      (n + nRnd) % NEW_BUCKETS
    }

    /** The search in `Good_`.  Whatever its starting point, it finds a bucket: the exit for
        "no bucket is found" is never taken. */
    method FindBucket(nId: int, svc: Service, nRnd: nat) returns (nUBucket: int)
      requires Valid() && nId in mapInfo && !mapInfo[nId].inTried && mapInfo[nId].addr.svc == svc
      ensures nUBucket != NONE && InBucket(nUBucket, svc, nId)
    {
      nUBucket := NONE;
      var n := 0;
      while n < NEW_BUCKETS
        invariant 0 <= n <= NEW_BUCKETS
        invariant forall i :: 0 <= i < n ==> !InBucket(Turn(i, nRnd), svc, nId)
      {
        var nB := Turn(n, nRnd);
        var nBpos := Position(key, true, nB, svc);
        if vvNew[nB, nBpos] == nId { return nB; }
        n := n + 1;
      }
      ghost var i := SomeBucket(nId, svc, nRnd);
    }

    lemma SomeBucket(nId: int, svc: Service, nRnd: nat) returns (i: int)
      requires Valid() && nId in mapInfo && !mapInfo[nId].inTried && mapInfo[nId].addr.svc == svc
      ensures 0 <= i < NEW_BUCKETS && InBucket(Turn(i, nRnd), svc, nId)
    {
      var s := St();
      assert CountOk(key, s, nId, {}) && AddrOk(s, nId);
      var l :| l in Holders(s.newTab, nId);
      assert NewOk(key, s, l);
      GridAt(vvNew, l.0, l.1);
      i := (l.0 - nRnd) % NEW_BUCKETS;
    }

    method Good_(svc: Service, nTime: int, nRnd: nat)
      requires Valid()
      modifies this, vvNew, vvTried
      ensures Valid() && St() == Good(key, old(St()), svc, nTime)
    {
      ghost var s := St();
      GoodKeeps(key, s, svc, nTime);
      var nId := Find(svc.ip);
      if nId == NONE { return; }
      if mapInfo[nId].addr.svc != svc { return; }
      TouchKeeps(key, s, nId, MarkGood(s.info[nId], nTime), {}, {});
      MarkStats(nId, nTime);
      if mapInfo[nId].inTried { return; }
      var nUBucket := FindBucket(nId, svc, nRnd);
      if nUBucket == NONE { return; }
      MakeTried(nId);
    }

    method MarkStats(nId: int, nTime: int)
      requires nId in mapInfo
      modifies this`mapInfo
      ensures St() == SetInfo(old(St()), nId, MarkGood(old(mapInfo[nId]), nTime))
    {
      mapInfo := mapInfo[nId := mapInfo[nId].(lastSuccess := nTime)];
      mapInfo := mapInfo[nId := mapInfo[nId].(lastTry := nTime)];
      mapInfo := mapInfo[nId := mapInfo[nId].(attempts := 0)];
    }

    method Create(a: Address, source: Ip) returns (nId: int)
      modifies this`nIdCount, this`mapInfo, this`mapAddr, this`vRandom
      ensures nId == old(nIdCount) && St() == AddrTable.Create(old(St()), a, source)
    {
      nId := nIdCount;
      nIdCount := nIdCount + 1;
      mapInfo := mapInfo[nId := Info(a, source, 0, 0, 0, 0, false, -1)];
      mapAddr := mapAddr[a.svc.ip := nId];
      mapInfo := mapInfo[nId := mapInfo[nId].(randomPos := |vRandom|)];
      vRandom := vRandom + [nId];
      assert mapInfo == old(mapInfo)[nId := Info(a, source, 0, 0, 0, 0, false, old(|vRandom|))];
    }

    /** The branch of `Add_` for a known address: refresh it, and decide whether to go on. */
    method RefreshKnown(nId: int, a: Address, penalty: int, now: int, coin: nat) returns (more: bool)
      requires nId in mapInfo
      modifies this`mapInfo
      ensures St() == SetInfo(old(St()), nId, Refresh(old(mapInfo[nId]), a, penalty, now))
      ensures more <==> Eligible(mapInfo[nId], a, coin)
    {
      var info := mapInfo[nId];
      var interval := if now - a.time < DAY then HOUR else DAY;
      if a.time != 0 && (info.addr.time == 0 || info.addr.time < a.time - interval - penalty) {
        info := info.(addr := info.addr.(time := U32(Common.Max(0, a.time - penalty))));
      }
      info := info.(addr := info.addr.(services := info.addr.services + a.services));
      mapInfo := mapInfo[nId := info];
      if a.time == 0 || (info.addr.time != 0 && a.time <= info.addr.time) { return false; }
      if info.inTried { return false; }
      if info.refCount == MAX_REFS { return false; }
      more := Lucky(info.refCount, coin);
    }

    /** The end of `Add_`: find the slot and take it, if its occupant gives way. */
    method InsertEntry(nId: int, source: Ip, now: int, ghost idle: set<int>)
      requires Shaped() && Inv(key, St(), idle, {}) && idle <= {nId}
      requires nId in mapInfo && !mapInfo[nId].inTried && mapInfo[nId].refCount < MAX_REFS
      modifies this, vvNew
      ensures Insertable(key, old(St()), nId, source) && St() == Insert(key, old(St()), nId, source, now)
    {
      InsertReady(key, St(), nId, source, idle);
      var ub := NewBucket(key, mapInfo[nId].addr.svc.ip, source);
      var up := Position(key, true, ub, mapInfo[nId].addr.svc);
      GridAt(vvNew, ub, up);
      if vvNew[ub, up] != nId {
        var fInsert := MayInsert(nId, ub, up, now);
        if fInsert {
          ClearNew(ub, up, idle, {});
          HoldAt(nId, ub, up);
        } else if mapInfo[nId].refCount == 0 {
          Delete(nId);
        }
      }
    }

    method MayInsert(nId: int, ub: int, up: int, now: int) returns (fInsert: bool)
      requires Shaped() && Placed(key, St()) && nId in mapInfo && 0 <= ub < NEW_BUCKETS && 0 <= up < BUCKET_SIZE
      ensures vvNew[ub, up] != NONE ==> vvNew[ub, up] in mapInfo
      ensures fInsert <==> vvNew[ub, up] == NONE || GivesWay(mapInfo[vvNew[ub, up]], mapInfo[nId].refCount, now)
    {
      GridAt(vvNew, ub, up);
      fInsert := vvNew[ub, up] == NONE;
      if !fInsert {
        assert NewOk(key, St(), (ub, up));
        var existing := mapInfo[vvNew[ub, up]];
        if IsTerrible(existing, now) || (existing.refCount > 1 && mapInfo[nId].refCount == 0) {
          fInsert := true;
        }
      }
    }

    method HoldAt(nId: int, ub: int, up: int)
      requires Shaped() && 0 <= ub < NEW_BUCKETS && 0 <= up < BUCKET_SIZE && nId in mapInfo
      modifies this`mapInfo, vvNew
      ensures St() == Hold(old(St()), (ub, up), nId)
    {
      mapInfo := mapInfo[nId := mapInfo[nId].(refCount := mapInfo[nId].refCount + 1)];
      Put(vvNew, ub, up, nId);
    }

    method EnterNew(a: Address, source: Ip, penalty: int) returns (nId: int)
      requires Shaped()
      modifies this`nIdCount, this`mapInfo, this`mapAddr, this`vRandom, this`nNew
      ensures nId == old(nIdCount) && St() == Enter(old(St()), a, source, penalty)
    {
      nId := Create(a, source);
      var pinfo := mapInfo[nId];
      mapInfo := mapInfo[nId := pinfo.(addr := pinfo.addr.(time := U32(Common.Max(0, pinfo.addr.time - penalty))))];
      nNew := nNew + 1;
    }

    method Add_(x: AddInput) returns (fNew: bool)
      requires Valid()
      modifies this, vvNew
      ensures Valid() && (St(), fNew) == Add(key, old(St()), x)
    {
      ghost var s := St();
      AddKeeps(key, s, x);
      if !x.routable { return false; }
      var nId := Find(x.a.svc.ip);
      if nId != NONE {
        AddKnown(nId, x);
        fNew := false;
      } else {
        AddUnknown(x);
        fNew := true;
      }
    }

    method AddKnown(nId: int, x: AddInput)
      requires Valid() && x.routable && x.a.svc.ip in mapAddr && nId == mapAddr[x.a.svc.ip] && nId in mapInfo
      modifies this, vvNew
      ensures St() == Add(key, old(St()), x).0
    {
      KnownReady(key, St(), x);
      var more := RefreshKnown(nId, x.a, x.penalty, x.now, x.coin);
      if more {
        assert CountOk(key, St(), nId, {});
        InsertEntry(nId, x.source, x.nowTerrible, {});
      }
    }

    method AddUnknown(x: AddInput)
      requires Valid() && x.routable && x.a.svc.ip !in mapAddr
      modifies this, vvNew
      ensures St() == Add(key, old(St()), x).0
    {
      EnterKeeps(key, St(), x.a, x.source, x.penalty);
      var nId := EnterNew(x.a, x.source, x.penalty);
      InsertEntry(nId, x.source, x.nowTerrible, {nId});
    }

    method Attempt_(svc: Service, nTime: int)
      requires Valid()
      modifies this`mapInfo
      ensures Valid() && St() == Attempt(old(St()), svc, nTime)
    {
      ExecKeeps(key, St(), OpAttempt(svc, nTime));
      var nId := Find(svc.ip);
      if nId == NONE { return; }
      if mapInfo[nId].addr.svc != svc { return; }
      mapInfo := mapInfo[nId := mapInfo[nId].(lastTry := nTime, attempts := mapInfo[nId].attempts + 1)];
    }

    method Connected_(svc: Service, nTime: int)
      requires Valid()
      modifies this`mapInfo
      ensures Valid() && St() == Connected(old(St()), svc, nTime)
    {
      ExecKeeps(key, St(), OpConnected(svc, nTime));
      var nId := Find(svc.ip);
      if nId == NONE { return; }
      if mapInfo[nId].addr.svc != svc { return; }
      var nUpdateInterval := 20 * 60;
      if nTime - mapInfo[nId].addr.time > nUpdateInterval {
        mapInfo := mapInfo[nId := mapInfo[nId].(addr := mapInfo[nId].addr.(time := U32(nTime)))];
      }
    }

    method GetAddr_(draw: nat -> nat, clock: nat -> int) returns (vAddr: seq<Address>)
      requires Valid()
      modifies this`mapInfo, this`vRandom
      ensures Valid() && (St(), vAddr) == GetAddr(old(St()), draw, clock)
    {
      vAddr := [];
      ghost var s := St();
      var nNodes := GETADDR_MAX_PCT * |vRandom| / 100;
      if nNodes > GETADDR_MAX { nNodes := GETADDR_MAX; }
      var n := 0;
      while n < |vRandom|
        invariant Valid() && 0 <= n <= |vRandom|
        invariant GetAddr(s, draw, clock) == Gather(St(), n, nNodes, draw, clock, vAddr)
        decreases |vRandom| - n
      {
        if |vAddr| >= nNodes { break; }
        vAddr := GatherTurn(n, nNodes, draw, clock, vAddr);
        n := n + 1;
      }
    }

    /** One turn of that loop: swap a random later entry to position `n` and look at it. */
    method GatherTurn(n: nat, ghost limit: int, draw: nat -> nat, clock: nat -> int, acc: seq<Address>)
      returns (vAddr: seq<Address>)
      requires Valid() && n < |vRandom| && |acc| < limit
      modifies this`mapInfo, this`vRandom
      ensures Valid() && |vRandom| == old(|vRandom|)
      ensures Gather(old(St()), n, limit, draw, clock, acc) == Gather(St(), n + 1, limit, draw, clock, vAddr)
    {
      var nRndPos := Pick(draw, n, |vRandom|);
      SwapRandomKeeps(key, St(), n, nRndPos, {}, {});
      SwapRandom(n, nRndPos);
      assert RandOk(St(), n);
      assert vRandom[n] in mapInfo;
      var ai := mapInfo[vRandom[n]];
      vAddr := if IsTerrible(ai, clock(n)) then acc else acc + [ai.addr];
    }
  }
}
