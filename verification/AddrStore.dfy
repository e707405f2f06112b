/** The loops that save the address manager and build it again from a file. */
module AddrStore {
  import opened AddrTable
  import opened AddrRules
  import opened AddrManager
  import opened AddrFile
  import opened AddrSave

  // ---------- saving ----------

  /** Who counts as new while saving: entries with references. */
  lemma Referenced(k: Hasher, s: State, id: int)
    requires Consistent(k, s)
    ensures id in NewIds(s.info) <==> id in s.info && s.info[id].refCount != 0
    ensures id in TriedIds(s.info) <==> id in s.info && s.info[id].inTried
  {
    assert CountOk(k, s, id, {});
  }

  lemma NextEntry(info: map<int, Info>, ids: set<int>, n: nat)
    requires ids <= info.Keys
    ensures AllIn(Ascending(ids, n), info) && AllIn(Ascending(ids, n + 1), info)
    ensures Entries(info, Ascending(ids, n + 1))
         == Entries(info, Ascending(ids, n)) + (if n in ids then [SavedOf(info[n])] else [])
  {
    AscendingIn(info, ids, n);
    AscendingIn(info, ids, n + 1);
    var a, b := Ascending(ids, n), Ascending(ids, n + 1);
    if n in ids { assert b[..|b| - 1] == a && b[|b| - 1] == n; } else { assert b == a; }
  }

  /** Fewer entries are listed than exist as long as one is still to come. */
  lemma {:induction false} NotLast(ids: set<int>, id: nat, n: nat)
    requires id < n && id in ids
    ensures |Ascending(ids, id)| < |Ascending(ids, n)|
  {
    AtRank(ids, n, id);
  }

  ghost predicate Ranked(m: map<int, int>, info: map<int, Info>, ids: set<int>, n: int) {
    forall x :: x in info && 0 <= x < n ==> x in m && m[x] == Rank(ids, x)
  }

  /** The first walk: the new entries, and the rank of each. */
  method SaveFresh(m: AddrMan) returns (es: seq<Saved>, mapUnkIds: map<int, int>)
    requires m.Valid()
    ensures es == FreshPart(m.St()) && Ranked(mapUnkIds, m.mapInfo, NewIds(m.mapInfo), m.nIdCount)
  {
    ghost var s, ids := m.St(), NewIds(m.mapInfo);
    es, mapUnkIds := [], map[];
    OwnCount(m.key, s);
    var nIds, id := 0, 0;
    while id < m.nIdCount
      invariant 0 <= id <= m.nIdCount && nIds == |Ascending(ids, id)|
      invariant AllIn(Ascending(ids, id), m.mapInfo)
      invariant es == Entries(m.mapInfo, Ascending(ids, id))
      invariant Ranked(mapUnkIds, m.mapInfo, ids, id)
    {
      NextEntry(m.mapInfo, ids, id);
      Referenced(m.key, s, id);
      if id in m.mapInfo {
        mapUnkIds := mapUnkIds[id := nIds];
        if m.mapInfo[id].refCount != 0 {
          NotLast(ids, id, m.nIdCount);
          assert nIds != m.nNew;
          es := es + [SavedOf(m.mapInfo[id])];
          nIds := nIds + 1;
        }
      }
      id := id + 1;
    }
  }

  /** The second walk: the tried entries. */
  method SaveTried(m: AddrMan) returns (es: seq<Saved>)
    requires m.Valid()
    ensures es == TriedPart(m.St())
  {
    ghost var s, ids := m.St(), TriedIds(m.mapInfo);
    es := [];
    OwnCount(m.key, s);
    var nIds, id := 0, 0;
    while id < m.nIdCount
      invariant 0 <= id <= m.nIdCount && nIds == |Ascending(ids, id)|
      invariant AllIn(Ascending(ids, id), m.mapInfo)
      invariant es == Entries(m.mapInfo, Ascending(ids, id))
    {
      NextEntry(m.mapInfo, ids, id);
      Referenced(m.key, s, id);
      if id in m.mapInfo && m.mapInfo[id].inTried {
        NotLast(ids, id, m.nIdCount);
        assert nIds != m.nTried;
        es := es + [SavedOf(m.mapInfo[id])];
        nIds := nIds + 1;
      }
      id := id + 1;
    }
  }

  method SaveSlot(m: AddrMan, b: int, p: nat, mapUnkIds: map<int, int>, row: seq<int>) returns (longer: seq<int>)
    requires m.Valid() && 0 <= b < NEW_BUCKETS && Ranked(mapUnkIds, m.mapInfo, NewIds(m.mapInfo), m.nIdCount)
    requires p < BUCKET_SIZE && row == Row(m.St(), b, p)
    ensures longer == Row(m.St(), b, p + 1)
  {
    longer := row;
    GridAt(m.vvNew, b, p);
    if m.vvNew[b, p] != NONE {
      assert NewOk(m.key, m.St(), (b, p)) && AddrOk(m.St(), m.vvNew[b, p]);
      longer := row + [mapUnkIds[m.vvNew[b, p]]];
    }
  }

  method SaveRow(m: AddrMan, b: int, mapUnkIds: map<int, int>) returns (row: seq<int>)
    requires m.Valid() && 0 <= b < NEW_BUCKETS && Ranked(mapUnkIds, m.mapInfo, NewIds(m.mapInfo), m.nIdCount)
    ensures row == Row(m.St(), b, BUCKET_SIZE)
  {
    row := [];
    var p := 0;
    while p < BUCKET_SIZE
      invariant 0 <= p <= BUCKET_SIZE && row == Row(m.St(), b, p)
    {
      row := SaveSlot(m, b, p, mapUnkIds, row);
      p := p + 1;
    }
  }

  method SaveRows(m: AddrMan, mapUnkIds: map<int, int>) returns (rows: seq<seq<int>>)
    requires m.Valid() && Ranked(mapUnkIds, m.mapInfo, NewIds(m.mapInfo), m.nIdCount)
    ensures rows == Rows(m.St(), NEW_BUCKETS)
  {
    rows := [];
    var b := 0;
    while b < NEW_BUCKETS
      invariant 0 <= b <= NEW_BUCKETS && rows == Rows(m.St(), b)
    {
      var row := SaveRow(m, b, mapUnkIds);
      rows := rows + [row];
      b := b + 1;
    }
  }

  method Serialize(m: AddrMan) returns (f: File)
    requires m.Valid()
    ensures f == Save(m.St())
  {
    var fresh_, mapUnkIds := SaveFresh(m);
    var tried := SaveTried(m);
    var rows := SaveRows(m, mapUnkIds);
    f := File(1, NEW_BUCKETS, fresh_, tried, rows);
  }

  // ---------- loading ----------

  /** The same tables with other counters. */
  ghost function Counters(s: State, ids: int, fresh_: int, tried: int): State {
    s.(idCount := ids, nNew := fresh_, nTried := tried)
  }

  method ReadEntry(m: AddrMan, n: int, e: Saved, ghost s: State)
    requires s.idCount == n && m.St() == Counters(s, m.nIdCount, m.nNew, m.nTried)
    modifies m`mapInfo, m`mapAddr, m`vRandom
    ensures m.St() == Counters(Restore(s, e), m.nIdCount, m.nNew, m.nTried)
  {
    m.mapAddr := m.mapAddr[e.addr.svc.ip := n];
    var info := Info(e.addr, e.source, 0, e.lastSuccess, e.attempts, 0, false, |m.vRandom|);
    m.vRandom := m.vRandom + [n];
    m.mapInfo := m.mapInfo[n := info];
    assert Restore(s, e).info == s.info[n := info];
  }

  /** One turn of the first loop. */
  method ReadFresh(m: AddrMan, n: int, e: Saved, usable: bool, ghost s: State)
    requires m.Shaped() && s.idCount == n && m.St() == Counters(s, m.nIdCount, m.nNew, m.nTried)
    modifies m`mapInfo, m`mapAddr, m`vRandom, m.vvNew
    ensures m.St() == Counters(LoadFreshOne(m.key, s, e, usable), m.nIdCount, m.nNew, m.nTried)
  {
    ReadEntry(m, n, e, s);
    if !usable {
      var nUBucket := NewBucket(m.key, e.addr.svc.ip, e.source);
      var nUBucketPos := Position(m.key, true, nUBucket, e.addr.svc);
      GridAt(m.vvNew, nUBucket, nUBucketPos);
      if m.vvNew[nUBucket, nUBucketPos] == NONE {
        m.HoldAt(n, nUBucket, nUBucketPos);
      }
    }
  }

  /** The new entries are the ids below `n`. */
  ghost predicate FreshAt(s: State, i: int, n: int) {
    i in s.info && !s.info[i].inTried <==> 0 <= i < n
  }

  ghost predicate Numbered(s: State, n: int) {
    s.idCount == n && s.nNew == n && s.nTried == 0 && forall i :: FreshAt(s, i, n)
  }

  lemma OneMoreNumbered(k: Hasher, s: State, e: Saved, usable: bool, n: nat)
    requires Numbered(s, n)
    ensures Numbered(LoadFreshOne(k, s, e, usable), n + 1)
  {
    var t, m := LoadFreshOne(k, s, e, usable), n + 1;
    forall i ensures FreshAt(t, i, m) { assert FreshAt(s, i, n); }
  }

  ghost predicate ReadsNumbered(read: Reader, es: seq<Saved>, i: nat, s: State)
    requires i < |es|
  {
    Numbered(s, i) ==> Numbered(read(s, es[i]), i + 1)
  }

  lemma {:induction false} FoldNumbered(read: Reader, s: State, es: seq<Saved>, n: nat)
    requires n <= |es| && Numbered(s, 0) && forall i: nat, u :: i < |es| ==> ReadsNumbered(read, es, i, u)
    ensures Numbered(Fold(read, s, es, n), n)
  {
    if n > 0 {
      FoldNumbered(read, s, es, n - 1);
      assert ReadsNumbered(read, es, n - 1, Fold(read, s, es, n - 1));
    }
  }

  lemma FreshReaderNumbered(k: Hasher, usable: bool, es: seq<Saved>)
    ensures forall i: nat, u :: i < |es| ==> ReadsNumbered(FreshReader(k, usable), es, i, u)
  {
    forall i: nat, u | i < |es| ensures ReadsNumbered(FreshReader(k, usable), es, i, u) {
      if Numbered(u, i) { OneMoreNumbered(k, u, es[i], usable, i); }
    }
  }

  lemma EmptyNumbered()
    ensures Numbered(Empty(), 0)
  {
    forall i ensures FreshAt(Empty(), i, 0) {}
  }

  ghost predicate ReadsFresh(read: Reader, k: Hasher, usable: bool, s: State, e: Saved) {
    read(s, e) == LoadFreshOne(k, s, e, usable)
  }

  method FreshTurn(m: AddrMan, n: int, e: Saved, usable: bool, ghost s: State, ghost read: Reader)
    requires m.Shaped() && s.idCount == n && m.St() == Counters(s, m.nIdCount, m.nNew, m.nTried)
    requires ReadsFresh(read, m.key, usable, s, e)
    modifies m`mapInfo, m`mapAddr, m`vRandom, m.vvNew
    ensures m.St() == Counters(read(s, e), m.nIdCount, m.nNew, m.nTried)
  {
    ReadFresh(m, n, e, usable, s);
  }

  method FreshLoop(m: AddrMan, es: seq<Saved>, usable: bool, ghost s: State, ghost read: Reader)
    requires m.Shaped() && m.St() == Counters(s, m.nIdCount, m.nNew, m.nTried) && Numbered(s, 0)
    requires forall u, e :: ReadsFresh(read, m.key, usable, u, e)
    requires forall i: nat, u :: i < |es| ==> ReadsNumbered(read, es, i, u)
    modifies m`mapInfo, m`mapAddr, m`vRandom, m.vvNew
    ensures m.St() == Counters(Fold(read, s, es, |es|), m.nIdCount, m.nNew, m.nTried)
  {
    var n := 0;
    while n < |es|
      invariant 0 <= n <= |es| && m.St() == Counters(Fold(read, s, es, n), m.nIdCount, m.nNew, m.nTried)
    {
      ghost var u := Fold(read, s, es, n);
      FoldNumbered(read, s, es, n);
      assert ReadsFresh(read, m.key, usable, u, es[n]);
      FreshTurn(m, n, es[n], usable, u, read);
      n := n + 1;
    }
  }

  /** One turn of the second loop: the entry is lost when its slot is taken. */
  method ReadTried(m: AddrMan, e: Saved, ghost s: State) returns (lost: bool)
    requires m.Shaped() && m.St() == Counters(s, s.idCount, m.nNew, m.nTried)
    modifies m`nIdCount, m`mapInfo, m`mapAddr, m`vRandom, m.vvTried
    ensures var t := LoadTriedOne(m.key, s, e);
            m.St() == Counters(t, t.idCount, m.nNew, m.nTried) && t.nTried == s.nTried + (if lost then 0 else 1)
  {
    var nKBucket := TriedBucket(m.key, e.addr.svc);
    var nKBucketPos := Position(m.key, false, nKBucket, e.addr.svc);
    GridAt(m.vvTried, nKBucket, nKBucketPos);
    lost := m.vvTried[nKBucket, nKBucketPos] != NONE;
    if !lost {
      var id := m.nIdCount;
      ReadEntry(m, id, e, s);
      m.mapInfo := m.mapInfo[id := m.mapInfo[id].(inTried := true)];
      Put(m.vvTried, nKBucket, nKBucketPos, id);
      m.nIdCount := m.nIdCount + 1;
    }
  }

  ghost predicate ReadsTriedAs(read: Reader, k: Hasher, s: State, e: Saved) {
    read(s, e) == LoadTriedOne(k, s, e)
  }

  /** The tables of `s`, with the counters of the file. */
  ghost predicate Holding(m: AddrMan, s: State, fresh_: int, tried: int)
    reads m, m.vvNew, m.vvTried
  {
    m.St() == Counters(s, s.idCount, fresh_, tried)
  }

  method TriedTurn(m: AddrMan, e: Saved, ghost s: State, ghost read: Reader, nLost: int, ghost n: nat)
    returns (nLostNow: int)
    requires m.Shaped() && TriedSoFar(m, s, n, nLost) && ReadsTriedAs(read, m.key, s, e)
    modifies m`nIdCount, m`mapInfo, m`mapAddr, m`vRandom, m.vvTried
    ensures TriedSoFar(m, read(s, e), n + 1, nLostNow)
  {
    var lost := ReadTried(m, e, s);
    nLostNow := if lost then nLost + 1 else nLost;
  }

  method TriedLoop(m: AddrMan, es: seq<Saved>, ghost s: State, ghost read: Reader) returns (nLost: int)
    requires m.Shaped() && Holding(m, s, m.nNew, m.nTried) && s.nTried == 0
    requires forall u, e :: ReadsTriedAs(read, m.key, u, e)
    modifies m`nIdCount, m`mapInfo, m`mapAddr, m`vRandom, m.vvTried
    ensures Holding(m, Fold(read, s, es, |es|), m.nNew, m.nTried) && nLost == |es| - Fold(read, s, es, |es|).nTried
  {
    var n := 0;
    nLost := 0;
    while n < |es|
      invariant 0 <= n <= |es| && TriedSoFar(m, Fold(read, s, es, n), n, nLost)
    {
      assert ReadsTriedAs(read, m.key, Fold(read, s, es, n), es[n]);
      nLost := TriedTurn(m, es[n], Fold(read, s, es, n), read, nLost, n);
      n := n + 1;
    }
  }

  /** After `n` entries of which `nLost` were lost, the tables are those of `u`. */
  ghost predicate TriedSoFar(m: AddrMan, u: State, n: nat, nLost: int)
    reads m, m.vvNew, m.vvTried
  {
    Holding(m, u, m.nNew, m.nTried) && nLost == n - u.nTried
  }

  /** After the new entries, only tried ones are added. */
  ghost predicate FreshKept(s: State, n: int) {
    s.idCount >= n && s.nNew == n && forall i :: FreshAt(s, i, n)
  }

  lemma TriedOneKept(k: Hasher, s: State, e: Saved, n: nat)
    requires FreshKept(s, n)
    ensures FreshKept(LoadTriedOne(k, s, e), n)
  {
    var t := LoadTriedOne(k, s, e);
    forall i ensures FreshAt(t, i, n) { assert FreshAt(s, i, n); }
  }

  lemma {:induction false} FoldKept(read: Reader, s: State, es: seq<Saved>, n: nat, m: nat)
    requires n <= |es| && FreshKept(s, m) && forall u, e :: FreshKept(u, m) ==> FreshKept(read(u, e), m)
    ensures FreshKept(Fold(read, s, es, n), m)
  {
    if n > 0 { FoldKept(read, s, es, n - 1, m); }
  }

  lemma TriedReaderKept(k: Hasher, n: nat)
    ensures forall u, e :: FreshKept(u, n) ==> FreshKept(TriedReader(k)(u, e), n)
  {
    forall u, e | FreshKept(u, n) ensures FreshKept(TriedReader(k)(u, e), n) { TriedOneKept(k, u, e, n); }
  }

  /** One saved placement. */
  method ReadSlot(m: AddrMan, bucket: nat, nIndex: int, usable: bool)
    requires m.Shaped() && (usable ==> bucket < NEW_BUCKETS) && FreshKept(m.St(), m.nNew)
    modifies m`mapInfo, m.vvNew
    ensures m.St() == if usable then LoadSlotOne(m.key, old(m.St()), bucket, nIndex) else old(m.St())
    ensures FreshKept(m.St(), m.nNew)
  {
    ghost var s := m.St();
    assert FreshAt(s, nIndex, m.nNew);
    if 0 <= nIndex < m.nNew {
      var info := m.mapInfo[nIndex];
      var nUBucketPos := Position(m.key, true, bucket, info.addr.svc);
      if usable {
        GridAt(m.vvNew, bucket, nUBucketPos);
        if m.vvNew[bucket, nUBucketPos] == NONE && info.refCount < MAX_REFS {
          m.HoldAt(nIndex, bucket, nUBucketPos);
          HoldKept(s, (bucket, nUBucketPos), nIndex, m.nNew);
        }
      }
    }
  }

  lemma HoldKept(s: State, l: Slot, id: int, n: int)
    requires FreshKept(s, n) && id in s.info
    ensures FreshKept(Hold(s, l, id), n)
  {
    forall i ensures FreshAt(Hold(s, l, id), i, n) { assert FreshAt(s, i, n); }
  }

  method ReadRow(m: AddrMan, bucket: nat, row: seq<int>, usable: bool)
    requires m.Shaped() && (usable ==> bucket < NEW_BUCKETS) && FreshKept(m.St(), m.nNew)
    modifies m`mapInfo, m.vvNew
    ensures m.St() == if usable then LoadRow(m.key, old(m.St()), bucket, row) else old(m.St())
    ensures FreshKept(m.St(), m.nNew)
  {
    ghost var s := m.St();
    var n := 0;
    while n < |row|
      invariant 0 <= n <= |row| && FreshKept(m.St(), m.nNew)
      invariant m.St() == if usable then LoadRow(m.key, s, bucket, row[..n]) else s
    {
      LoadRowNext(m.key, s, bucket, row[..n], row[n]);
      assert row[..n + 1] == row[..n] + [row[n]];
      ReadSlot(m, bucket, row[n], usable);
      n := n + 1;
    }
    assert row[..n] == row;
  }

  ghost predicate LoadsBucket(step: Stepper, k: Hasher, f: File, s: State, b: int) {
    step(s, b) == LoadBucket(k, f, s, b)
  }

  method RowTurn(m: AddrMan, f: File, bucket: nat, ghost step: Stepper)
    requires m.Shaped() && bucket < |f.slots| && (Usable(f) ==> bucket < NEW_BUCKETS) && FreshKept(m.St(), m.nNew)
    requires LoadsBucket(step, m.key, f, m.St(), bucket)
    modifies m`mapInfo, m.vvNew
    ensures m.St() == step(old(m.St()), bucket) && FreshKept(m.St(), m.nNew)
  {
    ReadRow(m, bucket, f.slots[bucket], Usable(f));
  }

  method LoadPlacements(m: AddrMan, f: File, ghost step: Stepper)
    requires m.Shaped() && (Usable(f) ==> |f.slots| == NEW_BUCKETS) && FreshKept(m.St(), m.nNew)
    requires forall u, b :: LoadsBucket(step, m.key, f, u, b)
    modifies m`mapInfo, m.vvNew
    ensures m.St() == Repeat(step, old(m.St()), |f.slots|)
  {
    ghost var s := m.St();
    var bucket := 0;
    while bucket < |f.slots|
      invariant 0 <= bucket <= |f.slots| && FreshKept(m.St(), m.nNew)
      invariant m.St() == Repeat(step, s, bucket)
    {
      assert LoadsBucket(step, m.key, f, m.St(), bucket);
      RowTurn(m, f, bucket, step);
      bucket := bucket + 1;
    }
  }

  /** Entries that no slot took are deleted again. */
  method PruneEntries(m: AddrMan)
    requires m.Shaped() && Loading(m.key, m.St()) && m.nIdCount >= 0
    modifies m`mapInfo, m`vRandom, m`mapAddr, m`nNew
    ensures m.St() == Prune(old(m.St()), old(m.nIdCount))
  {
    ghost var s := m.St();
    var id := 0;
    while id < m.nIdCount
      invariant 0 <= id <= m.nIdCount && m.St() == Prune(s, id) && Loading(m.key, m.St())
    {
      PruneTurn(m, id);
      id := id + 1;
    }
  }

  method PruneTurn(m: AddrMan, id: int)
    requires m.Shaped() && Loading(m.key, m.St())
    modifies m`mapInfo, m`vRandom, m`mapAddr, m`nNew
    ensures m.St() == PruneOne(old(m.St()), id) && Loading(m.key, m.St())
  {
    PruneOneKeeps(m.key, m.St(), id);
    if id in m.mapInfo && !m.mapInfo[id].inTried && m.mapInfo[id].refCount == 0 {
      m.Delete(id);
    }
  }

  /** The readers and the states they lead to, stage by stage. */
  datatype Plan = Plan(fresh_: Reader, tried: Reader, buckets: Stepper, s0: State, s1: State, s2: State, s3: State)

  ghost predicate PlanReads(k: Hasher, f: File, p: Plan) {
    && (forall u, e :: ReadsFresh(p.fresh_, k, Usable(f), u, e))
    && (forall i: nat, u :: i < |f.fresh_| ==> ReadsNumbered(p.fresh_, f.fresh_, i, u))
    && (forall u, e :: ReadsTriedAs(p.tried, k, u, e))
    && (forall u, b :: LoadsBucket(p.buckets, k, f, u, b))
  }

  ghost predicate PlanStates(k: Hasher, f: File, p: Plan) {
    && Numbered(p.s0, 0)
    && p.s1 == Fold(p.fresh_, p.s0, f.fresh_, |f.fresh_|) && Numbered(p.s1, |f.fresh_|)
    && p.s2 == Fold(p.tried, p.s1, f.tried, |f.tried|) && FreshKept(p.s2, |f.fresh_|)
    && p.s3 == Repeat(p.buckets, p.s2, |f.slots|)
  }

  lemma MakePlan(k: Hasher, f: File) returns (p: Plan)
    ensures PlanReads(k, f, p) && PlanStates(k, f, p) && p.s0 == Empty() && p.s3 == LoadSlots(k, f, |f.slots|)
  {
    var s1 := LoadFresh(k, f, |f.fresh_|);
    var s2 := LoadTried(k, f, |f.tried|);
    var s3 := LoadSlots(k, f, |f.slots|);
    p := Plan(FreshReader(k, Usable(f)), TriedReader(k), BucketReader(k, f), Empty(), s1, s2, s3);
    PlanReadsOk(k, f, p);
    EmptyNumbered();
    FoldNumbered(p.fresh_, Empty(), f.fresh_, |f.fresh_|);
    TriedReaderKept(k, |f.fresh_|);
    FoldKept(p.tried, s1, f.tried, |f.tried|, |f.fresh_|);
  }

  lemma PlanReadsOk(k: Hasher, f: File, p: Plan)
    requires p.fresh_ == FreshReader(k, Usable(f)) && p.tried == TriedReader(k) && p.buckets == BucketReader(k, f)
    ensures PlanReads(k, f, p)
  {
    FreshReaderNumbered(k, Usable(f), f.fresh_);
    forall u, e ensures ReadsFresh(p.fresh_, k, Usable(f), u, e) {}
    forall u, e ensures ReadsTriedAs(p.tried, k, u, e) {}
    forall u, b ensures LoadsBucket(p.buckets, k, f, u, b) {}
  }

  method LoadTables(m: AddrMan, f: File, ghost p: Plan)
    requires m.Shaped() && (Usable(f) ==> |f.slots| == NEW_BUCKETS)
    requires PlanReads(m.key, f, p) && PlanStates(m.key, f, p)
    requires m.St() == Counters(p.s0, 0, |f.fresh_|, |f.tried|)
    modifies m, m.vvNew, m.vvTried
    ensures m.St() == p.s3
  {
    FreshLoop(m, f.fresh_, Usable(f), p.s0, p.fresh_);
    m.nIdCount := m.nNew;
    assert Holding(m, p.s1, m.nNew, m.nTried);
    var nLost := TriedLoop(m, f.tried, p.s1, p.tried);
    m.nTried := m.nTried - nLost;
    assert m.St() == p.s2;
    LoadPlacements(m, f, p.buckets);
  }

  /** Build a manager from any file.  It is consistent exactly when no entry that found a slot shares its
      address with another one, and its tables are in order in any case. */
  method Unserialize(k: Hasher, f: File) returns (m: AddrMan)
    requires Usable(f) ==> |f.slots| == NEW_BUCKETS
    ensures m.key == k && m.Shaped() && m.St() == Load(k, f) && Tables(k, m.St(), {}, {})
    ensures m.Valid() <==> Clear(LoadSlots(k, f, |f.slots|))
    ensures fresh(m) && fresh(m.vvNew) && fresh(m.vvTried)
  {
    ghost var p := MakePlan(k, f);
    m := Announced(k, |f.fresh_|, |f.tried|);
    LoadTables(m, f, p);
    SlotsRead(k, f, |f.slots|);
    LoadExact(k, f);
    PruneEntries(m);
  }

  /** An empty manager that has read the counters of the file. */
  method Announced(k: Hasher, fresh_: int, tried: int) returns (m: AddrMan)
    ensures m.key == k && m.Shaped() && m.St() == Counters(Empty(), 0, fresh_, tried)
    ensures fresh(m) && fresh(m.vvNew) && fresh(m.vvTried)
  {
    m := new AddrMan(k);
    m.nNew, m.nTried := fresh_, tried;
  }

  /** Through the file and back. */
  method SaveAndLoad(m: AddrMan) returns (n: AddrMan)
    requires m.Valid()
    ensures n.Valid() && Renamed(m.St(), n.St())
  {
    RoundTrip(m.key, m.St());
    var f := Serialize(m);
    n := Unserialize(m.key, f);
  }
}
