/** The address manager on disk: what is saved, and how the tables are rebuilt from a file.  Ids, the
    random order, the tried table and the index by address are not saved. */
module AddrFile {
  import opened AddrTable
  import opened AddrRules

  /** What is kept of an entry; the time of the last attempt is not. */
  datatype Saved = Saved(addr: Address, source: Ip, lastSuccess: int, attempts: int)

  /** `slots` lists, bucket by bucket, positions in `fresh_` of the occupants of the new table. */
  datatype File = File(version: nat, buckets: int, fresh_: seq<Saved>, tried: seq<Saved>, slots: seq<seq<int>>)

  function SavedOf(i: Info): Saved {
    Saved(i.addr, i.source, i.lastSuccess, i.attempts)
  }

  /** Whether the saved placement in the new table can be used. */
  predicate Usable(f: File) {
    f.version == 1 && f.buckets == NEW_BUCKETS
  }

  function All(f: File): seq<Saved> {
    f.fresh_ + f.tried
  }

  /** No address twice. */
  ghost predicate Distinct(es: seq<Saved>) {
    forall i, j :: 0 <= i < j < |es| ==> es[i].addr.svc.ip != es[j].addr.svc.ip
  }

  ghost function Ips(es: seq<Saved>): set<Ip> {
    set e | e in es :: e.addr.svc.ip
  }

  lemma NextIp(es: seq<Saved>, n: nat)
    requires Distinct(es) && n < |es|
    ensures es[n].addr.svc.ip !in Ips(es[..n]) && Ips(es[..n + 1]) == Ips(es[..n]) + {es[n].addr.svc.ip}
  {
    assert es[..n + 1] == es[..n] + [es[n]];
  }

  // ---------- consistency while loading ----------

  ghost function Idle(s: State): set<int> {
    set id | id in s.info && !s.info[id].inTried && s.info[id].refCount == 0
  }

  ghost predicate Loading(k: Hasher, s: State) {
    Tables(k, s, Idle(s), {})
  }

  /** Idle entries are the ones without a slot. */
  lemma IdleIs(k: Hasher, s: State, idle: set<int>, uncounted: set<int>)
    requires Tables(k, s, idle, uncounted)
    ensures idle == Idle(s)
  {
    forall id ensures id in idle <==> id in Idle(s) {
      assert CountOk(k, s, id, idle);
      if id in idle { assert id in NewIds(s.info); }
    }
  }

  ghost predicate CoverOk(s: State, id: int) {
    id in s.info ==> s.info[id].addr.svc.ip in s.addr
  }

  /** While a file is read, every address is indexed under one of the entries that have it: the last one.
      When no address comes twice (`distinct`), the index is exact. */
  ghost predicate Indexing(s: State, distinct: bool) {
    && (forall id :: CoverOk(s, id)) && (forall ip :: IpOk(s, ip))
    && (distinct ==> ByAddress(s))
  }

  lemma RewrittenIndexing(s: State, t: State, id: int, distinct: bool)
    requires Indexing(s, distinct) && id in s.info && Rewritten(s, t, id)
    ensures Indexing(t, distinct)
  {
    if distinct { SetInfoIndexed(s, t, id); }
    forall x ensures CoverOk(t, x) { assert CoverOk(s, x); }
    forall ip ensures IpOk(t, ip) { assert IpOk(s, ip); }
  }

  lemma CreateIndexing(s: State, a: Address, source: Ip, distinct: bool)
    requires Indexing(s, distinct) && s.idCount !in s.info && (distinct ==> a.svc.ip !in s.addr)
    ensures Indexing(Create(s, a, source), distinct)
  {
    var t := Create(s, a, source);
    if distinct { CreateIndexed(s, a, source); }
    forall x ensures CoverOk(t, x) { assert CoverOk(s, x); }
    forall ip ensures IpOk(t, ip) { assert IpOk(s, ip); }
  }

  /** A saved entry gets the next id and the last place in the random order. */
  function Restore(s: State, e: Saved): State {
    var t := Create(s, e.addr, e.source);
    SetInfo(t, s.idCount, t.info[s.idCount].(lastSuccess := e.lastSuccess, attempts := e.attempts))
  }

  lemma RestoreKeeps(k: Hasher, s: State, e: Saved)
    requires Loading(k, s)
    ensures s.idCount !in s.info && Tables(k, Restore(s, e), Idle(s) + {s.idCount}, {s.idCount})
  {
    CreateTables(k, s, e.addr, e.source, Idle(s));
    var t := Create(s, e.addr, e.source);
    TouchTables(k, t, s.idCount, t.info[s.idCount].(lastSuccess := e.lastSuccess, attempts := e.attempts),
               Idle(s) + {s.idCount}, {s.idCount});
  }

  lemma RestoreIndexing(s: State, e: Saved, distinct: bool)
    requires Indexing(s, distinct) && s.idCount !in s.info && (distinct ==> e.addr.svc.ip !in s.addr)
    ensures Indexing(Restore(s, e), distinct) && Restore(s, e).addr.Keys == s.addr.Keys + {e.addr.svc.ip}
  {
    CreateIndexing(s, e.addr, e.source, distinct);
    RewrittenIndexing(Create(s, e.addr, e.source), Restore(s, e), s.idCount, distinct);
  }

  /** One entry of the new table; when the saved placement is of no use it goes to its home slot, if free. */
  function LoadFreshOne(k: Hasher, s: State, e: Saved, usable: bool): State {
    var t := Restore(s, e).(nNew := s.nNew + 1);
    var home := HomeSlot(k, t.info[s.idCount]);
    if !usable && home in t.newTab && t.newTab[home] == NONE then Hold(t, home, s.idCount) else t
  }

  lemma LoadFreshOneKeeps(k: Hasher, s: State, e: Saved, usable: bool)
    requires Loading(k, s)
    ensures Loading(k, LoadFreshOne(k, s, e, usable))
  {
    RestoreKeeps(k, s, e);
    var id, idle := s.idCount, Idle(s) + {s.idCount};
    RecountTables(k, Restore(s, e), id, idle, {id});
    assert {id} - {id} == {};
    var t := Restore(s, e).(nNew := s.nNew + 1);
    IdleIs(k, t, idle, {});
    var home := HomeSlot(k, t.info[id]);
    if !usable && home in t.newTab && t.newTab[home] == NONE {
      HoldTables(k, t, home, id, idle, {});
      IdleIs(k, Hold(t, home, id), idle - {id}, {});
    }
  }

  lemma LoadFreshOneIndexing(k: Hasher, s: State, e: Saved, usable: bool, distinct: bool)
    requires Loading(k, s) && Indexing(s, distinct) && (distinct ==> e.addr.svc.ip !in s.addr)
    ensures Indexing(LoadFreshOne(k, s, e, usable), distinct)
    ensures LoadFreshOne(k, s, e, usable).addr.Keys == s.addr.Keys + {e.addr.svc.ip}
  {
    assert IdOk(s, s.idCount);
    RestoreIndexing(s, e, distinct);
    RewrittenIndexing(Restore(s, e), LoadFreshOne(k, s, e, usable), s.idCount, distinct);
  }

  /** One entry of the tried table; it is lost when its slot is taken. */
  function LoadTriedOne(k: Hasher, s: State, e: Saved): State {
    var l := TriedSlot(k, e.addr.svc);
    if l in s.triedTab && s.triedTab[l] == NONE then Promote(Restore(s, e), l, s.idCount) else s
  }

  lemma LoadTriedOneKeeps(k: Hasher, s: State, e: Saved)
    requires Loading(k, s)
    ensures Loading(k, LoadTriedOne(k, s, e))
  {
    var l := TriedSlot(k, e.addr.svc);
    if l in s.triedTab && s.triedTab[l] == NONE {
      RestoreKeeps(k, s, e);
      PromoteTables(k, Restore(s, e), s.idCount, l, Idle(s));
      IdleIs(k, Promote(Restore(s, e), l, s.idCount), Idle(s), {});
    }
  }

  lemma LoadTriedOneIndexing(k: Hasher, s: State, e: Saved, distinct: bool)
    requires Loading(k, s) && Indexing(s, distinct) && (distinct ==> e.addr.svc.ip !in s.addr)
    ensures Indexing(LoadTriedOne(k, s, e), distinct)
    ensures LoadTriedOne(k, s, e).addr.Keys <= s.addr.Keys + {e.addr.svc.ip}
  {
    var l := TriedSlot(k, e.addr.svc);
    assert IdOk(s, s.idCount);
    if l in s.triedTab && s.triedTab[l] == NONE {
      RestoreIndexing(s, e, distinct);
      RewrittenIndexing(Restore(s, e), LoadTriedOne(k, s, e), s.idCount, distinct);
    }
  }

  /** One saved placement: ignored unless it names a new entry with references to spare whose slot in this
      bucket is free. */
  function LoadSlotOne(k: Hasher, s: State, b: int, index: int): State {
    if index in s.info && !s.info[index].inTried then
      var l := NewSlot(k, b, s.info[index].addr.svc);
      if l in s.newTab && s.newTab[l] == NONE && s.info[index].refCount < MAX_REFS then Hold(s, l, index) else s
    else s
  }

  lemma LoadSlotOneKeeps(k: Hasher, s: State, b: int, index: int)
    requires Loading(k, s)
    ensures Loading(k, LoadSlotOne(k, s, b, index))
  {
    if index in s.info && !s.info[index].inTried {
      var l := NewSlot(k, b, s.info[index].addr.svc);
      if l in s.newTab && s.newTab[l] == NONE && s.info[index].refCount < MAX_REFS {
        HoldTables(k, s, l, index, Idle(s), {});
        IdleIs(k, Hold(s, l, index), Idle(s) - {index}, {});
      }
    }
  }

  lemma LoadSlotOneIndexing(k: Hasher, s: State, b: int, index: int, distinct: bool)
    requires Indexing(s, distinct)
    ensures Indexing(LoadSlotOne(k, s, b, index), distinct)
  {
    if index in s.info { RewrittenIndexing(s, LoadSlotOne(k, s, b, index), index, distinct); }
  }

  // ---------- the stages ----------

  type Reader = (State, Saved) -> State

  /** The first `n` entries of a list, read one after the other. */
  function Fold(read: Reader, s: State, es: seq<Saved>, n: nat): State
    requires n <= |es|
  {
    if n == 0 then s else read(Fold(read, s, es, n - 1), es[n - 1])
  }

  function FreshReader(k: Hasher, usable: bool): Reader {
    (s: State, e: Saved) => LoadFreshOne(k, s, e, usable)
  }

  function TriedReader(k: Hasher): Reader {
    (s: State, e: Saved) => LoadTriedOne(k, s, e)
  }

  /** The first `n` entries of the new table. */
  function LoadFresh(k: Hasher, f: File, n: nat): State
    requires n <= |f.fresh_|
  {
    Fold(FreshReader(k, Usable(f)), Empty(), f.fresh_, n)
  }

  /** All of them, and the first `n` of the tried table. */
  function LoadTried(k: Hasher, f: File, n: nat): State
    requires n <= |f.tried|
  {
    Fold(TriedReader(k), LoadFresh(k, f, |f.fresh_|), f.tried, n)
  }

  /** One bucket's list of placements. */
  function LoadRow(k: Hasher, s: State, b: int, row: seq<int>): State {
    if row == [] then s else LoadSlotOne(k, LoadRow(k, s, b, row[..|row| - 1]), b, row[|row| - 1])
  }

  /** The list of bucket `b`, when it can be used. */
  function LoadBucket(k: Hasher, f: File, s: State, b: int): State {
    if Usable(f) && 0 <= b < |f.slots| then LoadRow(k, s, b, f.slots[b]) else s
  }

  type Stepper = (State, int) -> State

  function Repeat(step: Stepper, s: State, n: int): State
    decreases n
  {
    if n <= 0 then s else step(Repeat(step, s, n - 1), n - 1)
  }

  function BucketReader(k: Hasher, f: File): Stepper {
    (s: State, b: int) => LoadBucket(k, f, s, b)
  }

  /** The lists of the first `n` buckets. */
  function LoadSlots(k: Hasher, f: File, n: nat): State {
    Repeat(BucketReader(k, f), LoadTried(k, f, |f.tried|), n)
  }

  ghost function PruneOne(s: State, id: int): State {
    if id in Idle(s) && Deletable(s, id) then Delete(s, id) else s
  }

  ghost function Pruner(): Stepper {
    (s: State, id: int) => PruneOne(s, id)
  }

  /** Among ids below `n`, entries that no slot holds are deleted. */
  ghost function Prune(s: State, n: int): State {
    Repeat(Pruner(), s, n)
  }

  ghost function Load(k: Hasher, f: File): State {
    var s := LoadSlots(k, f, |f.slots|);
    Prune(s, s.idCount)
  }

  // ---------- every stage keeps the invariant ----------

  /** In order so far; and when no address comes twice, exactly indexed, with only addresses from the first
      `n` entries. */
  ghost predicate Sound(k: Hasher, es: seq<Saved>, s: State, n: nat)
    requires n <= |es|
  {
    Loading(k, s) && Indexing(s, Distinct(es)) && (Distinct(es) ==> s.addr.Keys <= Ips(es[..n]))
  }

  lemma SoundFresh(k: Hasher, es: seq<Saved>, s: State, n: nat, usable: bool)
    requires n < |es| && Sound(k, es, s, n)
    ensures Sound(k, es, LoadFreshOne(k, s, es[n], usable), n + 1)
  {
    if Distinct(es) { NextIp(es, n); }
    LoadFreshOneKeeps(k, s, es[n], usable);
    LoadFreshOneIndexing(k, s, es[n], usable, Distinct(es));
  }

  lemma SoundTried(k: Hasher, es: seq<Saved>, s: State, n: nat)
    requires n < |es| && Sound(k, es, s, n)
    ensures Sound(k, es, LoadTriedOne(k, s, es[n]), n + 1)
  {
    if Distinct(es) { NextIp(es, n); }
    LoadTriedOneKeeps(k, s, es[n]);
    LoadTriedOneIndexing(k, s, es[n], Distinct(es));
  }

  /** Reading entry `m + i` of the file keeps that. */
  ghost predicate ReadsSound(k: Hasher, all: seq<Saved>, m: nat, read: Reader, i: nat, s: State)
    requires m + i < |all|
  {
    Sound(k, all, s, m + i) ==> Sound(k, all, read(s, all[m + i]), m + i + 1)
  }

  lemma {:induction false} FoldSound(
    k: Hasher, all: seq<Saved>, m: nat, read: Reader, s: State, es: seq<Saved>, n: nat)
    requires n <= |es| && m + |es| <= |all| && Sound(k, all, s, m) && es == all[m..m + |es|]
    requires forall i: nat, u :: i < |es| ==> ReadsSound(k, all, m, read, i, u)
    ensures Sound(k, all, Fold(read, s, es, n), m + n)
  {
    if n > 0 {
      FoldSound(k, all, m, read, s, es, n - 1);
      assert ReadsSound(k, all, m, read, n - 1, Fold(read, s, es, n - 1));
    }
  }

  lemma EmptySound(k: Hasher, es: seq<Saved>)
    ensures Sound(k, es, Empty(), 0)
  {
    EmptyConsistent(k);
    InvTables(k, Empty(), {}, {});
    IdleIs(k, Empty(), {}, {});
    forall id ensures CoverOk(Empty(), id) {}
    forall ip ensures IpOk(Empty(), ip) {}
  }

  lemma FreshReads(k: Hasher, all: seq<Saved>, usable: bool, i: nat, s: State)
    requires i < |all|
    ensures ReadsSound(k, all, 0, FreshReader(k, usable), i, s)
  {
    if Sound(k, all, s, i) { SoundFresh(k, all, s, i, usable); }
  }

  lemma FreshLoading(k: Hasher, f: File, n: nat)
    requires n <= |f.fresh_|
    ensures Sound(k, All(f), LoadFresh(k, f, n), n)
  {
    var read := FreshReader(k, Usable(f));
    EmptySound(k, All(f));
    forall i: nat, u | i < |f.fresh_| ensures ReadsSound(k, All(f), 0, read, i, u) {
      FreshReads(k, All(f), Usable(f), i, u);
    }
    assert f.fresh_ == All(f)[0..0 + |f.fresh_|];
    FoldSound(k, All(f), 0, read, Empty(), f.fresh_, n);
  }

  lemma TriedReads(k: Hasher, all: seq<Saved>, m: nat, i: nat, s: State)
    requires m + i < |all|
    ensures ReadsSound(k, all, m, TriedReader(k), i, s)
  {
    if Sound(k, all, s, m + i) { SoundTried(k, all, s, m + i); }
  }

  lemma TriedReadsAll(k: Hasher, f: File)
    ensures forall i: nat, u :: i < |f.tried| ==> ReadsSound(k, All(f), |f.fresh_|, TriedReader(k), i, u)
  {
    forall i: nat, u | i < |f.tried| ensures ReadsSound(k, All(f), |f.fresh_|, TriedReader(k), i, u) {
      TriedReads(k, All(f), |f.fresh_|, i, u);
    }
  }

  lemma TriedFrom(k: Hasher, f: File, s: State, n: nat)
    requires n <= |f.tried| && Sound(k, All(f), s, |f.fresh_|)
    ensures Sound(k, All(f), Fold(TriedReader(k), s, f.tried, n), |f.fresh_| + n)
  {
    TriedReadsAll(k, f);
    assert f.tried == All(f)[|f.fresh_|..|f.fresh_| + |f.tried|];
    FoldSound(k, All(f), |f.fresh_|, TriedReader(k), s, f.tried, n);
  }

  lemma TriedLoading(k: Hasher, f: File, n: nat)
    requires n <= |f.tried|
    ensures Sound(k, All(f), LoadTried(k, f, n), |f.fresh_| + n)
  {
    FreshLoading(k, f, |f.fresh_|);
    TriedFrom(k, f, LoadFresh(k, f, |f.fresh_|), n);
  }

  lemma {:induction false} RowLoading(k: Hasher, s: State, b: int, row: seq<int>)
    requires Loading(k, s)
    ensures Loading(k, LoadRow(k, s, b, row))
  {
    if row != [] {
      RowLoading(k, s, b, row[..|row| - 1]);
      LoadSlotOneKeeps(k, LoadRow(k, s, b, row[..|row| - 1]), b, row[|row| - 1]);
    }
  }

  lemma {:induction false} RowIndexing(k: Hasher, s: State, b: int, row: seq<int>, distinct: bool)
    requires Indexing(s, distinct)
    ensures Indexing(LoadRow(k, s, b, row), distinct)
  {
    if row != [] {
      RowIndexing(k, s, b, row[..|row| - 1], distinct);
      LoadSlotOneIndexing(k, LoadRow(k, s, b, row[..|row| - 1]), b, row[|row| - 1], distinct);
    }
  }

  /** What the readers leave to be pruned. */
  ghost predicate Read(k: Hasher, s: State, distinct: bool) {
    Loading(k, s) && Indexing(s, distinct)
  }

  lemma {:induction false} RepeatRead(k: Hasher, step: Stepper, s: State, n: nat, distinct: bool)
    requires Read(k, s, distinct) && forall u, b :: Read(k, u, distinct) ==> Read(k, step(u, b), distinct)
    ensures Read(k, Repeat(step, s, n), distinct)
  {
    if n > 0 { RepeatRead(k, step, s, n - 1, distinct); }
  }

  lemma BucketRead(k: Hasher, f: File, s: State, b: int, distinct: bool)
    requires Read(k, s, distinct)
    ensures Read(k, LoadBucket(k, f, s, b), distinct)
  {
    if Usable(f) && 0 <= b < |f.slots| {
      RowLoading(k, s, b, f.slots[b]);
      RowIndexing(k, s, b, f.slots[b], distinct);
    }
  }

  lemma BucketsRead(k: Hasher, f: File, distinct: bool)
    ensures forall u, b :: Read(k, u, distinct) ==> Read(k, BucketReader(k, f)(u, b), distinct)
  {
    forall u, b | Read(k, u, distinct) ensures Read(k, BucketReader(k, f)(u, b), distinct) {
      BucketRead(k, f, u, b, distinct);
    }
  }

  /** Whatever is in the file, up to pruning everything is in order but for the index by address. */
  lemma SlotsRead(k: Hasher, f: File, n: nat)
    ensures Read(k, LoadSlots(k, f, n), Distinct(All(f)))
  {
    TriedLoading(k, f, |f.tried|);
    BucketsRead(k, f, Distinct(All(f)));
    RepeatRead(k, BucketReader(k, f), LoadTried(k, f, |f.tried|), n, Distinct(All(f)));
  }

  // ---------- pruning ----------

  lemma PruneOneKeeps(k: Hasher, s: State, id: int)
    requires Loading(k, s)
    ensures Loading(k, PruneOne(s, id)) && Idle(PruneOne(s, id)) == Idle(s) - {id}
    ensures PruneOne(s, id).idCount == s.idCount && (id in Idle(s) ==> Deletable(s, id))
  {
    if id in Idle(s) {
      DeleteTables(k, s, id, Idle(s), {});
      IdleIs(k, Delete(s, id), Idle(s) - {id}, {});
    }
  }

  /** Entries and index after one turn. */
  lemma PruneOneEffect(k: Hasher, s: State, id: int)
    requires Loading(k, s)
    ensures var t := PruneOne(s, id);
            && Keeps(s, t, Idle(s) * {id})
            && t.addr == if id in Idle(s) then s.addr - {s.info[id].addr.svc.ip} else s.addr
  {
    if id in Idle(s) { DeleteTables(k, s, id, Idle(s), {}); }
    assert Idle(s) * {id} == if id in Idle(s) then {id} else {};
  }

  /** What is left without the ids below `n`. */
  ghost function Above(ids: set<int>, n: int): set<int> {
    set id | id in ids && !(0 <= id < n)
  }

  /** Some idle entry below `n` has this address. */
  ghost predicate Erased(s: State, ip: Ip, n: int) {
    exists id :: id in Idle(s) && 0 <= id < n && s.info[id].addr.svc.ip == ip
  }

  ghost predicate IndexLeft(s: State, t: State, ip: Ip, n: int) {
    (ip in t.addr <==> ip in s.addr && !Erased(s, ip, n)) && (ip in t.addr ==> t.addr[ip] == s.addr[ip])
  }

  /** `t` is `s` without the idle entries below `n`, and without their addresses in the index. */
  ghost predicate Pruned(k: Hasher, s: State, t: State, n: nat) {
    && Loading(k, t) && t.idCount == s.idCount && Idle(t) == Above(Idle(s), n)
    && Keeps(s, t, Idle(s) - Above(Idle(s), n))
    && forall ip :: IndexLeft(s, t, ip, n)
  }

  ghost predicate PrunesNext(k: Hasher, s: State, step: Stepper, t: State, n: nat) {
    Pruned(k, s, t, n) ==> Pruned(k, s, step(t, n), n + 1)
  }

  lemma NextErased(s: State, ip: Ip, n: nat)
    ensures Erased(s, ip, n + 1) <==> Erased(s, ip, n) || (n in Idle(s) && s.info[n].addr.svc.ip == ip)
  {
    if Erased(s, ip, n) {
      var id :| id in Idle(s) && 0 <= id < n && s.info[id].addr.svc.ip == ip;
      assert id < n + 1;
    }
  }

  lemma PrunedNext(k: Hasher, s: State, t: State, n: nat)
    ensures PrunesNext(k, s, Pruner(), t, n)
  {
    if Pruned(k, s, t, n) {
      var u := PruneOne(t, n);
      PruneOneKeeps(k, t, n);
      PruneOneEffect(k, t, n);
      NextGone(Idle(s), n);
      KeepsMore(s, t, u, Idle(s) - Above(Idle(s), n), Idle(t) * {n});
      var m := n + 1;
      forall ip ensures IndexLeft(s, u, ip, m) {
        assert IndexLeft(s, t, ip, n);
        NextErased(s, ip, n);
      }
    }
  }

  lemma KeepsMore(s: State, t: State, u: State, gone: set<int>, more: set<int>)
    requires Keeps(s, t, gone) && Keeps(t, u, more)
    ensures Keeps(s, u, gone + more)
  {
  }

  lemma NextGone(ids: set<int>, n: nat)
    ensures Above(ids, n + 1) == Above(ids, n) - {n} && (n in ids ==> n in Above(ids, n))
    ensures ids - Above(ids, n + 1) == ids - Above(ids, n) + Above(ids, n) * {n}
  {
  }

  lemma {:induction false} RepeatPruned(k: Hasher, s: State, step: Stepper, n: nat)
    requires Loading(k, s) && forall t, i: nat :: PrunesNext(k, s, step, t, i)
    ensures Pruned(k, s, Repeat(step, s, n), n)
  {
    if n == 0 {
      assert Above(Idle(s), 0) == Idle(s);
      forall ip ensures IndexLeft(s, s, ip, 0) {}
    } else {
      RepeatPruned(k, s, step, n - 1);
      assert PrunesNext(k, s, step, Repeat(step, s, n - 1), n - 1);
    }
  }

  lemma PruneLoading(k: Hasher, s: State, n: nat)
    requires Loading(k, s)
    ensures Pruned(k, s, Prune(s, n), n)
  {
    forall t, i: nat ensures PrunesNext(k, s, Pruner(), t, i) { PrunedNext(k, s, t, i); }
    RepeatPruned(k, s, Pruner(), n);
  }

  // ---------- when the result is consistent ----------

  /** Two entries with one address: only if both are to be pruned. */
  ghost predicate Apart(s: State, a: int, b: int) {
    a in s.info && b in s.info && a != b && s.info[a].addr.svc.ip == s.info[b].addr.svc.ip ==>
      a in Idle(s) && b in Idle(s)
  }

  /** No entry that found a slot shares its address with another entry that was read. */
  ghost predicate Clear(s: State) {
    forall a, b :: Apart(s, a, b)
  }

  lemma AllIdleGone(k: Hasher, s: State)
    requires Loading(k, s)
    ensures var t := Prune(s, s.idCount);
            Tables(k, t, {}, {}) && Keeps(s, t, Idle(s)) && forall ip :: IndexLeft(s, t, ip, s.idCount)
  {
    PruneLoading(k, s, s.idCount);
    forall id | id in Idle(s) ensures 0 <= id < s.idCount { assert IdOk(s, id); }
    assert Above(Idle(s), s.idCount) == {};
    assert Idle(s) - {} == Idle(s);
  }

  lemma NotErased(s: State, id: int, n: int)
    requires Clear(s) && id in s.info && id !in Idle(s)
    ensures !Erased(s, s.info[id].addr.svc.ip, n)
  {
    forall x | x in Idle(s) ensures s.info[x].addr.svc.ip != s.info[id].addr.svc.ip { assert Apart(s, x, id); }
  }

  lemma ClearIndexes(k: Hasher, s: State, t: State)
    requires Loading(k, s) && Indexing(s, false) && Clear(s)
    requires Tables(k, t, {}, {}) && Keeps(s, t, Idle(s)) && forall ip :: IndexLeft(s, t, ip, s.idCount)
    ensures ByAddress(t)
  {
    forall ip ensures IpOk(t, ip) {
      assert IpOk(s, ip) && IndexLeft(s, t, ip, s.idCount);
      if ip in t.addr { assert IdOk(s, s.addr[ip]); }
    }
    forall id ensures AddrOk(t, id) {
      if id in t.info {
        var ip := s.info[id].addr.svc.ip;
        assert CoverOk(s, id) && IpOk(s, ip) && Apart(s, s.addr[ip], id) && IdOk(t, id);
        assert IndexLeft(s, t, ip, s.idCount);
        NotErased(s, id, s.idCount);
      }
    }
  }

  lemma IndexedClear(k: Hasher, s: State, t: State, a: int, b: int)
    requires Loading(k, s) && ByAddress(t)
    requires Keeps(s, t, Idle(s)) && forall ip :: IndexLeft(s, t, ip, s.idCount)
    requires a in s.info && b in s.info && a != b && s.info[a].addr.svc.ip == s.info[b].addr.svc.ip
    ensures a in Idle(s)
  {
    assert AddrOk(t, a) && AddrOk(t, b) && IdOk(s, b);
    assert IndexLeft(s, t, s.info[a].addr.svc.ip, s.idCount);
  }

  /** Whatever is in the file, the loaded tables are in order; and the whole state is consistent exactly when
      no entry that found a slot shares its address with another entry that was read. */
  lemma LoadExact(k: Hasher, f: File)
    ensures Tables(k, Load(k, f), {}, {})
    ensures Consistent(k, Load(k, f)) <==> Clear(LoadSlots(k, f, |f.slots|))
  {
    var s, t := LoadSlots(k, f, |f.slots|), Load(k, f);
    SlotsRead(k, f, |f.slots|);
    AllIdleGone(k, s);
    InvTables(k, t, {}, {});
    if Clear(s) { ClearIndexes(k, s, t); }
    if ByAddress(t) {
      forall a, b ensures Apart(s, a, b) {
        if a in s.info && b in s.info && a != b && s.info[a].addr.svc.ip == s.info[b].addr.svc.ip {
          IndexedClear(k, s, t, a, b);
          IndexedClear(k, s, t, b, a);
        }
      }
    }
  }

  /** In particular when no address occurs twice. */
  lemma LoadConsistent(k: Hasher, f: File)
    requires Distinct(All(f))
    ensures Consistent(k, Load(k, f))
  {
    var s := LoadSlots(k, f, |f.slots|);
    SlotsRead(k, f, |f.slots|);
    LoadExact(k, f);
    forall a, b ensures Apart(s, a, b) { assert AddrOk(s, a) && AddrOk(s, b); }
  }

  /** A hash under which the source of an address alone decides its new bucket. */
  const BY_SOURCE := Hasher(
    ip => ip, svc => 0, (g, j) => 0, (g, from) => 0, (from, j) => from, (isNew, bucket, svc) => 0)

  const TWICE := [Saved(Address(Service(7, 80), {}, 0), 1, 0, 0), Saved(Address(Service(7, 80), {}, 0), 2, 0, 0)]

  /** One address saved twice, from two sources: both find a slot, and the index can name only one of them. */
  lemma RepeatedAddressBreaks()
    ensures !Consistent(BY_SOURCE, Load(BY_SOURCE, File(0, 0, TWICE, [], [])))
  {
    var k, f := BY_SOURCE, File(0, 0, TWICE, [], []);
    EmptyGridSlots(NEW_BUCKETS, (1, 0));
    EmptyGridSlots(NEW_BUCKETS, (2, 0));
    FindsHome(k, Empty(), TWICE[0], (1, 0));
    FindsHome(k, LoadFreshOne(k, Empty(), TWICE[0], false), TWICE[1], (2, 0));
    TwoRead(k, f);
    assert !Apart(LoadSlots(k, f, 0), 0, 1);
    LoadExact(k, f);
  }

  lemma FindsHome(k: Hasher, s: State, e: Saved, home: Slot)
    requires home == NewSlot(k, NewBucket(k, e.addr.svc.ip, e.source), e.addr.svc)
    requires home in s.newTab && s.newTab[home] == NONE
    ensures var t := LoadFreshOne(k, s, e, false);
            var i := Info(e.addr, e.source, 0, e.lastSuccess, e.attempts, 1, false, |s.random|);
            t.idCount == s.idCount + 1 && t.info == s.info[s.idCount := i] && t.newTab == s.newTab[home := s.idCount]
  {
  }

  lemma TwoRead(k: Hasher, f: File)
    requires f == File(0, 0, TWICE, [], [])
    ensures LoadSlots(k, f, 0) == LoadFreshOne(k, LoadFreshOne(k, Empty(), TWICE[0], false), TWICE[1], false)
  {
    var read := FreshReader(k, false);
    assert Fold(read, Empty(), TWICE, 1) == read(Empty(), TWICE[0]);
    assert Fold(read, Empty(), TWICE, 2) == read(read(Empty(), TWICE[0]), TWICE[1]);
  }
}
