/** Saving the address manager and loading it again gives the same tables under new ids. */
module AddrSave {
  import opened AddrTable
  import opened AddrRules
  import opened AddrFile

  // ---------- ids in order ----------

  /** The ids of a set below `n`, in ascending order, as a walk over the map visits them. */
  function Ascending(ids: set<int>, n: nat): seq<int> {
    if n == 0 then [] else Ascending(ids, n - 1) + (if n - 1 in ids then [n - 1] else [])
  }

  /** How many come before. */
  function Rank(ids: set<int>, id: int): nat {
    if id < 0 then 0 else |Ascending(ids, id)|
  }

  lemma {:induction false} AtRank(ids: set<int>, n: nat, id: int)
    requires 0 <= id < n && id in ids
    ensures Rank(ids, id) < |Ascending(ids, n)| && Ascending(ids, n)[Rank(ids, id)] == id
  {
    if id < n - 1 { AtRank(ids, n - 1, id); }
  }

  lemma {:induction false} RankOf(ids: set<int>, n: nat, i: nat)
    requires i < |Ascending(ids, n)|
    ensures var id := Ascending(ids, n)[i]; 0 <= id < n && id in ids && Rank(ids, id) == i
  {
    if i < |Ascending(ids, n - 1)| { RankOf(ids, n - 1, i); }
  }

  lemma {:induction false} AscendingCount(ids: set<int>, n: nat)
    requires forall id :: id in ids ==> 0 <= id < n
    ensures |Ascending(ids, n)| == |ids|
  {
    if n == 0 {
      assert forall id :: id !in ids;
      assert ids == {};
    } else {
      var less := ids - {n - 1};
      AscendingCount(less, n - 1);
      AscendingSame(ids, less, n - 1);
    }
  }

  lemma {:induction false} AscendingSame(ids: set<int>, less: set<int>, n: nat)
    requires forall id :: 0 <= id < n ==> (id in ids <==> id in less)
    ensures Ascending(ids, n) == Ascending(less, n)
  {
    if n > 0 { AscendingSame(ids, less, n - 1); }
  }

  // ---------- what is saved ----------

  predicate AllIn(ids: seq<int>, info: map<int, Info>) {
    forall i :: 0 <= i < |ids| ==> ids[i] in info
  }

  function Entries(info: map<int, Info>, ids: seq<int>): (es: seq<Saved>)
    requires AllIn(ids, info)
    ensures |es| == |ids|
  {
    if ids == [] then [] else Entries(info, ids[..|ids| - 1]) + [SavedOf(info[ids[|ids| - 1]])]
  }

  lemma {:induction false} EntryAt(info: map<int, Info>, ids: seq<int>, i: nat)
    requires i < |ids| && AllIn(ids, info)
    ensures Entries(info, ids)[i] == SavedOf(info[ids[i]])
  {
    if i < |ids| - 1 { EntryAt(info, ids[..|ids| - 1], i); }
  }

  /** The occupants of the first `p` slots of a bucket, by rank. */
  ghost function Row(s: State, b: int, p: nat): seq<int>
    decreases s, p
  {
    if p == 0 then []
    else
      var l := (b, p - 1);
      Row(s, b, p - 1) + (if l in s.newTab && s.newTab[l] != NONE then [Rank(NewIds(s.info), s.newTab[l])] else [])
  }

  ghost function Rows(s: State, n: nat): (rows: seq<seq<int>>)
    ensures |rows| == n
    decreases s, n
  {
    if n == 0 then [] else Rows(s, n - 1) + [Row(s, n - 1, BUCKET_SIZE)]
  }

  lemma {:induction false} RowAt(s: State, n: nat, b: nat)
    requires b < n
    ensures Rows(s, n)[b] == Row(s, b, BUCKET_SIZE)
  {
    if b < n - 1 { RowAt(s, n - 1, b); }
  }

  ghost function FreshIds(s: State): (ids: seq<int>)
    requires s.idCount >= 0
    ensures AllIn(ids, s.info)
  {
    AscendingIn(s.info, NewIds(s.info), s.idCount);
    Ascending(NewIds(s.info), s.idCount)
  }

  ghost function OldIds(s: State): (ids: seq<int>)
    requires s.idCount >= 0
    ensures AllIn(ids, s.info)
  {
    AscendingIn(s.info, TriedIds(s.info), s.idCount);
    Ascending(TriedIds(s.info), s.idCount)
  }

  lemma AscendingIn(info: map<int, Info>, ids: set<int>, n: nat)
    requires ids <= info.Keys
    ensures AllIn(Ascending(ids, n), info)
  {
    forall i | 0 <= i < |Ascending(ids, n)| ensures Ascending(ids, n)[i] in info { RankOf(ids, n, i); }
  }

  ghost function FreshPart(s: State): (es: seq<Saved>)
    requires s.idCount >= 0
    ensures |es| == |FreshIds(s)|
  {
    Entries(s.info, FreshIds(s))
  }

  ghost function TriedPart(s: State): (es: seq<Saved>)
    requires s.idCount >= 0
    ensures |es| == |OldIds(s)|
  {
    Entries(s.info, OldIds(s))
  }

  ghost function Listed(s: State): seq<Saved>
    requires s.idCount >= 0
  {
    FreshPart(s) + TriedPart(s)
  }

  /** The file has the entries of `s`, and says that its placements can be used. */
  ghost predicate Holds(f: File, s: State)
    requires s.idCount >= 0
  {
    Usable(f) && f.fresh_ == FreshPart(s) && f.tried == TriedPart(s)
  }

  ghost function Save(s: State): File
    requires s.idCount >= 0
  {
    File(1, NEW_BUCKETS, FreshPart(s), TriedPart(s), Rows(s, NEW_BUCKETS))
  }

  /** The id an entry gets when it is loaded: new entries first, each table in the old order. */
  ghost function NewId(s: State, id: int): int
    requires s.idCount >= 0
  {
    if id in NewIds(s.info) then Rank(NewIds(s.info), id) else |FreshIds(s)| + Rank(TriedIds(s.info), id)
  }

  lemma FreshEntry(s: State, id: int)
    requires ByAddress(s) && id in NewIds(s.info)
    ensures var r := Rank(NewIds(s.info), id); r < |FreshPart(s)| && FreshPart(s)[r] == SavedOf(s.info[id])
  {
    assert AddrOk(s, id);
    AtRank(NewIds(s.info), s.idCount, id);
    EntryAt(s.info, FreshIds(s), Rank(NewIds(s.info), id));
  }

  lemma OldEntry(s: State, id: int)
    requires ByAddress(s) && id in TriedIds(s.info)
    ensures var r := Rank(TriedIds(s.info), id); r < |TriedPart(s)| && TriedPart(s)[r] == SavedOf(s.info[id])
  {
    assert AddrOk(s, id);
    AtRank(TriedIds(s.info), s.idCount, id);
    EntryAt(s.info, OldIds(s), Rank(TriedIds(s.info), id));
  }

  /** Which entry stands at place `i` of the file. */
  ghost function Origin(s: State, i: nat): (id: int)
    requires ByAddress(s) && i < |Listed(s)|
    ensures id in s.info && Listed(s)[i] == SavedOf(s.info[id]) && NewId(s, id) == i
  {
    var n := |FreshIds(s)|;
    if i < n then
      RankOf(NewIds(s.info), s.idCount, i);
      EntryAt(s.info, FreshIds(s), i);
      FreshIds(s)[i]
    else
      RankOf(TriedIds(s.info), s.idCount, i - n);
      EntryAt(s.info, OldIds(s), i - n);
      OldIds(s)[i - n]
  }

  lemma SaveDistinct(s: State)
    requires ByAddress(s)
    ensures Distinct(Listed(s))
  {
    var es := Listed(s);
    forall i, j | 0 <= i < j < |es| ensures es[i].addr.svc.ip != es[j].addr.svc.ip {
      var x, y := Origin(s, i), Origin(s, j);
      assert AddrOk(s, x) && AddrOk(s, y);
    }
  }

  // ---------- the entries come back ----------

  /** Exactly the ids below `n` are taken, by the saved entries in order; the last-attempt time is gone.
      The first `fresh_` of them are new, the others tried. */
  ghost predicate EntryBack(es: seq<Saved>, fresh_: nat, u: State, i: int, n: nat)
    requires n <= |es|
  {
    && (i in u.info <==> 0 <= i < n)
    && (i in u.info ==>
          && SavedOf(u.info[i]) == es[i] && u.info[i].lastTry == 0
          && (u.info[i].inTried <==> i >= fresh_))
  }

  ghost predicate EntriesBack(es: seq<Saved>, fresh_: nat, u: State, n: nat)
    requires n <= |es|
  {
    u.idCount == n && forall i :: EntryBack(es, fresh_, u, i, n)
  }

  lemma OneMoreBack(es: seq<Saved>, fresh_: nat, v: State, u: State, n: nat)
    requires n < |es| && EntriesBack(es, fresh_, v, n) && u.idCount == n + 1
    requires n in u.info && u.info == v.info[n := u.info[n]]
    requires SavedOf(u.info[n]) == es[n] && u.info[n].lastTry == 0 && (u.info[n].inTried <==> n >= fresh_)
    ensures EntriesBack(es, fresh_, u, n + 1)
  {
    var m := n + 1;
    forall i ensures EntryBack(es, fresh_, u, i, m) { assert EntryBack(es, fresh_, v, i, n); }
  }

  /** After `n` new entries: nothing but them. */
  ghost predicate FreshStage(f: File, u: State, n: nat)
    requires n <= |f.fresh_|
  {
    && EntriesBack(All(f), |f.fresh_|, u, n)
    && u.newTab == EmptyGrid(NEW_BUCKETS) && u.triedTab == EmptyGrid(TRIED_BUCKETS)
  }

  ghost predicate ReadsBack(f: File, read: Reader, i: nat, u: State)
    requires i < |f.fresh_|
  {
    FreshStage(f, u, i) ==> FreshStage(f, read(u, f.fresh_[i]), i + 1)
  }

  lemma FreshOneBack(k: Hasher, f: File, i: nat, u: State)
    requires i < |f.fresh_|
    ensures ReadsBack(f, FreshReader(k, true), i, u)
  {
    if FreshStage(f, u, i) {
      var v := LoadFreshOne(k, u, f.fresh_[i], true);
      assert All(f)[i] == f.fresh_[i];
      OneMoreBack(All(f), |f.fresh_|, u, v, i);
    }
  }

  lemma {:induction false} FoldBack(f: File, read: Reader, s: State, n: nat)
    requires n <= |f.fresh_| && FreshStage(f, s, 0) && forall i: nat, u :: i < |f.fresh_| ==> ReadsBack(f, read, i, u)
    ensures FreshStage(f, Fold(read, s, f.fresh_, n), n)
  {
    if n > 0 {
      FoldBack(f, read, s, n - 1);
      assert ReadsBack(f, read, n - 1, Fold(read, s, f.fresh_, n - 1));
    }
  }

  lemma FreshBack(k: Hasher, f: File, n: nat)
    requires Usable(f) && n <= |f.fresh_|
    ensures FreshStage(f, LoadFresh(k, f, n), n)
  {
    forall i ensures EntryBack(All(f), |f.fresh_|, Empty(), i, 0) {}
    forall i: nat, u | i < |f.fresh_| ensures ReadsBack(f, FreshReader(k, true), i, u) { FreshOneBack(k, f, i, u); }
    FoldBack(f, FreshReader(k, true), Empty(), n);
  }

  /** The tried slots of the first `m` saved tried entries are taken again, by the same entries. */
  ghost predicate TriedBackAt(s: State, u: State, l: Slot, m: nat)
    requires s.idCount >= 0
  {
    && (l in u.triedTab <==> l in s.triedTab)
    && (l in s.triedTab ==>
          u.triedTab[l] == if s.triedTab[l] != NONE && Rank(TriedIds(s.info), s.triedTab[l]) < m
                           then NewId(s, s.triedTab[l]) else NONE)
  }

  lemma NoneTriedYet(k: Hasher, s: State, u: State, l: Slot)
    requires Consistent(k, s) && u.triedTab == EmptyGrid(TRIED_BUCKETS)
    ensures TriedBackAt(s, u, l, 0)
  {
    EmptyGridSlots(TRIED_BUCKETS, l);
    assert TriedOk(k, s, l);
  }

  /** The next tried entry finds its slot free. */
  lemma NextTried(k: Hasher, s: State, v: State, m: nat)
    requires Consistent(k, s) && m < |TriedPart(s)|
    requires forall l :: TriedBackAt(s, v, l, m)
    ensures var id := Origin(s, |FreshIds(s)| + m);
            var l := TriedSlot(k, s.info[id].addr.svc);
            && id in TriedIds(s.info) && Rank(TriedIds(s.info), id) == m && NewId(s, id) == |FreshIds(s)| + m
            && l in s.triedTab && s.triedTab[l] == id && l in v.triedTab && v.triedTab[l] == NONE
  {
    var id := Origin(s, |FreshIds(s)| + m);
    RankOf(TriedIds(s.info), s.idCount, m);
    var l := TriedSlot(k, s.info[id].addr.svc);
    assert CountOk(k, s, id, {}) && TriedBackAt(s, v, l, m);
  }

  lemma TriedBackStep(k: Hasher, s: State, v: State, u: State, m: nat, id: int, l: Slot)
    requires Consistent(k, s) && TriedBackAt(s, v, l, m)
    requires id in TriedIds(s.info) && Rank(TriedIds(s.info), id) == m
    requires var l0 := TriedSlot(k, s.info[id].addr.svc);
             l0 in s.triedTab && s.triedTab[l0] == id && u.triedTab == v.triedTab[l0 := NewId(s, id)]
    ensures TriedBackAt(s, u, l, m + 1)
  {
    var l0 := TriedSlot(k, s.info[id].addr.svc);
    assert TriedOk(k, s, l) && TriedOk(k, s, l0) && AddrOk(s, id);
    if l in s.triedTab && s.triedTab[l] != NONE && l != l0 {
      var x := s.triedTab[l];
      assert AddrOk(s, x);
      AtRank(TriedIds(s.info), s.idCount, x);
      AtRank(TriedIds(s.info), s.idCount, id);
    }
  }

  ghost predicate TriedStage(s: State, f: File, u: State, m: nat)
    requires s.idCount >= 0 && m <= |f.tried|
  {
    && EntriesBack(All(f), |f.fresh_|, u, |f.fresh_| + m) && u.newTab == EmptyGrid(NEW_BUCKETS)
    && forall l :: TriedBackAt(s, u, l, m)
  }

  ghost predicate ReadsTried(s: State, f: File, read: Reader, i: nat, u: State)
    requires s.idCount >= 0 && i < |f.tried|
  {
    TriedStage(s, f, u, i) ==> TriedStage(s, f, read(u, f.tried[i]), i + 1)
  }

  lemma {:induction false} FoldTried(s: State, f: File, read: Reader, u: State, m: nat)
    requires s.idCount >= 0 && m <= |f.tried| && TriedStage(s, f, u, 0)
    requires forall i: nat, v :: i < |f.tried| ==> ReadsTried(s, f, read, i, v)
    ensures TriedStage(s, f, Fold(read, u, f.tried, m), m)
  {
    if m > 0 {
      FoldTried(s, f, read, u, m - 1);
      assert ReadsTried(s, f, read, m - 1, Fold(read, u, f.tried, m - 1));
    }
  }

  lemma EveryTriedBack(k: Hasher, s: State, f: File)
    requires Consistent(k, s) && Holds(f, s)
    ensures forall i: nat, v :: i < |f.tried| ==> ReadsTried(s, f, TriedReader(k), i, v)
  {
    forall i: nat, v | i < |f.tried| ensures ReadsTried(s, f, TriedReader(k), i, v) {
      if TriedStage(s, f, v, i) { TriedOneBack(k, s, f, v, i); }
    }
  }

  lemma TriedBack(k: Hasher, s: State, f: File, m: nat)
    requires Consistent(k, s) && Holds(f, s) && m <= |f.tried|
    ensures TriedStage(s, f, LoadTried(k, f, m), m)
  {
    TriedStart(k, s, f, LoadTried(k, f, 0));
    EveryTriedBack(k, s, f);
    FoldTried(s, f, TriedReader(k), LoadFresh(k, f, |f.fresh_|), m);
  }

  lemma TriedStart(k: Hasher, s: State, f: File, u: State)
    requires Consistent(k, s) && Usable(f) && u == LoadTried(k, f, 0)
    ensures TriedStage(s, f, u, 0)
  {
    FreshBack(k, f, |f.fresh_|);
    forall l ensures TriedBackAt(s, u, l, 0) { NoneTriedYet(k, s, u, l); }
  }

  lemma TriedOneBack(k: Hasher, s: State, f: File, v: State, m: nat)
    requires Consistent(k, s) && Holds(f, s) && m < |f.tried| && TriedStage(s, f, v, m)
    ensures TriedStage(s, f, LoadTriedOne(k, v, f.tried[m]), m + 1)
  {
    var n := |f.fresh_|;
    NextTried(k, s, v, m);
    assert All(f)[n + m] == f.tried[m];
    var id := Origin(s, n + m);
    var u := LoadTriedOne(k, v, f.tried[m]);
    var l0 := TriedSlot(k, s.info[id].addr.svc);
    assert u == Promote(Restore(v, f.tried[m]), l0, n + m);
    OneMoreBack(All(f), n, v, u, n + m);
    var m1 := m + 1;
    forall l ensures TriedBackAt(s, u, l, m1) { TriedBackStep(k, s, v, u, m, id, l); }
  }

  // ---------- the new table comes back ----------

  ghost predicate Before(l: Slot, b: int, p: int) {
    l.0 < b || (l.0 == b && l.1 < p)
  }

  /** The slots before position `p` of bucket `b` hold what they held, the others nothing. */
  ghost predicate SlotBack(s: State, u: State, l: Slot, b: int, p: int) {
    && (l in u.newTab <==> l in s.newTab)
    && (l in s.newTab ==>
          u.newTab[l] == if s.newTab[l] != NONE && Before(l, b, p) then Rank(NewIds(s.info), s.newTab[l]) else NONE)
  }

  ghost predicate SlotStage(s: State, f: File, u: State, b: int, p: int)
    requires s.idCount >= 0
  {
    && EntriesBack(All(f), |f.fresh_|, u, |All(f)|)
    && (forall l :: TriedBackAt(s, u, l, |f.tried|))
    && (forall l :: SlotBack(s, u, l, b, p))
  }

  lemma SlotStart(k: Hasher, s: State, f: File, u: State)
    requires Consistent(k, s) && TriedStage(s, f, u, |f.tried|)
    ensures SlotStage(s, f, u, 0, 0)
  {
    forall l ensures SlotBack(s, u, l, 0, 0) {
      EmptyGridSlots(NEW_BUCKETS, l);
      assert NewOk(k, s, l);
    }
  }

  lemma NextBucket(k: Hasher, s: State, f: File, u: State, b: int)
    requires Consistent(k, s) && SlotStage(s, f, u, b, BUCKET_SIZE)
    ensures SlotStage(s, f, u, b + 1, 0)
  {
    var c := b + 1;
    forall l ensures SlotBack(s, u, l, c, 0) {
      assert SlotBack(s, u, l, b, BUCKET_SIZE) && NewOk(k, s, l);
    }
  }

  lemma EmptySlot(s: State, f: File, u: State, b: int, p: int)
    requires s.idCount >= 0 && SlotStage(s, f, u, b, p)
    requires (b, p) in s.newTab ==> s.newTab[(b, p)] == NONE
    ensures SlotStage(s, f, u, b, p + 1)
  {
    var q := p + 1;
    forall l ensures SlotBack(s, u, l, b, q) {
      assert SlotBack(s, u, l, b, p);
      assert l == (l.0, l.1);
    }
  }

  /** The occupant of slot `l` is known under its rank, as the same service, and without the references
      still to come it has one to spare. */
  lemma OccupantBack(k: Hasher, s: State, f: File, u: State, b: int, p: int)
    requires Consistent(k, s) && Holds(f, s) && Loading(k, u) && SlotStage(s, f, u, b, p)
    requires (b, p) in s.newTab && s.newTab[(b, p)] != NONE
    ensures var id := s.newTab[(b, p)];
            var r := Rank(NewIds(s.info), id);
            && r in u.info && !u.info[r].inTried && u.info[r].refCount < MAX_REFS
            && NewSlot(k, b, u.info[r].addr.svc) == (b, p)
            && (b, p) in u.newTab && u.newTab[(b, p)] == NONE
  {
    var l := (b, p);
    var id := s.newTab[l];
    assert NewOk(k, s, l) && SlotBack(s, u, l, b, p);
    FreshEntry(s, id);
    var r := Rank(NewIds(s.info), id);
    assert All(f)[r] == f.fresh_[r];
    assert EntryBack(All(f), |f.fresh_|, u, r, |All(f)|);
    FewerHolders(k, s, u, id, b, p);
    assert CountOk(k, s, id, {}) && CountOk(k, u, r, Idle(u));
  }

  lemma FewerHolders(k: Hasher, s: State, u: State, id: int, b: int, p: int)
    requires Consistent(k, s) && id in NewIds(s.info)
    requires (b, p) in s.newTab && s.newTab[(b, p)] == id
    requires forall l :: SlotBack(s, u, l, b, p)
    ensures |Holders(u.newTab, Rank(NewIds(s.info), id))| < |Holders(s.newTab, id)|
  {
    var r := Rank(NewIds(s.info), id);
    var mine, all := Holders(u.newTab, r), Holders(s.newTab, id);
    forall l | l in mine ensures l in all - {(b, p)} {
      assert SlotBack(s, u, l, b, p) && NewOk(k, s, l);
      SameRank(s, id, s.newTab[l]);
    }
    assert (b, p) in all;
    Smaller(mine, all - {(b, p)});
  }

  lemma Smaller<T>(a: set<T>, b: set<T>)
    requires a <= b
    ensures |a| <= |b|
  {
    assert b == a + (b - a);
  }

  lemma SameRank(s: State, x: int, y: int)
    requires ByAddress(s) && x in NewIds(s.info) && y in NewIds(s.info)
    requires Rank(NewIds(s.info), x) == Rank(NewIds(s.info), y)
    ensures x == y
  {
    assert AddrOk(s, x) && AddrOk(s, y);
    AtRank(NewIds(s.info), s.idCount, x);
    AtRank(NewIds(s.info), s.idCount, y);
  }

  lemma SlotOneBack(k: Hasher, s: State, f: File, u: State, b: int, p: int)
    requires Consistent(k, s) && Holds(f, s) && Loading(k, u) && SlotStage(s, f, u, b, p)
    requires (b, p) in s.newTab && s.newTab[(b, p)] != NONE
    ensures SlotStage(s, f, LoadSlotOne(k, u, b, Rank(NewIds(s.info), s.newTab[(b, p)])), b, p + 1)
  {
    var l0 := (b, p);
    var r := Rank(NewIds(s.info), s.newTab[l0]);
    OccupantBack(k, s, f, u, b, p);
    var v := LoadSlotOne(k, u, b, r);
    assert v == Hold(u, l0, r);
    var q := p + 1;
    forall l ensures SlotBack(s, v, l, b, q) {
      assert SlotBack(s, u, l, b, p);
      assert l == (l.0, l.1);
    }
    HoldFrame(s, f, u, v, l0, r);
  }

  lemma HoldFrame(s: State, f: File, u: State, v: State, l: Slot, r: int)
    requires s.idCount >= 0 && r in u.info && v == Hold(u, l, r)
    requires EntriesBack(All(f), |f.fresh_|, u, |All(f)|) && forall l :: TriedBackAt(s, u, l, |f.tried|)
    ensures EntriesBack(All(f), |f.fresh_|, v, |All(f)|) && forall l :: TriedBackAt(s, v, l, |f.tried|)
  {
    var n, m := |All(f)|, |f.tried|;
    forall i ensures EntryBack(All(f), |f.fresh_|, v, i, n) { assert EntryBack(All(f), |f.fresh_|, u, i, n); }
    forall x ensures TriedBackAt(s, v, x, m) { assert TriedBackAt(s, u, x, m); }
  }

  lemma {:induction false} RowBack(k: Hasher, s: State, f: File, u: State, b: int, p: nat)
    requires Consistent(k, s) && Holds(f, s) && Loading(k, u) && SlotStage(s, f, u, b, 0)
    ensures SlotStage(s, f, LoadRow(k, u, b, Row(s, b, p)), b, p)
  {
    if p > 0 {
      RowBack(k, s, f, u, b, p - 1);
      RowStep(k, s, f, u, b, p - 1);
    }
  }

  lemma RowStep(k: Hasher, s: State, f: File, u: State, b: int, q: nat)
    requires Consistent(k, s) && Holds(f, s) && Loading(k, u)
    requires SlotStage(s, f, LoadRow(k, u, b, Row(s, b, q)), b, q)
    ensures SlotStage(s, f, LoadRow(k, u, b, Row(s, b, q + 1)), b, q + 1)
  {
    var row := Row(s, b, q);
    RowLoading(k, u, b, row);
    if (b, q) in s.newTab && s.newTab[(b, q)] != NONE {
      var r := Rank(NewIds(s.info), s.newTab[(b, q)]);
      SlotOneBack(k, s, f, LoadRow(k, u, b, row), b, q);
      LoadRowNext(k, u, b, row, r);
      assert Row(s, b, q + 1) == row + [r];
    } else {
      EmptySlot(s, f, LoadRow(k, u, b, row), b, q);
      assert Row(s, b, q + 1) == row;
    }
  }

  lemma LoadRowNext(k: Hasher, u: State, b: int, row: seq<int>, r: int)
    ensures LoadRow(k, u, b, row + [r]) == LoadSlotOne(k, LoadRow(k, u, b, row), b, r)
  {
    assert (row + [r])[..|row|] == row;
  }

  /** The buckets before `b` are back. */
  ghost predicate BucketStage(k: Hasher, s: State, f: File, u: State, b: nat)
    requires s.idCount >= 0
  {
    Loading(k, u) && SlotStage(s, f, u, b, 0)
  }

  ghost predicate ReadsBucket(k: Hasher, s: State, f: File, step: Stepper, b: nat, u: State)
    requires s.idCount >= 0
  {
    BucketStage(k, s, f, u, b) ==> BucketStage(k, s, f, step(u, b), b + 1)
  }

  lemma {:induction false} RepeatBuckets(k: Hasher, s: State, f: File, step: Stepper, u: State, n: nat)
    requires s.idCount >= 0 && BucketStage(k, s, f, u, 0)
    requires forall b: nat, v :: b < n ==> ReadsBucket(k, s, f, step, b, v)
    ensures BucketStage(k, s, f, Repeat(step, u, n), n)
  {
    if n > 0 {
      RepeatBuckets(k, s, f, step, u, n - 1);
      assert ReadsBucket(k, s, f, step, n - 1, Repeat(step, u, n - 1));
    }
  }

  lemma EveryBucketBack(k: Hasher, s: State, f: File)
    requires Consistent(k, s) && Holds(f, s) && f.slots == Rows(s, |f.slots|)
    ensures forall b: nat, v :: b < |f.slots| ==> ReadsBucket(k, s, f, BucketReader(k, f), b, v)
  {
    forall b: nat, v | b < |f.slots| ensures ReadsBucket(k, s, f, BucketReader(k, f), b, v) {
      if BucketStage(k, s, f, v, b) {
        BucketBack(k, s, f, v, b);
        RowLoading(k, v, b, f.slots[b]);
      }
    }
  }

  lemma SlotsBack(k: Hasher, s: State, f: File)
    requires Consistent(k, s) && Holds(f, s) && f.slots == Rows(s, |f.slots|)
    ensures BucketStage(k, s, f, LoadSlots(k, f, |f.slots|), |f.slots|)
  {
    var u := LoadTried(k, f, |f.tried|);
    TriedLoading(k, f, |f.tried|);
    TriedBack(k, s, f, |f.tried|);
    SlotStart(k, s, f, u);
    EveryBucketBack(k, s, f);
    RepeatBuckets(k, s, f, BucketReader(k, f), u, |f.slots|);
  }

  lemma BucketBack(k: Hasher, s: State, f: File, u: State, b: nat)
    requires Consistent(k, s) && Holds(f, s) && Loading(k, u) && SlotStage(s, f, u, b, 0)
    requires b < |f.slots| && f.slots == Rows(s, |f.slots|)
    ensures SlotStage(s, f, LoadRow(k, u, b, f.slots[b]), b + 1, 0)
  {
    RowAt(s, |f.slots|, b);
    RowBack(k, s, f, u, b, BUCKET_SIZE);
    NextBucket(k, s, f, LoadRow(k, u, b, f.slots[b]), b);
  }

  // ---------- round trip ----------

  /** `t` is `s` under new ids: the same entries (but for the last attempt and the random order), with the
      same reference counts, in the same slots of both tables. */
  ghost predicate EntryRenamed(s: State, t: State, id: int)
    requires s.idCount >= 0
  {
    id in s.info ==>
      && NewId(s, id) in t.info
      && t.info[NewId(s, id)] == s.info[id].(lastTry := 0, randomPos := t.info[NewId(s, id)].randomPos)
  }

  ghost predicate SlotRenamed(s: State, t: State, l: Slot)
    requires s.idCount >= 0
  {
    && (l in t.newTab <==> l in s.newTab) && (l in t.triedTab <==> l in s.triedTab)
    && (l in s.newTab ==> t.newTab[l] == if s.newTab[l] == NONE then NONE else NewId(s, s.newTab[l]))
    && (l in s.triedTab ==> t.triedTab[l] == if s.triedTab[l] == NONE then NONE else NewId(s, s.triedTab[l]))
  }

  /** Nothing but the renamed entries. */
  ghost predicate FromOld(s: State, t: State, i: int)
    requires s.idCount >= 0
  {
    i in t.info ==> exists id :: id in s.info && NewId(s, id) == i
  }

  ghost predicate Renamed(s: State, t: State)
    requires s.idCount >= 0
  {
    && (forall id :: EntryRenamed(s, t, id))
    && (forall i :: FromOld(s, t, i))
    && (forall l :: SlotRenamed(s, t, l))
    && (forall x, y :: x in s.info && y in s.info && NewId(s, x) == NewId(s, y) ==> x == y)
    && t.nNew == s.nNew && t.nTried == s.nTried
  }

  /** All slots are back, so each entry has the references it had. */
  lemma HoldersBack(k: Hasher, s: State, u: State, id: int)
    requires Consistent(k, s) && id in NewIds(s.info) && forall l :: SlotBack(s, u, l, NEW_BUCKETS, 0)
    ensures Holders(u.newTab, Rank(NewIds(s.info), id)) == Holders(s.newTab, id)
  {
    var r := Rank(NewIds(s.info), id);
    assert AddrOk(s, id);
    forall l ensures l in Holders(u.newTab, r) <==> l in Holders(s.newTab, id) {
      assert SlotBack(s, u, l, NEW_BUCKETS, 0) && NewOk(k, s, l);
      if l in Holders(u.newTab, r) { SameRank(s, id, s.newTab[l]); }
    }
  }

  lemma FreshRenamed(k: Hasher, s: State, f: File, u: State, id: int)
    requires Consistent(k, s) && Holds(f, s) && Loading(k, u) && SlotStage(s, f, u, NEW_BUCKETS, 0)
    requires id in NewIds(s.info)
    ensures EntryRenamed(s, u, id) && s.info[id].refCount > 0
  {
    var r := Rank(NewIds(s.info), id);
    FreshEntry(s, id);
    assert All(f)[r] == f.fresh_[r];
    assert EntryBack(All(f), |f.fresh_|, u, r, |All(f)|);
    HoldersBack(k, s, u, id);
    assert CountOk(k, s, id, {}) && CountOk(k, u, r, Idle(u));
  }

  lemma TriedRenamed(k: Hasher, s: State, f: File, u: State, id: int)
    requires Consistent(k, s) && Holds(f, s) && Loading(k, u) && SlotStage(s, f, u, NEW_BUCKETS, 0)
    requires id in TriedIds(s.info)
    ensures EntryRenamed(s, u, id)
  {
    var r := Rank(TriedIds(s.info), id);
    var i := |f.fresh_| + r;
    OldEntry(s, id);
    assert All(f)[i] == f.tried[r];
    assert EntryBack(All(f), |f.fresh_|, u, i, |All(f)|);
    assert CountOk(k, s, id, {}) && CountOk(k, u, i, Idle(u));
  }

  lemma EntriesRenamed(k: Hasher, s: State, f: File, u: State)
    requires Consistent(k, s) && Holds(f, s) && Loading(k, u) && SlotStage(s, f, u, NEW_BUCKETS, 0)
    ensures (forall id :: EntryRenamed(s, u, id)) && (forall i :: FromOld(s, u, i)) && Idle(u) == {}
  {
    forall id ensures EntryRenamed(s, u, id) {
      if id in NewIds(s.info) {
        FreshRenamed(k, s, f, u, id);
      } else if id in TriedIds(s.info) {
        TriedRenamed(k, s, f, u, id);
      }
    }
    forall i ensures FromOld(s, u, i) {
      assert EntryBack(All(f), |f.fresh_|, u, i, |All(f)|);
      if i in u.info { assert Origin(s, i) in s.info; }
    }
    forall i ensures i !in Idle(u) {
      assert EntryBack(All(f), |f.fresh_|, u, i, |All(f)|);
      if i in u.info { NotIdle(k, s, f, u, i); }
    }
    assert Idle(u) == {};
  }

  lemma NotIdle(k: Hasher, s: State, f: File, u: State, i: nat)
    requires Consistent(k, s) && Holds(f, s) && Loading(k, u) && SlotStage(s, f, u, NEW_BUCKETS, 0)
    requires i < |All(f)|
    ensures i !in Idle(u)
  {
    var id := Origin(s, i);
    if id in NewIds(s.info) {
      FreshRenamed(k, s, f, u, id);
    } else {
      TriedRenamed(k, s, f, u, id);
    }
  }

  lemma SlotsRenamed(k: Hasher, s: State, f: File, u: State, l: Slot)
    requires Consistent(k, s) && Holds(f, s) && SlotStage(s, f, u, NEW_BUCKETS, 0)
    ensures SlotRenamed(s, u, l)
  {
    assert SlotBack(s, u, l, NEW_BUCKETS, 0) && TriedBackAt(s, u, l, |f.tried|);
    assert NewOk(k, s, l) && TriedOk(k, s, l);
    if l in s.triedTab && s.triedTab[l] != NONE { OldEntry(s, s.triedTab[l]); }
  }

  lemma NewIdInjective(s: State, x: int, y: int)
    requires ByAddress(s) && x in s.info && y in s.info && NewId(s, x) == NewId(s, y)
    ensures x == y
  {
    assert AddrOk(s, x) && AddrOk(s, y);
    Located(s, x);
    Located(s, y);
  }

  /** The new id is the entry's place in the list of all saved entries. */
  lemma Located(s: State, id: int)
    requires ByAddress(s) && id in s.info
    ensures 0 <= NewId(s, id) < |FreshIds(s) + OldIds(s)| && (FreshIds(s) + OldIds(s))[NewId(s, id)] == id
  {
    assert AddrOk(s, id);
    if id in NewIds(s.info) {
      AtRank(NewIds(s.info), s.idCount, id);
    } else {
      assert id in TriedIds(s.info);
      AtRank(TriedIds(s.info), s.idCount, id);
    }
  }

  lemma {:induction false} CountBelow(ids: set<int>, m: nat, n: nat)
    requires forall i :: 0 <= i < n ==> (i in ids <==> i < m)
    ensures |Ascending(ids, n)| == if n < m then n else m
  {
    if n > 0 { CountBelow(ids, m, n - 1); }
  }

  lemma {:induction false} CountAbove(ids: set<int>, m: nat, n: nat)
    requires forall i :: 0 <= i < n ==> (i in ids <==> i >= m)
    ensures |Ascending(ids, n)| == if n < m then 0 else n - m
  {
    if n > 0 { CountAbove(ids, m, n - 1); }
  }

  lemma CountsBack(k: Hasher, s: State, f: File, u: State)
    requires Consistent(k, s) && Holds(f, s) && Loading(k, u)
    requires EntriesBack(All(f), |f.fresh_|, u, |All(f)|)
    ensures u.nNew == s.nNew && u.nTried == s.nTried
  {
    OwnCount(k, s);
    TableCount(k, u, Idle(u));
    var n, m := |f.fresh_|, |All(f)|;
    forall i | 0 <= i < m ensures (i in NewIds(u.info) <==> i < n) && (i in TriedIds(u.info) <==> i >= n) {
      assert EntryBack(All(f), n, u, i, m);
    }
    CountBelow(NewIds(u.info), n, m);
    CountAbove(TriedIds(u.info), n, m);
  }

  /** The counters are the lengths of the two walks over the map: the assertions in the saving loops. */
  lemma OwnCount(k: Hasher, s: State)
    requires Consistent(k, s)
    ensures s.nNew == |Ascending(NewIds(s.info), s.idCount)| && s.nTried == |Ascending(TriedIds(s.info), s.idCount)|
  {
    InvTables(k, s, {}, {});
    TableCount(k, s, {});
  }

  lemma TableCount(k: Hasher, s: State, idle: set<int>)
    requires Tables(k, s, idle, {})
    ensures s.nNew == |Ascending(NewIds(s.info), s.idCount)| && s.nTried == |Ascending(TriedIds(s.info), s.idCount)|
  {
    forall id | id in s.info ensures 0 <= id < s.idCount { assert IdOk(s, id); }
    AscendingCount(NewIds(s.info), s.idCount);
    AscendingCount(TriedIds(s.info), s.idCount);
    assert NewIds(s.info) - {} == NewIds(s.info);
  }

  lemma {:induction false} PruneNothing(s: State, n: nat)
    requires Idle(s) == {}
    ensures Prune(s, n) == s
  {
    if n > 0 { PruneNothing(s, n - 1); }
  }

  /** Saving and loading: nothing is lost, and only the ids, the random order and the last-attempt times
      differ. */
  lemma RoundTrip(k: Hasher, s: State)
    requires Consistent(k, s)
    ensures Distinct(All(Save(s))) && Consistent(k, Load(k, Save(s))) && Renamed(s, Load(k, Save(s)))
  {
    var f := Save(s);
    SaveDistinct(s);
    var u := LoadSlots(k, f, |f.slots|);
    SlotsBack(k, s, f);
    Reloaded(k, s, f, u);
    PruneNothing(u, u.idCount);
    LoadConsistent(k, f);
  }

  lemma Reloaded(k: Hasher, s: State, f: File, u: State)
    requires Consistent(k, s) && Holds(f, s) && Loading(k, u) && SlotStage(s, f, u, NEW_BUCKETS, 0)
    ensures Idle(u) == {} && Renamed(s, u) && u.idCount >= 0
  {
    EntriesRenamed(k, s, f, u);
    CountsBack(k, s, f, u);
    forall l ensures SlotRenamed(s, u, l) { SlotsRenamed(k, s, f, u, l); }
    forall x, y | x in s.info && y in s.info && NewId(s, x) == NewId(s, y) ensures x == y { NewIdInjective(s, x, y); }
  }
}
