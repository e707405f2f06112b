/** A stack of coin caches over a database.  Every cache entry may be dirty (it may differ from the
    view below) and fresh (the view below has no unspent version of it).  The stack as a whole must
    behave like a stack of plain maps, in which a fully spent transaction is the same as an absent one. */
module CoinsCache {
  import opened Common
  import opened CoinsData

  type Txid = int

  datatype Entry = Entry(coins: Coins, dirty: bool, isFresh: bool)

  type Cache = map<Txid, Entry>

  /** Level 0 is the database; level i + 1 is the view through `layers[i]`. */
  datatype Stack = Stack(db: map<Txid, Coins>, layers: seq<Cache>)

  /** What `GetCoins` answers at a level: possibly an entry that is fully spent. */
  function Get(s: Stack, level: nat, txid: Txid): Option<Coins>
    requires level <= |s.layers|
  {
    if level == 0 then (if txid in s.db then Some(s.db[txid]) else None)
    else if txid in s.layers[level - 1] then Some(s.layers[level - 1][txid].coins)
    else Get(s, level - 1, txid)
  }

  /** What can be told from outside: fully spent and absent are the same. */
  function Unspent(o: Option<Coins>): Option<Coins> {
    if o.Some? && !IsPruned(o.value) then o else None
  }

  function View(s: Stack, level: nat, txid: Txid): Option<Coins>
    requires level <= |s.layers|
  {
    Unspent(Get(s, level, txid))
  }

  // ---------- the invariant ----------

  /** `below` is the observable coin in the view underneath. */
  ghost predicate EntryOk(e: Entry, below: Option<Coins>) {
    && Clean(e.coins)
    && (e.isFresh <==> below == None)
    && (!e.dirty ==> Unspent(Some(e.coins)) == below)
  }

  ghost predicate Ok(s: Stack, i: int, txid: Txid) {
    0 <= i < |s.layers| && txid in s.layers[i] ==> EntryOk(s.layers[i][txid], View(s, i, txid))
  }

  ghost predicate DbOk(db: map<Txid, Coins>, txid: Txid) {
    txid in db ==> Clean(db[txid]) && !IsPruned(db[txid])
  }

  ghost predicate Inv(s: Stack) {
    && (forall txid :: DbOk(s.db, txid))
    && (forall i, txid :: Ok(s, i, txid))
  }

  lemma {:induction false} GetClean(s: Stack, level: nat, txid: Txid)
    requires Inv(s) && level <= |s.layers|
    ensures Get(s, level, txid).Some? ==> Clean(Get(s, level, txid).value)
  {
    if level == 0 {
      assert DbOk(s.db, txid);
    } else {
      assert Ok(s, level - 1, txid);
      GetClean(s, level - 1, txid);
    }
  }

  // ---------- the operations ----------

  function SetLayer(s: Stack, i: nat, c: Cache): Stack
    requires i < |s.layers|
  {
    s.(layers := s.layers[i := c])
  }

  /** `FetchCoins` at a level: fill every cache on the way down that misses. */
  function Fetch(s: Stack, level: nat, txid: Txid): (t: Stack)
    requires level <= |s.layers|
    ensures |t.layers| == |s.layers| && t.layers[level..] == s.layers[level..] && t.db == s.db
  {
    if level == 0 || txid in s.layers[level - 1] then s
    else
      var t := Fetch(s, level - 1, txid);
      assert t.layers[level - 1] == t.layers[level - 1..][0];
      match Get(s, level - 1, txid)
      case None => t
      case Some(c) => SetLayer(t, level - 1, t.layers[level - 1][txid := Entry(c, false, IsPruned(c))])
  }

  /** The entry a modifier starts from, in the top cache `c` over the answer `below` of its base. */
  function Opened(c: Cache, txid: Txid, below: Option<Coins>): Entry {
    if txid in c then c[txid].(dirty := true)
    else match below
      case None => Entry(EMPTY, true, true)
      case Some(v) => Entry(v, true, IsPruned(v))
  }

  /** The end of a modification: clean up, and forget an entry that nobody below knows. */
  function Closed(c: Cache, txid: Txid, e: Entry): Cache {
    var d := e.(coins := Cleanup(e.coins));
    if d.isFresh && IsPruned(d.coins) then c - {txid} else c[txid := d]
  }

  function Modify(s: Stack, txid: Txid, update: Coins -> Coins): Stack
    requires s.layers != []
  {
    var top := |s.layers| - 1;
    var t := if txid in s.layers[top] then s else Fetch(s, top, txid);
    var e := Opened(t.layers[top], txid, Get(s, top, txid));
    SetLayer(t, top, Closed(t.layers[top], txid, e.(coins := update(e.coins))))
  }

  function ModifyNew(s: Stack, txid: Txid, update: Coins -> Coins): Stack
    requires s.layers != []
  {
    var top := |s.layers| - 1;
    SetLayer(s, top, Closed(s.layers[top], txid, Entry(update(EMPTY), true, true)))
  }

  function Uncache(s: Stack, level: nat, txid: Txid): Stack
    requires 0 < level <= |s.layers|
  {
    var c := s.layers[level - 1];
    if txid in c && !c[txid].dirty && !c[txid].isFresh then SetLayer(s, level - 1, c - {txid}) else s
  }

  /** What becomes of one entry when the child's version `e` is written into a parent cache. */
  function Written(us: Option<Entry>, e: Entry): Option<Entry> {
    if !e.dirty then us
    else match us
      case None => if e.isFresh && IsPruned(e.coins) then None else Some(e)
      case Some(u) => if u.isFresh && IsPruned(e.coins) then None else Some(Entry(e.coins, true, u.isFresh))
  }

  function Find(c: Cache, txid: Txid): Option<Entry> {
    if txid in c then Some(c[txid]) else None
  }

  /** `BatchWrite` of all of `child` into the parent cache `c`. */
  function Merged(c: Cache, child: Cache): Cache {
    map txid | txid in c.Keys + child.Keys &&
               (if txid in child then Written(Find(c, txid), child[txid]).Some? else true)
      :: if txid in child then Written(Find(c, txid), child[txid]).value else c[txid]
  }

  /** `BatchWrite` into the database. */
  function Stored(db: map<Txid, Coins>, child: Cache): map<Txid, Coins> {
    map txid | txid in db.Keys + child.Keys &&
               !(txid in child && child[txid].dirty && IsPruned(child[txid].coins)) &&
               (txid in db || child[txid].dirty)
      :: if txid in child && child[txid].dirty then child[txid].coins else db[txid]
  }

  function Flush(s: Stack, level: nat): Stack
    requires 0 < level <= |s.layers|
  {
    var child := s.layers[level - 1];
    var emptied := SetLayer(s, level - 1, map[]);
    if level == 1 then emptied.(db := Stored(s.db, child))
    else SetLayer(emptied, level - 2, Merged(s.layers[level - 2], child))
  }

  // ---------- frames ----------

  /** A level sees only what is at and below it. */
  lemma {:induction false} GetBelow(s: Stack, t: Stack, level: nat, txid: Txid)
    requires level <= |s.layers| && level <= |t.layers|
    requires t.db == s.db && forall i :: 0 <= i < level ==> t.layers[i] == s.layers[i]
    ensures Get(t, level, txid) == Get(s, level, txid)
  {
    if level > 0 { GetBelow(s, t, level - 1, txid); }
  }

  /** Two stacks that look the same at `from` and have the same caches above it look the same
      everywhere above. */
  lemma {:induction false} ViewAbove(s: Stack, t: Stack, from: nat, level: nat, txid: Txid)
    requires from <= level <= |s.layers| == |t.layers|
    requires forall i :: from <= i < level ==> t.layers[i] == s.layers[i]
    requires View(t, from, txid) == View(s, from, txid)
    ensures View(t, level, txid) == View(s, level, txid)
  {
    if level > from { ViewAbove(s, t, from, level - 1, txid); }
  }

  ghost predicate SameView(s: Stack, t: Stack, level: nat)
    requires level <= |s.layers| && level <= |t.layers|
  {
    forall txid :: View(t, level, txid) == View(s, level, txid)
  }

  lemma OkAbove(s: Stack, t: Stack, from: nat, i: int, txid: Txid)
    requires Inv(s) && from <= |s.layers| == |t.layers| && from <= i
    requires forall k :: from <= k < |s.layers| ==> t.layers[k] == s.layers[k]
    requires SameView(s, t, from)
    ensures Ok(t, i, txid)
  {
    assert Ok(s, i, txid);
    if i < |s.layers| { ViewAbove(s, t, from, i, txid); }
  }

  lemma OkBelow(s: Stack, t: Stack, i: int, txid: Txid)
    requires Inv(s) && |s.layers| == |t.layers| && t.db == s.db
    requires 0 <= i < |s.layers| && forall k :: 0 <= k <= i ==> t.layers[k] == s.layers[k]
    ensures Ok(t, i, txid)
  {
    assert Ok(s, i, txid);
    GetBelow(s, t, i, txid);
  }

  /** One cache is replaced, and the view through it stays the same. */
  lemma SwapLayer(s: Stack, t: Stack, i: nat)
    requires Inv(s) && i < |s.layers| == |t.layers| && t == SetLayer(s, i, t.layers[i])
    requires forall txid :: Ok(t, i, txid)
    requires SameView(s, t, i + 1)
    ensures Inv(t) && forall level :: 0 <= level <= |s.layers| ==> SameView(s, t, level)
  {
    forall k, txid ensures Ok(t, k, txid) {
      if 0 <= k < i { OkBelow(s, t, k, txid); } else if k > i { OkAbove(s, t, i + 1, k, txid); }
    }
    forall level | 0 <= level <= |s.layers| ensures SameView(s, t, level) {
      forall txid ensures View(t, level, txid) == View(s, level, txid) {
        if level <= i { GetBelow(s, t, level, txid); } else { ViewAbove(s, t, i + 1, level, txid); }
      }
    }
  }

  ghost predicate AllSame(s: Stack, t: Stack) {
    |s.layers| == |t.layers| && forall level :: 0 <= level <= |s.layers| ==> SameView(s, t, level)
  }

  lemma SameTransitive(s: Stack, t: Stack, u: Stack)
    requires AllSame(s, t) && AllSame(t, u)
    ensures AllSame(s, u)
  {
    forall level | 0 <= level <= |s.layers| ensures SameView(s, u, level) {
      assert SameView(s, t, level) && SameView(t, u, level);
    }
  }

  // ---------- reading and forgetting ----------

  /** Filling the caches changes no view, and answers what was there. */
  lemma {:induction false} FetchKeeps(s: Stack, level: nat, txid: Txid)
    requires Inv(s) && level <= |s.layers|
    ensures Inv(Fetch(s, level, txid)) && AllSame(s, Fetch(s, level, txid))
    ensures Get(Fetch(s, level, txid), level, txid) == Get(s, level, txid)
  {
    if level > 0 && txid !in s.layers[level - 1] {
      var t := Fetch(s, level - 1, txid);
      FetchKeeps(s, level - 1, txid);
      assert t.layers[level - 1] == t.layers[level - 1..][0] == s.layers[level - 1];
      var u := Fetch(s, level, txid);
      if Get(s, level - 1, txid).Some? {
        FetchFills(t, level - 1, txid, Get(s, level - 1, txid).value);
        assert u == SetLayer(t, level - 1, u.layers[level - 1]);
        SameTransitive(s, t, u);
      }
    }
  }

  lemma FetchFills(s: Stack, i: nat, txid: Txid, c: Coins)
    requires Inv(s) && i < |s.layers| && txid !in s.layers[i] && Get(s, i, txid) == Some(c)
    ensures var t := SetLayer(s, i, s.layers[i][txid := Entry(c, false, IsPruned(c))]);
            Inv(t) && AllSame(s, t)
  {
    var t := SetLayer(s, i, s.layers[i][txid := Entry(c, false, IsPruned(c))]);
    GetClean(s, i, txid);
    forall x ensures Ok(t, i, x) {
      assert Ok(s, i, x);
      GetBelow(s, t, i, x);
    }
    FilledView(s, t, i, txid, c);
    SwapLayer(s, t, i);
  }

  lemma FilledView(s: Stack, t: Stack, i: nat, txid: Txid, c: Coins)
    requires i < |s.layers| && txid !in s.layers[i] && Get(s, i, txid) == Some(c)
    requires t == SetLayer(s, i, s.layers[i][txid := Entry(c, false, IsPruned(c))])
    ensures SameView(s, t, i + 1)
  {
    var above := i + 1;
    forall x ensures View(t, above, x) == View(s, above, x) { GetBelow(s, t, i, x); }
  }

  lemma UncacheKeeps(s: Stack, level: nat, txid: Txid)
    requires Inv(s) && 0 < level <= |s.layers|
    ensures Inv(Uncache(s, level, txid)) && AllSame(s, Uncache(s, level, txid))
  {
    var t, i := Uncache(s, level, txid), level - 1;
    if t != s {
      forall x ensures Ok(t, i, x) {
        assert Ok(s, i, x);
        GetBelow(s, t, i, x);
      }
      forall x ensures View(t, level, x) == View(s, level, x) {
        assert Ok(s, i, x);
        GetBelow(s, t, i, x);
      }
      SwapLayer(s, t, i);
    }
  }

  // ---------- modifying ----------

  /** `t` is `s` with what the top view shows for `txid` replaced by `now`. */
  ghost predicate TopChanged(s: Stack, t: Stack, txid: Txid, now: Option<Coins>) {
    && |s.layers| == |t.layers| > 0
    && (forall level :: 0 <= level < |s.layers| ==> SameView(s, t, level))
    && (forall x :: x != txid ==> View(t, |s.layers|, x) == View(s, |s.layers|, x))
    && View(t, |s.layers|, txid) == now
  }

  /** Closing a modification of the top cache, when the fresh flag is right. */
  lemma CloseKeeps(s: Stack, txid: Txid, e: Entry)
    requires Inv(s) && s.layers != [] && e.dirty
    requires e.isFresh <==> View(s, |s.layers| - 1, txid) == None
    ensures var top := |s.layers| - 1;
            var t := SetLayer(s, top, Closed(s.layers[top], txid, e));
            Inv(t) && TopChanged(s, t, txid, Unspent(Some(Cleanup(e.coins))))
  {
    var top := |s.layers| - 1;
    var t := SetLayer(s, top, Closed(s.layers[top], txid, e));
    forall k, x ensures Ok(t, k, x) {
      assert Ok(s, k, x);
      if 0 <= k <= top { GetBelow(s, t, k, x); }
    }
    forall level | 0 <= level < |s.layers| ensures SameView(s, t, level) {
      forall x ensures View(t, level, x) == View(s, level, x) { GetBelow(s, t, level, x); }
    }
    forall x ensures x != txid ==> View(t, |s.layers|, x) == View(s, |s.layers|, x) { GetBelow(s, t, top, x); }
    GetBelow(s, t, top, txid);
  }

  lemma TopChangedAfter(s: Stack, t: Stack, u: Stack, txid: Txid, now: Option<Coins>)
    requires AllSame(s, t) && TopChanged(t, u, txid, now)
    ensures TopChanged(s, u, txid, now)
  {
    forall level | 0 <= level < |s.layers| ensures SameView(s, u, level) {
      assert SameView(s, t, level) && SameView(t, u, level);
    }
    assert SameView(s, t, |s.layers|);
  }

  /** The coins a modifier is handed: what `GetCoins` at the top answers, or empty ones. */
  function Start(s: Stack, txid: Txid): Coins {
    match Get(s, |s.layers|, txid)
    case None => EMPTY
    case Some(c) => c
  }

  lemma OpenKeeps(s: Stack, txid: Txid)
    requires Inv(s) && s.layers != []
    ensures var top := |s.layers| - 1;
            var t := if txid in s.layers[top] then s else Fetch(s, top, txid);
            var e := Opened(t.layers[top], txid, Get(s, top, txid));
            && Inv(t) && AllSame(s, t)
            && e.dirty && e.coins == Start(s, txid)
            && (e.isFresh <==> View(t, top, txid) == None)
  {
    var top := |s.layers| - 1;
    assert Ok(s, top, txid);
    if txid !in s.layers[top] {
      FetchKeeps(s, top, txid);
      var t := Fetch(s, top, txid);
      assert t.layers[top] == t.layers[top..][0] == s.layers[top];
      assert SameView(s, t, top);
    }
  }

  /** `ModifyCoins` updates the top view at `txid` and nothing else, at any level. */
  lemma ModifyKeeps(s: Stack, txid: Txid, update: Coins -> Coins)
    requires Inv(s) && s.layers != []
    ensures Inv(Modify(s, txid, update))
    ensures TopChanged(s, Modify(s, txid, update), txid, Unspent(Some(Cleanup(update(Start(s, txid))))))
  {
    var top := |s.layers| - 1;
    var t := if txid in s.layers[top] then s else Fetch(s, top, txid);
    var e := Opened(t.layers[top], txid, Get(s, top, txid));
    OpenKeeps(s, txid);
    var d := e.(coins := update(e.coins));
    CloseKeeps(t, txid, d);
    TopChangedAfter(s, t, Modify(s, txid, update), txid, Unspent(Some(Cleanup(d.coins))));
  }

  /** `ModifyNewCoins` does too, if the view below the top has no unspent version. */
  lemma ModifyNewKeeps(s: Stack, txid: Txid, update: Coins -> Coins)
    requires Inv(s) && s.layers != [] && View(s, |s.layers| - 1, txid) == None
    ensures Inv(ModifyNew(s, txid, update))
    ensures TopChanged(s, ModifyNew(s, txid, update), txid, Unspent(Some(Cleanup(update(EMPTY)))))
  {
    CloseKeeps(s, txid, Entry(update(EMPTY), true, true));
  }

  /** That nothing is unspent at the top is not enough.  After coins that the view below still has
      were created anew with `ModifyNewCoins`, spending all of them brings the old ones back;
      and that happens exactly when the view below has them. */
  lemma ModifyNewResurrects(s: Stack, txid: Txid, create: Coins -> Coins, spend: Coins -> Coins)
    requires Inv(s) && s.layers != []
    requires !IsPruned(create(EMPTY)) && forall c :: IsPruned(spend(c))
    ensures var t := Modify(ModifyNew(s, txid, create), txid, spend);
            && View(t, |s.layers|, txid) == View(s, |s.layers| - 1, txid)
            && (View(t, |s.layers|, txid) == None <==> View(s, |s.layers| - 1, txid) == None)
  {
    var top := |s.layers| - 1;
    var m := ModifyNew(s, txid, create);
    var t := Modify(m, txid, spend);
    assert txid !in t.layers[top];
    GetBelow(s, t, top, txid);
  }

  /** An instance: the coins below were unspent; creating and spending them anew brings them back. */
  lemma OldCoinsComeBack()
    ensures var c, d := Coins(false, [TxOut(3, [])], 1, 1), Coins(false, [TxOut(4, [])], 2, 1);
            var s := Stack(map[1 := c], [map[]]);
            View(Modify(ModifyNew(s, 1, (_: Coins) => d), 1, (_: Coins) => EMPTY), 1, 1) == Some(c)
  {
    var c, d := Coins(false, [TxOut(3, [])], 1, 1), Coins(false, [TxOut(4, [])], 2, 1);
    var s := Stack(map[1 := c], [map[]]);
    assert !IsNull(c.vout[0]) && !IsNull(d.vout[0]);
    ModifyNewResurrects(s, 1, (_: Coins) => d, (_: Coins) => EMPTY);
  }

  // ---------- flushing ----------

  /** After flushing `level`, the view it was flushed into shows what `level` showed. */
  ghost predicate Flushed(s: Stack, t: Stack, level: nat) {
    && 0 < level <= |s.layers| == |t.layers|
    && (forall l :: 0 <= l <= |s.layers| && l != level - 1 ==> SameView(s, t, l))
    && (forall txid :: View(t, level - 1, txid) == View(s, level, txid))
  }

  /** Writing one child entry into a parent cache or the database. */
  lemma MergedOk(s: Stack, level: nat, txid: Txid)
    requires Inv(s) && 1 < level <= |s.layers|
    ensures var t := Flush(s, level);
            Ok(t, level - 2, txid) && View(t, level - 1, txid) == View(s, level, txid)
  {
    var t := Flush(s, level);
    assert Ok(s, level - 2, txid) && Ok(s, level - 1, txid);
    GetBelow(s, t, level - 2, txid);
    var c, child := s.layers[level - 2], s.layers[level - 1];
    assert t.layers[level - 2] == Merged(c, child);
    assert Get(s, level - 1, txid) == if txid in c then Some(c[txid].coins) else Get(s, level - 2, txid);
    assert Get(s, level, txid) == if txid in child then Some(child[txid].coins) else Get(s, level - 1, txid);
  }

  lemma StoredOk(s: Stack, txid: Txid)
    requires Inv(s) && s.layers != []
    ensures var t := Flush(s, 1);
            DbOk(t.db, txid) && View(t, 0, txid) == View(s, 1, txid)
  {
    assert Ok(s, 0, txid) && DbOk(s.db, txid);
    assert Get(s, 0, txid) == if txid in s.db then Some(s.db[txid]) else None;
    assert Get(s, 1, txid) == if txid in s.layers[0] then Some(s.layers[0][txid].coins) else Get(s, 0, txid);
  }

  /** `Flush` of any cache in the stack: the view below takes over its contents, and no other view
      changes at all. */
  lemma FlushKeeps(s: Stack, level: nat)
    requires Inv(s) && 0 < level <= |s.layers|
    ensures Inv(Flush(s, level)) && Flushed(s, Flush(s, level), level)
  {
    var t, below := Flush(s, level), level - 1;
    forall txid ensures DbOk(t.db, txid) {
      if level == 1 { StoredOk(s, txid); } else { assert DbOk(s.db, txid); }
    }
    forall txid ensures View(t, below, txid) == View(s, level, txid) {
      if level == 1 { StoredOk(s, txid); } else { MergedOk(s, level, txid); }
    }
    forall txid ensures View(t, level, txid) == View(s, level, txid) {
      assert View(t, below, txid) == View(s, level, txid);
    }
    forall k, txid ensures Ok(t, k, txid) {
      if 0 <= k < level - 2 { OkBelow(s, t, k, txid); }
      else if k == level - 2 && k >= 0 { MergedOk(s, level, txid); }
      else if k >= level { OkAbove(s, t, level, k, txid); }
    }
    forall l | 0 <= l <= |s.layers| && l != below ensures SameView(s, t, l) {
      forall txid ensures View(t, l, txid) == View(s, l, txid) {
        if l < below { GetBelow(s, t, l, txid); } else { ViewAbove(s, t, level, l, txid); }
      }
    }
  }

  // ---------- every run refines a stack of plain maps ----------

  type Plain = map<Txid, Coins>

  function Lookup(m: Plain, txid: Txid): Option<Coins> {
    if txid in m then Some(m[txid]) else None
  }

  function Assign(m: Plain, txid: Txid, now: Option<Coins>): Plain {
    match now
    case None => m - {txid}
    case Some(c) => m[txid := c]
  }

  ghost predicate AgreesAt(s: Stack, m: Plain, level: nat)
    requires level <= |s.layers|
  {
    forall txid :: View(s, level, txid) == Lookup(m, txid)
  }

  /** Level by level, the stack of caches shows what the stack of plain maps holds. */
  ghost predicate Refines(s: Stack, ms: seq<Plain>) {
    && Inv(s) && |ms| == |s.layers| + 1
    && (forall level :: 0 <= level <= |s.layers| ==> AgreesAt(s, ms[level], level))
  }

  datatype Op =
    | FetchOp(level: nat, txid: Txid)
    | UncacheOp(level: nat, txid: Txid)
    | ModifyOp(txid: Txid, update: Coins -> Coins)
    | ModifyNewOp(txid: Txid, update: Coins -> Coins)
    | FlushOp(level: nat)
    | PushOp
    | DropOp

  /** `ModifyNewCoins` may be used where the plain map below the top has no such transaction. */
  predicate Allowed(op: Op, ms: seq<Plain>) {
    match op
    case FetchOp(level, _) => level < |ms|
    case UncacheOp(level, _) => 0 < level < |ms|
    case ModifyOp(_, _) => |ms| > 1
    case ModifyNewOp(txid, _) => |ms| > 1 && txid !in ms[|ms| - 2]
    case FlushOp(level) => 0 < level < |ms|
    case PushOp => |ms| > 0
    case DropOp => |ms| > 1
  }

  /** The operations on the stack of caches ... */
  function Exec(s: Stack, op: Op): Stack
    requires match op
             case FetchOp(level, _) => level <= |s.layers|
             case UncacheOp(level, _) => 0 < level <= |s.layers|
             case FlushOp(level) => 0 < level <= |s.layers|
             case PushOp => true
             case _ => s.layers != []
  {
    match op
    case FetchOp(level, txid) => Fetch(s, level, txid)
    case UncacheOp(level, txid) => Uncache(s, level, txid)
    case ModifyOp(txid, update) => Modify(s, txid, update)
    case ModifyNewOp(txid, update) => ModifyNew(s, txid, update)
    case FlushOp(level) => Flush(s, level)
    case PushOp => s.(layers := s.layers + [map[]])
    case DropOp => s.(layers := s.layers[..|s.layers| - 1])
  }

  /** ... and on plain maps: reading does nothing, flushing copies one map over the one below. */
  function Act(ms: seq<Plain>, op: Op): seq<Plain>
    requires Allowed(op, ms)
  {
    var top := |ms| - 1;
    match op
    case FetchOp(_, _) => ms
    case UncacheOp(_, _) => ms
    case ModifyOp(txid, update) =>
      var c := if txid in ms[top] then ms[top][txid] else EMPTY;
      ms[top := Assign(ms[top], txid, Unspent(Some(Cleanup(update(c)))))]
    case ModifyNewOp(txid, update) => ms[top := Assign(ms[top], txid, Unspent(Some(Cleanup(update(EMPTY)))))]
    case FlushOp(level) => ms[level - 1 := ms[level]]
    case PushOp => ms + [ms[top]]
    case DropOp => ms[..top]
  }

  /** What can be observed of coins. */
  function Outcome(c: Coins): Option<Coins> {
    Unspent(Some(Cleanup(c)))
  }

  /** An update may see more than can be observed: the height and version that fully spent coins still carry
      in some cache.  It must not make a difference that it does. */
  ghost predicate Suits(s: Stack, ms: seq<Plain>, op: Op)
    requires ms != []
  {
    op.ModifyOp? && op.txid !in ms[|ms| - 1] ==> Outcome(op.update(Start(s, op.txid))) == Outcome(op.update(EMPTY))
  }

  /** An update that treats all fully spent coins alike. */
  ghost predicate Regular(op: Op) {
    op.ModifyOp? ==> forall c :: IsPruned(c) ==> Outcome(op.update(c)) == Outcome(op.update(EMPTY))
  }

  lemma SameAgrees(s: Stack, t: Stack, ms: seq<Plain>)
    requires Refines(s, ms) && Inv(t) && AllSame(s, t)
    ensures Refines(t, ms)
  {
    forall level | 0 <= level <= |t.layers| ensures AgreesAt(t, ms[level], level) {
      assert AgreesAt(s, ms[level], level) && SameView(s, t, level);
    }
  }

  lemma TopAgrees(s: Stack, t: Stack, ms: seq<Plain>, txid: Txid, now: Option<Coins>)
    requires Refines(s, ms) && Inv(t) && TopChanged(s, t, txid, now)
    ensures Refines(t, ms[|s.layers| := Assign(ms[|s.layers|], txid, now)])
  {
    var top := |s.layers|;
    var ms' := ms[top := Assign(ms[top], txid, now)];
    forall level | 0 <= level <= top ensures AgreesAt(t, ms'[level], level) {
      assert AgreesAt(s, ms[level], level);
      if level < top { assert SameView(s, t, level); }
    }
  }

  lemma FlushAgrees(s: Stack, ms: seq<Plain>, level: nat)
    requires Refines(s, ms) && 0 < level <= |s.layers|
    ensures Refines(Flush(s, level), ms[level - 1 := ms[level]])
  {
    var t := Flush(s, level);
    FlushKeeps(s, level);
    var ms' := ms[level - 1 := ms[level]];
    forall l | 0 <= l <= |s.layers| ensures AgreesAt(t, ms'[l], l) {
      assert AgreesAt(s, ms[l], l) && AgreesAt(s, ms[level], level);
      if l != level - 1 { assert SameView(s, t, l); }
    }
  }

  lemma PushAgrees(s: Stack, ms: seq<Plain>)
    requires Refines(s, ms)
    ensures Refines(Exec(s, PushOp), Act(ms, PushOp))
  {
    var t, ms' := Exec(s, PushOp), Act(ms, PushOp);
    forall i, txid ensures Ok(t, i, txid) {
      assert Ok(s, i, txid);
      if 0 <= i < |s.layers| { GetBelow(s, t, i, txid); }
    }
    forall level | 0 <= level <= |t.layers| ensures AgreesAt(t, ms'[level], level) {
      var l := if level <= |s.layers| then level else level - 1;
      assert AgreesAt(s, ms[l], l);
      forall txid ensures View(t, level, txid) == Lookup(ms'[level], txid) { GetBelow(s, t, l, txid); }
    }
  }

  lemma DropAgrees(s: Stack, ms: seq<Plain>)
    requires Refines(s, ms) && s.layers != []
    ensures Refines(Exec(s, DropOp), Act(ms, DropOp))
  {
    var t, ms' := Exec(s, DropOp), Act(ms, DropOp);
    forall i, txid ensures Ok(t, i, txid) {
      assert Ok(s, i, txid);
      if 0 <= i < |t.layers| { GetBelow(s, t, i, txid); }
    }
    forall level | 0 <= level <= |t.layers| ensures AgreesAt(t, ms'[level], level) {
      assert AgreesAt(s, ms[level], level);
      forall txid ensures View(t, level, txid) == Lookup(ms'[level], txid) { GetBelow(s, t, level, txid); }
    }
  }

  lemma ModifyAgrees(s: Stack, ms: seq<Plain>, op: Op)
    requires Refines(s, ms) && op.ModifyOp? && Allowed(op, ms)
    ensures Refines(Exec(s, op), Act(ms, op)) <==> Suits(s, ms, op)
  {
    var top, txid, update := |s.layers|, op.txid, op.update;
    var now, t := Outcome(update(Start(s, txid))), Modify(s, txid, update);
    StartAgrees(s, ms, txid);
    ModifyKeeps(s, txid, update);
    TopAgrees(s, t, ms, txid, now);
    if Refines(t, Act(ms, op)) {
      assert AgreesAt(t, Act(ms, op)[top], top);
      assert View(t, top, txid) == Lookup(Act(ms, op)[top], txid);
    }
  }

  /** The coins an update starts from are those of the plain map, or fully spent ones it does not have. */
  lemma StartAgrees(s: Stack, ms: seq<Plain>, txid: Txid)
    requires Refines(s, ms)
    ensures var top := |s.layers|;
            if txid in ms[top] then Start(s, txid) == ms[top][txid] else IsPruned(Start(s, txid))
  {
    var top := |s.layers|;
    assert AgreesAt(s, ms[top], top);
    assert View(s, top, txid) == Lookup(ms[top], txid);
  }

  lemma RegularSuits(s: Stack, ms: seq<Plain>, op: Op)
    requires Refines(s, ms) && Regular(op)
    ensures Suits(s, ms, op)
  {
    if op.ModifyOp? { StartAgrees(s, ms, op.txid); }
  }

  lemma ModifyNewAgrees(s: Stack, ms: seq<Plain>, op: Op)
    requires Refines(s, ms) && op.ModifyNewOp? && Allowed(op, ms)
    ensures Refines(Exec(s, op), Act(ms, op))
  {
    var top, txid, update := |s.layers|, op.txid, op.update;
    assert AgreesAt(s, ms[top - 1], top - 1);
    assert View(s, top - 1, txid) == Lookup(ms[top - 1], txid);
    ModifyNewKeeps(s, txid, update);
    TopAgrees(s, ModifyNew(s, txid, update), ms, txid, Unspent(Some(Cleanup(update(EMPTY)))));
  }

  /** Each operation on the caches does what its plain counterpart does. */
  lemma StepRefines(s: Stack, ms: seq<Plain>, op: Op)
    requires Refines(s, ms) && Allowed(op, ms)
    ensures Refines(Exec(s, op), Act(ms, op)) <==> Suits(s, ms, op)
  {
    match op
    case FetchOp(level, txid) =>
      FetchKeeps(s, level, txid);
      SameAgrees(s, Fetch(s, level, txid), ms);
    case UncacheOp(level, txid) =>
      UncacheKeeps(s, level, txid);
      SameAgrees(s, Uncache(s, level, txid), ms);
    case ModifyOp(_, _) => ModifyAgrees(s, ms, op);
    case ModifyNewOp(_, _) => ModifyNewAgrees(s, ms, op);
    case FlushOp(level) => FlushAgrees(s, ms, level);
    case PushOp => PushAgrees(s, ms);
    case DropOp => DropAgrees(s, ms);
  }

  /** Every operation is allowed where it is used, and every update suits the entry it finds. */
  ghost predicate Runs(s: Stack, ms: seq<Plain>, ops: seq<Op>)
    requires Refines(s, ms)
    decreases |ops|
  {
    ops != [] ==>
      && Allowed(ops[0], ms) && Suits(s, ms, ops[0])
      && (StepRefines(s, ms, ops[0]); Runs(Exec(s, ops[0]), Act(ms, ops[0]), ops[1..]))
  }

  /** A stack of caches and a stack of plain maps, through the same operations. */
  ghost function ExecAll(s: Stack, ms: seq<Plain>, ops: seq<Op>): (r: (Stack, seq<Plain>))
    requires Refines(s, ms) && Runs(s, ms, ops)
    ensures Refines(r.0, r.1)
    decreases |ops|
  {
    if ops == [] then (s, ms)
    else
      StepRefines(s, ms, ops[0]);
      ExecAll(Exec(s, ops[0]), Act(ms, ops[0]), ops[1..])
  }

  /** Every operation is allowed where it is used, as far as plain maps can tell. */
  predicate RunAllowed(ms: seq<Plain>, ops: seq<Op>)
    decreases |ops|
  {
    ops != [] ==> Allowed(ops[0], ms) && RunAllowed(Act(ms, ops[0]), ops[1..])
  }

  /** Caches and plain maps agree after each operation. */
  ghost predicate AgreeThroughout(s: Stack, ms: seq<Plain>, ops: seq<Op>)
    requires Refines(s, ms) && RunAllowed(ms, ops)
    decreases |ops|
  {
    ops != [] ==>
      && Refines(Exec(s, ops[0]), Act(ms, ops[0]))
      && AgreeThroughout(Exec(s, ops[0]), Act(ms, ops[0]), ops[1..])
  }

  /** They do so exactly when every update suits the entry it finds. */
  lemma {:induction false} RunsExact(s: Stack, ms: seq<Plain>, ops: seq<Op>)
    requires Refines(s, ms) && RunAllowed(ms, ops)
    ensures AgreeThroughout(s, ms, ops) <==> Runs(s, ms, ops)
    decreases |ops|
  {
    if ops != [] {
      StepRefines(s, ms, ops[0]);
      if Suits(s, ms, ops[0]) { RunsExact(Exec(s, ops[0]), Act(ms, ops[0]), ops[1..]); }
    }
  }

  ghost predicate AllAllowed(ms: seq<Plain>, ops: seq<Op>)
    decreases |ops|
  {
    ops != [] ==> Allowed(ops[0], ms) && Regular(ops[0]) && AllAllowed(Act(ms, ops[0]), ops[1..])
  }

  /** Regular updates suit every entry, so what is allowed can be read off the plain maps. */
  lemma {:induction false} RegularRuns(s: Stack, ms: seq<Plain>, ops: seq<Op>)
    requires Refines(s, ms) && AllAllowed(ms, ops)
    ensures Runs(s, ms, ops)
    decreases |ops|
  {
    if ops != [] {
      RegularSuits(s, ms, ops[0]);
      StepRefines(s, ms, ops[0]);
      RegularRuns(Exec(s, ops[0]), Act(ms, ops[0]), ops[1..]);
    }
  }

  const UNSPENT := Coins(false, [TxOut(3, [])], 5, 1)

  /** Spending everything, and adding an output again to what is left. */
  const SPEND := ModifyOp(1, (c: Coins) => c.(vout := []))
  const REFILL := ModifyOp(1, (c: Coins) => c.(vout := [TxOut(3, [])]))

  /** The fully spent coins stay behind in the cache, marked dirty, and still carry their height. */
  lemma SpentStays()
    ensures var s := Stack(map[1 := UNSPENT], [map[]]);
            && Exec(s, SPEND) == s.(layers := [map[1 := Entry(UNSPENT.(vout := []), true, false)]])
            && Act([map[1 := UNSPENT], map[1 := UNSPENT]], SPEND) == [map[1 := UNSPENT], map[]]
  {
    var s := Stack(map[1 := UNSPENT], [map[]]);
    var c := UNSPENT.(vout := []);
    assert Cleanup(c) == c && IsPruned(c) && !IsNull(UNSPENT.vout[0]);
    assert Opened(map[], 1, Get(s, 0, 1)) == Entry(UNSPENT, true, false);
    assert Closed(map[], 1, Entry(c, true, false)) == map[1 := Entry(c, true, false)];
    assert map[1 := UNSPENT] - {1} == map[];
  }

  lemma StartRefines()
    ensures Refines(Stack(map[1 := UNSPENT], [map[]]), [map[1 := UNSPENT], map[1 := UNSPENT]])
  {
    var s, ms := Stack(map[1 := UNSPENT], [map[]]), [map[1 := UNSPENT], map[1 := UNSPENT]];
    assert !IsNull(UNSPENT.vout[0]);
    forall txid ensures DbOk(s.db, txid) {}
    forall i, txid ensures Ok(s, i, txid) {}
    assert AgreesAt(s, ms[0], 0) && AgreesAt(s, ms[1], 1);
  }

  /** An update that keeps the height of fully spent coins is not regular, and after a first update it shows:
      caches and plain maps part with the second. */
  lemma LeftoverShows()
    ensures var s, ms := Stack(map[1 := UNSPENT], [map[]]), [map[1 := UNSPENT], map[1 := UNSPENT]];
            && Refines(s, ms) && Allowed(SPEND, ms) && Refines(Exec(s, SPEND), Act(ms, SPEND))
            && Allowed(REFILL, Act(ms, SPEND)) && !Suits(Exec(s, SPEND), Act(ms, SPEND), REFILL)
            && !Refines(Exec(Exec(s, SPEND), REFILL), Act(Act(ms, SPEND), REFILL))
  {
    var s, ms := Stack(map[1 := UNSPENT], [map[]]), [map[1 := UNSPENT], map[1 := UNSPENT]];
    StartRefines();
    StepRefines(s, ms, SPEND);
    SpentStays();
    var left := UNSPENT.(vout := []);
    assert Start(Exec(s, SPEND), 1) == left;
    assert !IsNull(REFILL.update(left).vout[0]) && !IsNull(REFILL.update(EMPTY).vout[0]);
    StepRefines(Exec(s, SPEND), Act(ms, SPEND), REFILL);
  }

  // ---------- no more than is needed ----------

  /** A read leaves what it found in the cache that was asked, and leaves no trace of what it did not find. */
  lemma FetchCaches(s: Stack, level: nat, txid: Txid)
    requires 0 < level <= |s.layers|
    ensures var t := Fetch(s, level, txid);
            match Get(s, level, txid)
            case None => t.layers[level - 1] == s.layers[level - 1]
            case Some(c) => txid in t.layers[level - 1] && t.layers[level - 1][txid].coins == c
  {
    if txid !in s.layers[level - 1] {
      var t := Fetch(s, level - 1, txid);
      assert t.layers[level - 1] == t.layers[level - 1..][0] == s.layers[level - 1];
    }
  }

  /** Forgetting drops just an entry that is neither dirty nor fresh. */
  lemma UncacheDrops(s: Stack, level: nat, txid: Txid, x: Txid)
    requires 0 < level <= |s.layers|
    ensures var c, t := s.layers[level - 1], Uncache(s, level, txid);
            x in t.layers[level - 1] <==> x in c && !(x == txid && !c[x].dirty && !c[x].isFresh)
  {
  }

  lemma FlushEmpties(s: Stack, level: nat)
    requires 0 < level <= |s.layers|
    ensures Flush(s, level).layers[level - 1] == map[]
  {
  }

  /** No cache keeps a spent entry that it owes to nobody: by the meaning of the flags, a changed and fully
      spent entry always hides something below. */
  ghost predicate TidyAt(s: Stack, i: int, txid: Txid) {
    0 <= i < |s.layers| && txid in s.layers[i] ==>
      !(s.layers[i][txid].dirty && s.layers[i][txid].isFresh && IsPruned(s.layers[i][txid].coins))
  }

  ghost predicate Tidy(s: Stack) {
    forall i, txid :: TidyAt(s, i, txid)
  }

  lemma TidyHides(s: Stack, i: nat, txid: Txid)
    requires Inv(s) && Tidy(s) && i < |s.layers| && txid in s.layers[i]
    requires s.layers[i][txid].dirty && IsPruned(s.layers[i][txid].coins)
    ensures View(s, i, txid) != None
  {
    assert TidyAt(s, i, txid) && Ok(s, i, txid);
  }

  lemma {:induction false} FetchTidy(s: Stack, level: nat, txid: Txid)
    requires Tidy(s) && level <= |s.layers|
    ensures Tidy(Fetch(s, level, txid))
  {
    if level > 0 && txid !in s.layers[level - 1] {
      FetchTidy(s, level - 1, txid);
      var t, u := Fetch(s, level - 1, txid), Fetch(s, level, txid);
      forall i, x ensures TidyAt(u, i, x) { assert TidyAt(t, i, x); }
    }
  }

  lemma CloseTidy(s: Stack, txid: Txid, e: Entry)
    requires Tidy(s) && s.layers != []
    ensures var top := |s.layers| - 1; Tidy(SetLayer(s, top, Closed(s.layers[top], txid, e)))
  {
    var top := |s.layers| - 1;
    var t := SetLayer(s, top, Closed(s.layers[top], txid, e));
    forall i, x ensures TidyAt(t, i, x) { assert TidyAt(s, i, x); }
  }

  lemma FlushTidy(s: Stack, level: nat)
    requires Tidy(s) && 0 < level <= |s.layers|
    ensures Tidy(Flush(s, level))
  {
    var t := Flush(s, level);
    forall i, x ensures TidyAt(t, i, x) { assert TidyAt(s, i, x) && TidyAt(s, i + 1, x); }
  }

  /** Every operation keeps it so. */
  lemma ExecTidy(s: Stack, ms: seq<Plain>, op: Op)
    requires Refines(s, ms) && Allowed(op, ms) && Tidy(s)
    ensures Tidy(Exec(s, op))
  {
    match op
    case FetchOp(level, txid) => FetchTidy(s, level, txid);
    case ModifyOp(txid, update) =>
      var top := |s.layers| - 1;
      var t := if txid in s.layers[top] then s else Fetch(s, top, txid);
      FetchTidy(s, top, txid);
      var e := Opened(t.layers[top], txid, Get(s, top, txid));
      CloseTidy(t, txid, e.(coins := update(e.coins)));
    case ModifyNewOp(txid, update) => CloseTidy(s, txid, Entry(update(EMPTY), true, true));
    case FlushOp(level) => FlushTidy(s, level);
    case _ =>
      var t := Exec(s, op);
      forall i, x ensures TidyAt(t, i, x) { assert TidyAt(s, i, x); }
  }

  /** So does every run. */
  lemma {:induction false} RunTidy(s: Stack, ms: seq<Plain>, ops: seq<Op>)
    requires Refines(s, ms) && Runs(s, ms, ops) && Tidy(s)
    ensures Tidy(ExecAll(s, ms, ops).0)
    decreases |ops|
  {
    if ops != [] {
      StepRefines(s, ms, ops[0]);
      ExecTidy(s, ms, ops[0]);
      RunTidy(Exec(s, ops[0]), Act(ms, ops[0]), ops[1..]);
    }
  }

  // ---------- the best block ----------

  /** The best block recorded by the database and by each cache; 0 is the null hash. */
  datatype Marks = Marks(db: int, caches: seq<int>)

  /** What `GetBestBlock` answers at a level. */
  function Best(m: Marks, level: nat): int
    requires level <= |m.caches|
  {
    if level == 0 then m.db
    else if m.caches[level - 1] != 0 then m.caches[level - 1]
    else Best(m, level - 1)
  }

  /** `GetBestBlock` remembers the answer in every cache that had none. */
  function Asked(m: Marks, level: nat): (r: Marks)
    requires level <= |m.caches|
    ensures |r.caches| == |m.caches| && r.caches[level..] == m.caches[level..] && r.db == m.db
  {
    if level == 0 || m.caches[level - 1] != 0 then m
    else
      var r := Asked(m, level - 1);
      r.(caches := r.caches[level - 1 := Best(m, level - 1)])
  }

  /** Who was asked knows it from then on, and keeps the answer. */
  lemma AskedKnows(m: Marks, level: nat)
    requires 0 < level <= |m.caches|
    ensures Asked(m, level).caches[level - 1] == Best(m, level)
  {
  }

  lemma {:induction false} AskingChangesNothing(m: Marks, level: nat, at: nat)
    requires level <= |m.caches| && at <= |m.caches|
    ensures Best(Asked(m, level), at) == Best(m, at)
    decreases level + at
  {
    if level > 0 && m.caches[level - 1] == 0 {
      var r := Asked(m, level - 1);
      AskingChangesNothing(m, level - 1, at);
      if at > 0 {
        AskingChangesNothing(m, level, at - 1);
        if at - 1 >= level {
          assert Asked(m, level).caches[level..][at - 1 - level] == m.caches[level..][at - 1 - level];
        } else if at - 1 == level - 1 {
          assert r.caches[level - 1..][0] == m.caches[level - 1..][0];
        } else {
          AskingChangesNothing(m, level - 1, at - 1);
        }
      }
    }
  }

  /** `Flush` hands its own mark down, even a null one; only the database ignores a null mark. */
  function FlushMarks(m: Marks, level: nat): Marks
    requires 0 < level <= |m.caches|
  {
    var mark := m.caches[level - 1];
    if level == 1 then m.(db := if mark == 0 then m.db else mark)
    else m.(caches := m.caches[level - 2 := mark])
  }

  /** Flushing a cache that was never told or asked its best block makes the cache below forget
      its own.  The answer at `level` survives exactly when one of these holds. */
  lemma FlushBest(m: Marks, level: nat)
    requires 0 < level <= |m.caches|
    ensures Best(FlushMarks(m, level), level) == Best(m, level) <==>
              || level == 1
              || m.caches[level - 1] != 0
              || m.caches[level - 2] == 0
              || Best(m, level - 2) == m.caches[level - 2]
  {
    var r := FlushMarks(m, level);
    if level > 1 { BestBelow(m, r, level - 2); }
  }

  lemma {:induction false} BestBelow(m: Marks, r: Marks, level: nat)
    requires level <= |m.caches| == |r.caches| && r.db == m.db
    requires forall i :: 0 <= i < level ==> r.caches[i] == m.caches[i]
    ensures Best(r, level) == Best(m, level)
  {
    if level > 0 { BestBelow(m, r, level - 1); }
  }

  /** Two caches: the lower one was moved to block 7, the upper one is flushed untouched. */
  lemma FlushForgetsBestBlock()
    ensures var m := Marks(1, [7, 0]);
            Best(m, 2) == 7 && Best(FlushMarks(m, 2), 2) == 1
  {
    assert FlushMarks(Marks(1, [7, 0]), 2) == Marks(1, [0, 0]);
    assert Best(Marks(1, [0, 0]), 1) == 1;
  }
}
