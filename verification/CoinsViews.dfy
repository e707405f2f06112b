/** The stack of coin caches as the program keeps it, updated in place: even the getters fill
    caches, and `BatchWrite` moves entries down one by one. */
module CoinsViews {
  import opened CoinsData
  import opened CoinsCache
  import opened Common

  /** One entry less to write: the same outcome. */
  lemma MergedStep(c: Cache, child: Cache, txid: Txid)
    requires txid in child
    ensures var w := Written(Find(c, txid), child[txid]);
            Merged(c, child) == Merged(if w.Some? then c[txid := w.value] else c - {txid}, child - {txid})
  {
    var w := Written(Find(c, txid), child[txid]);
    var c' := if w.Some? then c[txid := w.value] else c - {txid};
    var m, m' := Merged(c, child), Merged(c', child - {txid});
    forall x ensures (x in m <==> x in m') && (x in m ==> m[x] == m'[x]) {
      assert x != txid ==> Find(c', x) == Find(c, x);
    }
  }

  /** What one entry of the child does to the database. */
  function Placed(db: map<Txid, Coins>, txid: Txid, e: Entry): map<Txid, Coins> {
    if !e.dirty then db else if IsPruned(e.coins) then db - {txid} else db[txid := e.coins]
  }

  lemma StoredStep(db: map<Txid, Coins>, child: Cache, txid: Txid)
    requires txid in child
    ensures Stored(db, child) == Stored(Placed(db, txid, child[txid]), child - {txid})
  {
    var m, m' := Stored(db, child), Stored(Placed(db, txid, child[txid]), child - {txid});
    forall x ensures (x in m <==> x in m') && (x in m ==> m[x] == m'[x]) {}
  }

  lemma MergedEmpty(c: Cache, child: Cache)
    requires child.Keys == {}
    ensures Merged(c, child) == c
  {
  }

  lemma StoredEmpty(db: map<Txid, Coins>, child: Cache)
    requires child.Keys == {}
    ensures Stored(db, child) == db
  {
  }

  /** What the entry was before the modifier opened it no longer matters when it is closed. */
  lemma ClosedAgain(c: Cache, txid: Txid, first: Entry, e: Entry)
    ensures Closed(c[txid := first][txid := e], txid, e) == Closed(c, txid, e)
  {
    assert c[txid := first][txid := e] - {txid} == c - {txid};
  }

  /** The body of the loop in `BatchWrite`: one entry of the child meets the parent's. */
  method WriteEntry(us: Cache, txid: Txid, e: Entry) returns (r: Cache)
    ensures var w := Written(Find(us, txid), e);
            r == if w.Some? then us[txid := w.value] else us - {txid}
  {
    r := us;
    if e.dirty {
      if txid !in us {
        if !(e.isFresh && IsPruned(e.coins)) {
          var entry := Entry(e.coins, true, false);
          if e.isFresh { entry := entry.(isFresh := true); }
          r := us[txid := entry];
        } else {
          assert us - {txid} == us;
        }
      } else if us[txid].isFresh && IsPruned(e.coins) {
        r := us - {txid};
      } else {
        r := us[txid := us[txid].(coins := e.coins, dirty := true)];
      }
    } else if txid in us {
      assert us[txid := us[txid]] == us;
    } else {
      assert us - {txid} == us;
    }
  }

  method StoreEntry(db: map<Txid, Coins>, txid: Txid, e: Entry) returns (r: map<Txid, Coins>)
    ensures r == Placed(db, txid, e)
  {
    r := db;
    if e.dirty {
      if IsPruned(e.coins) { r := r - {txid}; } else { r := r[txid := e.coins]; }
    }
  }

  class CoinsViews {
    var db: map<Txid, Coins>
    var layers: seq<Cache>
    var hasModifier: bool
    var dbBest: int
    var hashBlocks: seq<int>

    ghost function St(): Stack
      reads this
    {
      Stack(db, layers)
    }

    ghost function Bests(): Marks
      reads this
    {
      Marks(dbBest, hashBlocks)
    }

    constructor (coins: map<Txid, Coins>, best: int)
      requires forall txid :: DbOk(coins, txid)
      ensures St() == Stack(coins, []) && Inv(St()) && !hasModifier
      ensures Bests() == Marks(best, [])
    {
      db, layers, hasModifier, dbBest, hashBlocks := coins, [], false, best, [];
      new;
      forall i, txid ensures Ok(St(), i, txid) {}
    }

    /** A new, empty cache on top. */
    method Push()
      requires !hasModifier
      modifies this`layers, this`hashBlocks
      ensures St() == Exec(old(St()), PushOp) && Bests() == Marks(dbBest, old(hashBlocks) + [0])
    {
      layers, hashBlocks := layers + [map[]], hashBlocks + [0];
    }

    method GetBestBlock(level: nat) returns (hash: int)
      requires level <= |hashBlocks|
      modifies this`hashBlocks
      ensures hash == Best(old(Bests()), level) && Bests() == Asked(old(Bests()), level)
      decreases level
    {
      if level == 0 { return dbBest; }
      if hashBlocks[level - 1] == 0 {
        hash := GetBestBlock(level - 1);
        hashBlocks := hashBlocks[level - 1 := hash];
      } else {
        hash := hashBlocks[level - 1];
      }
    }

    method SetBestBlock(level: nat, hash: int)
      requires 0 < level <= |hashBlocks|
      modifies this`hashBlocks
      ensures Bests() == Marks(dbBest, old(hashBlocks)[level - 1 := hash])
    {
      hashBlocks := hashBlocks[level - 1 := hash];
    }

    /** `GetCoins` of the view at `level`, with `FetchCoins` of every cache on the way. */
    method GetCoins(level: nat, txid: Txid) returns (found: bool, coins: Coins)
      requires level <= |layers|
      modifies this`layers
      ensures St() == Fetch(old(St()), level, txid)
      ensures found == Get(old(St()), level, txid).Some?
      ensures coins == if found then Get(old(St()), level, txid).value else EMPTY
      decreases level
    {
      if level == 0 {
        if txid in db { return true, db[txid]; } else { return false, EMPTY; }
      }
      if txid in layers[level - 1] { return true, layers[level - 1][txid].coins; }
      ghost var was := layers;
      found, coins := GetCoins(level - 1, txid);
      if !found { return; }
      assert layers[level - 1] == layers[level - 1..][0] == was[level - 1];
      layers := layers[level - 1 := layers[level - 1][txid := Entry(coins, false, IsPruned(coins))]];
    }

    /** `HaveCoins` looks only at whether `vout` is empty; in a stack that is kept consistent that
        is exactly whether anything is unspent. */
    method HaveCoins(level: nat, txid: Txid) returns (have: bool)
      requires 0 < level <= |layers| && Inv(St())
      modifies this`layers
      ensures St() == Fetch(old(St()), level, txid) && Inv(St())
      ensures have <==> View(old(St()), level, txid) != None
    {
      FetchKeeps(St(), level, txid);
      GetClean(St(), level, txid);
      var found, coins := GetCoins(level, txid);
      if found { CleanPruned(coins); }
      have := found && coins.vout != [];
    }

    /** `ModifyCoins`, the caller's change, and the end of the modifier. */
    method ModifyCoins(txid: Txid, update: Coins -> Coins)
      requires layers != [] && !hasModifier
      modifies this`layers, this`hasModifier
      ensures St() == Modify(old(St()), txid, update) && !hasModifier
    {
      var e := OpenEntry(txid);
      ModifyOpened(txid, e, update);
    }

    /** The life of a modifier: the entry goes into the cache, is updated there, and is closed. */
    method ModifyOpened(txid: Txid, e: Entry, update: Coins -> Coins)
      requires layers != [] && !hasModifier
      modifies this`layers, this`hasModifier
      ensures !hasModifier && |layers| == old(|layers|)
      ensures var top := |layers| - 1;
              layers == old(layers)[top := Closed(old(layers)[top], txid, e.(coins := update(e.coins)))]
    {
      var top := |layers| - 1;
      ghost var c := layers[top];
      hasModifier := true;
      layers := layers[top := layers[top][txid := e]];
      ModifierWrites(txid, update);
      ModifierEnds(txid);
      ClosedAgain(c, txid, e, e.(coins := update(e.coins)));
    }

    /** The entry a modifier starts from; the base is asked only when the cache has none. */
    method OpenEntry(txid: Txid) returns (e: Entry)
      requires layers != []
      modifies this`layers
      ensures var top := old(|layers|) - 1;
              && |layers| == top + 1
              && St() == (if txid in old(layers)[top] then old(St()) else Fetch(old(St()), top, txid))
              && e == Opened(layers[top], txid, Get(old(St()), top, txid))
    {
      var top := |layers| - 1;
      if txid in layers[top] {
        e := layers[top][txid];
      } else {
        ghost var was := layers;
        var found, coins := GetCoins(top, txid);
        assert layers[top] == layers[top..][0] == was[top];
        if !found {
          e := Entry(EMPTY, false, true);
        } else {
          e := Entry(coins, false, IsPruned(coins));
        }
      }
      e := e.(dirty := true);
    }

    method ModifierWrites(txid: Txid, update: Coins -> Coins)
      requires layers != [] && hasModifier && txid in layers[|layers| - 1]
      modifies this`layers
      ensures |layers| == old(|layers|)
      ensures var top := |layers| - 1;
              var e := old(layers)[top][txid];
              layers == old(layers)[top := old(layers)[top][txid := e.(coins := update(e.coins))]]
    {
      var top := |layers| - 1;
      var e := layers[top][txid];
      layers := layers[top := layers[top][txid := e.(coins := update(e.coins))]];
    }

    /** The destructor of the modifier. */
    method ModifierEnds(txid: Txid)
      requires layers != [] && hasModifier && txid in layers[|layers| - 1]
      modifies this`layers, this`hasModifier
      ensures !hasModifier && |layers| == old(|layers|)
      ensures var top := |layers| - 1;
              layers == old(layers)[top := Closed(old(layers)[top], txid, old(layers)[top][txid])]
    {
      assert hasModifier;
      hasModifier := false;
      var top := |layers| - 1;
      var e := layers[top][txid];
      var c := CleanupLoop(e.coins);
      e := e.(coins := c);
      if e.isFresh && IsPruned(e.coins) {
        layers := layers[top := layers[top] - {txid}];
      } else {
        layers := layers[top := layers[top][txid := e]];
      }
    }

    method ModifyNewCoins(txid: Txid, update: Coins -> Coins)
      requires layers != [] && !hasModifier
      modifies this`layers, this`hasModifier
      ensures St() == ModifyNew(old(St()), txid, update) && !hasModifier
    {
      var top := |layers| - 1;
      ghost var c := layers[top];
      layers := layers[top := layers[top][txid := Entry(EMPTY, true, true)]];
      hasModifier := true;
      ModifierWrites(txid, update);
      ModifierEnds(txid);
      ClosedAgain(c, txid, Entry(EMPTY, true, true), Entry(update(EMPTY), true, true));
    }

    method Uncache(level: nat, txid: Txid)
      requires 0 < level <= |layers|
      modifies this`layers
      ensures St() == CoinsCache.Uncache(old(St()), level, txid)
    {
      var c := layers[level - 1];
      if txid in c && !c[txid].dirty && !c[txid].isFresh {
        layers := layers[level - 1 := c - {txid}];
      }
    }

    /** `CCoinsViewCache::BatchWrite` into the cache of view `level`. */
    method BatchWrite(level: nat, mapCoins: Cache, hash: int)
      requires 0 < level <= |layers| == |hashBlocks| && !hasModifier
      modifies this`layers, this`hashBlocks
      ensures hashBlocks == old(hashBlocks)[level - 1 := hash]
      ensures layers == old(layers)[level - 1 := Merged(old(layers)[level - 1], mapCoins)]
    {
      var child := mapCoins;
      var us := layers[level - 1];
      while child.Keys != {}
        invariant Merged(us, child) == Merged(old(layers)[level - 1], mapCoins)
        invariant layers == old(layers) && hashBlocks == old(hashBlocks)
        decreases |child.Keys|
      {
        var txid := Pick(child.Keys);
        MergedStep(us, child, txid);
        us := WriteEntry(us, txid, child[txid]);
        child := child - {txid};
      }
      MergedEmpty(us, child);
      layers := layers[level - 1 := us];
      hashBlocks := hashBlocks[level - 1 := hash];
    }

    /** `CCoinsViewDB::BatchWrite`. */
    method BatchWriteDb(mapCoins: Cache, hash: int)
      modifies this`db, this`dbBest
      ensures db == Stored(old(db), mapCoins)
      ensures dbBest == if hash == 0 then old(dbBest) else hash
    {
      var child, store := mapCoins, db;
      while child.Keys != {}
        invariant Stored(store, child) == Stored(old(db), mapCoins)
        invariant dbBest == old(dbBest)
        decreases |child.Keys|
      {
        var txid := Pick(child.Keys);
        StoredStep(store, child, txid);
        store := StoreEntry(store, txid, child[txid]);
        child := child - {txid};
      }
      StoredEmpty(store, child);
      db := store;
      if hash != 0 { dbBest := hash; }
    }

    method Flush(level: nat)
      requires 0 < level <= |layers| == |hashBlocks| && !hasModifier
      modifies this`layers, this`db, this`hashBlocks, this`dbBest
      ensures St() == CoinsCache.Flush(old(St()), level)
      ensures Bests() == FlushMarks(old(Bests()), level)
    {
      var child, hash := layers[level - 1], hashBlocks[level - 1];
      if level == 1 { BatchWriteDb(child, hash); } else { BatchWrite(level - 1, child, hash); }
      layers := layers[level - 1 := map[]];
    }
  }
}
