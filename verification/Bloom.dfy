/** Bloom filters: what an insertion sets, why no inserted key is ever missed, and the pair of filters
    that together remember the most recent keys. */
module Bloom {
  import opened Arith
  import opened Bits

  type Key = seq<nat>

  /** MurmurHash3 of a seed and a key, a 32-bit number. */
  type Murmur = (nat, Key) -> nat

  datatype Filter = Filter(data: seq<bv8>, full: bool, empty: bool, funcs: nat, tweak: nat)

  /** The bit that hash function number `i` chooses. */
  function Index(h: Murmur, f: Filter, i: nat, key: Key): (n: nat)
    requires |f.data| > 0
    ensures n < 8 * |f.data|
  {
    h((i * 0xFBA4C795 + f.tweak) % 0x1_0000_0000, key) % (|f.data| * 8)
  }

  predicate Hit(h: Murmur, f: Filter, i: nat, key: Key)
    requires |f.data| > 0
  {
    BitAt(f.data, Index(h, f, i, key))
  }

  /** The answer of `contains`; the flags come first, so a full or empty filter may have no data. */
  predicate Contains(h: Murmur, f: Filter, key: Key)
    requires Usable(f)
  {
    f.full || (!f.empty && forall i :: 0 <= i < f.funcs ==> Hit(h, f, i, key))
  }

  /** With no data the hash would be taken modulo zero. */
  predicate Usable(f: Filter) {
    f.full || |f.data| > 0
  }

  // ---------- insertion ----------

  function SetBit(data: seq<bv8>, n: nat): (r: seq<bv8>)
    requires n < 8 * |data|
    ensures |r| == |data|
  {
    data[n / 8 := data[n / 8] | Mask(n % 8)]
  }

  lemma SetBitAt(data: seq<bv8>, n: nat, q: nat)
    requires n < 8 * |data| && q < 8 * |data|
    ensures BitAt(SetBit(data, n), q) == (BitAt(data, q) || q == n)
  {
    SetOne(data, n, data[n / 8] | Mask(n % 8), true, q);
  }

  /** The data after the first `k` hash functions have set their bits. */
  function Marked(h: Murmur, f: Filter, k: nat, key: Key): (r: seq<bv8>)
    requires |f.data| > 0
    ensures |r| == |f.data|
  {
    if k == 0 then f.data else SetBit(Marked(h, f, k - 1, key), Index(h, f, k - 1, key))
  }

  ghost predicate Chosen(h: Murmur, f: Filter, k: nat, key: Key, q: nat)
    requires |f.data| > 0
  {
    exists i :: 0 <= i < k && Index(h, f, i, key) == q
  }

  /** Insertion sets exactly the chosen bits and clears none. */
  lemma {:induction false} MarkedBits(h: Murmur, f: Filter, k: nat, key: Key, q: nat)
    requires |f.data| > 0 && q < 8 * |f.data|
    ensures BitAt(Marked(h, f, k, key), q) <==> BitAt(f.data, q) || Chosen(h, f, k, key, q)
  {
    if k > 0 {
      MarkedBits(h, f, k - 1, key, q);
      SetBitAt(Marked(h, f, k - 1, key), Index(h, f, k - 1, key), q);
      assert Chosen(h, f, k, key, q) <==> Chosen(h, f, k - 1, key, q) || Index(h, f, k - 1, key) == q;
    }
  }

  function Insert(h: Murmur, f: Filter, key: Key): Filter
    requires Usable(f)
  {
    if f.full then f else f.(data := Marked(h, f, f.funcs, key), empty := false)
  }

  function Clear(f: Filter): Filter {
    f.(data := seq(|f.data|, i => 0), full := false, empty := true)
  }

  function Reset(f: Filter, tweak: nat): Filter {
    Clear(f).(tweak := tweak)
  }

  /** What a filter answers for `other` after `key` went in: yes exactly when each of its bits was there
      already or is one of the new key's. */
  lemma InsertExact(h: Murmur, f: Filter, key: Key, other: Key)
    requires Usable(f) && !f.full
    ensures Contains(h, Insert(h, f, key), other)
       <==> forall i :: 0 <= i < f.funcs ==> Hit(h, f, i, other) || Chosen(h, f, f.funcs, key, Index(h, f, i, other))
  {
    var g := Insert(h, f, key);
    forall i | 0 <= i < f.funcs
      ensures Hit(h, g, i, other) <==> Hit(h, f, i, other) || Chosen(h, f, f.funcs, key, Index(h, f, i, other))
    {
      MarkedBits(h, f, f.funcs, key, Index(h, f, i, other));
    }
  }

  lemma InsertContains(h: Murmur, f: Filter, key: Key)
    requires Usable(f)
    ensures Contains(h, Insert(h, f, key), key)
  {
    if !f.full { InsertExact(h, f, key, key); }
  }

  lemma InsertRetains(h: Murmur, f: Filter, key: Key, other: Key)
    requires Usable(f) && Contains(h, f, other)
    ensures Contains(h, Insert(h, f, key), other)
  {
    if !f.full { InsertExact(h, f, key, other); }
  }

  // ---------- the shortcut flags ----------

  ghost predicate AllOnes(data: seq<bv8>) {
    forall i :: 0 <= i < |data| ==> data[i] == 0xff
  }

  ghost predicate AllZeros(data: seq<bv8>) {
    forall i :: 0 <= i < |data| ==> data[i] == 0
  }

  ghost function Update(f: Filter): Filter {
    f.(full := AllOnes(f.data), empty := AllZeros(f.data))
  }

  /** The flags are shortcuts: a full filter has every bit, an empty one none. */
  ghost predicate Honest(f: Filter) {
    (f.full ==> AllOnes(f.data)) && (f.empty ==> AllZeros(f.data))
  }

  lemma OnesHit(h: Murmur, f: Filter, i: nat, key: Key)
    requires |f.data| > 0 && AllOnes(f.data)
    ensures Hit(h, f, i, key)
  {
    var q := Index(h, f, i, key);
    assert f.data[q / 8] == 0xff;
    OnesBit(q % 8);
  }

  lemma OnesBit(j: nat)
    requires j < 8
    ensures Bit(0xff, j)
  {
  }

  lemma ZerosMiss(h: Murmur, f: Filter, i: nat, key: Key)
    requires |f.data| > 0 && AllZeros(f.data)
    ensures !Hit(h, f, i, key)
  {
    var q := Index(h, f, i, key);
    assert f.data[q / 8] == 0;
    ZeroBit(q % 8);
  }

  /** Recomputing the flags changes no answer, exactly when the filter has a hash function or a set bit, or
      was marked empty already. Without any, an all-zero filter turns from "contains everything" into
      "contains nothing". */
  lemma UpdateKeepsAnswers(h: Murmur, f: Filter)
    requires |f.data| > 0 && Honest(f)
    ensures (forall key :: Contains(h, Update(f), key) == Contains(h, f, key))
       <==> f.funcs > 0 || !AllZeros(f.data) || f.empty
  {
    var g := Update(f);
    if f.funcs > 0 || !AllZeros(f.data) || f.empty {
      forall key ensures Contains(h, g, key) == Contains(h, f, key) { UpdateKeepsAnswer(h, f, key); }
    } else {
      assert f.data[0] == 0 != 0xff;
      assert Contains(h, f, []) && !Contains(h, g, []);
    }
  }

  /** An instance: one zero byte, no hash function, not marked empty. */
  lemma UpdateChangesAnswer(h: Murmur, key: Key)
    ensures var f := Filter([0], false, false, 0, 0);
            Honest(f) && Contains(h, f, key) && !Contains(h, Update(f), key)
  {
    var f := Filter([0], false, false, 0, 0);
    assert f.data[0] == 0 != 0xff;
  }

  lemma UpdateKeepsAnswer(h: Murmur, f: Filter, key: Key)
    requires |f.data| > 0 && Honest(f) && (f.funcs > 0 || !AllZeros(f.data) || f.empty)
    ensures Contains(h, Update(f), key) == Contains(h, f, key)
  {
    var g := Update(f);
    if AllOnes(f.data) {
      assert f.data[0] == 0xff;
      forall i | 0 <= i < f.funcs ensures Hit(h, f, i, key) { OnesHit(h, f, i, key); }
    } else if AllZeros(f.data) {
      if !f.empty { ZerosMiss(h, f, 0, key); }
    } else {
      assert Contains(h, g, key) == Contains(h, f, key);
    }
  }

  // ---------- two staggered filters ----------

  /** `inserted` counts within a round of `size` insertions; both are 32-bit numbers. */
  datatype Rolling = Rolling(b1: Filter, b2: Filter, inserted: nat, size: nat)

  ghost predicate RollingOk(r: Rolling) {
    && |r.b1.data| > 0 && |r.b2.data| > 0 && !r.b1.full && !r.b2.full
    && r.size % 2 == 0 && r.size < 0x1_0000_0000
    && (r.size > 0 ==> r.inserted < r.size)
  }

  function RollingInsert(h: Murmur, r: Rolling, key: Key): (t: Rolling)
    requires RollingOk(r)
    ensures RollingOk(t) && t.size == r.size
  {
    var c := Staggered(r);
    Rolling(Insert(h, c.b1, key), Insert(h, c.b2, key), Advance(r.inserted, r.size), r.size)
  }

  /** Each filter is cleared at its own point of the round. */
  function Staggered(r: Rolling): (c: Rolling)
    requires RollingOk(r)
    ensures RollingOk(c) && c.size == r.size && c.inserted == r.inserted
  {
    if r.inserted == 0 then r.(b1 := Clear(r.b1))
    else if r.inserted == r.size / 2 then r.(b2 := Clear(r.b2))
    else r
  }

  function Advance(n: nat, size: nat): nat {
    var next := (n + 1) % 0x1_0000_0000;
    if next == size then 0 else next
  }

  predicate RollingContains(h: Murmur, r: Rolling, key: Key)
    requires RollingOk(r)
  {
    if r.inserted < r.size / 2 then Contains(h, r.b2, key) else Contains(h, r.b1, key)
  }

  function RollingReset(r: Rolling, tweak: nat): (t: Rolling)
    requires RollingOk(r)
    ensures RollingOk(t)
  {
    Rolling(Reset(r.b1, tweak), Reset(r.b2, tweak), 0, r.size)
  }

  /** The filter has the `k` most recent keys of `keys`, or all when there are fewer. */
  ghost predicate Remembers(h: Murmur, f: Filter, keys: seq<Key>, k: nat)
    requires Usable(f)
  {
    forall i :: 0 <= i < |keys| && |keys| - i <= k ==> Contains(h, f, keys[i])
  }

  lemma RemembersMore(h: Murmur, f: Filter, keys: seq<Key>, k: nat, key: Key)
    requires Usable(f) && Remembers(h, f, keys, k)
    ensures Usable(Insert(h, f, key)) && Remembers(h, Insert(h, f, key), keys + [key], k + 1)
  {
    var all := keys + [key];
    forall i | 0 <= i < |all| && |all| - i <= k + 1 ensures Contains(h, Insert(h, f, key), all[i]) {
      if i < |keys| {
        assert Contains(h, f, keys[i]);
        InsertRetains(h, f, key, keys[i]);
      } else {
        InsertContains(h, f, key);
      }
    }
  }

  /** How many recent keys each filter is sure to have, `n` insertions into a round of 2 * `half`. */
  function Window1(n: nat, half: nat): nat {
    if n == 0 then 2 * half else n
  }

  function Window2(n: nat, half: nat): nat
    requires n <= 2 * half
  {
    if n <= half then n + half else n - half
  }

  lemma WindowsAdvance(n: nat, half: nat)
    requires n < 2 * half < 0x1_0000_0000
    ensures Window1(Advance(n, 2 * half), half) == n + 1
    ensures Advance(n, 2 * half) <= 2 * half
    ensures Window2(Advance(n, 2 * half), half) == if n == half then 1 else Window2(n, half) + 1
  {
  }

  ghost predicate Recalls(h: Murmur, r: Rolling, keys: seq<Key>)
    requires RollingOk(r)
  {
    r.size > 0 ==>
      && Remembers(h, r.b1, keys, Window1(r.inserted, r.size / 2))
      && Remembers(h, r.b2, keys, Window2(r.inserted, r.size / 2))
  }

  lemma InsertRecalls(h: Murmur, r: Rolling, keys: seq<Key>, key: Key)
    requires RollingOk(r) && Recalls(h, r, keys)
    ensures Recalls(h, RollingInsert(h, r, key), keys + [key])
  {
    if r.size > 0 {
      FirstRemembers(h, r, keys, key);
      SecondRemembers(h, r, keys, key);
    }
  }

  lemma FirstRemembers(h: Murmur, r: Rolling, keys: seq<Key>, key: Key)
    requires RollingOk(r) && r.size > 0 && Remembers(h, r.b1, keys, Window1(r.inserted, r.size / 2))
    ensures var t := RollingInsert(h, r, key); Remembers(h, t.b1, keys + [key], Window1(t.inserted, t.size / 2))
  {
    WindowsAdvance(r.inserted, r.size / 2);
    if r.inserted == 0 {
      RemembersMore(h, Clear(r.b1), keys, 0, key);
    } else {
      RemembersMore(h, r.b1, keys, r.inserted, key);
    }
  }

  lemma SecondRemembers(h: Murmur, r: Rolling, keys: seq<Key>, key: Key)
    requires RollingOk(r) && r.size > 0 && Remembers(h, r.b2, keys, Window2(r.inserted, r.size / 2))
    ensures var t := RollingInsert(h, r, key); Remembers(h, t.b2, keys + [key], Window2(t.inserted, t.size / 2))
  {
    WindowsAdvance(r.inserted, r.size / 2);
    if r.inserted == r.size / 2 {
      RemembersMore(h, Clear(r.b2), keys, 0, key);
    } else {
      RemembersMore(h, r.b2, keys, Window2(r.inserted, r.size / 2), key);
    }
  }

  /** How far back the answers reach: never less than half a round. */
  function Reach(n: nat, half: nat): (w: nat)
    requires n < 2 * half || half == 0
    ensures w >= half
  {
    if n < half then n + half else n
  }

  /** Every key inserted no longer ago than the reach is contained. */
  lemma RecentContained(h: Murmur, r: Rolling, keys: seq<Key>, i: nat)
    requires RollingOk(r) && Recalls(h, r, keys) && r.size > 0
    requires i < |keys| && |keys| - i <= Reach(r.inserted, r.size / 2)
    ensures RollingContains(h, r, keys[i])
  {
  }

  function InsertAll(h: Murmur, r: Rolling, keys: seq<Key>): (t: Rolling)
    requires RollingOk(r)
    ensures RollingOk(t) && t.size == r.size
  {
    if keys == [] then r else RollingInsert(h, InsertAll(h, r, keys[..|keys| - 1]), keys[|keys| - 1])
  }

  /** After a reset, any run of insertions leaves a filter that contains each of the last N keys. */
  lemma {:induction false} RunRecalls(h: Murmur, r: Rolling, tweak: nat, keys: seq<Key>)
    requires RollingOk(r)
    ensures var t := InsertAll(h, RollingReset(r, tweak), keys); Recalls(h, t, keys)
  {
    if keys != [] {
      var n := |keys| - 1;
      RunRecalls(h, r, tweak, keys[..n]);
      InsertRecalls(h, InsertAll(h, RollingReset(r, tweak), keys[..n]), keys[..n], keys[n]);
      assert keys == keys[..n] + [keys[n]];
    }
  }

  lemma LastKeysContained(h: Murmur, r: Rolling, tweak: nat, keys: seq<Key>, i: nat)
    requires RollingOk(r) && i < |keys| && |keys| - i <= r.size / 2
    ensures var t := InsertAll(h, RollingReset(r, tweak), keys); RollingContains(h, t, keys[i])
  {
    RunRecalls(h, r, tweak, keys);
    RecentContained(h, InsertAll(h, RollingReset(r, tweak), keys), keys, i);
  }

  // ---------- exactly what the two filters hold ----------

  /** Some of the `w` most recent keys chooses bit `q`. */
  ghost predicate ChosenBy(h: Murmur, f: Filter, keys: seq<Key>, w: nat, q: nat)
    requires |f.data| > 0
  {
    exists j :: 0 <= j < |keys| && |keys| - j <= w && Chosen(h, f, f.funcs, keys[j], q)
  }

  /** The filter is a cleared one into which the `w` most recent keys went, and no others. */
  ghost predicate HoldsJust(h: Murmur, f: Filter, keys: seq<Key>, w: nat) {
    && |f.data| > 0 && !f.full && w <= |keys| && (f.empty <==> w == 0)
    && forall q :: 0 <= q < 8 * |f.data| ==> (BitAt(f.data, q) <==> ChosenBy(h, f, keys, w, q))
  }

  ghost predicate SameKind(f: Filter, g: Filter) {
    |f.data| == |g.data| && f.funcs == g.funcs && f.tweak == g.tweak
  }

  lemma ClearHoldsNone(h: Murmur, f: Filter, keys: seq<Key>)
    requires |f.data| > 0
    ensures HoldsJust(h, Clear(f), keys, 0) && SameKind(f, Clear(f))
  {
    forall q | 0 <= q < 8 * |f.data| ensures !BitAt(Clear(f).data, q) { ZeroBit(q % 8); }
  }

  lemma ChosenMore(h: Murmur, f: Filter, keys: seq<Key>, w: nat, key: Key, q: nat)
    requires |f.data| > 0
    ensures ChosenBy(h, f, keys + [key], w + 1, q) <==> ChosenBy(h, f, keys, w, q) || Chosen(h, f, f.funcs, key, q)
  {
    var all := keys + [key];
    if ChosenBy(h, f, keys, w, q) {
      var j :| 0 <= j < |keys| && |keys| - j <= w && Chosen(h, f, f.funcs, keys[j], q);
      assert all[j] == keys[j];
    }
    assert all[|keys|] == key;
  }

  lemma ChosenSameKind(h: Murmur, f: Filter, g: Filter, k: nat, key: Key, q: nat)
    requires |f.data| > 0 && SameKind(f, g)
    ensures Chosen(h, f, k, key, q) <==> Chosen(h, g, k, key, q)
  {
    assert forall i :: Index(h, f, i, key) == Index(h, g, i, key);
  }

  lemma ChosenBySameKind(h: Murmur, f: Filter, g: Filter, keys: seq<Key>, w: nat, q: nat)
    requires |f.data| > 0 && SameKind(f, g)
    ensures ChosenBy(h, f, keys, w, q) <==> ChosenBy(h, g, keys, w, q)
  {
    forall j | 0 <= j < |keys| ensures Chosen(h, f, f.funcs, keys[j], q) <==> Chosen(h, g, g.funcs, keys[j], q) {
      ChosenSameKind(h, f, g, f.funcs, keys[j], q);
    }
  }

  lemma InsertHolds(h: Murmur, f: Filter, keys: seq<Key>, w: nat, key: Key)
    requires HoldsJust(h, f, keys, w)
    ensures HoldsJust(h, Insert(h, f, key), keys + [key], w + 1) && SameKind(f, Insert(h, f, key))
  {
    var g, all := Insert(h, f, key), keys + [key];
    forall q | 0 <= q < 8 * |f.data| ensures BitAt(g.data, q) <==> ChosenBy(h, g, all, w + 1, q) {
      MarkedBits(h, f, f.funcs, key, q);
      ChosenMore(h, f, keys, w, key, q);
      ChosenBySameKind(h, f, g, all, w + 1, q);
    }
  }

  /** How many of `n` keys have gone into the first filter since it was last cleared, and into the second:
      they are cleared before key number 0 and number `half` of every round. */
  function Since1(n: nat, half: nat): nat
    requires half > 0
  {
    if n == 0 then 0 else (n - 1) % (2 * half) + 1
  }

  function Since2(n: nat, half: nat): nat
    requires half > 0
  {
    if n <= half then n else (n - half - 1) % (2 * half) + 1
  }

  ghost predicate Staged(h: Murmur, r: Rolling, t: Rolling, keys: seq<Key>)
    requires r.size > 0 && r.size % 2 == 0
  {
    && RollingOk(t) && t.size == r.size && t.inserted == |keys| % r.size
    && SameKind(r.b1, t.b1) && SameKind(r.b2, t.b2)
    && HoldsJust(h, t.b1, keys, Since1(|keys|, r.size / 2)) && HoldsJust(h, t.b2, keys, Since2(|keys|, r.size / 2))
  }

  lemma Turns(n: nat, half: nat)
    requires half > 0 && 2 * half < 0x1_0000_0000
    ensures var m := n % (2 * half);
            && Advance(m, 2 * half) == (n + 1) % (2 * half)
            && Since1(n + 1, half) == (if m == 0 then 0 else Since1(n, half)) + 1
            && Since2(n + 1, half) == (if m == half then 0 else Since2(n, half)) + 1
  {
    NextRest(n, 2 * half);
    Turn1(n, 2 * half);
    Turn2(n, half, 2 * half);
  }

  lemma Turn1(n: nat, s: nat)
    requires s > 0
    ensures n % s + 1 == (if n % s == 0 then 0 else (n - 1) % s + 1) + 1
    ensures n == 0 ==> n % s == 0
  {
    if n > 0 { NextRest(n - 1, s); } else { DivUnique(0, s, 0, 0); }
  }

  lemma Turn2(n: nat, half: nat, s: nat)
    requires half > 0 && s == 2 * half
    ensures n < half ==> n % s == n
    ensures n == half ==> n % s == half && (n - half) % s == 0
    ensures n > half ==> (n - half) % s == if n % s == half then 0 else (n - half - 1) % s + 1
  {
    if n <= half {
      DivUnique(n, s, 0, n);
      DivUnique(0, s, 0, 0);
    } else {
      NextRest(n - half - 1, s);
      Shifted(n, half);
    }
  }

  lemma NextRest(n: nat, s: nat)
    requires s > 0
    ensures (n + 1) % s == (if n % s + 1 == s then 0 else n % s + 1)
  {
    var q, m := n / s, n % s;
    DivMod(n, s);
    if m + 1 == s { DivUnique(n + 1, s, q + 1, 0); } else { DivUnique(n + 1, s, q, m + 1); }
  }

  lemma Shifted(n: nat, half: nat)
    requires half > 0 && n >= half
    ensures (n - half) % (2 * half) == 0 <==> n % (2 * half) == half
  {
    var s := 2 * half;
    var q, m := (n - half) / s, (n - half) % s;
    DivMod(n - half, s);
    if m < half { DivUnique(n, s, q, m + half); } else { DivUnique(n, s, q + 1, m - half); }
  }

  lemma FirstHolds(h: Murmur, r: Rolling, t: Rolling, keys: seq<Key>, key: Key)
    requires r.size > 0 && r.size % 2 == 0 && Staged(h, r, t, keys)
    ensures var u := RollingInsert(h, t, key);
            HoldsJust(h, u.b1, keys + [key], Since1(|keys| + 1, r.size / 2)) && SameKind(r.b1, u.b1)
  {
    Turns(|keys|, r.size / 2);
    if t.inserted == 0 {
      ClearHoldsNone(h, t.b1, keys);
      InsertHolds(h, Clear(t.b1), keys, 0, key);
    } else {
      InsertHolds(h, t.b1, keys, Since1(|keys|, r.size / 2), key);
    }
  }

  lemma SecondHolds(h: Murmur, r: Rolling, t: Rolling, keys: seq<Key>, key: Key)
    requires r.size > 0 && r.size % 2 == 0 && Staged(h, r, t, keys)
    ensures var u := RollingInsert(h, t, key);
            HoldsJust(h, u.b2, keys + [key], Since2(|keys| + 1, r.size / 2)) && SameKind(r.b2, u.b2)
  {
    Turns(|keys|, r.size / 2);
    if t.inserted == r.size / 2 {
      ClearHoldsNone(h, t.b2, keys);
      InsertHolds(h, Clear(t.b2), keys, 0, key);
    } else {
      InsertHolds(h, t.b2, keys, Since2(|keys|, r.size / 2), key);
    }
  }

  lemma {:induction false} RunStaged(h: Murmur, r: Rolling, tweak: nat, keys: seq<Key>)
    requires RollingOk(r) && r.size > 0
    ensures var s := RollingReset(r, tweak); Staged(h, s, InsertAll(h, s, keys), keys)
  {
    var s := RollingReset(r, tweak);
    if keys == [] {
      ClearHoldsNone(h, Reset(r.b1, tweak), keys);
      ClearHoldsNone(h, Reset(r.b2, tweak), keys);
    } else {
      var front, key := keys[..|keys| - 1], keys[|keys| - 1];
      RunStaged(h, r, tweak, front);
      Turns(|front|, r.size / 2);
      FirstHolds(h, s, InsertAll(h, s, front), front, key);
      SecondHolds(h, s, InsertAll(h, s, front), front, key);
      assert keys == front + [key];
    }
  }

  /** Hash function `i` of a filter of `bytes` bytes, written out, chooses bit `q` for `key`. */
  ghost predicate Chooses(h: Murmur, bytes: nat, tweak: nat, i: nat, key: Key, q: nat)
    requires bytes > 0
  {
    h((i * 4221880213 + tweak) % 4294967296, key) % (8 * bytes) == q
  }

  /** Every bit of `key` is a bit of one of the `w` most recent keys. */
  ghost predicate Overlaid(h: Murmur, bytes: nat, funcs: nat, tweak: nat, keys: seq<Key>, w: nat, key: Key)
    requires bytes > 0
  {
    forall i, q :: 0 <= i < funcs && 0 <= q && Chooses(h, bytes, tweak, i, key, q) ==>
      exists j, k :: 0 <= j < |keys| && |keys| - j <= w && 0 <= k < funcs && Chooses(h, bytes, tweak, k, keys[j], q)
  }

  lemma HeldAnswer(h: Murmur, f: Filter, keys: seq<Key>, w: nat, key: Key)
    requires HoldsJust(h, f, keys, w)
    ensures Contains(h, f, key) <==> w > 0 && Overlaid(h, |f.data|, f.funcs, f.tweak, keys, w, key)
  {
    forall i, k: Key ensures Chooses(h, |f.data|, f.tweak, i, k, Index(h, f, i, k)) {}
    if w > 0 && Contains(h, f, key) {
      forall i, q | 0 <= i < f.funcs && 0 <= q && Chooses(h, |f.data|, f.tweak, i, key, q)
        ensures exists j, k :: 0 <= j < |keys| && |keys| - j <= w && 0 <= k < f.funcs
                               && Chooses(h, |f.data|, f.tweak, k, keys[j], q)
      {
        assert q == Index(h, f, i, key) && Hit(h, f, i, key);
        var j :| 0 <= j < |keys| && |keys| - j <= w && Chosen(h, f, f.funcs, keys[j], q);
        var k :| 0 <= k < f.funcs && Index(h, f, k, keys[j]) == q;
      }
    }
    if w > 0 && Overlaid(h, |f.data|, f.funcs, f.tweak, keys, w, key) {
      forall i | 0 <= i < f.funcs ensures Hit(h, f, i, key) {
        var q := Index(h, f, i, key);
        var j, k :| 0 <= j < |keys| && |keys| - j <= w && 0 <= k < f.funcs
                    && Chooses(h, |f.data|, f.tweak, k, keys[j], q);
        assert Index(h, f, k, keys[j]) == q;
        assert ChosenBy(h, f, keys, w, q);
      }
    }
  }

  /** After a reset and any run of insertions, the answer is yes exactly when every bit of the key is a bit of
      one of the last `w` keys, where `w` goes from N to 2N - 1 within each half round (and is all there are in
      the first one).  So everything older is forgotten. */
  lemma RollingExact(h: Murmur, r: Rolling, tweak: nat, keys: seq<Key>, key: Key)
    requires RollingOk(r) && r.size > 0
    ensures var half, n := r.size / 2, |keys| % r.size;
            var w := if n >= half then n else if |keys| < half then |keys| else n + half;
            var f := if n < half then r.b2 else r.b1;
            && RollingContains(h, InsertAll(h, RollingReset(r, tweak), keys), key)
            == (w > 0 && Overlaid(h, |f.data|, f.funcs, tweak, keys, w, key))
  {
    var s := RollingReset(r, tweak);
    RunStaged(h, r, tweak, keys);
    StagedAnswer(h, s, InsertAll(h, s, keys), keys, key);
  }

  lemma StagedAnswer(h: Murmur, r: Rolling, t: Rolling, keys: seq<Key>, key: Key)
    requires r.size > 0 && r.size % 2 == 0 && |r.b1.data| > 0 && |r.b2.data| > 0 && Staged(h, r, t, keys)
    ensures var half, n := r.size / 2, |keys| % r.size;
            var w := if n >= half then n else if |keys| < half then |keys| else n + half;
            var f := if n < half then r.b2 else r.b1;
            RollingContains(h, t, key) == (w > 0 && Overlaid(h, |f.data|, f.funcs, f.tweak, keys, w, key))
  {
    WindowsNow(|keys|, r.size / 2);
    if |keys| % r.size < r.size / 2 {
      HeldAnswer(h, t.b2, keys, Since2(|keys|, r.size / 2), key);
    } else {
      HeldAnswer(h, t.b1, keys, Since1(|keys|, r.size / 2), key);
    }
  }

  lemma WindowsNow(n: nat, half: nat)
    requires half > 0
    ensures var m := n % (2 * half);
            && (m >= half ==> Since1(n, half) == m)
            && (m < half ==> Since2(n, half) == if n < half then n else m + half)
  {
    var s := 2 * half;
    var q, m := n / s, n % s;
    DivMod(n, s);
    if m >= half {
      DivUnique(n - 1, s, q, m - 1);
    } else if n > half {
      assert q > 0;
      DivUnique(n - half - 1, s, q - 1, m + half - 1);
    } else {
      DivUnique(n, s, 0, n);
    }
  }

  // ---------- the objects ----------

  class BloomFilter {
    var vData: seq<bv8>
    var isFull: bool
    var isEmpty: bool
    const nHashFuncs: nat
    var nTweak: nat

    ghost function Value(): Filter
      reads this
    {
      Filter(vData, isFull, isEmpty, nHashFuncs, nTweak)
    }

    constructor (size: nat, funcs: nat, tweak: nat)
      ensures Value() == Filter(seq(size, i => 0), false, true, funcs, tweak)
    {
      vData := seq(size, i => 0);
      isFull, isEmpty, nHashFuncs, nTweak := false, true, funcs, tweak;
    }

    function Hash(h: Murmur, i: nat, key: Key): (n: nat)
      requires |vData| > 0
      reads this
      ensures n == Index(h, Value(), i, key)
    {
      h((i * 0xFBA4C795 + nTweak) % 0x1_0000_0000, key) % (|vData| * 8)
    }

    method Mark(h: Murmur, i: nat, key: Key, ghost was: Filter)
      requires |vData| == |was.data| > 0 && nTweak == was.tweak
      modifies this`vData
      ensures vData == SetBit(old(vData), Index(h, was, i, key))
    {
      var n := Hash(h, i, key);
      vData := SetBit(vData, n);
    }

    method Insert_(h: Murmur, key: Key)
      requires Usable(Value())
      modifies this
      ensures Value() == Insert(h, old(Value()), key)
    {
      if isFull { return; }
      ghost var was := Value();
      var i := 0;
      while i < nHashFuncs
        invariant 0 <= i <= nHashFuncs
        invariant vData == Marked(h, was, i, key) && isFull == was.full && nTweak == was.tweak
      {
        Mark(h, i, key, was);
        i := i + 1;
      }
      isEmpty := false;
    }

    method Contains_(h: Murmur, key: Key) returns (r: bool)
      requires Usable(Value())
      ensures r == Contains(h, Value(), key)
    {
      if isFull { return true; }
      if isEmpty { return false; }
      var i := 0;
      while i < nHashFuncs
        invariant 0 <= i <= nHashFuncs
        invariant forall j :: 0 <= j < i ==> Hit(h, Value(), j, key)
      {
        var n := Hash(h, i, key);
        if vData[n / 8] & Mask(n % 8) == 0 {
          assert !Hit(h, Value(), i, key);
          return false;
        }
        i := i + 1;
      }
      return true;
    }

    method Clear_()
      modifies this
      ensures Value() == Clear(old(Value()))
    {
      vData := seq(|vData|, i => 0);
      isFull := false;
      isEmpty := true;
    }

    method Reset_(tweak: nat)
      modifies this
      ensures Value() == Reset(old(Value()), tweak)
    {
      Clear_();
      nTweak := tweak;
    }

    method UpdateEmptyFull()
      modifies this
      ensures Value() == Update(old(Value()))
    {
      var full, empty := true, true;
      var i := 0;
      while i < |vData|
        invariant 0 <= i <= |vData|
        invariant full == AllOnes(vData[..i]) && empty == AllZeros(vData[..i])
        invariant Value() == old(Value())
      {
        assert vData[..i + 1] == vData[..i] + [vData[i]];
        full := full && vData[i] == 0xff;
        empty := empty && vData[i] == 0;
        i := i + 1;
      }
      assert vData[..i] == vData;
      isFull, isEmpty := full, empty;
    }
  }

  class RollingBloomFilter {
    const b1: BloomFilter
    const b2: BloomFilter
    var nInsertions: nat
    const nBloomSize: nat

    ghost predicate Apart()
      reads this
    {
      b1 != b2
    }

    ghost function Value(): Rolling
      reads this, b1, b2
    {
      Rolling(b1.Value(), b2.Value(), nInsertions, nBloomSize)
    }

    /** `bytes` and `funcs` are what the sizing formulas give for 2 * `elements`. */
    constructor (elements: nat, bytes: nat, funcs: nat, tweak: nat)
      requires bytes > 0 && 2 * elements < 0x1_0000_0000
      ensures Apart() && fresh(b1) && fresh(b2) && RollingOk(Value())
      ensures Value().size == 2 * elements && Value() == RollingReset(Value(), tweak)
    {
      nBloomSize := elements * 2;
      b1 := new BloomFilter(bytes, funcs, 0);
      b2 := new BloomFilter(bytes, funcs, 0);
      nInsertions := 0;
      new;
      b1.Reset_(tweak);
      b2.Reset_(tweak);
    }

    method Stagger()
      requires Apart() && RollingOk(Value())
      modifies b1, b2
      ensures Value() == Staggered(old(Value()))
    {
      if nInsertions == 0 {
        b1.Clear_();
      } else if nInsertions == nBloomSize / 2 {
        b2.Clear_();
      }
    }

    method InsertBoth(h: Murmur, key: Key)
      requires Apart() && RollingOk(Value())
      modifies b1, b2
      ensures Value() ==
              Rolling(Insert(h, old(b1.Value()), key), Insert(h, old(b2.Value()), key), nInsertions, nBloomSize)
    {
      b1.Insert_(h, key);
      b2.Insert_(h, key);
    }

    method RollingInsert_(h: Murmur, key: Key)
      requires Apart() && RollingOk(Value())
      modifies this, b1, b2
      ensures RollingOk(Value()) && Value() == RollingInsert(h, old(Value()), key)
    {
      Stagger();
      InsertBoth(h, key);
      nInsertions := (nInsertions + 1) % 0x1_0000_0000;
      if nInsertions == nBloomSize {
        nInsertions := 0;
      }
    }

    method RollingContains_(h: Murmur, key: Key) returns (r: bool)
      requires RollingOk(Value())
      ensures r == RollingContains(h, Value(), key)
    {
      if nInsertions < nBloomSize / 2 {
        r := b2.Contains_(h, key);
      } else {
        r := b1.Contains_(h, key);
      }
    }

    method RollingReset_(tweak: nat)
      requires Apart() && RollingOk(Value())
      modifies this, b1, b2
      ensures RollingOk(Value()) && Value() == RollingReset(old(Value()), tweak)
    {
      b1.Reset_(tweak);
      b2.Reset_(tweak);
      nInsertions := 0;
    }
  }
}
