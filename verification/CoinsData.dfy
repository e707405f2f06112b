/** The unspent outputs of one transaction. */
module CoinsData {
  import opened Common

  /** A null output (one that is spent) has value -1. */
  datatype TxOut = TxOut(value: int, script: seq<Byte>)

  datatype Coins = Coins(coinBase: bool, vout: seq<TxOut>, height: int, version: int)

  const NULL_OUT := TxOut(-1, [])

  predicate IsNull(o: TxOut) { o.value == -1 }

  const EMPTY := Coins(false, [], 0, 0)

  predicate AllNull(vout: seq<TxOut>) {
    forall i :: 0 <= i < |vout| ==> IsNull(vout[i])
  }

  predicate IsPruned(c: Coins) { AllNull(c.vout) }

  /** No spent output at the end. */
  predicate Clean(c: Coins) {
    c.vout == [] || !IsNull(c.vout[|c.vout| - 1])
  }

  function Trim(vout: seq<TxOut>): (r: seq<TxOut>)
    ensures r <= vout && AllNull(vout[|r|..]) && (r == [] || !IsNull(r[|r| - 1]))
  {
    if vout != [] && IsNull(vout[|vout| - 1]) then Trim(vout[..|vout| - 1]) else vout
  }

  function Cleanup(c: Coins): (r: Coins)
    ensures Clean(r) && (IsPruned(r) <==> IsPruned(c))
    ensures Clean(c) ==> r == c
  {
    var r := c.(vout := Trim(c.vout));
    assert c.vout == r.vout + c.vout[|r.vout|..];
    r
  }

  /** Among clean coins, `vout.empty()` is the same test as `IsPruned()`. */
  lemma CleanPruned(c: Coins)
    requires Clean(c)
    ensures IsPruned(c) <==> c.vout == []
  {
    if c.vout != [] { assert !IsNull(c.vout[|c.vout| - 1]); }
  }

  /** The loop of `CCoins::Cleanup`. */
  method CleanupLoop(c: Coins) returns (r: Coins)
    ensures r == Cleanup(c)
  {
    r := c;
    while |r.vout| > 0 && IsNull(r.vout[|r.vout| - 1])
      invariant r == c.(vout := r.vout) && Trim(r.vout) == Trim(c.vout)
      decreases |r.vout|
    {
      r := r.(vout := r.vout[..|r.vout| - 1]);
    }
  }

  method Spend(c: Coins, nPos: nat) returns (ok: bool, r: Coins)
    ensures ok <==> nPos < |c.vout| && !IsNull(c.vout[nPos])
    ensures !ok ==> r == c
    ensures ok ==> r == Cleanup(c.(vout := c.vout[nPos := NULL_OUT]))
  {
    if nPos >= |c.vout| || IsNull(c.vout[nPos]) { return false, c; }
    r := CleanupLoop(c.(vout := c.vout[nPos := NULL_OUT]));
    ok := true;
  }
}
