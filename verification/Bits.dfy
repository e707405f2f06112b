/** Single bits of bytes and byte strings. */
module Bits {

  /** The mask `1 << k`. */
  function Mask(k: nat): bv8
    requires k < 8
  {
    if k == 0 then 1 else if k == 1 then 2 else if k == 2 then 4 else if k == 3 then 8
    else if k == 4 then 16 else if k == 5 then 32 else if k == 6 then 64 else 128
  }

  lemma MaskIs(k: nat)
    requires k < 8
    ensures Mask(k) == (1 as bv8) << k
  {
  }

  predicate Bit(b: bv8, k: nat)
    requires k < 8
  {
    b & Mask(k) != 0
  }

  lemma OrBit(b: bv8, k: nat, on: bool, j: nat)
    requires k < 8 && j < 8
    ensures Bit(b | (if on then Mask(k) else 0), j) == (Bit(b, j) || (on && j == k))
  {
  }

  lemma ZeroBit(j: nat)
    requires j < 8
    ensures !Bit(0, j)
  {
  }

  /** Bit `q` of a byte string, least significant bit of each byte first. */
  predicate BitAt(bytes: seq<bv8>, q: nat)
    requires q < 8 * |bytes|
  {
    Bit(bytes[q / 8], q % 8)
  }

  lemma SetOne(bytes: seq<bv8>, p: nat, b: bv8, on: bool, q: nat)
    requires p < 8 * |bytes| && q < 8 * |bytes|
    requires b == bytes[p / 8] | (if on then Mask(p % 8) else 0)
    ensures BitAt(bytes[p / 8 := b], q) == (BitAt(bytes, q) || (on && q == p))
  {
    if q / 8 == p / 8 { OrBit(bytes[p / 8], p % 8, on, q % 8); }
  }
}
