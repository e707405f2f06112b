/** Base58 text for byte strings: both directions repeat "multiply the whole buffer by a base and add
    a digit" in a buffer whose size is computed beforehand. */
module Base58 {
  import opened Arith

  // ---------- big-endian digits ----------

  function Pow(b: nat, k: nat): (p: nat)
    ensures b > 0 ==> p > 0
  {
    if k == 0 then 1 else b * Pow(b, k - 1)
  }

  /** The number a digit string stands for, most significant digit first. */
  function Number(s: seq<nat>, b: nat): nat {
    if s == [] then 0 else Number(s[..|s| - 1], b) * b + s[|s| - 1]
  }

  ghost predicate Digits(s: seq<nat>, b: nat) {
    forall i :: 0 <= i < |s| ==> s[i] < b
  }

  lemma {:induction false} NumberBound(s: seq<nat>, b: nat)
    requires b > 0 && Digits(s, b)
    ensures Number(s, b) < Pow(b, |s|)
  {
    if s != [] {
      NumberBound(s[..|s| - 1], b);
      MulLess(Number(s[..|s| - 1], b) + 1, Pow(b, |s| - 1), b);
      assert (Number(s[..|s| - 1], b) + 1) * b == Number(s[..|s| - 1], b) * b + b;
      assert Pow(b, |s| - 1) * b == b * Pow(b, |s| - 1);
    }
  }

  lemma {:induction false} LeadingZero(s: seq<nat>, b: nat)
    ensures Number([0] + s, b) == Number(s, b)
  {
    if s == [] {
      assert ([0] + s)[..0] == [];
    } else {
      LeadingZero(s[..|s| - 1], b);
      assert ([0] + s)[..|s|] == [0] + s[..|s| - 1];
    }
  }

  // ---------- how much room a number needs ----------

  lemma {:induction false} PowAdd(b: nat, i: nat, j: nat)
    ensures Pow(b, i + j) == Pow(b, i) * Pow(b, j)
  {
    if j > 0 {
      PowAdd(b, i, j - 1);
      assert Pow(b, i + j) == b * Pow(b, i + (j - 1));
      assert b * (Pow(b, i) * Pow(b, j - 1)) == Pow(b, i) * (b * Pow(b, j - 1));
    }
  }

  lemma {:induction false} PowPow(b: nat, i: nat, j: nat, p: nat)
    requires p == i * j
    ensures Pow(Pow(b, i), j) == Pow(b, p)
  {
    if j > 0 {
      var q := i * (j - 1);
      PowPow(b, i, j - 1, q);
      PowAdd(b, i, q);
      OneMore(i, j);
    }
  }

  lemma OneMore(i: nat, j: nat)
    requires j > 0
    ensures i + i * (j - 1) == i * j
  {
  }

  lemma {:induction false} PowBase(x: nat, y: nat, k: nat)
    requires x <= y
    ensures Pow(x, k) <= Pow(y, k)
  {
    if k > 0 {
      PowBase(x, y, k - 1);
      MulLess(x, y, Pow(x, k - 1));
      MulLess(Pow(x, k - 1), Pow(y, k - 1), y);
    }
  }

  lemma {:induction false} PowStrict(x: nat, y: nat, k: nat)
    requires x < y && k > 0
    ensures Pow(x, k) < Pow(y, k)
  {
    if k > 1 {
      PowStrict(x, y, k - 1);
      MulLess(x, y, Pow(x, k - 1));
      MulStrict(Pow(x, k - 1), Pow(y, k - 1), y);
    }
  }

  lemma {:induction false} PowExp(b: nat, i: nat, j: nat)
    requires b > 0 && i <= j
    ensures Pow(b, i) <= Pow(b, j)
  {
    if i < j {
      PowExp(b, i, j - 1);
      MulLess(1, b, Pow(b, j - 1));
    }
  }

  /** From one inequality between powers to all that have at least the same ratio of exponents. */
  lemma Room(a: nat, b: nat, i: nat, j: nat, n: nat, m: nat)
    requires a > 0 && b > 0 && i > 0 && Pow(a, i) <= Pow(b, j) && j * n <= i * m
    ensures Pow(a, n) <= Pow(b, m)
  {
    SwapPow(a, n, i);
    PowBase(Pow(a, i), Pow(b, j), n);
    PowBound(b, j, n, m, i);
    if Pow(a, n) > Pow(b, m) { PowStrict(Pow(b, m), Pow(a, n), i); }
  }

  lemma SwapPow(a: nat, n: nat, i: nat)
    ensures Pow(Pow(a, n), i) == Pow(Pow(a, i), n)
  {
    Commute(n, i);
    var p := n * i;
    PowPow(a, n, i, p);
    PowPow(a, i, n, p);
  }

  lemma PowBound(b: nat, j: nat, n: nat, m: nat, i: nat)
    requires b > 0 && j * n <= i * m
    ensures Pow(Pow(b, j), n) <= Pow(Pow(b, m), i)
  {
    Commute(m, i);
    var p, q := j * n, m * i;
    PowPow(b, j, n, p);
    PowPow(b, m, i, q);
    PowExp(b, p, q);
  }

  lemma Commute(x: nat, y: nat)
    ensures x * y == y * x
  {
  }

  lemma EncodeRoom(n: nat)
    ensures Pow(256, n) <= Pow(58, n * 138 / 100 + 1)
  {
    assert Pow(256, 8) <= Pow(58, 11);
    Room(256, 58, 8, 11, n, n * 138 / 100 + 1);
  }

  lemma DecodeRoom(n: nat)
    ensures Pow(58, n) <= Pow(256, n * 733 / 1000 + 1)
  {
    SeventyOne();
    Room(58, 256, 71, 52, n, n * 733 / 1000 + 1);
  }

  lemma SeventyOne()
    ensures Pow(58, 71) <= Pow(256, 52)
  {
    assert Pow(58, 1) == 58;
    assert Pow(58, 8) == 128063081718016;
    Product(58, 8, 8, 128063081718016, 128063081718016);
    Product(58, 16, 1, 16400152899115243850138976256, 58);
    Product(58, 17, 17, 951208868148684143308060622848, 951208868148684143308060622848);
    Product(58, 34, 1, 904798310844700775313327215140493940623303545877497699631104, 58);
    var p := 52478302028992644968172978478148648556151605660894866578604032;
    Product(58, 35, 35, p, p);
    Product(58, 70, 1, p * p, 58);
    assert Pow(256, 6) == 281474976710656 && Pow(256, 7) == 72057594037927936;
    Product(256, 6, 7, 281474976710656, 72057594037927936);
    Product(256, 13, 13, 20282409603651670423947251286016, 20282409603651670423947251286016);
    var q := 411376139330301510538742295639337626245683966408394965837152256;
    Product(256, 26, 26, q, q);
  }

  lemma Product(b: nat, i: nat, j: nat, x: nat, y: nat)
    requires Pow(b, i) == x && Pow(b, j) == y
    ensures Pow(b, i + j) == x * y
  {
    PowAdd(b, i, j);
  }

  // ---------- shortest digit strings ----------

  function ToDigits(n: nat, b: nat): seq<nat>
    requires b > 1
  {
    if n == 0 then [] else (Shrinks(n, b); ToDigits(n / b, b) + [n % b])
  }

  lemma Shrinks(n: nat, b: nat)
    requires n > 0 && b > 1
    ensures 0 <= n / b < n && 0 <= n % b < b && n == (n / b) * b + n % b
  {
    var q := n / b;
    assert n == q * b + n % b;
    if q >= n { MulLess(n, q, b); MulLess(2, b, n); }
  }

  ghost predicate Shortest(s: seq<nat>) {
    s != [] ==> s[0] != 0
  }

  lemma Appended(t: seq<nat>, d: nat, b: nat)
    requires Digits(t, b) && d < b
    ensures Digits(t + [d], b) && Number(t + [d], b) == Number(t, b) * b + d
  {
    assert (t + [d])[..|t|] == t;
  }

  lemma {:induction false} ToDigitsOk(n: nat, b: nat)
    requires b > 1
    ensures var s := ToDigits(n, b); Digits(s, b) && Number(s, b) == n && Shortest(s)
  {
    if n > 0 {
      Shrinks(n, b);
      var q, d := n / b, n % b;
      ToDigitsOk(q, b);
      Appended(ToDigits(q, b), d, b);
    }
  }

  lemma {:induction false} ShortestPositive(s: seq<nat>, b: nat)
    requires b > 0 && s != [] && s[0] != 0
    ensures Number(s, b) > 0
  {
    if |s| > 1 {
      ShortestPositive(s[..|s| - 1], b);
      MulLess(1, Number(s[..|s| - 1], b), b);
    } else {
      assert s[..0] == [];
    }
  }

  /** There is only one digit string without a leading zero. */
  lemma {:induction false} ShortestUnique(s: seq<nat>, b: nat)
    requires b > 1 && Digits(s, b) && Shortest(s)
    ensures ToDigits(Number(s, b), b) == s
  {
    if s != [] {
      var n := |s| - 1;
      ShortestPositive(s, b);
      DivUnique(Number(s, b), b, Number(s[..n], b), s[n]);
      ShortestUnique(s[..n], b);
      assert s == s[..n] + [s[n]];
    }
  }

  function Strip(s: seq<nat>): seq<nat> {
    if s != [] && s[0] == 0 then Strip(s[1..]) else s
  }

  lemma {:induction false} StripOk(s: seq<nat>, b: nat)
    requires b > 1 && Digits(s, b)
    ensures Digits(Strip(s), b) && Strip(s) == ToDigits(Number(s, b), b)
  {
    if s != [] && s[0] == 0 {
      StripOk(s[1..], b);
      LeadingZero(s[1..], b);
      assert s == [0] + s[1..];
    } else {
      ShortestUnique(s, b);
    }
  }

  // ---------- the buffer ----------

  lemma TimesBase(d: nat, p: nat, x: nat, b: nat)
    ensures (d * p + x) * b == d * (b * p) + x * b
  {
    assert (d * p + x) * b == d * p * b + x * b;
    assert d * p * b == d * (b * p);
  }

  lemma {:induction false} Prepend(d: nat, s: seq<nat>, b: nat)
    ensures Number([d] + s, b) == d * Pow(b, |s|) + Number(s, b)
  {
    if s == [] {
      assert ([d] + s)[..0] == [];
    } else {
      var n := |s| - 1;
      Prepend(d, s[..n], b);
      assert ([d] + s)[..|s|] == [d] + s[..n];
      TimesBase(d, Pow(b, n), Number(s[..n], b), b);
    }
  }

  /** One step of the inner loop, on the digits from `i` on. */
  lemma CarryStep(d: nat, mul: nat, carry: nat, base: nat, p: nat, low: nat, oldLow: nat, add: nat)
    requires base > 0 && low + carry * p == oldLow * mul + add
    ensures var c := carry + mul * d;
            (c % base) * p + low + (c / base) * (base * p) == (d * p + oldLow) * mul + add
  {
    var c := carry + mul * d;
    var q, r := c / base, c % base;
    assert c == q * base + r;
    assert q * (base * p) == (q * base) * p;
    assert (q * base + r) * p == (q * base) * p + r * p;
    assert (carry + mul * d) * p == carry * p + (mul * d) * p;
    assert (d * p + oldLow) * mul == (d * p) * mul + oldLow * mul;
    assert (mul * d) * p == (d * p) * mul;
  }

  /** The buffer `s` has its digits from `i` on replaced by those of "was * mul + add". */
  ghost predicate Carried(s: seq<nat>, was: seq<nat>, i: nat, carry: nat, base: nat, mul: nat, add: nat) {
    && |s| == |was| && i <= |s|
    && s[..i] == was[..i]
    && Digits(s[i..], base)
    && Number(s[i..], base) + carry * Pow(base, |s| - i) == Number(was[i..], base) * mul + add
  }

  lemma CarriedStep(s: seq<nat>, was: seq<nat>, i: nat, carry: nat, base: nat, mul: nat, add: nat)
    requires base > 0 && i < |s| && Carried(s, was, i + 1, carry, base, mul, add)
    ensures var c := carry + mul * s[i]; Carried(s[i := c % base], was, i, c / base, base, mul, add)
  {
    var c := carry + mul * s[i];
    var t := s[i := c % base];
    var low, high := s[i + 1..], was[i + 1..];
    assert s[i] == s[..i + 1][i] == was[..i + 1][i] == was[i];
    assert t[..i] == was[..i] by { assert s[..i] == s[..i + 1][..i]; assert was[..i] == was[..i + 1][..i]; }
    assert t[i..] == [c % base] + low;
    assert was[i..] == [was[i]] + high;
    CarryStep(s[i], mul, carry, base, Pow(base, |low|), Number(low, base), Number(high, base), add);
    Prepend(c % base, low, base);
    Prepend(was[i], high, base);
  }

  /** "buffer = buffer * mul + add", in place; what does not fit is the carry. */
  method MulAdd(buf: array<nat>, base: nat, mul: nat, add: nat) returns (carry: nat)
    requires base > 0
    modifies buf
    ensures Number(buf[..], base) + carry * Pow(base, buf.Length) == old(Number(buf[..], base)) * mul + add
    ensures Digits(buf[..], base)
  {
    var n := buf.Length;
    ghost var was := buf[..];
    carry := add;
    var i := n;
    assert was[n..] == [];
    while i > 0
      invariant 0 <= i <= n
      invariant Carried(buf[..], was, i, carry, base, mul, add)
    {
      i := i - 1;
      CarriedStep(buf[..], was, i, carry, base, mul, add);
      carry := Digit(buf, i, base, carry + mul * buf[i]);
    }
    assert buf[..][0..] == buf[..] && was[0..] == was;
  }

  method Digit(buf: array<nat>, i: nat, base: nat, c: nat) returns (carry: nat)
    requires base > 0 && i < buf.Length
    modifies buf
    ensures buf[..] == old(buf[..])[i := c % base] && carry == c / base
  {
    buf[i] := c % base;
    carry := c / base;
  }

  /** A buffer wide enough for the result leaves no carry: the code's assertion. */
  lemma NoCarry(low: nat, carry: nat, p: nat, total: nat)
    requires low + carry * p == total < p
    ensures carry == 0 && low == total
  {
    if carry > 0 { MulLess(1, carry, p); }
  }

  /** Append one digit of base `from` to a buffer that holds digits of base `to`. */
  method Absorb(buf: array<nat>, to: nat, from: nat, d: nat, ghost s: seq<nat>, ghost room: nat)
    requires to > 0 && from > 0 && d < from && Digits(s, from)
    requires Number(buf[..], to) == Number(s, from)
    requires |s| < room && Pow(from, room) <= Pow(to, buf.Length)
    modifies buf
    ensures Digits(buf[..], to) && Number(buf[..], to) == Number(s + [d], from)
  {
    assert (s + [d])[..|s|] == s;
    NumberBound(s + [d], from);
    PowExp(from, |s| + 1, room);
    var carry := MulAdd(buf, to, from, d);
    NoCarry(Number(buf[..], to), carry, Pow(to, buf.Length), Number(s + [d], from));
    assert carry == 0;
  }
}
