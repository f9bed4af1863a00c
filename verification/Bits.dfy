/**
 Go's bitwise operators on unsigned words, by recursion on the binary digits, and the bits
 of a byte string read from its first. Words are unbounded naturals; a width is applied
 where the program has one.
 */
module Bits {
  import opened Base

  function Pow2(n: nat): (r: nat)
    ensures r >= 1
  {
    if n == 0 then 1 else 2 * Pow2(n - 1)
  }

  function And(x: nat, y: nat): nat {
    if x == 0 then 0 else 2 * And(x / 2, y / 2) + (x % 2) * (y % 2)
  }

  function Or(x: nat, y: nat): nat
    decreases x + y
  {
    if x == 0 then y else if y == 0 then x else 2 * Or(x / 2, y / 2) + (if x % 2 == 1 || y % 2 == 1 then 1 else 0)
  }

  /** Go's &^. */
  function AndNot(x: nat, y: nat): (r: nat)
    ensures r <= x
  {
    if x == 0 then 0 else 2 * AndNot(x / 2, y / 2) + (if x % 2 == 1 && y % 2 == 0 then 1 else 0)
  }

  function Shr(x: nat, s: nat): nat {
    if s == 0 then x else Shr(x / 2, s - 1)
  }

  function Shl(x: nat, s: nat): (r: nat)
    ensures r >= x
    decreases s
  {
    if s == 0 then x else Shl(2 * x, s - 1)
  }

  /** Bit j of x, counted from the least significant. */
  predicate Bit(x: nat, j: nat) {
    if j == 0 then x % 2 == 1 else Bit(x / 2, j - 1)
  }

  lemma {:induction false} BitOfAnd(x: nat, y: nat, j: nat)
    ensures Bit(And(x, y), j) == (Bit(x, j) && Bit(y, j))
    decreases j
  {
    if x == 0 { ZeroBits(j); }
    else {
      assert (x % 2) * (y % 2) == if x % 2 == 1 && y % 2 == 1 then 1 else 0;
      if j > 0 { BitOfAnd(x / 2, y / 2, j - 1); }
    }
  }

  lemma {:induction false} ZeroBits(j: nat)
    ensures !Bit(0, j)
  {
    if j > 0 { ZeroBits(j - 1); }
  }

  lemma {:induction false} BitOfOr(x: nat, y: nat, j: nat)
    ensures Bit(Or(x, y), j) == (Bit(x, j) || Bit(y, j))
    decreases j
  {
    ZeroBits(j);
    if x > 0 && y > 0 && j > 0 { BitOfOr(x / 2, y / 2, j - 1); }
  }

  lemma {:induction false} BitOfAndNot(x: nat, y: nat, j: nat)
    ensures Bit(AndNot(x, y), j) == (Bit(x, j) && !Bit(y, j))
    decreases j
  {
    ZeroBits(j);
    if x > 0 && j > 0 { BitOfAndNot(x / 2, y / 2, j - 1); }
  }

  lemma {:induction false} BitOfShr(x: nat, s: nat, j: nat)
    ensures Bit(Shr(x, s), j) == Bit(x, j + s)
  {
    if s > 0 { BitOfShr(x / 2, s - 1, j); }
  }

  lemma {:induction false} BitOfShl(x: nat, s: nat, j: nat)
    ensures Bit(Shl(x, s), j) == (j >= s && Bit(x, j - s))
    decreases s
  {
    if s > 0 {
      BitOfShl(2 * x, s - 1, j);
      assert 2 * x / 2 == x && 2 * x % 2 == 0;
    }
  }

  lemma {:induction false} BitOfOnes(s: nat, j: nat)
    ensures Bit(Pow2(s) - 1, j) == (j < s)
  {
    if s == 0 {
      ZeroBits(j);
    } else if j > 0 {
      assert (Pow2(s) - 1) / 2 == Pow2(s - 1) - 1;
      BitOfOnes(s - 1, j - 1);
    }
  }

  lemma {:induction false} NoHighBits(x: nat, n: nat, j: nat)
    requires x < Pow2(n) && j >= n
    ensures !Bit(x, j)
    decreases n
  {
    if n == 0 { ZeroBits(j); }
    else { NoHighBits(x / 2, n - 1, j - 1); }
  }

  /** A word is its bits. */
  lemma {:induction false} SameBits(x: nat, y: nat)
    requires forall j: nat :: Bit(x, j) == Bit(y, j)
    ensures x == y
    decreases x + y
  {
    if x + y > 0 {
      forall j: nat ensures Bit(x / 2, j) == Bit(y / 2, j) {
        assert Bit(x, j + 1) == Bit(y, j + 1);
      }
      assert Bit(x, 0) == Bit(y, 0);
      SameBits(x / 2, y / 2);
    }
  }

  lemma HalfTimes(q: nat, s: nat)
    requires s > 0
    ensures q * Pow2(s) == 2 * (q * Pow2(s - 1))
    ensures (q + 1) * Pow2(s) == q * Pow2(s) + Pow2(s)
  {
    var p := Pow2(s - 1);
    assert q * (2 * p) == 2 * (q * p);
  }

  /** Shifting right by s leaves the quotient by 2^s. */
  lemma {:induction false} Split(x: nat, s: nat)
    ensures Shr(x, s) * Pow2(s) <= x < Shr(x, s) * Pow2(s) + Pow2(s)
    decreases s
  {
    if s > 0 {
      Split(x / 2, s - 1);
      HalfTimes(Shr(x, s), s);
    }
  }

  lemma {:induction false} ShrUnique(x: nat, s: nat, q: nat)
    requires q * Pow2(s) <= x < q * Pow2(s) + Pow2(s)
    ensures Shr(x, s) == q
    decreases s
  {
    if s > 0 {
      HalfTimes(q, s);
      ShrUnique(x / 2, s - 1, q);
    }
  }

  /** Filling in low bits that are clear adds their value. */
  lemma {:induction false} OrLowOnes(x: nat, s: nat)
    requires forall j :: 0 <= j < s ==> !Bit(x, j)
    ensures Or(x, Pow2(s) - 1) == x + Pow2(s) - 1 && x == Shr(x, s) * Pow2(s)
    decreases s
  {
    if s > 0 {
      assert !Bit(x, 0);
      forall j | 0 <= j < s - 1 ensures !Bit(x / 2, j) { assert !Bit(x, j + 1); }
      OrLowOnes(x / 2, s - 1);
      assert (Pow2(s) - 1) / 2 == Pow2(s - 1) - 1;
      HalfTimes(Shr(x, s), s);
    }
  }

  /** The bits at s and above agree. */
  ghost predicate SameAbove(x: nat, y: nat, s: nat) {
    forall j: nat :: j >= s ==> Bit(x, j) == Bit(y, j)
  }

  lemma SameAboveIsShr(x: nat, y: nat, s: nat)
    ensures Shr(x, s) == Shr(y, s) <==> SameAbove(x, y, s)
  {
    if Shr(x, s) == Shr(y, s) {
      forall j: nat | j >= s ensures Bit(x, j) == Bit(y, j) {
        BitOfShr(x, s, j - s);
        BitOfShr(y, s, j - s);
      }
    }
    if SameAbove(x, y, s) {
      forall j: nat ensures Bit(Shr(x, s), j) == Bit(Shr(y, s), j) {
        BitOfShr(x, s, j);
        BitOfShr(y, s, j);
      }
      SameBits(Shr(x, s), Shr(y, s));
    }
  }

  /** The 2^s words from x, its low bits clear, to x with them set, are those that agree with x above. */
  lemma BlockOf(x: nat, s: nat, y: nat)
    requires forall j :: 0 <= j < s ==> !Bit(x, j)
    ensures x <= Or(x, Pow2(s) - 1)
    ensures x <= y <= Or(x, Pow2(s) - 1) <==> SameAbove(x, y, s)
  {
    OrLowOnes(x, s);
    Split(y, s);
    SameAboveIsShr(x, y, s);
    if x <= y <= Or(x, Pow2(s) - 1) { ShrUnique(y, s, Shr(x, s)); }
  }

  // Powers and lengths

  /** The number of binary digits, Go's bits.Len64. */
  function Len(x: nat): nat {
    if x == 0 then 0 else 1 + Len(x / 2)
  }

  lemma {:induction false} LenIs(x: nat)
    requires x > 0
    ensures Len(x) > 0 && Pow2(Len(x) - 1) <= x < Pow2(Len(x))
  {
    if x > 1 { LenIs(x / 2); }
  }

  lemma {:induction false} PowerMonotone(a: nat, b: nat)
    requires a <= b
    ensures Pow2(a) <= Pow2(b)
  {
    if a < b { PowerMonotone(a, b - 1); }
  }

  lemma {:induction false} PowerSum(a: nat, b: nat)
    ensures Pow2(a + b) == Pow2(a) * Pow2(b)
    decreases b
  {
    if b > 0 {
      PowerSum(a, b - 1);
      HalfTimes(Pow2(a), b);
    }
  }

  // Byte strings

  /** Bit i of a byte string, the first being the most significant of its first byte. */
  predicate BitAt(b: Bytes, i: nat)
    requires i < 8 * |b|
  {
    Bit(b[i / 8], 7 - i % 8)
  }

  /** The first n bits agree. */
  ghost predicate Agree(a: Bytes, b: Bytes, n: nat)
    requires n <= 8 * |a| && n <= 8 * |b|
  {
    forall i :: 0 <= i < n ==> BitAt(a, i) == BitAt(b, i)
  }

  /** The big-endian value. */
  function BE(b: Bytes): nat {
    if b == [] then 0 else 256 * BE(b[..|b| - 1]) + b[|b| - 1]
  }

  lemma Pow2Of8()
    ensures Pow2(8) == 256
  {
    assert Pow2(4) == 16;
  }

  lemma {:induction false} BitOfConcat(x: nat, y: nat, s: nat, j: nat)
    requires y < Pow2(s)
    ensures Bit(x * Pow2(s) + y, j) == if j < s then Bit(y, j) else Bit(x, j - s)
    decreases s
  {
    if s > 0 {
      var p := Pow2(s - 1);
      assert x * Pow2(s) == 2 * (x * p);
      assert (x * Pow2(s) + y) / 2 == x * p + y / 2;
      if j > 0 { BitOfConcat(x, y / 2, s - 1, j - 1); }
    }
  }

  lemma {:induction false} BitOfBE(b: Bytes, i: nat)
    requires i < 8 * |b|
    ensures Bit(BE(b), 8 * |b| - 1 - i) == BitAt(b, i)
  {
    var n := |b| - 1;
    Pow2Of8();
    BitOfConcat(BE(b[..n]), b[n], 8, 8 * |b| - 1 - i);
    if i < 8 * n {
      BitOfBE(b[..n], i);
    } else {
      assert i / 8 == n && 7 - i % 8 == 8 * |b| - 1 - i;
    }
  }

  lemma {:induction false} BEBelow(b: Bytes)
    ensures BE(b) < Pow2(8 * |b|)
  {
    if b != [] {
      var n := |b| - 1;
      BEBelow(b[..n]);
      PowerStep(8 * n);
    }
  }

  lemma PowerStep(n: nat)
    ensures Pow2(n + 8) == 256 * Pow2(n)
  {
    assert Pow2(n + 2) == 4 * Pow2(n) && Pow2(n + 4) == 4 * Pow2(n + 2);
    assert Pow2(n + 6) == 4 * Pow2(n + 4) && Pow2(n + 8) == 4 * Pow2(n + 6);
  }

  lemma BEOfOneMore(b: Bytes, c: byte)
    ensures BE(b + [c]) == 256 * BE(b) + c
  {
    assert (b + [c])[..|b|] == b;
  }

  lemma Regroup(x: nat, p: nat, y: nat, c: nat)
    ensures 256 * (x * p + y) + c == x * (256 * p) + (256 * y + c)
  {
  }

  lemma {:induction false} BEOfConcat(a: Bytes, b: Bytes)
    ensures BE(a + b) == BE(a) * Pow2(8 * |b|) + BE(b)
    decreases |b|
  {
    if b == [] {
      assert a + b == a;
    } else {
      hide Pow2, BE;
      var front, c := b[..|b| - 1], b[|b| - 1];
      var p := Pow2(8 * |front|);
      BEOfConcat(a, front);
      assert Pow2(8 * |b|) == 256 * p by { PowerStep(8 * |front|); }
      assert BE(a + b) == 256 * BE(a + front) + c by {
        assert a + b == a + front + [c];
        BEOfOneMore(a + front, c);
      }
      assert BE(b) == 256 * BE(front) + c by {
        assert b == front + [c];
        BEOfOneMore(front, c);
      }
      Regroup(BE(a), p, BE(front), c);
    }
  }

  /** x as n big-endian bytes. */
  function ToBE(x: nat, n: nat): (b: Bytes)
    ensures |b| == n
    decreases n
  {
    if n == 0 then [] else ToBE(x / 256, n - 1) + [x % 256]
  }

  lemma {:induction false} Pow2Of(n: nat)
    requires n <= 64
    ensures n == 57 ==> Pow2(n) == 0x200_0000_0000_0000
    ensures n == 58 ==> Pow2(n) == 0x400_0000_0000_0000
    ensures n == 59 ==> Pow2(n) == 0x800_0000_0000_0000
    ensures n == 60 ==> Pow2(n) == 0x1000_0000_0000_0000
    ensures n == 61 ==> Pow2(n) == 0x2000_0000_0000_0000
    ensures n == 62 ==> Pow2(n) == 0x4000_0000_0000_0000
    ensures n == 63 ==> Pow2(n) == 0x8000_0000_0000_0000
    ensures n == 64 ==> Pow2(n) == 0x1_0000_0000_0000_0000
  {
    Pow2Of8();
    PowerStep(8);
    PowerStep(16);
    PowerStep(24);
    PowerStep(32);
    PowerStep(40);
    PowerStep(48);
    PowerStep(56);
    var p := Pow2(56);
    assert p == 0x100_0000_0000_0000;
    assert Pow2(57) == 2 * p && Pow2(58) == 4 * p && Pow2(59) == 8 * p;
    assert Pow2(60) == 2 * Pow2(59) && Pow2(61) == 4 * Pow2(59) && Pow2(62) == 8 * Pow2(59);
    assert Pow2(63) == 2 * Pow2(62) && Pow2(64) == 4 * Pow2(62);
  }

  lemma {:induction false} BEOfToBE(x: nat, n: nat)
    requires x < Pow2(8 * n)
    ensures BE(ToBE(x, n)) == x
    decreases n
  {
    if n > 0 {
      PowerStep(8 * (n - 1));
      BEOfToBE(x / 256, n - 1);
      assert ToBE(x, n)[..n - 1] == ToBE(x / 256, n - 1);
    }
  }

  /** A byte string is determined by its length and value. */
  lemma {:induction false} ToBEOfBE(b: Bytes)
    ensures ToBE(BE(b), |b|) == b
  {
    if b != [] {
      ToBEOfBE(b[..|b| - 1]);
      assert b == b[..|b| - 1] + [b[|b| - 1]];
    }
  }

  /** Eight bits determine a byte. */
  lemma SameBytes(x: byte, y: byte)
    requires forall j :: 0 <= j < 8 ==> Bit(x, j) == Bit(y, j)
    ensures x == y
  {
    Pow2Of8();
    forall j: nat ensures Bit(x, j) == Bit(y, j) {
      if j >= 8 { NoHighBits(x, 8, j); NoHighBits(y, 8, j); }
    }
    SameBits(x, y);
  }
}
