/**
 How wide a prefix may be: the directory's cap on its true count, the understated count it
 advertises, and the width a client computes from that by shifting.
 */
module Sizing {
  import opened Base
  import opened Bits

  const K_MIN: int := 20
  const ANONYMITY_SET: int := 50

  function CapFor(recordCount: int, k: int): nat {
    if k <= 0 || recordCount < k then 0 else Len(recordCount / k) - 1
  }

  function Cap(recordCount: int): nat {
    CapFor(recordCount, K_MIN)
  }

  /** b is the largest width that leaves k records a bucket. */
  predicate Widest(n: int, k: int, b: nat) {
    k * Pow2(b) <= n < k * Pow2(b + 1)
  }

  lemma DivBounds(n: int, k: int, p: int)
    requires k > 0 && n >= 0
    ensures k * p <= n <==> p <= n / k
  {
    var q := n / k;
    if p <= q { assert k * p <= k * q; }
    else { assert k * (q + 1) <= k * p; }
  }

  /** The cap is exact: the largest b with k * 2^b records. */
  lemma CapIsWidest(n: int, k: int, b: nat)
    requires 0 < k <= n
    ensures b == CapFor(n, k) <==> Widest(n, k, b)
  {
    var c := CapFor(n, k);
    DivBounds(n, k, 1);
    LenIs(n / k);
    forall e: nat { DivBounds(n, k, Pow2(e)); }
    assert Widest(n, k, c);
    if b < c { PowerMonotone(b + 1, c); }
    if b > c { PowerMonotone(c + 1, b); }
  }

  /** More records never narrow the cap, and a larger k never widens it. */
  lemma CapIsMonotone(n: int, m: int, j: int, k: int)
    requires n <= m && 0 < j <= k
    ensures CapFor(n, k) <= CapFor(m, j)
  {
    if n >= k {
      var b, c := CapFor(n, k), CapFor(m, j);
      CapIsWidest(n, k, b);
      CapIsWidest(m, j, c);
      if c < b {
        PowerMonotone(c + 1, b);
        Products(j, k, Pow2(c + 1), Pow2(b));
      }
    }
  }

  lemma Products(a: nat, b: nat, c: nat, d: nat)
    requires a <= b && c <= d
    ensures a * c <= b * d
  {
    assert a * c <= b * c <= b * d;
  }

  /** The directory's own floor is twenty records a bucket. */
  lemma CapLeavesTwenty(n: int)
    ensures if n < 20 then Cap(n) == 0 else 20 * Pow2(Cap(n)) <= n < 40 * Pow2(Cap(n))
  {
    if n >= K_MIN { CapIsWidest(n, K_MIN, Cap(n)); }
  }

  /** No count that fits an int64 allows a width the identifier could not supply. */
  lemma CapIsBelow58(n: int64)
    ensures Cap(n) <= 58
  {
    if n >= K_MIN {
      CapIsWidest(n, K_MIN, Cap(n));
      if Cap(n) > 58 {
        PowerMonotone(59, Cap(n));
        Pow2Of(59);
      }
    }
  }

  // The client's loop

  /** Go's k << s on int64: the shifted value modulo 2^64. */
  function Shl64(k: int64, s: nat): int64 {
    Wrap64(k * Pow2(s))
  }

  /** Where the loop ends: the first b at which the wrapped shift passes the count. */
  ghost predicate Stops(recordCount: int64, k: int64, b: nat) {
    && Shl64(k, b + 1) > recordCount
    && forall s :: 1 <= s <= b ==> Shl64(k, s) <= recordCount
  }

  /** The loop runs for ever where it has no end, so a caller must rule that out; StopsExactly says when. */
  method PrefixBits(recordCount: int64, k: int64) returns (bits: nat)
    requires 0 < k <= recordCount ==> exists b: nat :: Stops(recordCount, k, b)
    ensures k <= 0 || recordCount < k ==> bits == 0
    ensures 0 < k <= recordCount ==> Stops(recordCount, k, bits)
  {
    if k <= 0 || recordCount < k { return 0; }
    ghost var end: nat :| Stops(recordCount, k, end);
    bits := 0;
    while Shl64(k, bits + 1) <= recordCount
      invariant bits <= end
      invariant forall s :: 1 <= s <= bits ==> Shl64(k, s) <= recordCount
      decreases end - bits
    {
      bits := bits + 1;
    }
  }

  lemma {:induction false} Doubling(k: nat, s: nat)
    ensures k * Pow2(s + 1) == 2 * (k * Pow2(s))
  {
  }

  lemma StopsOnce(n: int64, k: int64, b: nat, c: nat)
    requires Stops(n, k, b) && Stops(n, k, c)
    ensures b == c
  {
  }

  /** While no shift up to the widest overflows, the loop and the bit length agree. */
  lemma LoopIsCap(n: int64, k: int64, b: nat)
    requires 0 < k <= n && k * Pow2(CapFor(n, k) + 1) <= MAX_INT64
    ensures Stops(n, k, b) <==> b == CapFor(n, k)
  {
    var c := CapFor(n, k);
    CapIsWidest(n, k, c);
    forall s | 1 <= s <= c + 1 ensures Shl64(k, s) == k * Pow2(s) && (s <= c ==> Shl64(k, s) <= n) {
      PowerMonotone(s, c + 1);
      Products(k, k, Pow2(s), Pow2(c + 1));
      if s <= c {
        PowerMonotone(s, c);
        Products(k, k, Pow2(s), Pow2(c));
      }
    }
    assert Stops(n, k, c);
    if Stops(n, k, b) { StopsOnce(n, k, b, c); }
  }

  /** Below 2^62 the client's loop always ends, at the directory's formula for the same k. */
  lemma LoopIsCapBelow(n: int64, k: int64, b: nat)
    requires 0 < k <= n < 0x4000_0000_0000_0000
    ensures Stops(n, k, b) <==> b == CapFor(n, k)
  {
    CapIsWidest(n, k, CapFor(n, k));
    Doubling(k, CapFor(n, k));
    LoopIsCap(n, k, b);
  }

  lemma {:induction false} ShiftedOut(s: nat)
    requires s >= 63
    ensures Shl64(ANONYMITY_SET, s) == 0
  {
    Pow2Of(63);
    PowerSum(63, s - 63);
    var q := Pow2(s - 63);
    assert Pow2(s) == 0x8000_0000_0000_0000 * q;
    assert ANONYMITY_SET * Pow2(s) == 25 * q * 0x1_0000_0000_0000_0000;
    WrapMultiple(25 * q);
  }

  lemma WrapMultiple(q: nat)
    ensures Wrap64(q * 0x1_0000_0000_0000_0000) == 0
  {
  }

  /** Where the client's loop ends for its own k, and that past that count it never does. */
  lemma StopsExactly(n: int64)
    requires n >= ANONYMITY_SET
    ensures (exists b: nat :: Stops(n, ANONYMITY_SET, b)) <==> n < 7_205_759_403_792_793_600
  {
    Pow2Of(57);
    var k, c := ANONYMITY_SET, CapFor(n, ANONYMITY_SET);
    CapIsWidest(n, k, c);
    if n < k * Pow2(57) {
      if c >= 57 { PowerMonotone(57, c); }
      PowerMonotone(c + 1, 57);
      LoopIsCap(n, k, c);
    } else {
      forall b: nat ensures !Stops(n, k, b) { NeverPasses(n, b); }
    }
  }

  lemma NeverPasses(n: int64, b: nat)
    requires n >= 7_205_759_403_792_793_600
    ensures Shl64(ANONYMITY_SET, b + 1) <= n
  {
    var s, k := b + 1, ANONYMITY_SET;
    if s >= 63 { ShiftedOut(s); }
    else if s <= 57 {
      Pow2Of(57);
      PowerMonotone(s, 57);
      assert k * Pow2(s) <= k * Pow2(57);
    } else {
      Pow2Of(s);
    }
  }

  // The advertised count

  /** The power of ten two significant figures are counted in. */
  function Scale(n: nat): (r: nat)
    ensures r >= 1
  {
    if n < 100 then 1 else 10 * Scale(n / 10)
  }

  function Understated(n: int): (r: int)
    ensures r <= n && (n >= 0 ==> r >= 0)
  {
    if n < 100 then n else
      RoundedDown(n, Scale(n));
      n / Scale(n) * Scale(n)
  }

  lemma RoundedDown(n: nat, s: nat)
    requires s > 0
    ensures 0 <= n / s * s <= n
  {
    var q := n / s;
    assert s * q <= n by { DivBounds(n, s, q); }
    assert 0 * s <= q * s;
  }

  predicate PowerOfTen(s: nat) {
    s == 1 || (s >= 10 && s % 10 == 0 && PowerOfTen(s / 10))
  }

  lemma {:induction false} ScaleIs(n: nat)
    requires n >= 100
    ensures PowerOfTen(Scale(n)) && 10 <= n / Scale(n) < 100
    ensures Scale(n) >= 10
  {
    if n / 10 >= 100 { ScaleIs(n / 10); }
    DivDiv(n, 10, Scale(n / 10));
  }

  lemma Reassociate(a: nat, b: nat, c: nat)
    ensures b * c * a == a * b * c
  {
  }

  lemma DivDiv(n: nat, a: nat, b: nat)
    requires a > 0 && b > 0
    ensures a * b > 0 && n / (a * b) == n / a / b
  {
    var m := n / a;
    var q := m / b;
    DivBounds(n, a, m);
    DivBounds(n, a, m + 1);
    DivBounds(m, b, q);
    DivBounds(m, b, q + 1);
    Products(b * q, m, a, a);
    Products(m + 1, b * (q + 1), a, a);
    Reassociate(a, b, q);
    Reassociate(a, b, q + 1);
    DivBounds(n, a * b, q);
    DivBounds(n, a * b, q + 1);
  }

  /** One round of the loop: the scale grows tenfold, still within the count. */
  lemma ScaleGrows(n: nat, scale: nat)
    requires 1 <= scale && n / scale >= 100 && Scale(n) == scale * Scale(n / scale)
    ensures 10 * scale <= n && Scale(n) == scale * 10 * Scale(n / (scale * 10)) && n / (scale * 10) < n / scale
  {
    var q := n / scale;
    assert Scale(q) == 10 * Scale(q / 10);
    DivDiv(n, scale, 10);
    DivBounds(n, scale, 10);
    hide Scale;
    Tenfold(scale, Scale(q / 10));
  }

  lemma Tenfold(scale: nat, r: nat)
    ensures scale * (10 * r) == scale * 10 * r
  {
  }

  /** u is a multiple of the power of ten s between 10 * s and 99 * s: two significant figures. */
  predicate TwoFigures(u: int, s: nat) {
    PowerOfTen(s) && s > 0 && u % s == 0 && 10 <= u / s < 100
  }

  lemma ScaleOfTwoFigures(n: nat)
    ensures n < 100 ==> Scale(n) == 1
    ensures n >= 100 ==> Understated(n) == n / Scale(n) * Scale(n)
  {
  }

  method Understate(n: int64) returns (r: int64)
    ensures r == Understated(n)
  {
    if n < 100 { return n; }
    var scale: int64 := 1;
    assert Scale(n) == scale * Scale(n / scale);
    hide Scale, Understated;
    while n / scale >= 100
      invariant 1 <= scale <= n && Scale(n) == scale * Scale(n / scale)
      decreases n / scale
    {
      ScaleGrows(n, scale);
      scale := scale * 10;
    }
    ScaleOfTwoFigures(n / scale);
    ScaleOfTwoFigures(n);
    assert Scale(n) == scale;
    r := n / scale * scale;
  }

  lemma MultipleOf(d: nat, s: nat)
    requires s > 0
    ensures d * s % s == 0 && d * s / s == d
  {
    DivBounds(d * s, s, d);
    DivBounds(d * s, s, d + 1);
    assert s * (d + 1) > d * s;
    var q := d * s / s;
    assert q == d;
    assert d * s == s * q + d * s % s;
  }

  /** What is advertised: never more than the truth, two significant figures of it, and within a tenth of itself. */
  lemma UnderstatedBounds(n: int)
    ensures n < 100 ==> Understated(n) == n
    ensures n >= 100 ==> TwoFigures(Understated(n), Scale(n)) && n - Understated(n) < Scale(n)
    ensures n >= 100 ==> 10 * (n - Understated(n)) < Understated(n)
  {
    if n >= 100 {
      ScaleIs(n);
      ScaleOfTwoFigures(n);
      hide Scale, Understated;
      RoundedToFigures(n, Scale(n));
    }
  }

  lemma RoundedToFigures(n: nat, s: nat)
    requires s > 0 && 10 <= n / s < 100
    ensures var u := n / s * s; u % s == 0 && u / s == n / s && 0 <= n - u < s && 10 * (n - u) < u
  {
    var d := n / s;
    DivBounds(n, s, d);
    DivBounds(n, s, d + 1);
    assert s * (d + 1) == s * d + s && s * d == d * s;
    Products(10, d, s, s);
    MultipleOf(d, s);
  }

  lemma {:induction false} ScaleMonotone(n: nat, m: nat)
    requires n <= m
    ensures m >= 100 ==> n < 100 || (exists e: nat :: e >= 1 && Scale(m) == e * Scale(n))
    decreases m
  {
    if n >= 100 {
      if n / 10 >= 100 {
        ScaleMonotone(n / 10, m / 10);
        var e: nat :| e >= 1 && Scale(m / 10) == e * Scale(n / 10);
        assert Scale(m) == e * Scale(n);
      } else {
        assert Scale(n) == 10;
        assert Scale(m) == Scale(m / 10) * Scale(n);
      }
    }
  }

  /** A directory that grows never advertises less. */
  lemma UnderstatedMonotone(n: nat, m: nat)
    requires n <= m
    ensures Understated(n) <= Understated(m)
  {
    UnderstatedBounds(n);
    if m >= 100 && n >= 100 {
      ScaleIs(n);
      ScaleIs(m);
      if Scale(n) == Scale(m) {
        assert n / Scale(n) <= m / Scale(n) by {
          DivBounds(m, Scale(n), n / Scale(n));
          assert Scale(n) * (n / Scale(n)) <= n;
        }
        Products(n / Scale(n), m / Scale(n), Scale(n), Scale(n));
      } else {
        CoarserIsMore(n, m);
      }
    } else if m >= 100 {
      ScaleIs(m);
      Products(10, m / Scale(m), 10, Scale(m));
    }
  }

  lemma CoarserIsMore(n: nat, m: nat)
    requires 100 <= n <= m && Scale(n) != Scale(m)
    ensures Understated(n) <= Understated(m)
  {
    ScaleMonotone(n, m);
    var e: nat :| e >= 1 && Scale(m) == e * Scale(n);
    ScaleIs(n);
    ScaleIs(m);
    ScaleRatio(n, m, e);
    assert Scale(m) >= 10 * Scale(n) by { Products(10, e, Scale(n), Scale(n)); }
    Products(10, m / Scale(m), 10 * Scale(n), Scale(m));
    Products(n / Scale(n), 100, Scale(n), Scale(n));
  }

  lemma {:induction false} ScaleRatio(n: nat, m: nat, e: nat)
    requires 100 <= n <= m && e >= 1 && Scale(m) == e * Scale(n)
    ensures e == 1 || e >= 10
    decreases m
  {
    if n / 10 >= 100 {
      assert Scale(m / 10) == e * Scale(n / 10);
      ScaleRatio(n / 10, m / 10, e);
    } else {
      assert Scale(n) == 10 && Scale(m / 10) == e;
    }
  }

  /**
   A client that sizes its prefix from the advertised count is never over-precise against the
   true one: wherever its loop ends at all, it ends within the cap.
   */
  lemma ClientWithinCap(n: int64, bits: nat)
    requires n >= 0
    requires Understated(n) < ANONYMITY_SET ==> bits == 0
    requires Understated(n) >= ANONYMITY_SET ==> Stops(Understated(n), ANONYMITY_SET, bits)
    ensures bits <= Cap(n)
  {
    var u := Understated(n);
    UnderstatedBounds(n);
    if u >= ANONYMITY_SET {
      StopsExactly(u);
      Pow2Of(57);
      var c := CapFor(u, ANONYMITY_SET);
      CapIsWidest(u, ANONYMITY_SET, c);
      if c >= 57 { PowerMonotone(57, c); }
      PowerMonotone(c + 1, 57);
      LoopIsCap(u, ANONYMITY_SET, bits);
      CapIsMonotone(u, n, K_MIN, ANONYMITY_SET);
    }
  }
}
