/**
 Prefix queries: a bit prefix of an identifier, masked and aligned, with the range of column
 words it selects and the filter a prefix wider than the column needs.
 */
module Query {
  import opened Base
  import opened Bits

  const PREFIX_COLUMN_BITS: nat := 32
  const LOOKUP_ID_BITS: nat := 256

  datatype Query = Query(bits: nat, prefix: nat, full: Bytes)

  /** Bytes that hold n bits. */
  function Need(n: nat): nat {
    (n + 7) / 8
  }

  // Building a query

  /** full with its last byte cleared below the nbits it declares. */
  function MaskLast(full: Bytes, nbits: nat): (r: Bytes)
    requires |full| == Need(nbits)
    ensures |r| == |full|
  {
    var spare := |full| * 8 - nbits;
    if spare > 0 then full[|full| - 1 := AndNot(full[|full| - 1], Shl(1, spare) - 1)] else full
  }

  /** The column word a prefix starts with: its first four bytes, zero-extended. */
  function Word(full: Bytes): (r: Bytes)
    ensures |r| == 4
  {
    if |full| >= 4 then full[..4] else full + seq(4 - |full|, _ => 0)
  }

  function Masked(full: Bytes, nbits: nat): Query
    requires |full| == Need(nbits)
  {
    var f := MaskLast(full, nbits);
    Query(nbits, BE(Word(f)), f)
  }

  /** The invariant between the three fields. */
  ghost predicate WellFormed(q: Query) {
    && |q.full| == Need(q.bits) && q.prefix == BE(Word(q.full))
    && forall i :: q.bits <= i < 8 * |q.full| ==> !BitAt(q.full, i)
  }

  method NewQuery(full: array<byte>, nbits: nat) returns (q: Query)
    requires full.Length == Need(nbits)
    modifies full
    ensures q == Masked(old(full[..]), nbits) && full[..] == q.full
  {
    var spare := full.Length * 8 - nbits;
    if spare > 0 {
      full[full.Length - 1] := AndNot(full[full.Length - 1], Shl(1, spare) - 1);
    }
    q := Query(nbits, BE(Word(full[..])), full[..]);
  }

  lemma {:induction false} ShlIsPower(x: nat, s: nat)
    ensures Shl(x, s) == x * Pow2(s)
    decreases s
  {
    if s > 0 {
      ShlIsPower(2 * x, s - 1);
      HalfTimes(x, s);
      assert 2 * x * Pow2(s - 1) == 2 * (x * Pow2(s - 1));
    }
  }

  lemma MaskLastBits(full: Bytes, nbits: nat, i: nat)
    requires |full| == Need(nbits) && i < 8 * |full|
    ensures BitAt(MaskLast(full, nbits), i) == (i < nbits && BitAt(full, i))
  {
    var spare := |full| * 8 - nbits;
    if spare > 0 && i / 8 == |full| - 1 {
      ShlIsPower(1, spare);
      BitOfAndNot(full[i / 8], Pow2(spare) - 1, 7 - i % 8);
      BitOfOnes(spare, 7 - i % 8);
    }
  }

  /** Masking keeps the declared bits, clears the rest, and establishes the invariant. */
  lemma MaskedOk(full: Bytes, nbits: nat)
    requires |full| == Need(nbits)
    ensures WellFormed(Masked(full, nbits)) && Agree(Masked(full, nbits).full, full, nbits)
  {
    forall i | 0 <= i < 8 * |full| ensures BitAt(MaskLast(full, nbits), i) == (i < nbits && BitAt(full, i)) {
      MaskLastBits(full, nbits, i);
    }
  }

  /** Well-formed queries are canonical: width and significant bits determine all three fields. */
  lemma Canonical(p: Query, q: Query)
    requires WellFormed(p) && WellFormed(q) && p.bits == q.bits
    ensures p == q <==> Agree(p.full, q.full, p.bits)
  {
    if Agree(p.full, q.full, p.bits) {
      forall k | 0 <= k < |p.full| ensures p.full[k] == q.full[k] {
        forall j | 0 <= j < 8 ensures Bit(p.full[k], j) == Bit(q.full[k], j) {
          var i := 8 * k + (7 - j);
          assert BitAt(p.full, i) == BitAt(q.full, i);
        }
        SameBytes(p.full[k], q.full[k]);
      }
      assert p.full == q.full;
    }
  }

  // Matching an identifier

  function Matches(q: Query, id: Bytes): bool
    requires |q.full| == Need(q.bits)
  {
    if |id| * 8 < q.bits then false
    else
      var whole, rem := q.bits / 8, q.bits % 8;
      if q.full[..whole] != id[..whole] then false
      else if rem != 0 then
        var mask := Shl(0xff, 8 - rem) % 256;
        And(q.full[whole], mask) == And(id[whole], mask)
      else true
  }

  lemma BitOfHighMask(rem: nat, j: nat)
    requires 0 < rem < 8
    ensures Bit(Shl(0xff, 8 - rem) % 256, j) == (8 - rem <= j < 8)
  {
    var x := Shl(0xff, 8 - rem);
    Pow2Of8();
    BitOfConcat(x / 256, x % 256, 8, j);
    assert x / 256 * Pow2(8) + x % 256 == x;
    BitOfShl(0xff, 8 - rem, j);
    if j < 8 {
      if j >= 8 - rem { BitOfOnes(8, j - (8 - rem)); }
    } else {
      NoHighBits(x % 256, 8, j);
    }
  }

  /** The first rem bits of two bytes agree. */
  ghost predicate SameTop(x: byte, y: byte, rem: nat) {
    forall j: nat :: 8 - rem <= j < 8 ==> Bit(x, j) == Bit(y, j)
  }

  /** Bytes masked to their first rem bits are equal when those bits are. */
  lemma MaskedBytes(x: byte, y: byte, rem: nat)
    requires 0 < rem < 8
    ensures var mask := Shl(0xff, 8 - rem) % 256;
      And(x, mask) == And(y, mask) <==> SameTop(x, y, rem)
  {
    var mask := Shl(0xff, 8 - rem) % 256;
    forall j: nat ensures Bit(And(x, mask), j) == (8 - rem <= j < 8 && Bit(x, j))
                       && Bit(And(y, mask), j) == (8 - rem <= j < 8 && Bit(y, j)) {
      BitOfHighMask(rem, j);
      BitOfAnd(x, mask, j);
      BitOfAnd(y, mask, j);
    }
    if And(x, mask) == And(y, mask) {
      forall j: nat | 8 - rem <= j < 8 ensures Bit(x, j) == Bit(y, j) {
        assert Bit(And(x, mask), j) == Bit(And(y, mask), j);
      }
    }
    if SameTop(x, y, rem) { SameBits(And(x, mask), And(y, mask)); }
  }

  /** Whole bytes agree exactly when their bits do. */
  lemma WholeBytes(a: Bytes, b: Bytes, whole: nat)
    requires whole <= |a| && whole <= |b|
    ensures a[..whole] == b[..whole] <==> Agree(a, b, 8 * whole)
  {
    if a[..whole] == b[..whole] {
      forall i | 0 <= i < 8 * whole ensures BitAt(a, i) == BitAt(b, i) {
        assert a[..whole][i / 8] == b[..whole][i / 8];
      }
    }
    if Agree(a, b, 8 * whole) {
      forall k | 0 <= k < whole ensures a[k] == b[k] {
        forall j | 0 <= j < 8 ensures Bit(a[k], j) == Bit(b[k], j) {
          assert BitAt(a, 8 * k + (7 - j)) == BitAt(b, 8 * k + (7 - j));
        }
        SameBytes(a[k], b[k]);
      }
    }
  }

  lemma LastBits(a: Bytes, b: Bytes, whole: nat, rem: nat)
    requires 0 < rem < 8 && whole < |a| && whole < |b|
    ensures Agree(a, b, 8 * whole + rem) <==>
            Agree(a, b, 8 * whole) && SameTop(a[whole], b[whole], rem)
  {
    if Agree(a, b, 8 * whole + rem) {
      forall j: nat | 8 - rem <= j < 8 ensures Bit(a[whole], j) == Bit(b[whole], j) {
        assert BitAt(a, 8 * whole + (7 - j)) == BitAt(b, 8 * whole + (7 - j));
      }
    }
    if Agree(a, b, 8 * whole) && SameTop(a[whole], b[whole], rem) {
      forall i | 0 <= i < 8 * whole + rem ensures BitAt(a, i) == BitAt(b, i) {
        if i >= 8 * whole { assert i / 8 == whole && i % 8 == i - 8 * whole; }
      }
    }
  }

  /** Matching is exact at any width: an identifier matches when it has the declared bits and they agree. */
  lemma MatchesIsAgree(q: Query, id: Bytes)
    requires |q.full| == Need(q.bits)
    ensures Matches(q, id) <==> 8 * |id| >= q.bits && Agree(q.full, id, q.bits)
  {
    if 8 * |id| >= q.bits {
      var whole, rem := q.bits / 8, q.bits % 8;
      WholeBytes(q.full, id, whole);
      if rem != 0 {
        LastBits(q.full, id, whole, rem);
        MaskedBytes(q.full[whole], id[whole], rem);
      }
    }
  }

  // The indexed column

  /** The stored column value of an identifier: its first 32 bits. */
  function Prefix32(id: Bytes): (r: nat)
    requires |id| >= 4
    ensures r < 0x1_0000_0000
  {
    BEBelow(id[..4]);
    assert Pow2(32) == 0x1_0000_0000 by { Pow2Of32(); }
    BE(id[..4])
  }

  lemma Pow2Of32()
    ensures Pow2(32) == 0x1_0000_0000
  {
    Pow2Of8();
    PowerStep(8);
    PowerStep(16);
    PowerStep(24);
  }

  function Min(a: nat, b: nat): nat {
    if a < b then a else b
  }

  /** The inclusive bounds of the index scan. */
  function Range(q: Query): (int, int) {
    var eb := Min(q.bits, PREFIX_COLUMN_BITS);
    var span := Shl(1, PREFIX_COLUMN_BITS - eb) - 1;
    (q.prefix, Or(q.prefix, span))
  }

  predicate InRange(q: Query, id: Bytes)
    requires |id| >= 4
  {
    Range(q).0 <= Prefix32(id) <= Range(q).1
  }

  predicate NeedsPostFilter(q: Query) {
    q.bits > PREFIX_COLUMN_BITS
  }

  /** Bit i of the column word is bit i of the prefix, and clear past its end. */
  lemma WordBits(q: Query, i: nat)
    requires WellFormed(q) && i < 32
    ensures BitAt(Word(q.full), i) == (i < q.bits && BitAt(q.full, i))
    ensures Bit(q.prefix, 31 - i) == BitAt(Word(q.full), i)
  {
    BitOfBE(Word(q.full), i);
    if i < 8 * |q.full| {
      assert Word(q.full)[i / 8] == q.full[i / 8];
      assert BitAt(Word(q.full), i) == BitAt(q.full, i);
    } else {
      ZeroBits(7 - i % 8);
    }
  }

  lemma WordFits(b: Bytes)
    requires |b| == 4
    ensures BE(b) < Pow2(32)
  {
    BEBelow(b);
  }

  /** The scan selects the identifiers that share the first min(bits, 32) bits with the query. */
  lemma RangeIsAgree(q: Query, id: Bytes)
    requires WellFormed(q) && |id| >= 4
    ensures InRange(q, id) <==> Agree(q.full, id, Min(q.bits, 32))
    ensures 0 <= Range(q).0 <= Range(q).1
  {
    var eb := Min(q.bits, 32);
    var s := 32 - eb;
    assert Shl(1, s) == Pow2(s) by { ShlIsPower(1, s); }
    assert |q.full| == Need(q.bits);
    hide Bit, BE, Shl, Shr, Or, Pow2, Agree, SameAbove, Word;
    forall j | 0 <= j < s ensures !Bit(q.prefix, j) { WordBits(q, 31 - j); }
    hide BitAt, WellFormed;
    BlockOf(q.prefix, s, BE(id[..4]));
    if Agree(q.full, id, eb) { AgreeToAbove(q, id); }
    if SameAbove(q.prefix, BE(id[..4]), s) { AboveToAgree(q, id); }
  }

  /** The first eb bits of query and identifier are the bits of their words from 32 - eb up. */
  lemma FirstBits(q: Query, id: Bytes, i: nat)
    requires WellFormed(q) && |id| >= 4 && i < Min(q.bits, 32)
    ensures Bit(q.prefix, 31 - i) == BitAt(q.full, i) && Bit(BE(id[..4]), 31 - i) == BitAt(id, i)
  {
    WordBits(q, i);
    BitOfBE(id[..4], i);
  }

  lemma AboveToAgree(q: Query, id: Bytes)
    requires WellFormed(q) && |id| >= 4 && SameAbove(q.prefix, BE(id[..4]), 32 - Min(q.bits, 32))
    ensures Agree(q.full, id, Min(q.bits, 32))
  {
    assert |q.full| == Need(q.bits);
    hide Bit, BitAt, BE, WellFormed;
    forall i | 0 <= i < Min(q.bits, 32) ensures BitAt(q.full, i) == BitAt(id, i) {
      FirstBits(q, id, i);
      assert Bit(q.prefix, 31 - i) == Bit(BE(id[..4]), 31 - i);
    }
  }

  lemma AgreeToAbove(q: Query, id: Bytes)
    requires WellFormed(q) && |id| >= 4 && Agree(q.full, id, Min(q.bits, 32))
    ensures SameAbove(q.prefix, BE(id[..4]), 32 - Min(q.bits, 32))
  {
    WordFits(Word(q.full));
    WordFits(id[..4]);
    var x, y := q.prefix, BE(id[..4]);
    assert x < Pow2(32) && y < Pow2(32) && |q.full| == Need(q.bits);
    hide Bit, BitAt, BE, Word, WellFormed, Pow2;
    forall j: nat | j >= 32 - Min(q.bits, 32) ensures Bit(x, j) == Bit(y, j) {
      if j < 32 {
        FirstBits(q, id, 31 - j);
      } else {
        NoHighBits(x, 32, j);
        NoHighBits(y, 32, j);
      }
    }
  }

  lemma AgreeShorter(a: Bytes, b: Bytes, m: nat, n: nat)
    requires m <= n <= 8 * |a| && n <= 8 * |b| && Agree(a, b, n)
    ensures Agree(a, b, m)
  {
  }

  /** Scan and, where the query says it is needed, filter: together they select exactly the matches. */
  lemma ScanIsExact(q: Query, id: Bytes)
    requires WellFormed(q) && |id| == 32 && q.bits <= LOOKUP_ID_BITS
    ensures InRange(q, id) && (NeedsPostFilter(q) ==> Matches(q, id)) <==> Matches(q, id)
    ensures Matches(q, id) <==> Agree(q.full, id, q.bits)
  {
    RangeIsAgree(q, id);
    MatchesIsAgree(q, id);
    if q.bits > 32 && Agree(q.full, id, q.bits) { AgreeShorter(q.full, id, 32, q.bits); }
  }

  /** A prefix wider than the column does need the filter: some identifier in range does not match. */
  lemma FilterIsNeeded(q: Query) returns (id: Bytes)
    requires WellFormed(q) && NeedsPostFilter(q) && q.bits <= LOOKUP_ID_BITS
    ensures |id| == 32 && InRange(q, id) && !Matches(q, id)
  {
    var x := q.full[4];
    id := q.full[4 := if x >= 128 then x - 128 else x + 128] + seq(32 - |q.full|, _ => 0);
    forall i | 0 <= i < 32 ensures BitAt(q.full, i) == BitAt(id, i) { assert id[i / 8] == q.full[i / 8]; }
    RangeIsAgree(q, id);
    MatchesIsAgree(q, id);
    TopBit(x);
    TopBit(id[4]);
    assert BitAt(q.full, 32) != BitAt(id, 32);
  }

  lemma TopBit(x: byte)
    ensures Bit(x, 7) <==> x >= 128
  {
    assert Bit(x, 7) == Bit(x / 4, 5);
    assert Bit(x / 4, 5) == Bit(x / 16, 3);
    assert Bit(x / 16, 3) == Bit(x / 64, 1);
  }
}
