/**
 The text of a prefix query, both halves: the directory's parser and the client's printer.
 A character stands for one byte of the request.
 */
module QueryText {
  import opened Base
  import opened Bits
  import opened Query

  // Decimal numbers

  function DigitOf(d: nat): char
    requires d < 10
  {
    '0' + d as char
  }

  /** The usual decimal spelling. */
  function Decimal(n: nat): string {
    if n < 10 then [DigitOf(n)] else Decimal(n / 10) + [DigitOf(n % 10)]
  }

  predicate IsDigit(c: char) {
    '0' <= c <= '9'
  }

  predicate AllDigits(s: string) {
    forall i :: 0 <= i < |s| ==> IsDigit(s[i])
  }

  function ValueOf(s: string): nat
    requires AllDigits(s)
  {
    if s == [] then 0 else 10 * ValueOf(s[..|s| - 1]) + (s[|s| - 1] - '0') as nat
  }

  /** Go's strconv.ParseUint(s, 10, 32). */
  function ParseUint32(s: string): Option<nat> {
    if s != [] && AllDigits(s) && ValueOf(s) < 0x1_0000_0000 then Some(ValueOf(s)) else None
  }

  /** The width a bits parameter spells: no leading zeros, no sign, at most 32 bits. */
  function ParseWidth(s: string): Option<nat> {
    if s == [] || (|s| > 1 && s[0] == '0') then None else ParseUint32(s)
  }

  lemma {:induction false} DecimalReads(n: nat)
    ensures var s := Decimal(n);
      s != [] && AllDigits(s) && ValueOf(s) == n && (n > 0 ==> s[0] != '0') && (n == 0 ==> |s| == 1)
  {
    if n >= 10 {
      DecimalReads(n / 10);
      var s := Decimal(n);
      assert s[..|s| - 1] == Decimal(n / 10);
    }
  }

  lemma {:induction false} ReadsDecimal(s: string)
    requires s != [] && AllDigits(s) && (|s| > 1 ==> s[0] != '0')
    ensures s == Decimal(ValueOf(s)) && (s[0] != '0' ==> ValueOf(s) > 0)
  {
    var p, d := s[..|s| - 1], s[|s| - 1];
    if p == [] {
      assert s == [d];
    } else {
      ReadsDecimal(p);
      assert s == p + [d];
      assert ValueOf(s) / 10 == ValueOf(p) && DigitOf(ValueOf(s) % 10) == d;
    }
  }

  lemma DigitsAre(d: nat)
    requires d < 10
    ensures DigitOf(d) == "0123456789"[d]
  {
  }

  /** The spelling in tens: the last digit is the remainder, and the rest spells the quotient. */
  lemma DecimalIs(n: nat)
    ensures n < 10 ==> Decimal(n) == ["0123456789"[n]]
    ensures n >= 10 ==> Decimal(n) == Decimal(n / 10) + ["0123456789"[n % 10]]
    ensures Decimal(256) == "256"
  {
    DigitsAre(n % 10);
    assert Decimal(25) == Decimal(2) + ['5'] && Decimal(256) == Decimal(25) + ['6'];
  }

  /** Every width has exactly one accepted spelling. */
  lemma OneSpelling(s: string, n: nat)
    ensures ParseWidth(s) == Some(n) <==> s == Decimal(n) && n < 0x1_0000_0000
  {
    if s == Decimal(n) { DecimalReads(n); }
    if ParseWidth(s).Some? { ReadsDecimal(s); }
  }

  // Hexadecimal

  function Nibble(c: char): (r: Option<nat>)
    ensures r.Some? ==> r.value < 16
  {
    if '0' <= c <= '9' then Some((c - '0') as nat)
    else if 'a' <= c <= 'f' then Some((c - 'a') as nat + 10)
    else if 'A' <= c <= 'F' then Some((c - 'A') as nat + 10)
    else None
  }

  /** The sixteen digits in both cases, and nothing else. */
  lemma NibbleIs(c: char, v: nat)
    ensures Nibble(c) == Some(v) <==> v < 16 && (c == "0123456789abcdef"[v] || c == "0123456789ABCDEF"[v])
  {
  }

  predicate AllHex(s: string) {
    forall i :: 0 <= i < |s| ==> Nibble(s[i]).Some?
  }

  /** The value of character i, and zero past the end. */
  function NibbleAt(s: string, i: nat): (r: nat)
    requires AllHex(s)
    ensures r < 16
  {
    if i < |s| then Nibble(s[i]).value else 0
  }

  /** Byte k of the bytes s spells, an odd last character filling the high half. */
  function PackedByte(s: string, k: nat): byte
    requires AllHex(s)
  {
    16 * NibbleAt(s, 2 * k) + NibbleAt(s, 2 * k + 1)
  }

  function Packed(s: string): Bytes
    requires AllHex(s)
  {
    seq((|s| + 1) / 2, k requires 0 <= k < (|s| + 1) / 2 => PackedByte(s, k))
  }

  lemma NibblesFit(h: nat, l: nat)
    requires h < 16 && l < 16
    ensures Shl(h, 4) % 256 == 16 * h && Or(0, 16 * h) == 16 * h && Or(16 * h, l) == 16 * h + l
  {
    assert Pow2(4) == 16;
    ShlIsPower(h, 4);
    assert Or(0, 16 * h) == 16 * h;
    hide Or, Shl;
    OrDisjoint(h, l, 4);
  }

  lemma {:induction false} OrDisjoint(h: nat, l: nat, s: nat)
    requires l < Pow2(s)
    ensures Or(h * Pow2(s), l) == h * Pow2(s) + l
    decreases s
  {
    if s > 0 && l > 0 && h > 0 {
      HalfTimes(h, s);
      OrDisjoint(h, l / 2, s - 1);
    }
  }

  /** Bit i of the text: each character carries four, most significant first. */
  predicate TextBit(s: string, i: nat)
    requires AllHex(s) && i < 4 * |s|
  {
    Bit(Nibble(s[i / 4]).value, 3 - i % 4)
  }

  lemma HalvesBit(high: nat, low: nat, j: nat)
    requires high < 16 && low < 16 && j < 8
    ensures Bit(16 * high + low, j) == if j >= 4 then Bit(high, j - 4) else Bit(low, j)
  {
    assert Pow2(4) == 16;
    BitOfConcat(high, low, 4, j);
  }

  lemma PackedBit(s: string, i: nat)
    requires AllHex(s) && i < 8 * ((|s| + 1) / 2)
    ensures BitAt(Packed(s), i) == (i < 4 * |s| && TextBit(s, i))
  {
    var k, j := i / 8, 7 - i % 8;
    HalvesBit(NibbleAt(s, 2 * k), NibbleAt(s, 2 * k + 1), j);
    hide Bit, Nibble;
    ZeroBits(j);
    assert i / 4 == if j >= 4 then 2 * k else 2 * k + 1;
    assert 3 - i % 4 == if j >= 4 then j - 4 else j;
  }

  // The parser

  datatype Reason =
    | BitsMissing | BitsMalformed | BitsTooPrecise | PrefixMissing | PrefixLength | PrefixNotHex | RepeatedParameter

  /** What the parser answers. */
  function Parsed(prefixParam: string, prefixPresent: bool, bitsParam: string, bitsPresent: bool, maxBits: nat)
    : Result<Query, Reason>
  {
    if !bitsPresent then Err(BitsMissing)
    else match ParseWidth(bitsParam)
      case None => Err(BitsMalformed)
      case Some(n) =>
        var text := if prefixPresent then prefixParam else "";
        if n > maxBits || n > LOOKUP_ID_BITS then Err(BitsTooPrecise)
        else if !prefixPresent && n > 0 then Err(PrefixMissing)
        else if |text| != (n + 3) / 4 then Err(PrefixLength)
        else if !AllHex(text) then Err(PrefixNotHex)
        else Ok(Masked(Packed(text), n))
  }

  method Parse(prefixParam: string, prefixPresent: bool, bitsParam: string, bitsPresent: bool, maxBits: nat)
    returns (r: Result<Query, Reason>)
    ensures r == Parsed(prefixParam, prefixPresent, bitsParam, bitsPresent, maxBits)
  {
    if !bitsPresent { return Err(BitsMissing); }
    if bitsParam == "" || (|bitsParam| > 1 && bitsParam[0] == '0') { return Err(BitsMalformed); }
    var parsed := ParseUint32(bitsParam);
    if parsed.None? { return Err(BitsMalformed); }
    var nbits := parsed.value;
    if nbits > maxBits { return Err(BitsTooPrecise); }
    if nbits > LOOKUP_ID_BITS { return Err(BitsTooPrecise); }
    var text := prefixParam;
    if !prefixPresent {
      if nbits > 0 { return Err(PrefixMissing); }
      text := "";
    }
    if |text| != (nbits + 3) / 4 { return Err(PrefixLength); }
    var full := new byte[Need(nbits)](_ => 0);
    var ok := Fill(full, text);
    if !ok { return Err(PrefixNotHex); }
    assert full[..] == Packed(text);
    var q := NewQuery(full, nbits);
    r := Ok(q);
  }

  /** The decoding loop: each character is or-ed into its half of a zeroed buffer. */
  method Fill(full: array<byte>, text: string) returns (ok: bool)
    requires full.Length == (|text| + 1) / 2 && forall k :: 0 <= k < full.Length ==> full[k] == 0
    modifies full
    ensures ok == AllHex(text)
    ensures ok ==> full[..] == Packed(text)
  {
    hide Or, Shl, Nibble;
    var i := 0;
    while i < |text|
      invariant 0 <= i <= |text| && AllHex(text[..i])
      invariant forall k :: 0 <= k < full.Length ==> full[k] == PackedByte(text[..i], k)
    {
      var v := Nibble(text[i]);
      if v.None? { return false; }
      assert AllHex(text[..i + 1]);
      NibblesFit(NibbleAt(text[..i], i / 2 * 2), v.value);
      NibblesFit(v.value, 0);
      if i % 2 == 0 {
        full[i / 2] := Or(full[i / 2], Shl(v.value, 4) % 256);
      } else {
        full[i / 2] := Or(full[i / 2], v.value);
      }
      i := i + 1;
    }
    assert text[..i] == text;
    ok := true;
  }

  /** A query already in binary. */
  function FromBits(prefix: Bytes, bits: nat): Result<Query, Reason> {
    if bits > LOOKUP_ID_BITS then Err(BitsTooPrecise)
    else if |prefix| < Need(bits) then Err(PrefixLength)
    else Ok(Masked(prefix[..Need(bits)], bits))
  }

  /** A binary prefix is taken exactly when it is long enough for a width an identifier has, and only its bits count. */
  lemma FromBitsIs(prefix: Bytes, bits: nat)
    ensures FromBits(prefix, bits) == Err(BitsTooPrecise) <==> bits > 256
    ensures FromBits(prefix, bits) == Err(PrefixLength) <==> bits <= 256 && 8 * |prefix| < bits
    ensures FromBits(prefix, bits).Ok? <==> bits <= 256 && bits <= 8 * |prefix|
    ensures FromBits(prefix, bits).Ok? ==>
              var q := FromBits(prefix, bits).value; WellFormed(q) && q.bits == bits && Agree(q.full, prefix, bits)
  {
    if bits <= 256 && bits <= 8 * |prefix| {
      var head := prefix[..Need(bits)];
      MaskedOk(head, bits);
      hide Masked, Bit, WellFormed;
      var q := Masked(head, bits);
      assert |q.full| == |head|;
      forall i | 0 <= i < bits ensures BitAt(q.full, i) == BitAt(prefix, i) {
        assert BitAt(q.full, i) == BitAt(head, i) && head[i / 8] == prefix[i / 8];
      }
    }
  }

  /** Which texts are accepted, and that what is accepted is well formed and carries the text's significant bits. */
  lemma Accepts(prefixParam: string, prefixPresent: bool, bitsParam: string, bitsPresent: bool, maxBits: nat, n: nat)
    requires bitsParam == Decimal(n) && n < 0x1_0000_0000
    ensures var r := Parsed(prefixParam, prefixPresent, bitsParam, bitsPresent, maxBits);
      && (r.Ok? <==> bitsPresent && n <= maxBits && n <= LOOKUP_ID_BITS
                     && if prefixPresent then |prefixParam| == (n + 3) / 4 && AllHex(prefixParam) else n == 0)
      && (r.Ok? ==> r.value.bits == n && WellFormed(r.value)
                    && (prefixPresent ==> forall i :: 0 <= i < n ==> BitAt(r.value.full, i) == TextBit(prefixParam, i)))
  {
    OneSpelling(bitsParam, n);
    var r := Parsed(prefixParam, prefixPresent, bitsParam, bitsPresent, maxBits);
    if r.Ok? {
      var text := if prefixPresent then prefixParam else "";
      MaskedOk(Packed(text), n);
      forall i | 0 <= i < n ensures BitAt(r.value.full, i) == TextBit(text, i) { PackedBit(text, i); }
    }
  }

  /**
   What draws each refusal: no bits at all; a spelling of no width; and for a width n, more than the cap or an
   identifier allows, no prefix though n is not zero, a prefix of the wrong length, or one that is not hex.
   */
  lemma Refuses(prefixParam: string, prefixPresent: bool, bitsParam: string, bitsPresent: bool, maxBits: nat, n: nat)
    ensures var r := Parsed(prefixParam, prefixPresent, bitsParam, bitsPresent, maxBits);
      && (r == Err(BitsMissing) <==> !bitsPresent)
      && (r == Err(BitsMalformed) <==> bitsPresent && forall m: nat :: m < 0x1_0000_0000 ==> bitsParam != Decimal(m))
      && r != Err(RepeatedParameter)
      && (bitsPresent && n < 0x1_0000_0000 && bitsParam == Decimal(n) ==>
            var length := if prefixPresent then |prefixParam| else 0;
            var fits := n <= maxBits && n <= 256;
            && (r == Err(BitsTooPrecise) <==> !fits)
            && (r == Err(PrefixMissing) <==> fits && !prefixPresent && n > 0)
            && (r == Err(PrefixLength) <==> fits && prefixPresent && length != (n + 3) / 4)
            && (r == Err(PrefixNotHex) <==> fits && prefixPresent && length == (n + 3) / 4 && !AllHex(prefixParam)))
  {
    OneSpelling(bitsParam, n);
    var w := ParseWidth(bitsParam);
    if w.Some? { OneSpelling(bitsParam, w.value); }
    forall m: nat | m < 0x1_0000_0000 && bitsParam == Decimal(m) ensures w == Some(m) { OneSpelling(bitsParam, m); }
    hide ParseWidth, Decimal, Nibble, Masked, Packed;
  }

  /** No other spelling of the width is accepted. */
  lemma AcceptsOnlyDecimal(prefixParam: string, prefixPresent: bool, bitsParam: string, bitsPresent: bool, maxBits: nat)
    ensures var r := Parsed(prefixParam, prefixPresent, bitsParam, bitsPresent, maxBits);
      r.Ok? ==> bitsParam == Decimal(r.value.bits) && r.value.bits < 0x1_0000_0000
  {
    var w := ParseWidth(bitsParam);
    if w.Some? { OneSpelling(bitsParam, w.value); }
  }

  /**
   Case and padding bits do not matter: accepted texts of one width give equal queries exactly when their
   significant bits agree.
   */
  lemma SpellingsAgree(s: string, t: string, n: nat, maxBits: nat)
    requires n <= LOOKUP_ID_BITS && n <= maxBits
    requires |s| == |t| == (n + 3) / 4 && AllHex(s) && AllHex(t)
    ensures Parsed(s, true, Decimal(n), true, maxBits) == Parsed(t, true, Decimal(n), true, maxBits)
            <==> forall i :: 0 <= i < n ==> TextBit(s, i) == TextBit(t, i)
  {
    Accepts(s, true, Decimal(n), true, maxBits, n);
    Accepts(t, true, Decimal(n), true, maxBits, n);
    var p, q := Parsed(s, true, Decimal(n), true, maxBits).value, Parsed(t, true, Decimal(n), true, maxBits).value;
    Canonical(p, q);
  }

  // The printer

  const HEX_DIGITS: string := "0123456789abcdef"

  function HexOf(b: Bytes): (r: string)
    ensures |r| == 2 * |b|
  {
    seq(2 * |b|, i requires 0 <= i < 2 * |b| => HEX_DIGITS[if i % 2 == 0 then b[i / 2] / 16 else b[i / 2] % 16])
  }

  lemma HexDigitReads(v: nat)
    requires v < 16
    ensures Nibble(HEX_DIGITS[v]) == Some(v)
  {
  }

  /** A character with its low rem bits cleared. */
  function ClearLow(c: char, rem: nat): char
    requires Nibble(c).Some?
  {
    HEX_DIGITS[AndNot(Nibble(c).value, Shl(1, rem) - 1)]
  }

  /** A text cut to its first n bits: any bits of its last character beyond them are cleared. */
  function CutTo(s: string, n: nat): string
    requires AllHex(s)
  {
    var rem := |s| * 4 - n;
    if 0 < rem && s != [] then s[|s| - 1 := ClearLow(s[|s| - 1], rem)] else s
  }

  /** The first characters of the identifier in hex, cut to the width. */
  function Printed(id: Bytes, bits: int): string {
    if bits <= 0 then "" else
      HexNibbles(id);
      CutTo(HexOf(id)[..Min((bits + 3) / 4, 2 * |id|)], bits)
  }

  lemma ClearLowBit(c: char, rem: nat, j: nat)
    requires Nibble(c).Some?
    ensures Nibble(ClearLow(c, rem)).Some?
    ensures Bit(Nibble(ClearLow(c, rem)).value, j) == (j >= rem && Bit(Nibble(c).value, j))
  {
    var v := Nibble(c).value;
    ShlIsPower(1, rem);
    HexDigitReads(AndNot(v, Shl(1, rem) - 1));
    BitOfAndNot(v, Pow2(rem) - 1, j);
    BitOfOnes(rem, j);
  }

  lemma HexNibbles(id: Bytes)
    ensures AllHex(HexOf(id))
    ensures forall i :: 0 <= i < 2 * |id| ==>
              Nibble(HexOf(id)[i]) == Some(if i % 2 == 0 then id[i / 2] / 16 else id[i / 2] % 16)
  {
    forall i | 0 <= i < 2 * |id|
      ensures Nibble(HexOf(id)[i]) == Some(if i % 2 == 0 then id[i / 2] / 16 else id[i / 2] % 16)
    {
      HexDigitReads(if i % 2 == 0 then id[i / 2] / 16 else id[i / 2] % 16);
    }
  }

  method PrefixHex(id: Bytes, bits: int) returns (r: string)
    ensures r == Printed(id, bits)
  {
    if bits <= 0 { return ""; }
    var chars := (bits + 3) / 4;
    var full := HexOf(id);
    if chars > |full| { chars := |full|; }
    HexNibbles(id);
    hide HexOf, Nibble, ClearLow;
    var text := full[..chars];
    var out := new char[chars](i requires 0 <= i < chars => text[i]);
    assert out[..] == text;
    var rem := chars * 4 - bits;
    if rem > 0 { ClearLast(out, rem); }
    r := out[..];
  }

  method ClearLast(out: array<char>, rem: nat)
    requires out.Length > 0 && Nibble(out[out.Length - 1]).Some?
    modifies out
    ensures out[..] == old(out[..])[out.Length - 1 := ClearLow(old(out[out.Length - 1]), rem)]
  {
    hide Nibble, AndNot, Shl;
    var last := out.Length - 1;
    var v := Nibble(out[last]).value;
    out[last] := HEX_DIGITS[AndNot(v, Shl(1, rem) - 1)];
  }

  lemma HexBit(id: Bytes, i: nat)
    requires i < 8 * |id|
    ensures AllHex(HexOf(id)) && TextBit(HexOf(id), i) == BitAt(id, i)
  {
    HexNibbles(id);
    var x, j := id[i / 8], 7 - i % 8;
    assert Pow2(4) == 16;
    assert x == x / 16 * Pow2(4) + x % 16;
    BitOfConcat(x / 16, x % 16, 4, j);
    if j >= 4 { assert i / 4 == 2 * (i / 8) && 3 - i % 4 == j - 4; }
    else { assert i / 4 == 2 * (i / 8) + 1 && 3 - i % 4 == j; }
  }

  lemma CutToBits(s: string, n: nat)
    requires AllHex(s) && 4 * |s| - 4 < n <= 4 * |s|
    ensures |CutTo(s, n)| == |s| && AllHex(CutTo(s, n))
    ensures forall i :: 0 <= i < 4 * |s| ==> TextBit(CutTo(s, n), i) == (i < n && TextBit(s, i))
  {
    var rem, last := 4 * |s| - n, |s| - 1;
    hide Nibble, ClearLow, Bit;
    if rem > 0 {
      ClearLowBit(s[last], rem, 0);
      forall i | 4 * last <= i < 4 * |s| ensures TextBit(CutTo(s, n), i) == (i < n && TextBit(s, i)) {
        assert i / 4 == last;
        ClearLowBit(s[last], rem, 3 - i % 4);
      }
    }
  }

  /** What is printed: hex of the right length, with the identifier's bits and clear padding. */
  lemma PrintedBits(id: Bytes, bits: nat)
    requires bits <= 8 * |id|
    ensures var s := Printed(id, bits);
      |s| == (bits + 3) / 4 && AllHex(s) && forall i :: 0 <= i < 4 * |s| ==> TextBit(s, i) == (i < bits && BitAt(id, i))
  {
    if bits == 0 { return; }
    HexNibbles(id);
    var hex := HexOf(id)[..(bits + 3) / 4];
    CutToBits(hex, bits);
    hide HexOf, Nibble, CutTo, Bit, BitAt;
    forall i | 0 <= i < 4 * |hex| ensures TextBit(hex, i) == BitAt(id, i) { HexBit(id, i); }
  }

  /**
   The round trip: whatever the client prints for an identifier, the directory accepts under any
   cap that admits the width, reads as the same query as the binary prefix, and so matches exactly
   the identifiers sharing those bits.
   */
  lemma ClientIsUnderstood(id: Bytes, bits: nat, maxBits: nat)
    requires |id| == 32 && bits <= maxBits && bits <= LOOKUP_ID_BITS
    ensures Parsed(Printed(id, bits), true, Decimal(bits), true, maxBits) == FromBits(id, bits)
    ensures FromBits(id, bits).Ok? && WellFormed(FromBits(id, bits).value) && FromBits(id, bits).value.bits == bits
    ensures forall other: Bytes :: |other| == 32 ==>
              (Matches(FromBits(id, bits).value, other) <==> Agree(id, other, bits))
  {
    PrintedBits(id, bits);
    Accepts(Printed(id, bits), true, Decimal(bits), true, maxBits, bits);
    var p, q := Parsed(Printed(id, bits), true, Decimal(bits), true, maxBits).value, FromBits(id, bits).value;
    var prefix := id[..Need(bits)];
    MaskedOk(prefix, bits);
    forall i | 0 <= i < bits ensures BitAt(q.full, i) == BitAt(id, i) {
      assert BitAt(q.full, i) == BitAt(prefix, i);
      assert prefix[i / 8] == id[i / 8];
    }
    Canonical(p, q);
    forall other: Bytes | |other| == 32 ensures Matches(q, other) <==> Agree(id, other, bits) {
      MatchesIsAgree(q, other);
    }
  }

  /** The empty query in both its spellings. */
  lemma AbsentIsEmpty(prefixParam: string, maxBits: nat)
    ensures Parsed(prefixParam, false, "0", true, maxBits) == Ok(Query(0, 0, []))
    ensures Parsed("", true, "0", true, maxBits) == Ok(Query(0, 0, []))
  {
    assert "0" == Decimal(0);
    OneSpelling("0", 0);
    assert Packed("") == [];
    assert BE([0, 0, 0, 0]) == 0 by {
      assert [0, 0, 0, 0][..3] == [0, 0, 0] && [0, 0, 0][..2] == [0, 0] && [0, 0][..1] == [0] && [0][..0] == [];
    }
    assert Word([]) == [0, 0, 0, 0];
  }
}
