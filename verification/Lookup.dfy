/**
 The prefix protocol end to end: what the buckets of a width add up to, and what a client that
 sizes its query from the advertised count gets back.
 */
module Lookup {
  import opened Base
  import opened Bits
  import opened Query
  import opened QueryText
  import opened Records
  import opened Sizing

  // The handlers

  datatype GetAnswer = Limited | BadRequest(reason: Reason) | Found(envelopes: seq<Bytes>)

  predicate Repeated(values: map<string, seq<string>>, name: string) {
    name in values && |values[name]| > 1
  }

  function Single(values: map<string, seq<string>>, name: string): (string, bool) {
    if name !in values || |values[name]| == 0 then ("", false) else (values[name][0], true)
  }

  /**
   GET /v1/record: the cap is taken from the true count, not the advertised one. The count and the
   lookup are two statements, so each sees the table as it then is; both use one clock reading.
   */
  ghost function HandleGet(
    counted: Table, t: Table, values: map<string, seq<string>>, now: int64, allowed: bool): GetAnswer
    requires TableOk(t)
  {
    if !allowed then Limited
    else if Repeated(values, "prefix") || Repeated(values, "bits") then BadRequest(RepeatedParameter)
    else
      var prefix, bits := Single(values, "prefix"), Single(values, "bits");
      match Parsed(prefix.0, prefix.1, bits.0, bits.1, Cap(Count(counted, now)))
      case Err(reason) => BadRequest(reason)
      case Ok(q) =>
        ParsedOk(prefix.0, prefix.1, bits.0, bits.1, Cap(Count(counted, now)));
        Found(Records.Lookup(t, q, now))
  }

  lemma ParsedOk(prefixParam: string, prefixPresent: bool, bitsParam: string, bitsPresent: bool, maxBits: nat)
    ensures var r := Parsed(prefixParam, prefixPresent, bitsParam, bitsPresent, maxBits);
      r.Ok? ==> WellFormed(r.value) && r.value.bits <= maxBits && r.value.bits <= LOOKUP_ID_BITS
  {
    var r := Parsed(prefixParam, prefixPresent, bitsParam, bitsPresent, maxBits);
    if r.Ok? {
      AcceptsOnlyDecimal(prefixParam, prefixPresent, bitsParam, bitsPresent, maxBits);
      Accepts(prefixParam, prefixPresent, bitsParam, bitsPresent, maxBits, r.value.bits);
    }
  }

  /** One value for bits, spelling a width within the cap, and the prefix it calls for, or none at width zero. */
  predicate Unambiguous(values: map<string, seq<string>>, n: nat) {
    && "bits" in values && values["bits"] == [Decimal(n)]
    && if "prefix" in values && values["prefix"] != []
       then |values["prefix"]| == 1 && |values["prefix"][0]| == (n + 3) / 4 && AllHex(values["prefix"][0])
       else n == 0
  }

  /** A lookup is answered exactly when it is allowed and unambiguous, with a width within the cap. */
  lemma AnsweredExactly(counted: Table, t: Table, values: map<string, seq<string>>, now: int64, allowed: bool)
    requires TableOk(t)
    ensures HandleGet(counted, t, values, now, allowed).Found? <==>
            allowed && exists n: nat :: n <= Cap(Count(counted, now)) && n <= LOOKUP_ID_BITS && Unambiguous(values, n)
  {
    var cap := Cap(Count(counted, now));
    var prefix, bits := Single(values, "prefix"), Single(values, "bits");
    if HandleGet(counted, t, values, now, allowed).Found? {
      var r := Parsed(prefix.0, prefix.1, bits.0, bits.1, cap);
      var n := r.value.bits;
      AcceptsOnlyDecimal(prefix.0, prefix.1, bits.0, bits.1, cap);
      Accepts(prefix.0, prefix.1, bits.0, bits.1, cap, n);
      assert values["bits"] == [Decimal(n)];
      assert Unambiguous(values, n);
    }
    if n: nat :| allowed && n <= cap && n <= LOOKUP_ID_BITS && Unambiguous(values, n) {
      Accepts(prefix.0, prefix.1, bits.0, bits.1, cap, n);
    }
  }

  /** The query q has the bits of the prefix text given, or none was given for its width of zero. */
  ghost predicate Asks(values: map<string, seq<string>>, q: Query)
    requires Unambiguous(values, q.bits) && WellFormed(q)
  {
    "prefix" in values && values["prefix"] != [] ==>
      forall i :: 0 <= i < q.bits ==> BitAt(q.full, i) == TextBit(values["prefix"][0], i)
  }

  /**
   What is answered: an unambiguous request within the cap gets the lookup of the query it asks for, however it
   spells the empty prefix; the limiter comes first; and a repeated parameter is refused as one.
   */
  lemma AnswerIs(counted: Table, t: Table, values: map<string, seq<string>>, now: int64, allowed: bool, q: Query)
    requires TableOk(t) && WellFormed(q)
    ensures !allowed ==> HandleGet(counted, t, values, now, allowed) == Limited
    ensures allowed && "prefix" in values && |values["prefix"]| > 1 ==>
              HandleGet(counted, t, values, now, allowed) == BadRequest(RepeatedParameter)
    ensures allowed && "bits" in values && |values["bits"]| > 1 ==>
              HandleGet(counted, t, values, now, allowed) == BadRequest(RepeatedParameter)
    ensures && allowed && q.bits <= Cap(Count(counted, now)) && q.bits <= 256
            && Unambiguous(values, q.bits) && Asks(values, q) ==>
              HandleGet(counted, t, values, now, allowed) == Found(Records.Lookup(t, q, now))
  {
    var cap := Cap(Count(counted, now));
    if allowed && q.bits <= cap && q.bits <= 256 && Unambiguous(values, q.bits) && Asks(values, q) {
      var prefix, bits := Single(values, "prefix"), Single(values, "bits");
      Accepts(prefix.0, prefix.1, bits.0, bits.1, cap, q.bits);
      var p := Parsed(prefix.0, prefix.1, bits.0, bits.1, cap).value;
      assert Agree(p.full, q.full, q.bits);
      Canonical(p, q);
      hide Parsed, WellFormed, TableOk, Cap, Records.Lookup, Decimal;
    }
  }

  /** Any other request is refused for the parser's reason. */
  lemma RefusalIs(counted: Table, t: Table, values: map<string, seq<string>>, now: int64, reason: Reason)
    requires TableOk(t) && reason != RepeatedParameter
    ensures var prefix := if "prefix" in values && values["prefix"] != [] then Some(values["prefix"][0]) else None;
      var bits := if "bits" in values && values["bits"] != [] then Some(values["bits"][0]) else None;
      HandleGet(counted, t, values, now, true) == BadRequest(reason) <==>
      && ("prefix" in values ==> |values["prefix"]| <= 1) && ("bits" in values ==> |values["bits"]| <= 1)
      && Parsed(if prefix.Some? then prefix.value else "", prefix.Some?,
                if bits.Some? then bits.value else "", bits.Some?, Cap(Count(counted, now))) == Err(reason)
  {
    hide Parsed, TableOk, Cap, Records.Lookup;
  }

  /** record_count in GET /v1/meta. */
  function Advertised(t: Table, now: int64): int {
    Understated(Count(t, now))
  }

  /** What is advertised of a count: two significant figures of it, within a tenth, and all of a small one. */
  lemma AdvertisedIs(t: Table, now: int64)
    ensures var n, u := Count(t, now), Advertised(t, now);
      && u <= n && (n < 100 ==> u == n)
      && (n >= 100 ==> 10 * (n - u) < u && exists s: nat :: TwoFigures(u, s) && n - u < s)
  {
    UnderstatedBounds(Count(t, now));
  }

  /** {"records":[ and ]} and the comma between envelopes. */
  const OPENING: Bytes := [123, 34, 114, 101, 99, 111, 114, 100, 115, 34, 58, 91]
  const CLOSING: Bytes := [93, 125]
  const COMMA: Bytes := [44]

  function Listed(envelopes: seq<Bytes>): Bytes {
    if envelopes == [] then []
    else if |envelopes| == 1 then envelopes[0]
    else Listed(envelopes[..|envelopes| - 1]) + COMMA + envelopes[|envelopes| - 1]
  }

  method WriteBody(envelopes: seq<Bytes>) returns (buf: Bytes)
    ensures buf == OPENING + Listed(envelopes) + CLOSING
  {
    buf := OPENING;
    for i := 0 to |envelopes|
      invariant buf == OPENING + Listed(envelopes[..i])
    {
      if i > 0 { buf := buf + COMMA; }
      buf := buf + envelopes[i];
      assert envelopes[..i + 1][..i] == envelopes[..i];
      var list := Listed(envelopes[..i]);
      assert OPENING + list + COMMA + envelopes[i] == OPENING + (list + COMMA + envelopes[i]);
    }
    assert envelopes[..|envelopes|] == envelopes;
    buf := buf + CLOSING;
  }

  /** Where envelope i starts in a response: after the opening, those before it, and their commas. */
  function Offset(envelopes: seq<Bytes>, i: nat): nat
    requires i <= |envelopes|
  {
    if i == 0 then |OPENING| else Offset(envelopes, i - 1) + |envelopes[i - 1]| + |COMMA|
  }

  /** Every envelope is reproduced in the response byte for byte. */
  lemma {:induction false} ReproducedVerbatim(envelopes: seq<Bytes>, i: nat)
    requires i < |envelopes|
    ensures var body, at := OPENING + Listed(envelopes) + CLOSING, Offset(envelopes, i);
      at + |envelopes[i]| <= |body| && body[at..at + |envelopes[i]|] == envelopes[i]
  {
    ListedAt(envelopes, i);
    hide Listed, Offset;
    Inside(OPENING, Listed(envelopes), CLOSING, Offset(envelopes, i) - |OPENING|, |envelopes[i]|);
  }

  lemma Inside(before: Bytes, middle: Bytes, after: Bytes, at: nat, n: nat)
    requires at + n <= |middle|
    ensures (before + middle + after)[|before| + at..|before| + at + n] == middle[at..at + n]
  {
    assert before + middle + after == before + (middle + after);
    assert forall k :: 0 <= k < |middle| ==> (before + (middle + after))[|before| + k] == middle[k];
  }

  /** Around the envelopes there is nothing but the fixed text: the ends, and one comma between neighbours. */
  lemma {:induction false} BodyIs(envelopes: seq<Bytes>, i: nat)
    requires i < |envelopes|
    ensures var body := OPENING + Listed(envelopes) + CLOSING;
      && |body| == Offset(envelopes, |envelopes| - 1) + |envelopes[|envelopes| - 1]| + 2
      && (forall k :: 0 <= k < 12 ==> body[k] == "{\"records\":["[k] as int) && Offset(envelopes, 0) == 12
      && body[|body| - 2] == ']' as int && body[|body| - 1] == '}' as int
      && (i > 0 ==> Offset(envelopes, i) == Offset(envelopes, i - 1) + |envelopes[i - 1]| + 1
                    && 12 <= Offset(envelopes, i) - 1 < |body| && body[Offset(envelopes, i) - 1] == ',' as int)
  {
    var n, list := |envelopes|, Listed(envelopes);
    ListedAt(envelopes, n - 1);
    ListedAt(envelopes, i);
    if i > 0 {
      ListedAt(envelopes, i - 1);
      CommaAt(envelopes, i);
    }
    hide Listed, Offset;
  }

  lemma {:induction false} CommaAt(envelopes: seq<Bytes>, i: nat)
    requires 0 < i < |envelopes|
    ensures var at := Offset(envelopes, i) - |OPENING| - 1;
      0 <= at < |Listed(envelopes)| && Listed(envelopes)[at] == ',' as int
    decreases |envelopes|
  {
    var n := |envelopes| - 1;
    var front := envelopes[..n];
    ListedAt(front, n - 1);
    SameOffset(front, envelopes, n - 1);
    if i < n {
      SameOffset(front, envelopes, i);
      CommaAt(front, i);
    }
  }

  lemma {:induction false} ListedAt(envelopes: seq<Bytes>, i: nat)
    requires i < |envelopes|
    ensures var at := Offset(envelopes, i) - |OPENING|;
      && 0 <= at && at + |envelopes[i]| <= |Listed(envelopes)|
      && Listed(envelopes)[at..at + |envelopes[i]|] == envelopes[i]
      && (i == |envelopes| - 1 ==> at + |envelopes[i]| == |Listed(envelopes)|)
    decreases |envelopes|
  {
    var n := |envelopes| - 1;
    if n > 0 {
      var front := envelopes[..n];
      SameOffset(front, envelopes, i);
      if i < n {
        ListedAt(front, i);
      } else {
        ListedAt(front, n - 1);
        SameOffset(front, envelopes, n - 1);
      }
    }
  }

  lemma {:induction false} SameOffset(front: seq<Bytes>, envelopes: seq<Bytes>, i: nat)
    requires front <= envelopes && i <= |envelopes|
    ensures i <= |front| ==> Offset(front, i) == Offset(envelopes, i)
  {
    if i > 0 { SameOffset(front, envelopes, i - 1); }
  }

  // Buckets

  /** The first b bits of an identifier, as a number. */
  function Top(id: Bytes, b: nat): nat
    requires b <= 8 * |id|
  {
    Shr(BE(id), 8 * |id| - b)
  }

  lemma TopIsAgree(x: Bytes, y: Bytes, b: nat)
    requires |x| == |y| == 32 && b <= 256
    ensures Top(x, b) == Top(y, b) <==> Agree(x, y, b)
  {
    var s := 256 - b;
    SameAboveIsShr(BE(x), BE(y), s);
    forall i | 0 <= i < 256 ensures Bit(BE(x), 255 - i) == BitAt(x, i) && Bit(BE(y), 255 - i) == BitAt(y, i) {
      BitOfBE(x, i);
      BitOfBE(y, i);
    }
    if SameAbove(BE(x), BE(y), s) {
      forall i | 0 <= i < b ensures BitAt(x, i) == BitAt(y, i) { assert Bit(BE(x), 255 - i) == Bit(BE(y), 255 - i); }
    }
    if Agree(x, y, b) {
      BEBelow(x);
      BEBelow(y);
      forall j: nat | j >= s ensures Bit(BE(x), j) == Bit(BE(y), j) {
        if j < 256 {
          assert BitAt(x, 255 - j) == BitAt(y, 255 - j) && Bit(BE(x), 255 - (255 - j)) == BitAt(x, 255 - j);
        } else {
          NoHighBits(BE(x), 256, j);
          NoHighBits(BE(y), 256, j);
        }
      }
    }
  }

  lemma TopBelow(id: Bytes, b: nat)
    requires |id| == 32 && b <= 256
    ensures Top(id, b) < Pow2(b)
  {
    var s := 256 - b;
    BEBelow(id);
    Split(BE(id), s);
    PowerSum(b, s);
    if Top(id, b) >= Pow2(b) { Products(Pow2(b), Top(id, b), Pow2(s), Pow2(s)); }
  }

  /** The first identifier of bucket p: p, then zeros. */
  function FirstOf(p: nat, b: nat): Bytes
    requires b <= 256
  {
    ToBE(p * Pow2(256 - b), 32)
  }

  lemma FirstOfTop(p: nat, b: nat)
    requires b <= 256 && p < Pow2(b)
    ensures Top(FirstOf(p, b), b) == p
  {
    hide BE, FirstOf, Shr, Pow2;
    FirstOfValue(p, b);
    AlignedShr(p, 256 - b);
  }

  lemma AlignedShr(p: nat, s: nat)
    ensures Shr(p * Pow2(s), s) == p
  {
    ShrUnique(p * Pow2(s), s, p);
  }

  lemma FirstOfValue(p: nat, b: nat)
    requires b <= 256 && p < Pow2(b)
    ensures BE(FirstOf(p, b)) == p * Pow2(256 - b) && |FirstOf(p, b)| == 32
  {
    hide BE, ToBE, Pow2;
    AlignedFits(p, b, 256 - b);
    assert b + (256 - b) == 8 * 32;
    BEOfToBE(p * Pow2(256 - b), 32);
  }

  lemma AlignedFits(p: nat, b: nat, s: nat)
    requires p < Pow2(b)
    ensures p * Pow2(s) < Pow2(b + s)
  {
    PowerSum(b, s);
    hide Pow2;
    Products(p + 1, Pow2(b), Pow2(s), Pow2(s));
    assert (p + 1) * Pow2(s) == p * Pow2(s) + Pow2(s);
  }

  /** The query for bucket p of width b. */
  function BucketQuery(p: nat, b: nat): Query
    requires b <= 256
  {
    FromBits(FirstOf(p, b), b).value
  }

  lemma BucketQueryIs(p: nat, b: nat)
    requires b <= 256 && p < Pow2(b)
    ensures WellFormed(BucketQuery(p, b)) && BucketQuery(p, b).bits == b
    ensures forall id: Bytes :: |id| == 32 ==> (Agree(BucketQuery(p, b).full, id, b) <==> Top(id, b) == p)
  {
    var q, first := BucketQuery(p, b), FirstOf(p, b);
    ClientIsUnderstood(first, b, b);
    FirstOfTop(p, b);
    forall id: Bytes | |id| == 32 ensures Agree(q.full, id, b) <==> Top(id, b) == p {
      MatchesIsAgree(q, id);
      TopIsAgree(first, id, b);
    }
  }

  /** Every masked query of a width is the query of exactly one bucket. */
  lemma BucketsAreQueries(q: Query)
    requires WellFormed(q) && q.bits <= 256
    ensures exists p: nat :: p < Pow2(q.bits) && q == BucketQuery(p, q.bits)
    ensures forall p: nat, r: nat ::
              p < Pow2(q.bits) && r < Pow2(q.bits) && BucketQuery(p, q.bits) == BucketQuery(r, q.bits) ==> p == r
  {
    var b := q.bits;
    var id := q.full + seq(32 - |q.full|, _ => 0);
    var p := Top(id, b);
    TopBelow(id, b);
    BucketQueryIs(p, b);
    forall i | 0 <= i < b ensures BitAt(q.full, i) == BitAt(id, i) { assert id[i / 8] == q.full[i / 8]; }
    assert Agree(BucketQuery(p, b).full, id, b);
    assert Agree(q.full, BucketQuery(p, b).full, b);
    Canonical(q, BucketQuery(p, b));
    forall p: nat, r: nat | p < Pow2(b) && r < Pow2(b) && BucketQuery(p, b) == BucketQuery(r, b) ensures p == r {
      BucketQueryIs(p, b);
      BucketQueryIs(r, b);
      FirstOfTop(p, b);
    }
  }

  /** The answer for bucket p. */
  ghost function Bucket(t: Table, b: nat, p: nat, now: int64): seq<Bytes>
    requires TableOk(t) && b <= 256 && p < Pow2(b)
  {
    BucketQueryIs(p, b);
    Records.Lookup(t, BucketQuery(p, b), now)
  }

  /** How many envelopes the first m buckets return between them. */
  ghost function Returned(t: Table, b: nat, m: nat, now: int64): nat
    requires TableOk(t) && b <= 256 && m <= Pow2(b)
  {
    if m == 0 then 0 else Returned(t, b, m - 1, now) + |Bucket(t, b, m - 1, now)|
  }

  ghost function Below(t: Table, b: nat, m: nat, now: int64): set<Bytes>
    requires TableOk(t) && b <= 256
  {
    set id | id in t && t[id].expiresAt > now && Top(id, b) < m
  }

  lemma HitsAreBetween(t: Table, q: Query, b: nat, p: nat, now: int64)
    requires TableOk(t) && WellFormed(q) && q.bits == b <= 256
    requires forall id: Bytes :: |id| == 32 ==> (Agree(q.full, id, b) <==> Top(id, b) == p)
    ensures |Below(t, b, p + 1, now)| == |Below(t, b, p, now)| + |Hits(t, q, now)|
  {
    hide Agree, Top;
    var lower, hits := Below(t, b, p, now), Hits(t, q, now);
    assert lower !! hits;
    assert Below(t, b, p + 1, now) == lower + hits;
  }

  lemma BucketSize(t: Table, b: nat, p: nat, now: int64)
    requires TableOk(t) && b <= 256 && p < Pow2(b)
    ensures |Bucket(t, b, p, now)| == |Below(t, b, p + 1, now)| - |Below(t, b, p, now)|
  {
    var q := BucketQuery(p, b);
    BucketQueryIs(p, b);
    HitsAreBetween(t, q, b, p, now);
    SortedIs(Hits(t, q, now));
    hide Hits, Below, Sorted, WellFormed, BucketQuery, TableOk, Pow2;
  }

  lemma NoneBelowZero(t: Table, b: nat, now: int64)
    requires TableOk(t) && b <= 256
    ensures Returned(t, b, 0, now) == 0 && Below(t, b, 0, now) == {}
  {
  }

  lemma ReturnedNext(t: Table, b: nat, m: nat, now: int64)
    requires TableOk(t) && b <= 256 && 0 < m <= Pow2(b)
    ensures Returned(t, b, m, now) == Returned(t, b, m - 1, now) + |Bucket(t, b, m - 1, now)|
  {
  }

  lemma {:induction false} ReturnedIs(t: Table, b: nat, m: nat, now: int64)
    requires TableOk(t) && b <= 256 && m <= Pow2(b)
    ensures Returned(t, b, m, now) == |Below(t, b, m, now)|
  {
    hide *;
    if m == 0 {
      NoneBelowZero(t, b, now);
    } else {
      ReturnedIs(t, b, m - 1, now);
      ReturnedNext(t, b, m, now);
      BucketSize(t, b, m - 1, now);
    }
  }

  /**
   On one snapshot the answers to all the prefixes of a width share out the live records: every record
   is in exactly one, so the sizes add up to the count, and within the cap the mean is at least K_MIN.
   */
  lemma BucketsPartition(t: Table, b: nat, now: int64)
    requires TableOk(t) && b <= Cap(Count(t, now)) && b <= 256
    ensures Returned(t, b, Pow2(b), now) == Count(t, now)
    ensures b > 0 ==> Returned(t, b, Pow2(b), now) >= 20 * Pow2(b)
    ensures forall id :: id in Live(t, now) ==> |id| == 32 && InOneBucket(t, b, now, id)
  {
    var n := Count(t, now);
    forall id | id in Live(t, now) ensures |id| == 32 && Top(id, b) < Pow2(b) && InOneBucket(t, b, now, id) {
      TopBelow(id, b);
      forall p: nat | p < Pow2(b) ensures BucketHas(t, b, p, now, id) <==> p == Top(id, b) { BucketQueryIs(p, b); }
    }
    ReturnedIs(t, b, Pow2(b), now);
    assert Below(t, b, Pow2(b), now) == Live(t, now).Keys;
    if b > 0 {
      CapIsWidest(n, K_MIN, Cap(n));
      PowerMonotone(b, Cap(n));
    }
  }

  ghost predicate BucketHas(t: Table, b: nat, p: nat, now: int64, id: Bytes)
    requires TableOk(t) && b <= 256 && p < Pow2(b)
  {
    BucketQueryIs(p, b);
    id in Hits(t, BucketQuery(p, b), now)
  }

  ghost predicate InOneBucket(t: Table, b: nat, now: int64, id: Bytes)
    requires TableOk(t) && b <= 256 && |id| == 32
  {
    Top(id, b) < Pow2(b) && forall p: nat :: p < Pow2(b) ==> (BucketHas(t, b, p, now, id) <==> p == Top(id, b))
  }

  // End to end

  /** The width a client computes from an advertised count. */
  ghost predicate ClientWidth(advertised: int64, bits: nat) {
    if advertised < ANONYMITY_SET then bits == 0 else Stops(advertised, ANONYMITY_SET, bits)
  }

  function ClientQuery(id: Bytes, bits: nat): map<string, seq<string>> {
    map["prefix" := [Printed(id, bits)], "bits" := [Decimal(bits)]]
  }

  /**
   A client reads the advertised count, sizes its prefix from it, and asks. While the count has not
   shrunk since, it is never refused, and gets exactly the live envelopes sharing its bits, among them
   the one it is looking for if that is live.
   */
  lemma ClientFindsRecord(t0: Table, now0: int64, counted: Table, t: Table, now: int64, id: Bytes, bits: nat)
    requires TableOk(t) && |id| == 32
    requires Count(t0, now0) <= MAX_INT64 && Count(t0, now0) <= Count(counted, now)
    requires ClientWidth(Advertised(t0, now0), bits)
    ensures bits <= LOOKUP_ID_BITS && FromBits(id, bits).Ok? && WellFormed(FromBits(id, bits).value)
    ensures var q := FromBits(id, bits).value;
      && q.bits == bits && HandleGet(counted, t, ClientQuery(id, bits), now, true) == Found(Records.Lookup(t, q, now))
      && forall other :: other in Hits(t, q, now) <==> other in Live(t, now) && Agree(id, other, bits)
    ensures id in Live(t, now) ==> t[id].envelope in Records.Lookup(t, FromBits(id, bits).value, now)
  {
    var n0, n := Count(t0, now0), Count(counted, now);
    ClientWithinCap(n0, bits);
    CapIsBelow58(n0);
    CapIsMonotone(n0, n, K_MIN, K_MIN);
    hide ClientWidth, TableOk, Count, Live, Hits, FromBits, HandleGet, Cap;
    ClientIsUnderstood(id, bits, Cap(n));
    ClientIsAnswered(counted, t, now, id, bits);
    HitsAgree(t, FromBits(id, bits).value, now, id);
    HitIsReturned(t, FromBits(id, bits).value, now, id);
  }

  /** A query as the client writes it is refused only for being over the cap. */
  lemma ClientIsAnswered(counted: Table, t: Table, now: int64, id: Bytes, bits: nat)
    requires TableOk(t) && |id| == 32 && bits <= LOOKUP_ID_BITS
    ensures FromBits(id, bits).Ok? && WellFormed(FromBits(id, bits).value)
    ensures HandleGet(counted, t, ClientQuery(id, bits), now, true) ==
            if bits <= Cap(Count(counted, now)) then Found(Records.Lookup(t, FromBits(id, bits).value, now))
            else BadRequest(BitsTooPrecise)
  {
    ClientIsParsed(id, bits, Cap(Count(counted, now)));
    hide TableOk, Count, FromBits, Cap, WellFormed, Printed, Decimal, Parsed, Records.Lookup;
  }

  lemma ClientIsParsed(id: Bytes, bits: nat, cap: nat)
    requires |id| == 32 && bits <= LOOKUP_ID_BITS
    ensures FromBits(id, bits).Ok? && WellFormed(FromBits(id, bits).value)
    ensures Parsed(Printed(id, bits), true, Decimal(bits), true, cap) ==
            if bits <= cap then FromBits(id, bits) else Err(BitsTooPrecise)
  {
    ClientIsUnderstood(id, bits, if bits <= cap then cap else bits);
    if bits > cap {
      OneSpelling(Decimal(bits), bits);
      hide FromBits, Printed, Decimal, ParseWidth, WellFormed;
    }
  }

  lemma HitsAgree(t: Table, q: Query, now: int64, id: Bytes)
    requires TableOk(t) && WellFormed(q) && q.bits <= 256 && |id| == 32
    requires forall other: Bytes :: |other| == 32 ==> (Matches(q, other) <==> Agree(id, other, q.bits))
    ensures forall other :: other in Hits(t, q, now) <==> other in Live(t, now) && Agree(id, other, q.bits)
  {
    forall other | other in t ensures Agree(q.full, other, q.bits) <==> Agree(id, other, q.bits) {
      MatchesIsAgree(q, other);
    }
  }

  lemma HitIsReturned(t: Table, q: Query, now: int64, id: Bytes)
    requires TableOk(t) && WellFormed(q) && q.bits <= 256
    ensures id in Hits(t, q, now) ==> t[id].envelope in Records.Lookup(t, q, now)
  {
    if id !in Hits(t, q, now) { return; }
    var ids := Sorted(Hits(t, q, now));
    SortedIs(Hits(t, q, now));
    assert id in ids;
    var i :| 0 <= i < |ids| && ids[i] == id;
    assert Records.Lookup(t, q, now)[i] == t[id].envelope;
  }
}
