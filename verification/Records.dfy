/**
 The records table, as a map from identifier to row, and the statements run on it. An answer
 to a lookup lists envelopes in identifier order.
 */
module Records {
  import opened Base
  import opened Bits
  import opened Query

  const ID_LEN: nat := 32

  datatype Record = Record(id: Bytes, wkPub: Bytes, expiresAt: int64, envelope: Bytes)

  datatype Row = Row(prefix: int, wkPub: Bytes, expiresAt: int64, envelope: Bytes)

  type Table = map<Bytes, Row>

  datatype PutResult = Accepted | NotNewer | BadIdLength | EmptyEnvelope

  /** Every row is filed under the whole identifier its prefix column was cut from. */
  ghost predicate TableOk(t: Table) {
    forall id :: id in t ==> |id| == ID_LEN && t[id].prefix == Prefix32(id) && t[id].envelope != []
  }

  function RowOf(rec: Record): Row
    requires |rec.id| >= 4
  {
    Row(Prefix32(rec.id), rec.wkPub, rec.expiresAt, rec.envelope)
  }

  /** The upsert: a conflicting row gives way if it has lapsed or the new one expires later. */
  function Upsert(t: Table, rec: Record, now: int64): (Table, nat)
    requires |rec.id| >= 4
  {
    if rec.id !in t || t[rec.id].expiresAt <= now || rec.expiresAt > t[rec.id].expiresAt
    then (t[rec.id := RowOf(rec)], 1)
    else (t, 0)
  }

  function Put(t: Table, rec: Record, now: int64): (Table, PutResult) {
    if |rec.id| != ID_LEN then (t, BadIdLength)
    else if |rec.envelope| == 0 then (t, EmptyEnvelope)
    else
      var (t', n) := Upsert(t, rec, now);
      (t', if n == 0 then NotNewer else Accepted)
  }

  /** What a put answers, case by case, and that only an acceptance changes anything. */
  lemma PutAnswers(t: Table, rec: Record, now: int64)
    ensures var (t', r) := Put(t, rec, now);
      && (r == BadIdLength <==> |rec.id| != 32)
      && (r == EmptyEnvelope <==> |rec.id| == 32 && rec.envelope == [])
      && (r == NotNewer <==> |rec.id| == 32 && rec.envelope != [] && rec.id in t
                             && now < t[rec.id].expiresAt && rec.expiresAt <= t[rec.id].expiresAt)
      && if r == Accepted
         then t' == t[rec.id := Row(Prefix32(rec.id), rec.wkPub, rec.expiresAt, rec.envelope)] else t' == t
  {
  }

  /** The rows not lapsed at now. */
  function Live(t: Table, now: int64): Table {
    map id | id in t && t[id].expiresAt > now :: t[id]
  }

  function Sweep(t: Table, now: int64): Table {
    map id | id in t && !(t[id].expiresAt <= now) :: t[id]
  }

  function Count(t: Table, now: int64): nat {
    |Live(t, now)|
  }

  /** A sweep changes no count taken at its own reading or later. */
  lemma CountIgnoresSweeps(t: Table, swept: int64, now: int64)
    requires swept <= now
    ensures Count(Sweep(t, swept), now) == Count(t, now)
  {
    assert Live(Sweep(t, swept), now) == Live(t, now);
  }

  /** An accepted put counts once: it adds its record unless that has expired, or its identifier was counted already. */
  lemma CountAfterPut(t: Table, rec: Record, now: int64)
    ensures Count(Put(t, rec, now).0, now) == Count(t, now)
              + if Put(t, rec, now).1 == Accepted && now < rec.expiresAt && rec.id !in Live(t, now) then 1 else 0
  {
    PutAddsLive(t, rec, now);
    hide Put, Live;
    var before, after := Live(t, now), Live(Put(t, rec, now).0, now);
    assert |after| == |after.Keys| && |before| == |before.Keys|;
    assert rec.id in before.Keys ==> before.Keys + {rec.id} == before.Keys;
  }

  lemma PutAddsLive(t: Table, rec: Record, now: int64)
    ensures Live(Put(t, rec, now).0, now).Keys ==
              Live(t, now).Keys + if Put(t, rec, now).1 == Accepted && now < rec.expiresAt then {rec.id} else {}
  {
    hide Prefix32;
    var t' := Put(t, rec, now).0;
    forall id ensures id in Live(t', now) <==> id in t' && now < t'[id].expiresAt {}
    forall id ensures id in Live(t, now) <==> id in t && now < t[id].expiresAt {}
    hide Live;
  }

  // Identifier order

  /** The byte order of two identifiers. */
  predicate Less(a: Bytes, b: Bytes) {
    if b == [] then false
    else a == [] || a[0] < b[0] || (a[0] == b[0] && Less(a[1..], b[1..]))
  }

  /** Byte order of identifiers of one length is the order of the numbers they spell, first byte most significant. */
  lemma {:induction false} LessIsValue(a: Bytes, b: Bytes)
    requires |a| == |b|
    ensures Less(a, b) <==> BE(a) < BE(b)
  {
    if a != [] {
      LessIsValue(a[1..], b[1..]);
      FirstByte(a);
      FirstByte(b);
      BEBelow(a[1..]);
      BEBelow(b[1..]);
      hide BE, Pow2;
      FirstDecides(a[0], BE(a[1..]), b[0], BE(b[1..]), Pow2(8 * |a[1..]|));
    }
  }

  lemma FirstByte(a: Bytes)
    requires a != []
    ensures BE(a) == a[0] * Pow2(8 * |a[1..]|) + BE(a[1..])
  {
    assert a == [a[0]] + a[1..];
    BEOfConcat([a[0]], a[1..]);
    BEOfOneMore([], a[0]);
    assert [] + [a[0]] == [a[0]];
  }

  lemma FirstDecides(x: nat, r: nat, y: nat, s: nat, p: nat)
    requires r < p && s < p
    ensures x * p + r < y * p + s <==> x < y || (x == y && r < s)
  {
    if x < y { assert (x + 1) * p <= y * p; }
    if y < x { assert (y + 1) * p <= x * p; }
  }

  lemma {:induction false} LessIsStrict(a: Bytes, b: Bytes)
    ensures !(Less(a, b) && Less(b, a)) && !Less(a, a)
    ensures a != b ==> Less(a, b) || Less(b, a)
    decreases |a|
  {
    if a != [] {
      LessIsStrict(a[1..], a[1..]);
      if b != [] {
        LessIsStrict(a[1..], b[1..]);
        assert a == [a[0]] + a[1..] && b == [b[0]] + b[1..];
      }
    }
  }

  lemma {:induction false} LessIsTransitive(a: Bytes, b: Bytes, c: Bytes)
    requires Less(a, b) && Less(b, c)
    ensures Less(a, c)
  {
    if a != [] && a[0] == b[0] == c[0] { LessIsTransitive(a[1..], b[1..], c[1..]); }
  }

  predicate IsLeast(m: Bytes, ids: set<Bytes>) {
    m in ids && forall x :: x in ids && x != m ==> Less(m, x)
  }

  lemma {:induction false} LeastExists(ids: set<Bytes>) returns (m: Bytes)
    requires ids != {}
    ensures IsLeast(m, ids)
  {
    var x :| x in ids;
    if ids == {x} { return x; }
    var rest := ids - {x};
    assert ids == rest + {x};
    m := LeastExists(rest);
    LessIsStrict(m, x);
    if Less(x, m) {
      forall y | y in rest && y != m ensures Less(x, y) { LessIsTransitive(x, m, y); }
      m := x;
    }
  }

  lemma LeastIsUnique(m: Bytes, n: Bytes, ids: set<Bytes>)
    requires IsLeast(m, ids) && IsLeast(n, ids)
    ensures m == n
  {
    LessIsStrict(m, n);
  }

  /** The identifiers in order. */
  function Sorted(ids: set<Bytes>): seq<Bytes> {
    if ids == {} then []
    else
      assert exists m :: m in ids && IsLeast(m, ids) by { var m := LeastExists(ids); }
      assert forall m, n :: IsLeast(m, ids) && IsLeast(n, ids) ==> m == n by {
        forall m, n | IsLeast(m, ids) && IsLeast(n, ids) ensures m == n { LeastIsUnique(m, n, ids); }
      }
      var m :| m in ids && IsLeast(m, ids);
      [m] + Sorted(ids - {m})
  }

  /** Strictly increasing, so in order and without repeats. */
  ghost predicate Increasing(s: seq<Bytes>) {
    forall i, j :: 0 <= i < j < |s| ==> Less(s[i], s[j])
  }

  /** Identifiers of one length whose values strictly increase. */
  ghost predicate Ascending(s: seq<Bytes>) {
    forall i, j :: 0 <= i < j < |s| ==> |s[i]| == |s[j]| && BE(s[i]) < BE(s[j])
  }

  lemma SortedAscends(ids: set<Bytes>)
    requires forall id :: id in ids ==> |id| == ID_LEN
    ensures Ascending(Sorted(ids))
  {
    var s := Sorted(ids);
    SortedIs(ids);
    forall i, j | 0 <= i < j < |s| ensures |s[i]| == |s[j]| && BE(s[i]) < BE(s[j]) {
      assert s[i] in s && s[j] in s;
      LessIsValue(s[i], s[j]);
    }
  }

  lemma {:induction false} SortedIs(ids: set<Bytes>)
    ensures Increasing(Sorted(ids)) && |Sorted(ids)| == |ids|
    ensures forall x :: x in Sorted(ids) <==> x in ids
  {
    if ids != {} {
      var m := Sorted(ids)[0];
      SortedHead(ids);
      SortedIs(ids - {m});
      assert Sorted(ids) == [m] + Sorted(ids - {m});
      var rest := Sorted(ids - {m});
      forall j | 0 <= j < |rest| ensures Less(m, rest[j]) { assert rest[j] in ids - {m}; }
      assert ids == ids - {m} + {m};
    }
  }

  lemma SortedHead(ids: set<Bytes>)
    requires ids != {}
    ensures IsLeast(Sorted(ids)[0], ids) && Sorted(ids) == [Sorted(ids)[0]] + Sorted(ids - {Sorted(ids)[0]})
  {
    var m := LeastExists(ids);
  }

  lemma SortedFrom(m: Bytes, ids: set<Bytes>)
    requires IsLeast(m, ids)
    ensures Sorted(ids) == [m] + Sorted(ids - {m})
  {
    SortedHead(ids);
    LeastIsUnique(m, Sorted(ids)[0], ids);
  }

  // Lookup

  /** The identifiers the SELECT returns. */
  function InScan(t: Table, lo: int, hi: int, now: int64): set<Bytes> {
    set id | id in t && lo <= t[id].prefix <= hi && t[id].expiresAt > now
  }

  /** The live identifiers that share the query's bits. */
  ghost function Hits(t: Table, q: Query, now: int64): set<Bytes>
    requires WellFormed(q) && q.bits <= LOOKUP_ID_BITS && TableOk(t)
  {
    set id | id in t && t[id].expiresAt > now && Agree(q.full, id, q.bits)
  }

  /** The envelopes of some rows, in the order listed. */
  function Envelopes(t: Table, ids: seq<Bytes>): seq<Bytes>
    requires forall i :: 0 <= i < |ids| ==> ids[i] in t
  {
    seq(|ids|, i requires 0 <= i < |ids| => t[ids[i]].envelope)
  }

  /** What a lookup answers: the envelope of every live record with the query's bits, in identifier order. */
  ghost function Lookup(t: Table, q: Query, now: int64): seq<Bytes>
    requires WellFormed(q) && q.bits <= LOOKUP_ID_BITS && TableOk(t)
  {
    var ids := Sorted(Hits(t, q, now));
    SortedIs(Hits(t, q, now));
    assert forall i :: 0 <= i < |ids| ==> ids[i] in ids;
    Envelopes(t, ids)
  }

  /** The rows of a scan that pass the filter, in scan order. */
  function Filtered(ids: seq<Bytes>, q: Query): seq<Bytes>
    requires |q.full| == Need(q.bits)
  {
    if ids == [] then []
    else Filtered(ids[..|ids| - 1], q) + if Matches(q, ids[|ids| - 1]) then [ids[|ids| - 1]] else []
  }

  lemma {:induction false} FilteredConcat(a: seq<Bytes>, b: seq<Bytes>, q: Query)
    requires |q.full| == Need(q.bits)
    ensures Filtered(a + b, q) == Filtered(a, q) + Filtered(b, q)
    decreases |b|
  {
    if b == [] {
      assert a + b == a;
    } else {
      assert (a + b)[..|a + b| - 1] == a + b[..|b| - 1];
      FilteredConcat(a, b[..|b| - 1], q);
    }
  }

  /** Filtering the sorted scan is sorting the filtered scan. */
  lemma {:induction false} FilterSorted(ids: set<Bytes>, q: Query)
    requires |q.full| == Need(q.bits)
    ensures Filtered(Sorted(ids), q) == Sorted(set id | id in ids && Matches(q, id))
    decreases |ids|
  {
    var kept := set id | id in ids && Matches(q, id);
    if ids == {} {
      assert kept == {};
    } else {
      SortedHead(ids);
      var m := Sorted(ids)[0];
      FilterSorted(ids - {m}, q);
      FilteredConcat([m], Sorted(ids - {m}), q);
      assert Filtered([m], q) == if Matches(q, m) then [m] else [];
      var keptRest := set id | id in ids - {m} && Matches(q, id);
      if Matches(q, m) {
        assert keptRest == kept - {m};
        SortedFrom(m, kept);
      } else {
        assert keptRest == kept;
      }
    }
  }

  /** Index range, expiry and filter together select exactly the live identifiers sharing the query's bits. */
  lemma ScanFindsHits(t: Table, q: Query, now: int64)
    requires WellFormed(q) && q.bits <= LOOKUP_ID_BITS && TableOk(t)
    ensures (set id | id in InScan(t, Range(q).0, Range(q).1, now) && Matches(q, id)) == Hits(t, q, now)
  {
    forall id | id in t
      ensures Range(q).0 <= t[id].prefix <= Range(q).1 && Matches(q, id) <==> Agree(q.full, id, q.bits)
    {
      ScanIsExact(q, id);
    }
  }

  lemma FilteredNone(q: Query)
    requires |q.full| == Need(q.bits)
    ensures Filtered([], q) == []
  {
  }

  lemma FilteredNext(ids: seq<Bytes>, i: nat, q: Query)
    requires |q.full| == Need(q.bits) && i < |ids|
    ensures Filtered(ids[..i + 1], q) == Filtered(ids[..i], q) + if Matches(q, ids[i]) then [ids[i]] else []
  {
    assert ids[..i + 1][..i] == ids[..i];
  }

  lemma ScanIsInTable(t: Table, lo: int, hi: int, now: int64)
    ensures forall i :: 0 <= i < |Sorted(InScan(t, lo, hi, now))| ==> Sorted(InScan(t, lo, hi, now))[i] in t
  {
    var scan := Sorted(InScan(t, lo, hi, now));
    SortedIs(InScan(t, lo, hi, now));
    forall i | 0 <= i < |scan| ensures scan[i] in t { assert scan[i] in scan; }
  }

  /** The scanned rows that pass the filter, in scan order, are the answer. */
  lemma ScanIsLookup(t: Table, q: Query, now: int64)
    requires WellFormed(q) && q.bits <= LOOKUP_ID_BITS && TableOk(t)
    ensures var ids := Filtered(Sorted(InScan(t, Range(q).0, Range(q).1, now)), q);
      (forall i :: 0 <= i < |ids| ==> ids[i] in t) && Lookup(t, q, now) == Envelopes(t, ids)
  {
    FilterSorted(InScan(t, Range(q).0, Range(q).1, now), q);
    ScanFindsHits(t, q, now);
    hide Matches, Range, InScan, WellFormed;
    var ids := Sorted(Hits(t, q, now));
    SortedIs(Hits(t, q, now));
    forall i | 0 <= i < |ids| ensures ids[i] in t { assert ids[i] in ids; }
  }

  /** The query of width zero finds every live record. */
  lemma CountIsLookup(t: Table, now: int64)
    requires TableOk(t)
    ensures WellFormed(Query(0, 0, [])) && |Lookup(t, Query(0, 0, []), now)| == Count(t, now)
  {
    var q := Query(0, 0, []);
    EmptyWord();
    assert Hits(t, q, now) == Live(t, now).Keys;
    SortedIs(Hits(t, q, now));
  }

  lemma EmptyWord()
    ensures BE(Word([])) == 0
  {
    assert Word([]) == [0, 0, 0, 0];
    assert [0, 0, 0, 0][..3] == [0, 0, 0] && [0, 0, 0][..2] == [0, 0] && [0, 0][..1] == [0] && [0][..0] == [];
  }
}
