/** Whole runs of the record store: what lookups return, and that sweeping never shows. */
module RecordRuns {
  import opened Base
  import opened Bits
  import opened Query
  import opened Records

  datatype Event =
    | PutRecord(rec: Record, now: int64)
    | ByPrefix(q: Query, now: int64)
    | CountLive(now: int64)
    | SweepRows(now: int64)

  datatype Answer = Decided(reason: PutResult) | Found(envelopes: seq<Bytes>) | Counted(n: nat) | Done

  ghost predicate EventOk(e: Event) {
    e.ByPrefix? ==> WellFormed(e.q) && e.q.bits <= LOOKUP_ID_BITS
  }

  /** Queries as the parser builds them, and a clock that does not run backwards. */
  ghost predicate RunOk(es: seq<Event>) {
    && (forall i :: 0 <= i < |es| ==> EventOk(es[i]))
    && forall i, j :: 0 <= i < j < |es| ==> es[i].now <= es[j].now
  }

  ghost function Next(t: Table, e: Event): (t': Table)
    requires TableOk(t)
    ensures TableOk(t')
  {
    match e
    case PutRecord(rec, now) => Put(t, rec, now).0
    case SweepRows(now) => Sweep(t, now)
    case _ => t
  }

  ghost function AnswerTo(t: Table, e: Event): Answer
    requires TableOk(t) && EventOk(e)
  {
    match e
    case PutRecord(rec, now) => Decided(Put(t, rec, now).1)
    case ByPrefix(q, now) => Found(Lookup(t, q, now))
    case CountLive(now) => Counted(Count(t, now))
    case SweepRows(_) => Done
  }

  /** The table after a run from an empty one. */
  ghost function After(es: seq<Event>): (t: Table)
    ensures TableOk(t)
  {
    if es == [] then map[] else Next(After(es[..|es| - 1]), es[|es| - 1])
  }

  /** The answers of a run to everything but its sweeps. */
  ghost function Answers(es: seq<Event>): seq<Answer>
    requires RunOk(es)
  {
    if es == [] then []
    else
      var before, e := es[..|es| - 1], es[|es| - 1];
      Answers(before) + if e.SweepRows? then [] else [AnswerTo(After(before), e)]
  }

  function WithoutSweeps(es: seq<Event>): seq<Event> {
    if es == [] then []
    else WithoutSweeps(es[..|es| - 1]) + if es[|es| - 1].SweepRows? then [] else [es[|es| - 1]]
  }

  // Sweeping never shows

  ghost predicate SameLive(t: Table, u: Table, now: int64) {
    Live(t, now) == Live(u, now)
  }

  lemma LiveIn(t: Table, now: int64, id: Bytes)
    ensures id in Live(t, now) <==> id in t && t[id].expiresAt > now
    ensures id in Live(t, now) ==> Live(t, now)[id] == t[id]
  {
  }

  lemma SameLiveAt(t: Table, u: Table, now: int64, id: Bytes)
    requires SameLive(t, u, now)
    ensures id in t && t[id].expiresAt > now <==> id in u && u[id].expiresAt > now
    ensures id in t && t[id].expiresAt > now ==> t[id] == u[id]
  {
    LiveIn(t, now, id);
    LiveIn(u, now, id);
  }

  lemma SameLiveLater(t: Table, u: Table, clock: int64, now: int64)
    requires SameLive(t, u, clock) && clock <= now
    ensures SameLive(t, u, now)
  {
    forall id ensures id in Live(t, now) <==> id in Live(u, now)
              ensures id in Live(t, now) ==> Live(t, now)[id] == Live(u, now)[id] {
      SameLiveAt(t, u, clock, id);
    }
  }

  /** A put depends only on live rows, and so do the live rows after it. */
  lemma PutSeesLive(t: Table, u: Table, rec: Record, now: int64)
    requires SameLive(t, u, now)
    ensures Put(t, rec, now).1 == Put(u, rec, now).1
    ensures SameLive(Put(t, rec, now).0, Put(u, rec, now).0, now)
  {
    forall id ensures id in t && t[id].expiresAt > now <==> id in u && u[id].expiresAt > now
              ensures id in t && t[id].expiresAt > now ==> t[id] == u[id] {
      SameLiveAt(t, u, now, id);
    }
  }

  lemma LookupSeesLive(t: Table, u: Table, q: Query, now: int64)
    requires TableOk(t) && TableOk(u) && SameLive(t, u, now) && WellFormed(q) && q.bits <= LOOKUP_ID_BITS
    ensures Lookup(t, q, now) == Lookup(u, q, now)
  {
    hide WellFormed, Agree, Sorted, TableOk;
    forall id ensures id in Hits(t, q, now) <==> id in Hits(u, q, now)
              ensures id in Hits(t, q, now) ==> t[id] == u[id] {
      SameLiveAt(t, u, now, id);
    }
    assert Hits(t, q, now) == Hits(u, q, now);
    var ids := Sorted(Hits(t, q, now));
    SortedIs(Hits(t, q, now));
    assert forall i :: 0 <= i < |ids| ==> ids[i] in ids;
  }

  lemma StepSeesLive(t: Table, u: Table, e: Event)
    requires TableOk(t) && TableOk(u) && EventOk(e) && SameLive(t, u, e.now)
    ensures AnswerTo(t, e) == AnswerTo(u, e)
    ensures SameLive(Next(t, e), Next(u, e), e.now)
  {
    hide Put, Lookup, TableOk;
    match e
    case PutRecord(rec, now) => PutSeesLive(t, u, rec, now);
    case ByPrefix(q, now) => LookupSeesLive(t, u, q, now);
    case CountLive(_) =>
    case SweepRows(now) => SweepSeesLive(t, now); SweepSeesLive(u, now);
  }

  lemma SweepSeesLive(t: Table, now: int64)
    ensures SameLive(Sweep(t, now), t, now)
  {
  }

  ghost predicate Upto(es: seq<Event>, now: int64) {
    forall i :: 0 <= i < |es| ==> es[i].now <= now
  }

  lemma {:induction false} WithoutSweepsOk(es: seq<Event>, now: int64)
    requires RunOk(es) && Upto(es, now)
    ensures RunOk(WithoutSweeps(es)) && Upto(WithoutSweeps(es), now)
  {
    hide EventOk;
    if es != [] { WithoutSweepsOk(es[..|es| - 1], es[|es| - 1].now); }
  }

  lemma Extended(rest: seq<Event>, e: Event)
    requires RunOk(rest) && RunOk(rest + [e])
    ensures After(rest + [e]) == Next(After(rest), e)
    ensures Answers(rest + [e]) == Answers(rest) + if e.SweepRows? then [] else [AnswerTo(After(rest), e)]
  {
    assert (rest + [e])[..|rest|] == rest && (rest + [e])[|rest|] == e;
  }

  /** Leaving out the sweeps leaves the same live rows and the same answers. */
  lemma {:induction false} SweepsDoNotShow(es: seq<Event>, now: int64)
    requires RunOk(es) && Upto(es, now)
    ensures RunOk(WithoutSweeps(es)) && SameLive(After(es), After(WithoutSweeps(es)), now)
    ensures Answers(es) == Answers(WithoutSweeps(es))
    decreases es
  {
    WithoutSweepsOk(es, now);
    if es == [] { return; }
    var before, e := es[..|es| - 1], es[|es| - 1];
    assert es == before + [e] && EventOk(e) && RunOk(before) && Upto(before, e.now);
    SweepsDoNotShow(before, e.now);
    var rest := WithoutSweeps(before);
    var t, u := After(before), After(rest);
    hide *;
    Extended(before, e);
    if e.SweepRows? {
      assert WithoutSweeps(es) == rest by { ShorterByASweep(es); }
      SweepLeavesLive(t, u, e.now);
      SameLiveLater(Next(t, e), u, e.now, now);
    } else {
      assert WithoutSweeps(es) == rest + [e] by { ShorterByASweep(es); }
      StepSeesLive(t, u, e);
      Extended(rest, e);
      SameLiveLater(Next(t, e), Next(u, e), e.now, now);
    }
  }

  lemma ShorterByASweep(es: seq<Event>)
    requires es != []
    ensures var e := es[|es| - 1]; WithoutSweeps(es) == WithoutSweeps(es[..|es| - 1]) + if e.SweepRows? then [] else [e]
  {
  }

  lemma SweepLeavesLive(t: Table, u: Table, now: int64)
    requires TableOk(t) && SameLive(t, u, now)
    ensures SameLive(Next(t, SweepRows(now)), u, now)
  {
    SweepSeesLive(t, now);
  }

  /** Two runs that differ only in their sweeps give the same answers. */
  lemma SweepsAreInvisible(es: seq<Event>, fs: seq<Event>)
    requires RunOk(es) && RunOk(fs) && WithoutSweeps(es) == WithoutSweeps(fs)
    ensures Answers(es) == Answers(fs)
  {
    if es != [] { SweepsDoNotShow(es, es[|es| - 1].now); }
    if fs != [] { SweepsDoNotShow(fs, fs[|fs| - 1].now); }
  }

  // Lookups return the last accepted envelopes

  /** The last put accepted for an identifier in a run. */
  ghost function LastPut(es: seq<Event>, id: Bytes): Option<Record>
    requires RunOk(es)
  {
    if es == [] then None
    else
      var before, e := es[..|es| - 1], es[|es| - 1];
      if e.PutRecord? && e.rec.id == id && AnswerTo(After(before), e) == Decided(Accepted) then Some(e.rec)
      else LastPut(before, id)
  }

  /** The row of an identifier is its last accepted put, unless that has expired and been swept. */
  ghost predicate Remembered(t: Table, id: Bytes, last: Option<Record>, clock: int64) {
    match last
    case None => id !in t
    case Some(rec) =>
      rec.id == id && |id| == ID_LEN && if id in t then t[id] == RowOf(rec) else rec.expiresAt <= clock
  }

  lemma {:induction false} RowsAreLastPuts(es: seq<Event>, id: Bytes, clock: int64)
    requires RunOk(es) && Upto(es, clock)
    ensures Remembered(After(es), id, LastPut(es, id), clock)
    decreases es
  {
    if es != [] {
      var before, e := es[..|es| - 1], es[|es| - 1];
      RowsAreLastPuts(before, id, e.now);
      hide Lookup, TableOk, EventOk;
    }
  }

  /** The identifiers a lookup finds, in the order it returns them. */
  ghost function Order(t: Table, q: Query, now: int64): seq<Bytes>
    requires WellFormed(q) && q.bits <= LOOKUP_ID_BITS && TableOk(t)
  {
    Sorted(Hits(t, q, now))
  }

  /** The last put accepted for id has not expired, and its identifier shares the query's bits. */
  ghost predicate LastPutHits(es: seq<Event>, id: Bytes, q: Query, now: int64)
    requires RunOk(es) && WellFormed(q) && q.bits <= LOOKUP_ID_BITS
  {
    var last := LastPut(es, id);
    last.Some? && |id| == ID_LEN && last.value.expiresAt > now && Agree(q.full, id, q.bits)
  }

  lemma HitIsLastPut(es: seq<Event>, id: Bytes, q: Query, now: int64)
    requires RunOk(es) && Upto(es, now) && WellFormed(q) && q.bits <= LOOKUP_ID_BITS
    ensures id in Hits(After(es), q, now) <==> LastPutHits(es, id, q, now)
    ensures id in Hits(After(es), q, now) ==> After(es)[id].envelope == LastPut(es, id).value.envelope
  {
    RowsAreLastPuts(es, id, now);
    hide WellFormed, Agree, LastPut;
  }

  /**
   A lookup returns exactly the last accepted envelopes of the unexpired identifiers sharing the query's
   bits, byte for byte, in identifier order, whatever was swept when.
   */
  lemma LookupReturnsLastPuts(es: seq<Event>, q: Query, now: int64)
    requires RunOk(es) && Upto(es, now) && WellFormed(q) && q.bits <= LOOKUP_ID_BITS
    ensures var ids, answer := Order(After(es), q, now), Lookup(After(es), q, now);
      && Ascending(ids) && |answer| == |ids|
      && (forall id :: id in ids <==> LastPutHits(es, id, q, now))
      && forall i :: 0 <= i < |ids| ==> LastPut(es, ids[i]).Some? && answer[i] == LastPut(es, ids[i]).value.envelope
  {
    var t := After(es);
    var ids := Order(t, q, now);
    SortedIs(Hits(t, q, now));
    SortedAscends(Hits(t, q, now));
    LookupIs(t, q, now);
    hide WellFormed, LastPut, Lookup, Sorted, Hits, RunOk, Upto;
    forall id ensures id in ids <==> LastPutHits(es, id, q, now) { HitIsLastPut(es, id, q, now); }
    forall i | 0 <= i < |ids|
      ensures LastPut(es, ids[i]).Some? && Lookup(t, q, now)[i] == LastPut(es, ids[i]).value.envelope
    {
      assert ids[i] in ids;
      HitIsLastPut(es, ids[i], q, now);
    }
  }

  lemma LookupIs(t: Table, q: Query, now: int64)
    requires WellFormed(q) && q.bits <= LOOKUP_ID_BITS && TableOk(t)
    ensures var ids := Order(t, q, now);
      && |Lookup(t, q, now)| == |ids|
      && forall i :: 0 <= i < |ids| ==> ids[i] in t && Lookup(t, q, now)[i] == t[ids[i]].envelope
  {
    var ids := Order(t, q, now);
    SortedIs(Hits(t, q, now));
    assert forall i :: 0 <= i < |ids| ==> ids[i] in ids;
  }
}
