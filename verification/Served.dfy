/** What lookups serve after a run of publishes and sweeps, whatever order the clock readings came in. */
module Served {
  import opened Base
  import opened Accept
  import opened Bits
  import opened Publish
  import opened Query
  import opened Records
  import opened Replay
  import RecordRuns

  // Every row

  /** Each row holds an authentic envelope, and columns that repeat what it says. */
  ghost predicate RowsAuthentic(w: World, powBits: int, t: Table) {
    forall id :: id in t ==> StoredAs(w, powBits, id, t[id])
  }

  /** After any run, under any clock, every stored row is authentic and filed under its own identifier. */
  lemma {:induction false} RowsStayAuthentic(w: World, lim: Limits, es: seq<Event>)
    ensures RowsAuthentic(w, lim.powBits, After(w, lim, es)) && TableOk(After(w, lim, es))
  {
    if es != [] {
      var t, e := After(w, lim, es[..|es| - 1]), es[|es| - 1];
      RowsStayAuthentic(w, lim, es[..|es| - 1]);
      if e.Publish? { PutStoresVerbatim(w, lim, t, e.body, e.now, e.allowed, e.readable); }
      hide HandlePut, Authentic, Deadline;
    }
  }

  // The last accepted body

  /** Where in the run the last publish for an identifier was accepted. */
  function LastAt(w: World, lim: Limits, es: seq<Event>, id: Bytes): (p: Option<nat>)
    ensures p.Some? ==> p.value < |es| && es[p.value].Publish?
  {
    if es == [] then None
    else
      var n := |es| - 1;
      if Admits(w, lim, After(w, lim, es[..n]), es[n]) && Id(w, es[n].body) == id then Some(n)
      else LastAt(w, lim, es[..n], id)
  }

  /** An acceptance of id at p with none after it, or none at all. */
  ghost predicate IsLast(w: World, lim: Limits, es: seq<Event>, id: Bytes, p: Option<nat>) {
    && (p.Some? ==> AcceptedAt(w, lim, es, p.value) && Id(w, es[p.value].body) == id)
    && forall i: nat :: AcceptedAt(w, lim, es, i) && Id(w, es[i].body) == id ==> p.Some? && i <= p.value
  }

  lemma AcceptedInFront(w: World, lim: Limits, es: seq<Event>, i: nat)
    requires i < |es| - 1
    ensures AcceptedAt(w, lim, es, i) <==> AcceptedAt(w, lim, es[..|es| - 1], i)
  {
    assert es[..|es| - 1][..i] == es[..i];
  }

  lemma IsLastNext(w: World, lim: Limits, es: seq<Event>, id: Bytes, p: Option<nat>)
    requires es != [] && IsLast(w, lim, es[..|es| - 1], id, p)
    ensures var n := |es| - 1;
      IsLast(w, lim, es, id, if AcceptedAt(w, lim, es, n) && Id(w, es[n].body) == id then Some(n) else p)
  {
    hide Admits, After, Id;
    forall i: nat | i < |es| - 1
      ensures AcceptedAt(w, lim, es, i) <==> AcceptedAt(w, lim, es[..|es| - 1], i)
    {
      AcceptedInFront(w, lim, es, i);
    }
  }

  lemma {:induction false} LastAtIsLast(w: World, lim: Limits, es: seq<Event>, id: Bytes)
    ensures IsLast(w, lim, es, id, LastAt(w, lim, es, id))
  {
    if es != [] {
      LastAtIsLast(w, lim, es[..|es| - 1], id);
      IsLastNext(w, lim, es, id, LastAt(w, lim, es[..|es| - 1], id));
      hide IsLast, Admits, After, Id;
    }
  }

  /** A sweep after event p read at or past x. */
  ghost predicate SweptSince(es: seq<Event>, p: nat, x: int) {
    exists k :: p < k < |es| && es[k].SweepRows? && x <= es[k].now
  }

  lemma SweptSinceFront(es: seq<Event>, p: nat, x: int)
    requires p < |es| - 1
    ensures var n := |es| - 1;
      SweptSince(es, p, x) <==> SweptSince(es[..n], p, x) || (es[n].SweepRows? && x <= es[n].now)
  {
    var front := es[..|es| - 1];
    if k :| p < k < |front| && front[k].SweepRows? && x <= front[k].now {
      assert es[k].SweepRows? && x <= es[k].now;
    }
    if k :| p < k < |es| && es[k].SweepRows? && x <= es[k].now {
      if k < |front| { assert front[k].SweepRows? && x <= front[k].now; }
    }
  }

  /** The row of an identifier is its last accepted body, unless a sweep since has read at or past its expiry. */
  ghost predicate RowIsLast(w: World, lim: Limits, es: seq<Event>, t: Table, id: Bytes) {
    var p := LastAt(w, lim, es, id);
    if p.None? || SweptSince(es, p.value, Expiry(w, es[p.value].body)) then id !in t
    else id in t && t[id].envelope == es[p.value].body && t[id].expiresAt == Expiry(w, es[p.value].body)
  }

  lemma StepRowIsLast(w: World, lim: Limits, es: seq<Event>, id: Bytes)
    requires es != [] && RowIsLast(w, lim, es[..|es| - 1], After(w, lim, es[..|es| - 1]), id)
    ensures RowIsLast(w, lim, es, After(w, lim, es), id)
  {
    var n := |es| - 1;
    var t, e := After(w, lim, es[..n]), es[n];
    if e.Publish? { PutStoresVerbatim(w, lim, t, e.body, e.now, e.allowed, e.readable); }
    var p := LastAt(w, lim, es[..n], id);
    if p.Some? { SweptSinceFront(es, p.value, Expiry(w, es[p.value].body)); }
    hide HandlePut, Authentic, Deadline, StoredAs, SweptSince;
    if Admits(w, lim, t, e) && Id(w, e.body) == id {
      assert !SweptSince(es, n, Expiry(w, e.body)) by { NothingSince(es, n, Expiry(w, e.body)); }
    }
  }

  lemma NothingSince(es: seq<Event>, p: nat, x: int)
    requires p == |es| - 1
    ensures !SweptSince(es, p, x)
  {
  }

  lemma {:induction false} RowsAreLast(w: World, lim: Limits, es: seq<Event>, id: Bytes)
    ensures RowIsLast(w, lim, es, After(w, lim, es), id)
  {
    if es != [] {
      RowsAreLast(w, lim, es[..|es| - 1], id);
      StepRowIsLast(w, lim, es, id);
    }
  }

  // Lookups

  /** The last body accepted for id is neither expired at now nor swept, and id has the query's bits. */
  ghost predicate LastHits(w: World, lim: Limits, es: seq<Event>, id: Bytes, q: Query, now: int64)
    requires WellFormed(q) && q.bits <= LOOKUP_ID_BITS
  {
    var p := LastAt(w, lim, es, id);
    && p.Some? && |id| == ID_LEN && now < Expiry(w, es[p.value].body) && Agree(q.full, id, q.bits)
    && !SweptSince(es, p.value, Expiry(w, es[p.value].body))
  }

  lemma HitIsLast(w: World, lim: Limits, es: seq<Event>, id: Bytes, q: Query, now: int64)
    requires WellFormed(q) && q.bits <= LOOKUP_ID_BITS && TableOk(After(w, lim, es))
    ensures id in Hits(After(w, lim, es), q, now) <==> LastHits(w, lim, es, id, q, now)
    ensures LastHits(w, lim, es, id, q, now) ==>
              After(w, lim, es)[id].envelope == es[LastAt(w, lim, es, id).value].body
  {
    RowsAreLast(w, lim, es, id);
    hide After, LastAt, SweptSince, Agree, WellFormed;
  }

  /**
   Publishing and looking up, joined: after any run of publishes and sweeps a lookup returns, in identifier
   order and byte for byte, the last accepted body of every identifier with the query's bits that has
   neither expired nor been swept past its expiry, and nothing else.
   */
  lemma LookupServesLastBodies(w: World, lim: Limits, es: seq<Event>, q: Query, now: int64)
    requires WellFormed(q) && q.bits <= LOOKUP_ID_BITS
    ensures TableOk(After(w, lim, es))
    ensures var ids, answer := RecordRuns.Order(After(w, lim, es), q, now), Lookup(After(w, lim, es), q, now);
      && Ascending(ids) && |answer| == |ids| && (forall id :: id in ids <==> LastHits(w, lim, es, id, q, now))
      && forall i :: 0 <= i < |ids| ==>
           LastHits(w, lim, es, ids[i], q, now) && answer[i] == es[LastAt(w, lim, es, ids[i]).value].body
  {
    RowsStayAuthentic(w, lim, es);
    var t := After(w, lim, es);
    var ids := RecordRuns.Order(t, q, now);
    SortedIs(Hits(t, q, now));
    SortedAscends(Hits(t, q, now));
    RecordRuns.LookupIs(t, q, now);
    hide WellFormed, LastHits, Lookup, Sorted, Hits, After, TableOk, LastAt;
    forall id ensures id in ids <==> LastHits(w, lim, es, id, q, now) { HitIsLast(w, lim, es, id, q, now); }
    forall i | 0 <= i < |ids|
      ensures LastHits(w, lim, es, ids[i], q, now)
              && Lookup(t, q, now)[i] == es[LastAt(w, lim, es, ids[i]).value].body
    {
      assert ids[i] in ids;
      HitIsLast(w, lim, es, ids[i], q, now);
    }
  }

  /** A lookup whose reading is not behind any sweep's sees every unexpired last body: sweeps do not show. */
  lemma SweepsBehindDoNotShow(
    w: World, lim: Limits, es: seq<Event>, id: Bytes, q: Query, now: int64)
    requires WellFormed(q) && q.bits <= LOOKUP_ID_BITS
    requires forall k :: 0 <= k < |es| && es[k].SweepRows? ==> es[k].now <= now
    ensures LastHits(w, lim, es, id, q, now) <==>
              var p := LastAt(w, lim, es, id);
              p.Some? && |id| == ID_LEN && now < Expiry(w, es[p.value].body) && Agree(q.full, id, q.bits)
  {
    hide LastAt, Agree, WellFormed;
  }

  /**
   Every envelope a lookup serves is authentic: a body of the supported version, unexpired, whose
   identifier is the hash of its key and has the query's bits, with its proof of work and its signature.
   */
  lemma ServedAreAuthentic(w: World, lim: Limits, es: seq<Event>, q: Query, now: int64)
    requires WellFormed(q) && q.bits <= LOOKUP_ID_BITS
    ensures TableOk(After(w, lim, es))
    ensures forall body :: body in Lookup(After(w, lim, es), q, now) ==>
              && Authentic(w, lim.powBits, body) && now < Expiry(w, body)
              && |Id(w, body)| == ID_LEN && Agree(q.full, Id(w, body), q.bits)
  {
    var t := After(w, lim, es);
    RowsStayAuthentic(w, lim, es);
    RecordRuns.LookupIs(t, q, now);
    SortedIs(Hits(t, q, now));
    var ids, answer := RecordRuns.Order(t, q, now), Lookup(t, q, now);
    hide After, Lookup, Authentic, Agree, WellFormed, Sorted;
    forall body | body in answer
      ensures Authentic(w, lim.powBits, body) && now < Expiry(w, body)
      ensures |Id(w, body)| == ID_LEN && Agree(q.full, Id(w, body), q.bits)
    {
      var i :| 0 <= i < |answer| && answer[i] == body;
      assert ids[i] in ids;
      assert StoredAs(w, lim.powBits, ids[i], t[ids[i]]);
    }
  }
}
