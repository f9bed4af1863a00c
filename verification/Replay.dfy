/**
 Replay over runs of publishes and sweeps, in the order in which they take effect. A request reads the
 clock before its body arrives, so readings may come in any order whatever the clock does; exactly
 which orders can roll a record back, or take a body twice, is the subject here.
 */
module Replay {
  import opened Base
  import opened Accept
  import opened Publish
  import Framing
  import Pow
  import Records

  datatype Event =
    | Publish(body: Bytes, now: int64, allowed: bool, readable: bool)
    | SweepRows(now: int64)

  function Next(w: World, lim: Limits, t: Records.Table, e: Event): Records.Table {
    match e
    case Publish(body, now, allowed, readable) => HandlePut(w, lim, t, body, now, allowed, readable).0
    case SweepRows(now) => Records.Sweep(t, now)
  }

  function After(w: World, lim: Limits, es: seq<Event>): Records.Table {
    if es == [] then map[] else Next(w, lim, After(w, lim, es[..|es| - 1]), es[|es| - 1])
  }

  predicate Admits(w: World, lim: Limits, t: Records.Table, e: Event) {
    e.Publish? && PutAccepted(w, lim, t, e.body, e.now, e.allowed, e.readable)
  }

  /** Event i of the run is a publish that is accepted. */
  predicate AcceptedAt(w: World, lim: Limits, es: seq<Event>, i: nat) {
    i < |es| && Admits(w, lim, After(w, lim, es[..i]), es[i])
  }

  lemma AfterNext(w: World, lim: Limits, es: seq<Event>, i: nat)
    requires i < |es|
    ensures After(w, lim, es[..i + 1]) == Next(w, lim, After(w, lim, es[..i]), es[i])
  {
    assert es[..i + 1][..i] == es[..i];
  }

  // The property

  /** The expiries accepted for one identifier strictly increase along the run. */
  ghost predicate NeverRollsBack(w: World, lim: Limits, es: seq<Event>) {
    forall i: nat, j: nat ::
      i < j && AcceptedAt(w, lim, es, i) && AcceptedAt(w, lim, es, j) && Id(w, es[i].body) == Id(w, es[j].body)
      ==> Expiry(w, es[i].body) < Expiry(w, es[j].body)
  }

  /** No body is accepted twice. */
  ghost predicate NeverRepeats(w: World, lim: Limits, es: seq<Event>) {
    forall i: nat, j: nat ::
      i < j && AcceptedAt(w, lim, es, i) && AcceptedAt(w, lim, es, j) ==> es[i].body != es[j].body
  }

  // The schedules that break it

  /** A sweep between two publishes reads later than both of them. */
  ghost predicate Overtaken(es: seq<Event>, i: nat, k: nat, j: nat) {
    && i < k < j < |es| && es[i].Publish? && es[k].SweepRows? && es[j].Publish?
    && es[i].now < es[k].now && es[j].now < es[k].now
  }

  /** An expiry past late still fits in 64 bits under a deadline measured from early. */
  predicate Fits(early: int, late: int) {
    2 * late - early < MAX_INT64
  }

  ghost predicate OpenToRollback(es: seq<Event>) {
    exists i: nat, k: nat, j: nat :: Overtaken(es, i, k, j) && Fits(es[i].now, es[j].now)
  }

  ghost predicate OpenToReplay(es: seq<Event>) {
    exists i: nat, k: nat, j: nat ::
      Overtaken(es, i, k, j) && Fits(es[i].now, es[j].now) && Fits(es[j].now, es[i].now)
  }

  ghost predicate AnyOvertaken(es: seq<Event>) {
    exists i: nat, k: nat, j: nat :: Overtaken(es, i, k, j)
  }

  /** For readings of any real clock the arithmetic plays no part. */
  lemma OrdinaryReadings(es: seq<Event>)
    requires forall i :: 0 <= i < |es| ==> 0 <= es[i].now < 0x4000_0000_0000_0000
    ensures OpenToRollback(es) <==> AnyOvertaken(es)
    ensures OpenToReplay(es) <==> AnyOvertaken(es)
  {
    if i: nat, k: nat, j: nat :| Overtaken(es, i, k, j) {
      assert Fits(es[i].now, es[j].now) && Fits(es[j].now, es[i].now);
    }
  }

  /** No sweep overtakes where readings do not decrease, nor where none stands between two publishes. */
  lemma OrderedIsClosed(es: seq<Event>)
    requires
      || (forall i, j :: 0 <= i < j < |es| ==> es[i].now <= es[j].now)
      || (forall i, k, j :: 0 <= i < k < j < |es| && es[i].Publish? && es[j].Publish? ==> !es[k].SweepRows?)
    ensures !AnyOvertaken(es) && !OpenToRollback(es) && !OpenToReplay(es)
  {
  }

  // Safety

  ghost predicate Holds(t: Records.Table, id: Bytes, e: int) {
    id in t && t[id].expiresAt >= e
  }

  /** Only a sweep can take a row's expiry down, and only one that reads at or past it. */
  lemma StepHolds(w: World, lim: Limits, t: Records.Table, e: Event, id: Bytes, x: int)
    requires Holds(t, id, x) && (e.SweepRows? ==> e.now < x)
    ensures Holds(Next(w, lim, t, e), id, x)
  {
    if e.Publish? { PutStoresVerbatim(w, lim, t, e.body, e.now, e.allowed, e.readable); }
    hide HandlePut, StoredAs, Authentic, Deadline;
  }

  lemma {:induction false} RunHolds(w: World, lim: Limits, es: seq<Event>, id: Bytes, i: nat, j: nat, x: int)
    requires i <= j <= |es| && Holds(After(w, lim, es[..i]), id, x)
    requires forall k :: i <= k < j && es[k].SweepRows? ==> es[k].now < x
    ensures Holds(After(w, lim, es[..j]), id, x)
    decreases j - i
  {
    if i < j {
      RunHolds(w, lim, es, id, i, j - 1, x);
      AfterNext(w, lim, es, j - 1);
      StepHolds(w, lim, After(w, lim, es[..j - 1]), es[j - 1], id, x);
    }
  }

  /** An accepted publish leaves its expiry in its row, and found no row that holds it. */
  lemma AcceptedIs(w: World, lim: Limits, es: seq<Event>, i: nat)
    requires AcceptedAt(w, lim, es, i)
    ensures es[i].Publish? && es[i].now < Expiry(w, es[i].body) <= Deadline(lim, es[i].now)
    ensures Holds(After(w, lim, es[..i + 1]), Id(w, es[i].body), Expiry(w, es[i].body))
    ensures forall x :: Expiry(w, es[i].body) <= x ==> !Holds(After(w, lim, es[..i]), Id(w, es[i].body), x)
  {
    AfterNext(w, lim, es, i);
    PutStoresVerbatim(w, lim, After(w, lim, es[..i]), es[i].body, es[i].now, es[i].allowed, es[i].readable);
    hide HandlePut, After, Authentic, Deadline;
  }

  /**
   An acceptance that does not expire later than an earlier one needs a sweep in between, which reads at
   or past the earlier expiry.
   */
  lemma NeedsSweep(w: World, lim: Limits, es: seq<Event>, i: nat, j: nat) returns (k: nat)
    requires i < j && AcceptedAt(w, lim, es, i) && AcceptedAt(w, lim, es, j)
    requires Id(w, es[i].body) == Id(w, es[j].body) && Expiry(w, es[j].body) <= Expiry(w, es[i].body)
    ensures Overtaken(es, i, k, j) && Expiry(w, es[i].body) <= es[k].now
  {
    AcceptedIs(w, lim, es, i);
    AcceptedIs(w, lim, es, j);
    var x := Expiry(w, es[i].body);
    hide AcceptedAt, Deadline, Holds;
    if forall k :: i + 1 <= k < j && es[k].SweepRows? ==> es[k].now < x {
      RunHolds(w, lim, es, Id(w, es[i].body), i + 1, j, x);
      assert false;
    }
    k :| i + 1 <= k < j && es[k].SweepRows? && es[k].now >= x;
  }

  lemma DeadlineIs(lim: Limits, now: int64)
    ensures Deadline(lim, now) == Wrap64(now + (lim.maxTTL + lim.skewGrace))
  {
    WrapTwice(now + lim.maxTTL, lim.skewGrace);
  }

  /** One length of life reaches a given expiry from both readings only if it does so without wrapping. */
  lemma DeadlinesFit(lim: Limits, early: int64, late: int64, x: int64, y: int64)
    requires early < x <= Deadline(lim, early) && late < y <= Deadline(lim, late) && y <= x
    ensures Fits(early, late)
  {
    DeadlineIs(lim, early);
    DeadlineIs(lim, late);
  }

  lemma ClosedNeverRollsBack(w: World, lim: Limits, es: seq<Event>)
    requires !OpenToRollback(es)
    ensures NeverRollsBack(w, lim, es)
  {
    forall i: nat, j: nat |
      i < j && AcceptedAt(w, lim, es, i) && AcceptedAt(w, lim, es, j) && Id(w, es[i].body) == Id(w, es[j].body)
      ensures Expiry(w, es[i].body) < Expiry(w, es[j].body)
    {
      if Expiry(w, es[j].body) <= Expiry(w, es[i].body) {
        var k := NeedsSweep(w, lim, es, i, j);
        AcceptedIs(w, lim, es, i);
        AcceptedIs(w, lim, es, j);
        DeadlinesFit(lim, es[i].now, es[j].now, Expiry(w, es[i].body), Expiry(w, es[j].body));
        assert false;
      }
    }
  }

  lemma ClosedNeverRepeats(w: World, lim: Limits, es: seq<Event>)
    requires !OpenToReplay(es)
    ensures NeverRepeats(w, lim, es)
  {
    forall i: nat, j: nat | i < j && AcceptedAt(w, lim, es, i) && AcceptedAt(w, lim, es, j)
      ensures es[i].body != es[j].body
    {
      if es[i].body == es[j].body {
        var x := Expiry(w, es[i].body);
        var k := NeedsSweep(w, lim, es, i, j);
        AcceptedIs(w, lim, es, i);
        AcceptedIs(w, lim, es, j);
        DeadlinesFit(lim, es[i].now, es[j].now, x, x);
        DeadlinesFit(lim, es[j].now, es[i].now, x, x);
        assert false;
      }
    }
  }

  // The condition is exact: a world, limits and bodies that break every schedule it excludes

  /** The one identifier of the worlds below. */
  function Sole(): Pow.Digest {
    seq(32, _ => 0)
  }

  /** Every body is an authentic envelope for one identifier; [1] expires at x and any other at y. */
  function TwoBodies(x: int64, y: int64): World {
    World(
      b => Some(Envelope(VERSION, "id", "id", if b == [1] then x else y, "id", "nonce", "pow", "sig")),
      s => Some(
        if s == "nonce" then seq(Framing.NONCE_LEN, _ => 0)
        else if s == "pow" then seq(POW_LEN, _ => 0)
        else if s == "sig" then seq(SIG_LEN, _ => 0)
        else Sole()),
      _ => Sole(),
      (_, _, _) => true)
  }

  /** Two bytes suffice, no work is asked for, and an envelope may live for life seconds. */
  function LifeOf(life: int): Limits {
    Limits(2, Wrap64(life), 0, 0)
  }

  lemma TwoBodiesPass(x: int64, y: int64, body: Bytes, life: int, now: int64)
    requires |body| == 1 && now < (if body == [1] then x else y) <= now + life <= MAX_INT64
    ensures var w := TwoBodies(x, y);
      && Authentic(w, 0, body) && Id(w, body) == Sole() && Expiry(w, body) == (if body == [1] then x else y)
      && Check(w, body, now, LifeOf(life), false).0 == Accepted
  {
    var w := TwoBodies(x, y);
    FieldsOfTwo(x, y, body);
    Pow.LeadingZerosIs(Sole(), 0);
    LifeEnds(life, now);
    AcceptedMeans(w, body, now, LifeOf(life), false);
    hide Check, Fields, Deadline;
  }

  lemma LifeEnds(life: int, now: int64)
    requires now + life <= MAX_INT64 && 0 <= life
    ensures Deadline(LifeOf(life), now) == now + life
  {
    WrapTwice(life, now);
  }

  lemma FieldsOfTwo(x: int64, y: int64, body: Bytes)
    ensures var f := Fields(TwoBodies(x, y), body);
      && f.Some? && f.value.0.v == VERSION && f.value.1.expiresAt == (if body == [1] then x else y)
      && f.value.1.lookupId == Sole() && f.value.1.wkPub == Sole() && |f.value.1.pow| == POW_LEN
  {
  }

  /** Publishes i and j with their bodies, and every other publish refused by the limiter. */
  function Refill(es: seq<Event>, i: nat, j: nat, b: Bytes, c: Bytes): (fs: seq<Event>)
    ensures |fs| == |es|
  {
    seq(|es|, n requires 0 <= n < |es| =>
      match es[n]
      case SweepRows(now) => SweepRows(now)
      case Publish(_, now, _, _) => Publish(if n == i then b else c, now, n == i || n == j, true))
  }

  /** The same publishes and sweeps with the same readings; bodies, limiter and transport may differ. */
  ghost predicate SameSchedule(es: seq<Event>, fs: seq<Event>) {
    |es| == |fs| && forall n :: 0 <= n < |es| ==> es[n].Publish? == fs[n].Publish? && es[n].now == fs[n].now
  }

  /** The table is empty before i and after k, and holds nothing but an expired-by-k row in between. */
  ghost predicate Stage(t: Records.Table, n: int, i: int, k: int, gone: int64) {
    && (forall id :: id in t ==> id == Sole() && t[id].expiresAt <= gone)
    && (n <= i || k < n ==> t == map[])
  }

  lemma StageNext(w: World, lim: Limits, t: Records.Table, e: Event, n: int, i: int, k: int, gone: int64)
    requires Stage(t, n, i, k, gone) && i < k
    requires if n == i then e.Publish? && Id(w, e.body) == Sole() && Expiry(w, e.body) <= gone
             else if n == k then e == SweepRows(gone) else e.Publish? ==> !e.allowed
    ensures Stage(Next(w, lim, t, e), n + 1, i, k, gone)
  {
    if e.Publish? { PutStoresVerbatim(w, lim, t, e.body, e.now, e.allowed, e.readable); }
    hide Check, Authentic, Deadline, Fields;
  }

  lemma {:induction false} StageAt(w: World, lim: Limits, fs: seq<Event>, n: nat, i: nat, k: nat, j: nat)
    requires n <= j && Overtaken(fs, i, k, j)
    requires Id(w, fs[i].body) == Sole() && Expiry(w, fs[i].body) <= fs[k].now
    requires forall m :: 0 <= m < j && m != i && fs[m].Publish? ==> !fs[m].allowed
    ensures Stage(After(w, lim, fs[..n]), n, i, k, fs[k].now)
  {
    if n > 0 {
      StageAt(w, lim, fs, n - 1, i, k, j);
      AfterNext(w, lim, fs, n - 1);
      StageNext(w, lim, After(w, lim, fs[..n - 1]), fs[n - 1], n - 1, i, k, fs[k].now);
    }
  }

  lemma EmptyAdmits(w: World, lim: Limits, body: Bytes, now: int64)
    requires |body| == 1 && lim.maxRecordBytes == 2 && Check(w, body, now, lim, false).0 == Accepted
    ensures PutAccepted(w, lim, map[], body, now, true, true)
  {
    AcceptedMeans(w, body, now, lim, false);
    assert ReadLimited(body, 3) == body;
    hide Check, Deadline, Fields;
  }

  /** Bodies b at i and c at j are both accepted, the sweep at k having taken away what b left. */
  lemma BothAccepted(es: seq<Event>, i: nat, k: nat, j: nat, b: Bytes, c: Bytes, x: int64, y: int64, life: int)
    requires Overtaken(es, i, k, j) && |b| == |c| == 1
    requires es[i].now < (if b == [1] then x else y) <= es[i].now + life <= MAX_INT64
    requires es[j].now < (if c == [1] then x else y) <= es[j].now + life <= MAX_INT64
    requires (if b == [1] then x else y) <= es[k].now
    ensures var w, lim, fs := TwoBodies(x, y), LifeOf(life), Refill(es, i, j, b, c);
      && SameSchedule(es, fs) && fs[i].body == b && fs[j].body == c
      && AcceptedAt(w, lim, fs, i) && AcceptedAt(w, lim, fs, j)
  {
    var w, lim, fs := TwoBodies(x, y), LifeOf(life), Refill(es, i, j, b, c);
    hide TwoBodies, LifeOf, Check, Authentic, Fields, After, PutAccepted, Refill;
    RefillKeeps(es, i, k, j, b, c);
    TwoBodiesPass(x, y, b, life, es[i].now);
    TwoBodiesPass(x, y, c, life, es[j].now);
    LifeAllowsTwo(life);
    hide SameSchedule, Overtaken;
    BothStaged(w, lim, fs, i, k, j);
  }

  lemma RefillKeeps(es: seq<Event>, i: nat, k: nat, j: nat, b: Bytes, c: Bytes)
    requires Overtaken(es, i, k, j)
    ensures var fs := Refill(es, i, j, b, c);
      && SameSchedule(es, fs) && Overtaken(fs, i, k, j)
      && fs[i] == Publish(b, es[i].now, true, true) && fs[j] == Publish(c, es[j].now, true, true)
      && fs[k] == es[k] && forall m :: 0 <= m < |fs| && m != i && m != j && fs[m].Publish? ==> !fs[m].allowed
  {
  }

  lemma BothStaged(w: World, lim: Limits, fs: seq<Event>, i: nat, k: nat, j: nat)
    requires Overtaken(fs, i, k, j) && lim.maxRecordBytes == 2
    requires forall m :: 0 <= m < |fs| && m != i && m != j && fs[m].Publish? ==> !fs[m].allowed
    requires |fs[i].body| == 1 && fs[i].allowed && fs[i].readable
    requires |fs[j].body| == 1 && fs[j].allowed && fs[j].readable
    requires Id(w, fs[i].body) == Sole() && Expiry(w, fs[i].body) <= fs[k].now
    requires Check(w, fs[i].body, fs[i].now, lim, false).0 == Accepted
    requires Check(w, fs[j].body, fs[j].now, lim, false).0 == Accepted
    ensures AcceptedAt(w, lim, fs, i) && AcceptedAt(w, lim, fs, j)
  {
    hide Check, Authentic, Fields, After, PutAccepted, Id, Expiry;
    StageAt(w, lim, fs, i, i, k, j);
    StageAt(w, lim, fs, j, i, k, j);
    EmptyAdmits(w, lim, fs[i].body, fs[i].now);
    EmptyAdmits(w, lim, fs[j].body, fs[j].now);
  }

  lemma LifeAllowsTwo(life: int)
    ensures LifeOf(life).maxRecordBytes == 2
  {
  }

  lemma OpenRollsBack(es: seq<Event>, i: nat, k: nat, j: nat) returns (w: World, lim: Limits, fs: seq<Event>)
    requires Overtaken(es, i, k, j) && Fits(es[i].now, es[j].now)
    ensures SameSchedule(es, fs) && !NeverRollsBack(w, lim, fs)
  {
    var p: int, q: int := es[i].now, es[j].now;
    var x: int, y: int := (if p < q then q else p) + 1, q + 1;
    var b, c := [1], [2];
    var life := x - p;
    w, lim, fs := TwoBodies(x, y), LifeOf(life), Refill(es, i, j, b, c);
    BothAccepted(es, i, k, j, b, c, x, y, life);
    FieldsOfTwo(x, y, b);
    FieldsOfTwo(x, y, c);
    hide TwoBodies, AcceptedAt;
    assert Expiry(w, fs[j].body) <= Expiry(w, fs[i].body) && Id(w, fs[i].body) == Id(w, fs[j].body);
  }

  lemma OpenRepeats(es: seq<Event>, i: nat, k: nat, j: nat) returns (w: World, lim: Limits, fs: seq<Event>)
    requires Overtaken(es, i, k, j) && Fits(es[i].now, es[j].now) && Fits(es[j].now, es[i].now)
    ensures SameSchedule(es, fs) && !NeverRepeats(w, lim, fs)
  {
    var p: int, q: int := es[i].now, es[j].now;
    var x: int, least: int := (if p < q then q else p) + 1, if p < q then p else q;
    var life := x - least;
    w, lim, fs := TwoBodies(x, x), LifeOf(life), Refill(es, i, j, [1], [1]);
    BothAccepted(es, i, k, j, [1], [1], x, x, life);
    hide TwoBodies, AcceptedAt;
    assert fs[i].body == fs[j].body;
  }

  /**
   Accepted expiries strictly increase whatever the bodies, the limits and the cryptography, if and only if
   no sweep between two publishes reads later than both with room in 64 bits for an expiry past them.
   */
  lemma AcceptedExpiriesIncrease(es: seq<Event>)
    ensures (forall w: World, lim: Limits, fs: seq<Event> :: SameSchedule(es, fs) ==> NeverRollsBack(w, lim, fs))
            <==> !OpenToRollback(es)
  {
    if OpenToRollback(es) {
      var i: nat, k: nat, j: nat :| Overtaken(es, i, k, j) && Fits(es[i].now, es[j].now);
      var w, lim, fs := OpenRollsBack(es, i, k, j);
    } else {
      forall w: World, lim: Limits, fs: seq<Event> | SameSchedule(es, fs) ensures NeverRollsBack(w, lim, fs) {
        SameOpenings(es, fs);
        ClosedNeverRollsBack(w, lim, fs);
      }
    }
  }

  /** No body is accepted twice, whatever else, if and only if the schedule is not open to replay. */
  lemma NoReplay(es: seq<Event>)
    ensures (forall w: World, lim: Limits, fs: seq<Event> :: SameSchedule(es, fs) ==> NeverRepeats(w, lim, fs))
            <==> !OpenToReplay(es)
  {
    if OpenToReplay(es) {
      var i: nat, k: nat, j: nat :|
        Overtaken(es, i, k, j) && Fits(es[i].now, es[j].now) && Fits(es[j].now, es[i].now);
      var w, lim, fs := OpenRepeats(es, i, k, j);
    } else {
      forall w: World, lim: Limits, fs: seq<Event> | SameSchedule(es, fs) ensures NeverRepeats(w, lim, fs) {
        SameOpenings(es, fs);
        ClosedNeverRepeats(w, lim, fs);
      }
    }
  }

  lemma SameOpenings(es: seq<Event>, fs: seq<Event>)
    requires SameSchedule(es, fs)
    ensures OpenToRollback(fs) ==> OpenToRollback(es)
    ensures OpenToReplay(fs) ==> OpenToReplay(es)
  {
    forall i: nat, k: nat, j: nat | Overtaken(fs, i, k, j)
      ensures Overtaken(es, i, k, j) && es[i].now == fs[i].now && es[j].now == fs[j].now {
    }
  }

  /**
   A run that breaks under a clock that never steps back: a publish read the clock just before its own
   expiry and was held up until a sweep had read it. The body it repeats is accepted again.
   */
  lemma SlowPublishReplays() returns (w: World, lim: Limits, es: seq<Event>)
    ensures es == [Publish([1], 100, true, true), SweepRows(160), Publish([1], 159, true, true)]
    ensures lim.maxTTL == 60 && AcceptedAt(w, lim, es, 0) && AcceptedAt(w, lim, es, 2) && !NeverRepeats(w, lim, es)
  {
    es := [Publish([1], 100, true, true), SweepRows(160), Publish([1], 159, true, true)];
    w, lim := TwoBodies(160, 160), LifeOf(60);
    assert Overtaken(es, 0, 1, 2);
    BothAccepted(es, 0, 1, 2, [1], [1], 160, 160, 60);
    assert Refill(es, 0, 2, [1], [1]) == es;
    hide TwoBodies, AcceptedAt;
    assert es[0].body == es[2].body;
  }

  // How long rows are kept

  ghost predicate RowsBounded(t: Records.Table, lim: Limits, clock: int) {
    forall id :: id in t ==> t[id].expiresAt <= clock + lim.maxTTL + lim.skewGrace
  }

  /**
   No row expires later than the latest reading plus the time to live and the grace, in whatever order
   the readings came, while every reading is one at which the 64-bit deadline does not come out too late.
   */
  lemma {:induction false} RowsStayBounded(w: World, lim: Limits, es: seq<Event>, clock: int)
    requires forall i :: 0 <= i < |es| ==> es[i].now <= clock
    requires forall i :: 0 <= i < |es| && es[i].Publish? ==> OnTime(lim, es[i].now)
    ensures RowsBounded(After(w, lim, es), lim, clock)
    decreases |es|
  {
    if es != [] {
      var t, e := After(w, lim, es[..|es| - 1]), es[|es| - 1];
      RowsStayBounded(w, lim, es[..|es| - 1], clock);
      if e.Publish? { PutStoresVerbatim(w, lim, t, e.body, e.now, e.allowed, e.readable); }
      hide HandlePut, Authentic, Deadline, StoredAs;
    }
  }

  /** What an empty store accepts at now under these limits expires no later than the true sum. */
  ghost predicate EndsInTime(w: World, lim: Limits, body: Bytes, now: int64) {
    PutAccepted(w, lim, map[], body, now, true, true) ==> Expiry(w, body) <= now + lim.maxTTL + lim.skewGrace
  }

  lemma OnTimeEnds(w: World, lim: Limits, body: Bytes, now: int64)
    requires OnTime(lim, now)
    ensures EndsInTime(w, lim, body, now)
  {
    PutStoresVerbatim(w, lim, map[], body, now, true, true);
    hide HandlePut, Authentic, Deadline, StoredAs;
  }

  lemma LateEndsLate(ttl: int64, grace: int64, now: int64) returns (w: World, lim: Limits)
    requires !OnTime(Limits(2, ttl, 0, grace), now)
    ensures lim.maxTTL == ttl && lim.skewGrace == grace && !EndsInTime(w, lim, [1], now)
  {
    lim := Limits(2, ttl, 0, grace);
    var x := Deadline(lim, now);
    w := TwoBodies(x, x);
    FieldsOfTwo(x, x, [1]);
    Pow.LeadingZerosIs(Sole(), 0);
    AcceptedMeans(w, [1], now, lim, false);
    hide TwoBodies, Check, Deadline, Fields;
    EmptyAdmits(w, lim, [1], now);
  }

  lemma OnlyTheSum(lim: Limits, now: int64)
    ensures OnTime(lim, now) <==> OnTime(Limits(2, lim.maxTTL, 0, lim.skewGrace), now)
  {
    hide Wrap64;
  }

  /** And that is exactly when: at any other reading some body is stored to expire too late. */
  lemma BoundedExactly(ttl: int64, grace: int64, now: int64)
    ensures (forall w: World, lim: Limits, body: Bytes ::
               lim.maxTTL == ttl && lim.skewGrace == grace ==> EndsInTime(w, lim, body, now))
            <==> OnTime(Limits(2, ttl, 0, grace), now)
  {
    hide OnTime, EndsInTime;
    if OnTime(Limits(2, ttl, 0, grace), now) {
      forall w: World, lim: Limits, body: Bytes | lim.maxTTL == ttl && lim.skewGrace == grace
        ensures EndsInTime(w, lim, body, now)
      {
        OnlyTheSum(lim, now);
        OnTimeEnds(w, lim, body, now);
      }
    } else {
      var w, lim := LateEndsLate(ttl, grace, now);
    }
  }
}
