/**
 The per-source rate limiter as functions on its table: fixed windows per truncated
 address and class, a bounded number of keys, and sweeps of elapsed entries.
 Times are nanoseconds since Go's zero time.
 */
module RateLimit {
  import opened Base

  const NUM_CLASSES: int := 3
  const SECOND: int := 1_000_000_000
  const DEFAULT_LIMIT: int := 600
  const DEFAULT_WINDOW: int := 3600 * SECOND
  const DEFAULT_MAX_KEYS: int := 500_000
  const SWEEP_DIVISOR: int := 8

  // Addresses and the key they are counted under

  type Octets4 = b: Bytes | |b| == 4 witness [0, 0, 0, 0]
  type Octets16 = b: Bytes | |b| == 16 witness [0, 0, 0, 0, 0, 0, 0, 0, 0, 0, 0, 0, 0, 0, 0, 0]

  datatype Addr = NoAddr | V4(v4: Octets4) | V6(v6: Octets16)

  predicate Is4In6(b: Octets16) {
    b[..10] == [0, 0, 0, 0, 0, 0, 0, 0, 0, 0] && b[10] == 255 && b[11] == 255
  }

  function Unmap(a: Addr): Addr {
    if a.V6? && Is4In6(a.v6) then V4(a.v6[12..]) else a
  }

  datatype Key = Key(net: Bytes, family: int, class_: int)

  const ZEROS8: Bytes := [0, 0, 0, 0, 0, 0, 0, 0]

  function MakeKey(a: Addr, c: int): Key {
    match Unmap(a)
    case V4(b) => Key(b[..3] + [0] + ZEROS8 + [0, 0, 0, 0], 4, c)
    case V6(b) => Key(b[..8] + ZEROS8, 6, c)
    case NoAddr => Key(ZEROS8 + ZEROS8, 0, c)
  }

  /** An IPv4 address as it presents on a dual-stack listener, ::ffff:b. */
  function Mapped(b: Octets4): Addr {
    V6([0, 0, 0, 0, 0, 0, 0, 0, 0, 0, 255, 255] + b)
  }

  /** An IPv6 address whose first twelve bytes are not those of a mapped one. */
  predicate Proper(b: Octets16) {
    b[..12] != [0, 0, 0, 0, 0, 0, 0, 0, 0, 0, 255, 255]
  }

  /** The mapped form and nothing else is read as IPv4. */
  lemma UnmapExactly(b: Octets16, x: Octets4)
    ensures Unmap(V4(x)) == V4(x) && Unmap(Mapped(x)) == V4(x)
    ensures Unmap(V6(b)) == V4(x) <==> V6(b) == Mapped(x)
    ensures Unmap(V6(b)) == V6(b) <==> Proper(b)
  {
    var prefix := [0, 0, 0, 0, 0, 0, 0, 0, 0, 0, 255, 255];
    assert (prefix + x)[..10] == [0, 0, 0, 0, 0, 0, 0, 0, 0, 0] && (prefix + x)[12..] == x;
    assert b == b[..12] + b[12..];
    assert b[..12] == b[..10] + [b[10], b[11]];
    assert prefix == [0, 0, 0, 0, 0, 0, 0, 0, 0, 0] + [255, 255];
  }

  lemma KeyBytes(x: Octets4, b: Octets16, c: int)
    ensures MakeKey(V4(x), c) == Key(x[..3] + [0, 0, 0, 0, 0, 0, 0, 0, 0, 0, 0, 0, 0], 4, c)
    ensures MakeKey(V6([0, 0, 0, 0, 0, 0, 0, 0, 0, 0, 255, 255] + x), c) == MakeKey(V4(x), c)
    ensures Proper(b) ==> MakeKey(V6(b), c) == Key(b[..8] + [0, 0, 0, 0, 0, 0, 0, 0], 6, c)
  {
    UnmapExactly(b, x);
    hide Unmap, Proper;
  }

  /** The network an address is counted under, IPv4 or IPv6: its /24, mapped or not, or else its /64. */
  ghost predicate InNet(a: Addr, net: Bytes) {
    match a
    case NoAddr => false
    case V4(x) => net == x[..3]
    case V6(b) => if Proper(b) then net == b[..8] else net == b[12..15]
  }

  /** Two requests share a counter exactly when class and network agree, a mapped address being in its IPv4 one's. */
  lemma SameKey(a: Addr, b: Addr, c: int, d: int)
    requires a != NoAddr && b != NoAddr
    ensures MakeKey(a, c) == MakeKey(b, d) <==> c == d && exists net :: InNet(a, net) && InNet(b, net)
  {
    var x := NetOf(a, c);
    var y := NetOf(b, d);
    hide MakeKey, InNet;
  }

  /** Networks are told apart by their length, three bytes or eight, and fill the front of the key. */
  lemma NetOf(a: Addr, c: int) returns (net: Bytes)
    requires a != NoAddr
    ensures InNet(a, net) && (forall other :: InNet(a, other) ==> other == net)
    ensures (|net| == 3 && MakeKey(a, c) == Key(net + [0, 0, 0, 0, 0, 0, 0, 0, 0, 0, 0, 0, 0], 4, c))
         || (|net| == 8 && MakeKey(a, c) == Key(net + [0, 0, 0, 0, 0, 0, 0, 0], 6, c))
    ensures MakeKey(a, c).net[..|net|] == net
  {
    match a
    case V4(x) =>
      KeyBytes(x, [0, 0, 0, 0, 0, 0, 0, 0, 0, 0, 0, 0, 0, 0, 0, 0], c);
      net := x[..3];
    case V6(b) =>
      KeyBytes(b[12..], b, c);
      UnmapExactly(b, b[12..]);
      net := if Proper(b) then b[..8] else b[12..15];
      assert !Proper(b) ==> V6(b) == Mapped(b[12..]) && b[12..][..3] == b[12..15] by { assert b == b[..12] + b[12..]; }
  }

  // Configuration

  datatype Options = Options(putRecord: int, getRecord: int, signal: int, window: int64, maxKeys: int)

  datatype Config = Config(limits: seq<int>, window: int, sweepInterval: int, maxKeys: int)

  function OrDefault(v: int, def: int): int {
    if v <= 0 then def else v
  }

  function Configure(o: Options): (c: Config)
    ensures Valid(c)
    ensures c.sweepInterval <= c.window
    ensures SWEEP_DIVISOR * c.sweepInterval <= c.window || c.sweepInterval == c.window < SWEEP_DIVISOR
    ensures (o.putRecord > 0 ==> c.limits[0] == o.putRecord) && (o.getRecord > 0 ==> c.limits[1] == o.getRecord)
    ensures (o.signal > 0 ==> c.limits[2] == o.signal) && (o.window > 0 ==> c.window == o.window)
    ensures o.maxKeys > 0 ==> c.maxKeys == o.maxKeys
    ensures (o.putRecord <= 0 ==> c.limits[0] == 600) && (o.getRecord <= 0 ==> c.limits[1] == 600)
    ensures (o.signal <= 0 ==> c.limits[2] == 600) && (o.window <= 0 ==> c.window == 3_600_000_000_000)
    ensures o.maxKeys <= 0 ==> c.maxKeys == 500_000
    ensures c.window >= 8 ==> 8 * c.sweepInterval <= c.window < 8 * c.sweepInterval + 8
  {
    var window := OrDefault(o.window, DEFAULT_WINDOW);
    Config([OrDefault(o.putRecord, DEFAULT_LIMIT), OrDefault(o.getRecord, DEFAULT_LIMIT),
            OrDefault(o.signal, DEFAULT_LIMIT)],
           window,
           if window / SWEEP_DIVISOR <= 0 then window else window / SWEEP_DIVISOR,
           OrDefault(o.maxKeys, DEFAULT_MAX_KEYS))
  }

  predicate Valid(c: Config) {
    && |c.limits| == NUM_CLASSES && (forall i :: 0 <= i < NUM_CLASSES ==> c.limits[i] >= 1)
    && 0 < c.window <= MAX_INT64 && 0 < c.sweepInterval && 0 < c.maxKeys
  }

  // The table

  datatype Counter = Counter(start: int, n: int)

  datatype Table = Table(keys: map<Key, Counter>, nextSweep: int)

  /** Go's Time.Sub, which saturates, and int64 negation, which wraps at the minimum. */
  function Sub(now: int, start: int): int64 {
    if now - start > MAX_INT64 then MAX_INT64 else if now - start < MIN_INT64 then MIN_INT64 else now - start
  }

  predicate Live(start: int, now: int, window: int) {
    var d: int := Sub(now, start);
    (if d < 0 then Wrap64(-d) else d) < window
  }

  /**
   A window is current exactly when it opened less than its length away from now, except
   that one opening at least 2^63 ns after now also counts as current: the negated
   saturated difference wraps to a negative one.
   */
  lemma LiveExactly(start: int, now: int, window: int)
    requires 0 < window <= MAX_INT64
    ensures Live(start, now, window) <==> -window < now - start < window || now - start <= MIN_INT64
  {
    var d: int := Sub(now, start);
    if d < 0 { assert d > MIN_INT64 ==> Wrap64(-d) == -d; }
  }

  /** The entries still current at now. */
  function Current(keys: map<Key, Counter>, now: int, window: int): map<Key, Counter> {
    map k | k in keys && Live(keys[k].start, now, window) :: keys[k]
  }

  function SweepAt(c: Config, t: Table, now: int): Table {
    Table(Current(t.keys, now, c.window), now + c.sweepInterval)
  }

  /** The decision for one key, with the table locked. */
  function Decide(c: Config, t: Table, k: Key, limit: int, now: int): (Table, bool) {
    var due := now >= t.nextSweep;
    var t1 := if due then SweepAt(c, t, now) else t;
    if k in t1.keys && Live(t1.keys[k].start, now, c.window) then
      if t1.keys[k].n >= limit then (t1, false)
      else (t1.(keys := t1.keys[k := Counter(t1.keys[k].start, t1.keys[k].n + 1)]), true)
    else
      var full := k !in t1.keys && |t1.keys| >= c.maxKeys;
      var t2 := if full && !due then SweepAt(c, t1, now) else t1;
      if full && |t2.keys| >= c.maxKeys then (t2, false)
      else (t2.(keys := t2.keys[k := Counter(now, 1)]), true)
  }

  function Allow(c: Config, t: Table, a: Addr, cl: int, now: int): (Table, bool)
    requires Valid(c)
  {
    if cl < 0 || cl >= NUM_CLASSES || a == NoAddr then (t, false)
    else Decide(c, t, MakeKey(a, cl), c.limits[cl], now)
  }

  // The reference: a table holding nothing but current windows, never swept.

  function Ideal(c: Config, live: map<Key, Counter>, k: Key, limit: int, now: int): (map<Key, Counter>, bool) {
    var m := Current(live, now, c.window);
    if k in m then
      if m[k].n >= limit then (m, false) else (m[k := Counter(m[k].start, m[k].n + 1)], true)
    else if |m| >= c.maxKeys then (m, false)
    else (m[k := Counter(now, 1)], true)
  }

  /** Every window opened at or before the clock. */
  ghost predicate OpenedBy(keys: map<Key, Counter>, clock: int) {
    forall k :: k in keys ==> keys[k].start <= clock
  }

  lemma CurrentTwice(keys: map<Key, Counter>, now: int, window: int)
    ensures Current(Current(keys, now, window), now, window) == Current(keys, now, window)
  {
  }

  /** What is current later was current before: with a clock that does not run backwards, elapsed stays elapsed. */
  lemma CurrentLater(keys: map<Key, Counter>, clock: int, now: int, window: int)
    requires OpenedBy(keys, clock) && clock <= now && 0 < window <= MAX_INT64
    ensures Current(Current(keys, clock, window), now, window) == Current(keys, now, window)
  {
    forall k | k in keys ensures Live(keys[k].start, now, window) ==> Live(keys[k].start, clock, window) {
      LiveExactly(keys[k].start, now, window);
      LiveExactly(keys[k].start, clock, window);
    }
  }

  /**
   At any one instant, and for any table, elapsed entries make no difference: the answer and
   the current windows afterwards are those of the reference.
   */
  lemma DecideIsIdeal(c: Config, t: Table, k: Key, limit: int, now: int)
    requires Valid(c) && |t.keys| <= c.maxKeys
    ensures Decide(c, t, k, limit, now).1 == Ideal(c, t.keys, k, limit, now).1
    ensures Current(Decide(c, t, k, limit, now).0.keys, now, c.window) == Ideal(c, t.keys, k, limit, now).0
  {
    hide Live;
    var m := Current(t.keys, now, c.window);
    CurrentTwice(t.keys, now, c.window);
    SubsetSize(m.Keys, t.keys.Keys);
    assert Live(now, now, c.window) by { LiveExactly(now, now, c.window); }
    if k in t.keys && k !in m { ProperSubsetSize(m.Keys, t.keys.Keys, k); }
  }

  // What every operation keeps, for any clock

  ghost predicate TableOk(c: Config, t: Table) {
    && |t.keys| <= c.maxKeys
    && forall k :: k in t.keys ==> 0 <= k.class_ < |c.limits| && 1 <= t.keys[k].n <= c.limits[k.class_]
  }

  lemma SweepKeeps(c: Config, t: Table, now: int)
    requires Valid(c) && TableOk(c, t)
    ensures TableOk(c, SweepAt(c, t, now))
  {
    SubsetSize(SweepAt(c, t, now).keys.Keys, t.keys.Keys);
  }

  lemma SetKeeps(c: Config, t: Table, k: Key, v: Counter)
    requires Valid(c) && TableOk(c, t) && 0 <= k.class_ < |c.limits| && 1 <= v.n <= c.limits[k.class_]
    requires k in t.keys || |t.keys| < c.maxKeys
    ensures TableOk(c, t.(keys := t.keys[k := v]))
  {
    assert t.keys[k := v].Keys == t.keys.Keys + {k};
  }

  lemma CountsFromOne(c: Config, t: Table, k: Key)
    requires TableOk(c, t) && k in t.keys
    ensures 1 <= t.keys[k].n
  {
  }

  lemma DecideKeeps(c: Config, t: Table, k: Key, now: int)
    requires Valid(c) && TableOk(c, t) && 0 <= k.class_ < |c.limits|
    ensures TableOk(c, Decide(c, t, k, c.limits[k.class_], now).0)
  {
    hide TableOk, SweepAt, Live;
    SweepKeeps(c, t, now);
    var t1 := if now >= t.nextSweep then SweepAt(c, t, now) else t;
    if k in t1.keys && Live(t1.keys[k].start, now, c.window) {
      if t1.keys[k].n < c.limits[k.class_] {
        CountsFromOne(c, t1, k);
        SetKeeps(c, t1, k, Counter(t1.keys[k].start, t1.keys[k].n + 1));
      }
    } else {
      if k in t1.keys || |t1.keys| < c.maxKeys { SetKeeps(c, t1, k, Counter(now, 1)); }
      SweepKeeps(c, t1, now);
      var t2 := SweepAt(c, t1, now);
      if |t2.keys| < c.maxKeys { SetKeeps(c, t2, k, Counter(now, 1)); }
    }
  }

  /** The table never outgrows maxKeys and no counter passes its limit. */
  lemma AllowKeeps(c: Config, t: Table, a: Addr, cl: int, now: int)
    requires Valid(c) && TableOk(c, t)
    ensures TableOk(c, Allow(c, t, a, cl, now).0)
  {
    hide Decide, TableOk;
    if 0 <= cl < NUM_CLASSES && a != NoAddr { DecideKeeps(c, t, MakeKey(a, cl), now); }
  }

  // How long an entry is kept

  /** No entry is as old as a window and a sweep interval once a request has been decided at now. */
  ghost predicate Fresh(c: Config, t: Table, clock: int) {
    && t.nextSweep <= clock + c.sweepInterval
    && forall k :: k in t.keys ==>
         t.keys[k].start <= clock && t.nextSweep - c.sweepInterval - t.keys[k].start < c.window
  }

  lemma SweepFresh(c: Config, t: Table, now: int)
    requires Valid(c) && OpenedBy(t.keys, now)
    ensures Fresh(c, SweepAt(c, t, now), now)
  {
    var t' := SweepAt(c, t, now);
    forall k | k in t'.keys ensures now - t'.keys[k].start < c.window { LiveExactly(t.keys[k].start, now, c.window); }
  }

  /** With a clock that does not run backwards, after a request no entry is kept a sweep interval past its window. */
  lemma EntriesStayFresh(c: Config, t: Table, clock: int, a: Addr, cl: int, now: int)
    requires Valid(c) && Fresh(c, t, clock) && clock <= now && 0 <= cl < NUM_CLASSES && a != NoAddr
    ensures var t' := Allow(c, t, a, cl, now).0;
      && Fresh(c, t', now)
      && forall k :: k in t'.keys ==> now - t'.keys[k].start < c.window + c.sweepInterval
  {
    SweepFresh(c, t, now);
    hide Live;
    var t' := Allow(c, t, a, cl, now).0;
    assert now < t'.nextSweep;
  }

  // Runs

  datatype Event = Request(a: Addr, cl: int, now: int) | Sweep(now: int)

  ghost predicate ClockRuns(es: seq<Event>, clock: int) {
    es == [] || (clock <= es[0].now && ClockRuns(es[1..], es[0].now))
  }

  function Step(c: Config, t: Table, e: Event): (Table, bool)
    requires Valid(c)
  {
    match e
    case Request(a, cl, now) => Allow(c, t, a, cl, now)
    case Sweep(now) => (SweepAt(c, t, now), false)
  }

  function After(c: Config, t: Table, es: seq<Event>): Table
    requires Valid(c)
    decreases es
  {
    if es == [] then t else After(c, Step(c, t, es[0]).0, es[1..])
  }

  function LastReading(es: seq<Event>, clock: int): int {
    if es == [] then clock else es[|es| - 1].now
  }

  lemma StepStaysFresh(c: Config, t: Table, clock: int, e: Event)
    requires Valid(c) && TableOk(c, t) && Fresh(c, t, clock) && clock <= e.now
    ensures TableOk(c, Step(c, t, e).0) && Fresh(c, Step(c, t, e).0, e.now)
  {
    hide TableOk, Live, Decide;
    match e
    case Sweep(now) =>
      SweepKeeps(c, t, now);
      SweepFresh(c, t, now);
    case Request(a, cl, now) =>
      AllowKeeps(c, t, a, cl, now);
      if 0 <= cl < NUM_CLASSES && a != NoAddr { EntriesStayFresh(c, t, clock, a, cl, now); }
  }

  /**
   In every reachable state the table is within maxKeys, every counter within its limit, and no entry is
   kept a sweep interval past its window beyond the last time a request was decided.
   */
  lemma {:induction false} RunStaysFresh(c: Config, t: Table, clock: int, es: seq<Event>)
    requires Valid(c) && TableOk(c, t) && Fresh(c, t, clock) && ClockRuns(es, clock)
    ensures TableOk(c, After(c, t, es)) && Fresh(c, After(c, t, es), LastReading(es, clock))
    decreases es
  {
    hide TableOk, Fresh, Step;
    if es != [] {
      StepStaysFresh(c, t, clock, es[0]);
      RunStaysFresh(c, Step(c, t, es[0]).0, es[0].now, es[1..]);
    }
  }

  /** The answers to the requests of a run, in order. */
  function Answers(c: Config, t: Table, es: seq<Event>): seq<bool>
    requires Valid(c)
    decreases es
  {
    if es == [] then []
    else (if es[0].Request? then [Step(c, t, es[0]).1] else []) + Answers(c, Step(c, t, es[0]).0, es[1..])
  }

  function IdealAnswers(c: Config, live: map<Key, Counter>, es: seq<Event>): seq<bool>
    requires Valid(c)
    decreases es
  {
    if es == [] then []
    else
      match es[0]
      case Sweep(_) => IdealAnswers(c, live, es[1..])
      case Request(a, cl, now) =>
        if cl < 0 || cl >= NUM_CLASSES || a == NoAddr then [false] + IdealAnswers(c, live, es[1..])
        else
          var r := Ideal(c, live, MakeKey(a, cl), c.limits[cl], now);
          [r.1] + IdealAnswers(c, r.0, es[1..])
  }

  /** The table and the reference agree on what is current at the clock. */
  ghost predicate Agrees(c: Config, t: Table, live: map<Key, Counter>, clock: int) {
    && TableOk(c, t) && OpenedBy(t.keys, clock) && OpenedBy(live, clock)
    && Current(t.keys, clock, c.window) == Current(live, clock, c.window)
  }

  lemma AgreesLater(c: Config, t: Table, live: map<Key, Counter>, clock: int, now: int)
    requires Valid(c) && Agrees(c, t, live, clock) && clock <= now
    ensures Agrees(c, t, live, now)
  {
    CurrentLater(t.keys, clock, now, c.window);
    CurrentLater(live, clock, now, c.window);
  }

  lemma DecideOpened(c: Config, t: Table, k: Key, limit: int, now: int)
    requires OpenedBy(t.keys, now)
    ensures OpenedBy(Decide(c, t, k, limit, now).0.keys, now)
  {
    hide Live;
  }

  lemma RequestAgrees(c: Config, t: Table, live: map<Key, Counter>, k: Key, limit: int, now: int)
    requires Valid(c) && Agrees(c, t, live, now)
    ensures Decide(c, t, k, limit, now).1 == Ideal(c, live, k, limit, now).1
    ensures var t', live' := Decide(c, t, k, limit, now).0, Ideal(c, live, k, limit, now).0;
      OpenedBy(t'.keys, now) && OpenedBy(live', now) && Current(t'.keys, now, c.window) == Current(live', now, c.window)
  {
    DecideIsIdeal(c, t, k, limit, now);
    DecideOpened(c, t, k, limit, now);
    hide Live, Decide;
    assert Ideal(c, t.keys, k, limit, now) == Ideal(c, live, k, limit, now);
    var live' := Ideal(c, live, k, limit, now).0;
    assert Current(live', now, c.window) == live' by {
      CurrentTwice(Decide(c, t, k, limit, now).0.keys, now, c.window);
    }
  }

  lemma SweepAgrees(c: Config, t: Table, live: map<Key, Counter>, now: int)
    requires Valid(c) && Agrees(c, t, live, now)
    ensures Agrees(c, SweepAt(c, t, now), live, now)
  {
    SweepKeeps(c, t, now);
    CurrentTwice(t.keys, now, c.window);
  }

  lemma AllowAgrees(c: Config, t: Table, live: map<Key, Counter>, a: Addr, cl: int, now: int)
    requires Valid(c) && Agrees(c, t, live, now) && 0 <= cl < NUM_CLASSES && a != NoAddr
    ensures Allow(c, t, a, cl, now).1 == Ideal(c, live, MakeKey(a, cl), c.limits[cl], now).1
    ensures Agrees(c, Allow(c, t, a, cl, now).0, Ideal(c, live, MakeKey(a, cl), c.limits[cl], now).0, now)
  {
    hide Live, Decide, Ideal, Current, OpenedBy, TableOk;
    AllowKeeps(c, t, a, cl, now);
    RequestAgrees(c, t, live, MakeKey(a, cl), c.limits[cl], now);
  }

  /**
   The limiter refines the reference table: with a clock that does not run backwards it refuses
   a valid request exactly when its key is current with its limit used up, or is not current and
   maxKeys current keys exist.
   */
  lemma {:induction false} RunRefinesIdeal(c: Config, t: Table, live: map<Key, Counter>, clock: int, es: seq<Event>)
    requires Valid(c) && Agrees(c, t, live, clock) && ClockRuns(es, clock)
    ensures Answers(c, t, es) == IdealAnswers(c, live, es)
    decreases es
  {
    hide Live, Decide, Ideal, Agrees, TableOk, Current, OpenedBy;
    if es == [] { return; }
    var now := es[0].now;
    AgreesLater(c, t, live, clock, now);
    match es[0]
    case Sweep(_) =>
      SweepAgrees(c, t, live, now);
      RunRefinesIdeal(c, SweepAt(c, t, now), live, now, es[1..]);
    case Request(a, cl, _) =>
      if 0 <= cl < NUM_CLASSES && a != NoAddr {
        AllowAgrees(c, t, live, a, cl, now);
        var live' := Ideal(c, live, MakeKey(a, cl), c.limits[cl], now).0;
        RunRefinesIdeal(c, Allow(c, t, a, cl, now).0, live', now, es[1..]);
      } else {
        RunRefinesIdeal(c, t, live, now, es[1..]);
      }
  }

  function WithoutSweeps(es: seq<Event>): seq<Event> {
    if es == [] then [] else (if es[0].Sweep? then [] else [es[0]]) + WithoutSweeps(es[1..])
  }

  lemma {:induction false} IdealIgnoresSweeps(c: Config, live: map<Key, Counter>, es: seq<Event>)
    requires Valid(c)
    ensures IdealAnswers(c, live, es) == IdealAnswers(c, live, WithoutSweeps(es))
    decreases es
  {
    hide Ideal, MakeKey;
    if es == [] { return; }
    var rest := WithoutSweeps(es[1..]);
    match es[0]
    case Sweep(_) =>
      assert WithoutSweeps(es) == rest;
      IdealIgnoresSweeps(c, live, es[1..]);
    case Request(a, cl, now) =>
      assert WithoutSweeps(es)[0] == es[0] && WithoutSweeps(es)[1..] == rest;
      IdealIgnoresSweeps(c, live, es[1..]);
      var limit := if 0 <= cl < NUM_CLASSES then c.limits[cl] else 0;
      IdealIgnoresSweeps(c, Ideal(c, live, MakeKey(a, cl), limit, now).0, es[1..]);
  }

  lemma {:induction false} ClockRunsWithoutSweeps(es: seq<Event>, clock: int, later: int)
    requires ClockRuns(es, later) && clock <= later
    ensures ClockRuns(WithoutSweeps(es), clock)
  {
    if es == [] { return; }
    ClockRunsWithoutSweeps(es[1..], if es[0].Sweep? then clock else es[0].now, es[0].now);
    if es[0].Request? {
      assert WithoutSweeps(es)[0] == es[0] && WithoutSweeps(es)[1..] == WithoutSweeps(es[1..]);
    } else {
      assert WithoutSweeps(es) == WithoutSweeps(es[1..]);
    }
  }

  /** Sweeps called anywhere, any number of times, never change an answer. */
  lemma SweepsAreInvisible(c: Config, t: Table, clock: int, es: seq<Event>)
    requires Valid(c) && TableOk(c, t) && OpenedBy(t.keys, clock) && ClockRuns(es, clock)
    ensures Answers(c, t, es) == Answers(c, t, WithoutSweeps(es))
  {
    ClockRunsWithoutSweeps(es, clock, clock);
    RunRefinesIdeal(c, t, t.keys, clock, es);
    RunRefinesIdeal(c, t, t.keys, clock, WithoutSweeps(es));
    IdealIgnoresSweeps(c, t.keys, es);
  }
}
