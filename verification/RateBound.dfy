/**
 How many requests one key can get through in one window's length of time, wherever
 that stretch lies: at most 2 * limit - 1, and exactly that many at worst.
 */
module RateBound {
  import opened Base
  import opened RateLimit

  /** A request let through: when, and the window it was counted in. */
  datatype Admission = Admission(time: int, start: int, n: int)

  /** The requests of key k let through along a run. */
  function Admitted(c: Config, t: Table, es: seq<Event>, k: Key): seq<Admission>
    requires Valid(c)
    decreases es
  {
    if es == [] then []
    else
      var (t', ok) := Step(c, t, es[0]);
      (if ok && es[0].Request? && MakeKey(es[0].a, es[0].cl) == k && k in t'.keys
       then [Admission(es[0].now, t'.keys[k].start, t'.keys[k].n)] else [])
      + Admitted(c, t', es[1..], k)
  }

  ghost predicate AdmissionOk(limit: int, a: Admission) {
    1 <= a.n <= limit && a.start <= a.time && (a.n == 1 ==> a.start == a.time)
  }

  /** The next admission is the next of the same window, or the first of one that opened after it elapsed. */
  ghost predicate Follows(window: int, a: Admission, b: Admission) {
    && a.time <= b.time
    && ((b.start == a.start && b.n == a.n + 1) || (b.n == 1 && b.start >= a.start + window))
  }

  ghost predicate Chain(window: int, limit: int, h: seq<Admission>) {
    && (forall i :: 0 <= i < |h| ==> AdmissionOk(limit, h[i]))
    && (forall i :: 0 <= i < |h| - 1 ==> Follows(window, h[i], h[i + 1]))
  }

  // Every run produces a chain.

  /** What the table remembers of the last admission of k: its window, unless that has elapsed. */
  ghost predicate Tracks(c: Config, t: Table, k: Key, last: Option<Admission>, clock: int) {
    && OpenedBy(t.keys, clock)
    && match last
       case None => k !in t.keys
       case Some(a) =>
         && 0 <= k.class_ < |c.limits| && AdmissionOk(c.limits[k.class_], a) && a.time <= clock
         && if k in t.keys then t.keys[k] == Counter(a.start, a.n) else a.start + c.window <= clock
  }

  function Latest(c: Config, t: Table, e: Event, k: Key, last: Option<Admission>): Option<Admission>
    requires Valid(c)
  {
    var h := Admitted(c, t, [e], k);
    if h == [] then last else Some(h[0])
  }

  lemma SweepTracks(c: Config, t: Table, k: Key, last: Option<Admission>, now: int)
    requires Valid(c) && Tracks(c, t, k, last, now)
    ensures Tracks(c, SweepAt(c, t, now), k, last, now)
  {
    if k in t.keys { LiveExactly(t.keys[k].start, now, c.window); }
  }

  /** One locked decision: other keys' windows are left alone, and this key's counter moves as Follows says. */
  lemma DecideTracks(c: Config, t: Table, k: Key, j: Key, last: Option<Admission>, now: int)
    requires Valid(c) && 0 <= j.class_ < |c.limits| && Tracks(c, t, k, last, now)
    ensures var limit := c.limits[j.class_];
      var (t', ok) := Decide(c, t, j, limit, now);
      if ok && j == k then
        && k in t'.keys
        && var a := Admission(now, t'.keys[k].start, t'.keys[k].n);
           Tracks(c, t', k, Some(a), now) && (last.Some? ==> Follows(c.window, last.value, a))
      else Tracks(c, t', k, last, now)
  {
    SweepTracks(c, t, k, last, now);
    var t1 := if now >= t.nextSweep then SweepAt(c, t, now) else t;
    if j in t1.keys { LiveExactly(t1.keys[j].start, now, c.window); }
    SweepTracks(c, t1, k, last, now);
    hide Live, SweepAt;
  }

  lemma StepTracks(c: Config, t: Table, k: Key, e: Event, last: Option<Admission>, clock: int)
    requires Valid(c) && Tracks(c, t, k, last, clock) && clock <= e.now
    ensures Tracks(c, Step(c, t, e).0, k, Latest(c, t, e, k, last), e.now)
    ensures last.Some? && Latest(c, t, e, k, last) != last ==>
              Follows(c.window, last.value, Latest(c, t, e, k, last).value)
    ensures last.Some? && Admitted(c, t, [e], k) != [] ==> Follows(c.window, last.value, Admitted(c, t, [e], k)[0])
  {
    assert Tracks(c, t, k, last, e.now);
    assert Admitted(c, Step(c, t, e).0, [e][1..], k) == [];
    hide Decide, SweepAt, Tracks, Follows;
    match e
    case Sweep(now) => SweepTracks(c, t, k, last, now);
    case Request(a, cl, now) =>
      if 0 <= cl < NUM_CLASSES && a != NoAddr { DecideTracks(c, t, k, MakeKey(a, cl), last, now); }
  }

  function Optional(last: Option<Admission>): seq<Admission> {
    if last.Some? then [last.value] else []
  }

  lemma ConsChain(window: int, limit: int, a: Admission, h: seq<Admission>)
    requires Chain(window, limit, h) && AdmissionOk(limit, a) && (h != [] ==> Follows(window, a, h[0]))
    ensures Chain(window, limit, [a] + h)
  {
    var g := [a] + h;
    forall i | 0 <= i < |g| - 1 ensures Follows(window, g[i], g[i + 1]) {
      if i > 0 { assert g[i] == h[i - 1] && g[i + 1] == h[i]; }
    }
  }

  lemma AdmittedFirst(c: Config, t: Table, es: seq<Event>, k: Key)
    requires Valid(c) && es != []
    ensures Admitted(c, t, es, k) == Admitted(c, t, [es[0]], k) + Admitted(c, Step(c, t, es[0]).0, es[1..], k)
    ensures |Admitted(c, t, [es[0]], k)| <= 1
  {
    hide Step, MakeKey;
    var e := es[0];
    assert [e][0] == e && [e][1..] == [];
    assert Admitted(c, Step(c, t, e).0, [e][1..], k) == [];
  }

  lemma Prepend(window: int, limit: int, last: Option<Admission>, one: seq<Admission>, rest: seq<Admission>)
    requires |one| <= 1
    requires Chain(window, limit, Optional(if one == [] then last else Some(one[0])) + rest)
    requires last.Some? ==> AdmissionOk(limit, last.value)
    requires last.Some? && one != [] ==> Follows(window, last.value, one[0])
    ensures Chain(window, limit, Optional(last) + (one + rest))
  {
    hide Chain, Follows, AdmissionOk;
    if one == [] {
      assert one + rest == rest;
    } else {
      assert one == [one[0]];
      assert Optional(Some(one[0])) + rest == one + rest;
      if last.Some? {
        ConsChain(window, limit, last.value, one + rest);
      } else {
        assert Optional(last) + (one + rest) == one + rest;
      }
    }
  }

  lemma LastIsOk(c: Config, t: Table, k: Key, last: Option<Admission>, clock: int)
    requires Valid(c) && Tracks(c, t, k, last, clock) && 0 <= k.class_ < |c.limits|
    ensures last.Some? ==>
              var limit := c.limits[k.class_]; Chain(c.window, limit, Optional(last)) && AdmissionOk(limit, last.value)
  {
  }

  lemma {:induction false} RunIsChain(c: Config, t: Table, k: Key, es: seq<Event>, last: Option<Admission>, clock: int)
    requires Valid(c) && Tracks(c, t, k, last, clock) && ClockRuns(es, clock) && 0 <= k.class_ < |c.limits|
    ensures Chain(c.window, c.limits[k.class_], Optional(last) + Admitted(c, t, es, k))
    decreases es
  {
    LastIsOk(c, t, k, last, clock);
    if es == [] {
      assert Optional(last) + Admitted(c, t, es, k) == Optional(last);
      return;
    }
    hide Step, Tracks, Follows, AdmissionOk, MakeKey, Admitted;
    var e := es[0];
    var t' := Step(c, t, e).0;
    StepTracks(c, t, k, e, last, clock);
    RunIsChain(c, t', k, es[1..], Latest(c, t, e, k, last), e.now);
    AdmittedFirst(c, t, es, k);
    Prepend(c.window, c.limits[k.class_], last, Admitted(c, t, [e], k), Admitted(c, t', es[1..], k));
  }

  // What a chain allows.

  lemma {:induction false} Ordered(window: int, limit: int, h: seq<Admission>, i: nat, j: nat)
    requires Chain(window, limit, h) && i <= j < |h|
    ensures h[i].time <= h[j].time
    decreases j - i
  {
    if i < j {
      assert Follows(window, h[i], h[i + 1]);
      Ordered(window, limit, h, i + 1, j);
    }
  }

  /** The first admission of the window after that of i comes before i's counter could pass its limit. */
  lemma {:induction false} NextWindow(window: int, limit: int, h: seq<Admission>, i: nat) returns (r: nat)
    requires Chain(window, limit, h) && i < |h| && i + (limit - h[i].n) + 1 < |h|
    ensures i < r <= i + (limit - h[i].n) + 1
    ensures h[r].n == 1 && h[r].start == h[r].time && h[r].start >= h[i].start + window
    decreases limit - h[i].n
  {
    assert AdmissionOk(limit, h[i]);
    assert AdmissionOk(limit, h[i + 1]) && Follows(window, h[i], h[i + 1]);
    if h[i + 1].n == 1 && h[i + 1].start >= h[i].start + window {
      r := i + 1;
    } else {
      r := NextWindow(window, limit, h, i + 1);
    }
  }

  /** 2 * limit consecutive admissions of a key take at least a window. */
  lemma SpanBound(window: int, limit: int, h: seq<Admission>, j: nat)
    requires window > 0 && limit >= 1 && Chain(window, limit, h) && 2 * limit - 1 <= j < |h|
    ensures h[j].time >= h[0].time + window
  {
    assert AdmissionOk(limit, h[0]);
    var r := NextWindow(window, limit, h, 0);
    if h[0].n > 1 {
      var r2 := NextWindow(window, limit, h, r);
      Ordered(window, limit, h, 0, r);
      Ordered(window, limit, h, r2, j);
    } else {
      Ordered(window, limit, h, r, j);
    }
  }

  function CountIn(h: seq<Admission>, lo: int, hi: int): nat {
    if h == [] then 0 else (if lo <= h[0].time < hi then 1 else 0) + CountIn(h[1..], lo, hi)
  }

  lemma {:induction false} CountUpTo(h: seq<Admission>, lo: int, hi: int, m: nat)
    requires forall j :: m <= j < |h| ==> h[j].time >= hi
    ensures CountIn(h, lo, hi) <= m
  {
    if h != [] {
      forall j | (if m == 0 then 0 else m - 1) <= j < |h[1..]| ensures h[1..][j].time >= hi {
        assert h[1..][j] == h[j + 1];
      }
      CountUpTo(h[1..], lo, hi, if m == 0 then 0 else m - 1);
    }
  }

  lemma {:induction false} ChainCount(window: int, limit: int, h: seq<Admission>, lo: int)
    requires window > 0 && limit >= 1 && Chain(window, limit, h)
    ensures CountIn(h, lo, lo + window) <= 2 * limit - 1
  {
    if h == [] { return; }
    if h[0].time < lo {
      forall i | 0 <= i < |h[1..]| - 1 ensures Follows(window, h[1..][i], h[1..][i + 1]) {
        assert Follows(window, h[i + 1], h[i + 1 + 1]);
      }
      ChainCount(window, limit, h[1..], lo);
    } else {
      forall j | 2 * limit - 1 <= j < |h| ensures h[j].time >= lo + window { SpanBound(window, limit, h, j); }
      CountUpTo(h, lo, lo + window, 2 * limit - 1);
    }
  }

  /**
   Over any run from an empty table whose clock does not run backwards, a key gets at most
   2 * limit - 1 requests through in any half-open stretch of one window's length.
   */
  lemma AdmissionBound(c: Config, nextSweep: int, k: Key, es: seq<Event>, clock: int, lo: int)
    requires Valid(c) && ClockRuns(es, clock) && 0 <= k.class_ < |c.limits|
    ensures CountIn(Admitted(c, Table(map[], nextSweep), es, k), lo, lo + c.window) <= 2 * c.limits[k.class_] - 1
  {
    var t := Table(map[], nextSweep);
    RunIsChain(c, t, k, es, None, clock);
    assert Optional(None) + Admitted(c, t, es, k) == Admitted(c, t, es, k);
    ChainCount(c.window, c.limits[k.class_], Admitted(c, t, es, k), lo);
  }

  // The bound is reached.

  function Burst(a: Addr, cl: int, now: int, m: nat): seq<Event> {
    if m == 0 then [] else [Request(a, cl, now)] + Burst(a, cl, now, m - 1)
  }

  lemma {:induction false} AfterSplits(c: Config, t: Table, es: seq<Event>, fs: seq<Event>)
    requires Valid(c)
    ensures After(c, t, es + fs) == After(c, After(c, t, es), fs)
    decreases es
  {
    hide Step, Valid;
    if es == [] {
      assert es + fs == fs;
    } else {
      assert (es + fs)[1..] == es[1..] + fs;
      AfterSplits(c, Step(c, t, es[0]).0, es[1..], fs);
    }
  }

  lemma {:induction false} AdmittedSplits(c: Config, t: Table, es: seq<Event>, fs: seq<Event>, k: Key)
    requires Valid(c)
    ensures Admitted(c, t, es + fs, k) == Admitted(c, t, es, k) + Admitted(c, After(c, t, es), fs, k)
    decreases es
  {
    hide Step, Valid;
    if es == [] {
      assert es + fs == fs;
    } else {
      AdmittedFirst(c, t, es, k);
      AdmittedFirst(c, t, es + fs, k);
      hide Admitted;
      assert (es + fs)[1..] == es[1..] + fs;
      AdmittedSplits(c, Step(c, t, es[0]).0, es[1..], fs, k);
    }
  }

  /** count requests let through between lo and hi, leaving a counter at end. */
  datatype Passage = Passage(count: nat, lo: int, hi: int, end: Counter)

  /** A run that lets p through for k, and leaves nothing but k's counter in the table. */
  ghost predicate LetsThrough(c: Config, t: Table, es: seq<Event>, k: Key, p: Passage)
    requires Valid(c)
  {
    && After(c, t, es).keys == map[k := p.end]
    && |Admitted(c, t, es, k)| == p.count
    && forall a :: a in Admitted(c, t, es, k) ==> p.lo <= a.time <= p.hi
  }

  function Join(p: Passage, q: Passage): Passage {
    Passage(p.count + q.count, p.lo, q.hi, q.end)
  }

  lemma ThroughInTurn(c: Config, t: Table, es: seq<Event>, fs: seq<Event>, k: Key, p: Passage, q: Passage)
    requires Valid(c) && p.lo <= q.lo && p.hi <= q.hi && LetsThrough(c, t, es, k, p)
    requires LetsThrough(c, After(c, t, es), fs, k, q)
    ensures LetsThrough(c, t, es + fs, k, Join(p, q))
  {
    AfterSplits(c, t, es, fs);
    AdmittedSplits(c, t, es, fs, k);
    hide After, Admitted, Valid;
  }

  /** Where one request finds its key's counter, current or not, it leaves this. */
  function Onward(c: Config, k: Key, keys: map<Key, Counter>, now: int): Counter {
    if k in keys && Live(keys[k].start, now, c.window) then Counter(keys[k].start, keys[k].n + 1) else Counter(now, 1)
  }

  lemma OneThrough(c: Config, t: Table, a: Addr, cl: int, now: int)
    requires Valid(c) && a != NoAddr && 0 <= cl < NUM_CLASSES && t.keys.Keys <= {MakeKey(a, cl)}
    requires Onward(c, MakeKey(a, cl), t.keys, now).n <= c.limits[cl]
    ensures var k := MakeKey(a, cl);
      LetsThrough(c, t, [Request(a, cl, now)], k, Passage(1, now, now, Onward(c, k, t.keys, now)))
  {
    var k, es := MakeKey(a, cl), [Request(a, cl, now)];
    assert es[1..] == [];
    hide MakeKey, Live;
    SubsetSize(t.keys.Keys, {k});
    var t1 := Step(c, t, es[0]).0;
    assert t1.keys.Keys == {k};
    assert After(c, t1, es[1..]) == t1 && Admitted(c, t1, es[1..], k) == [];
  }

  /** Within a current window requests get through until the counter is at its limit. */
  lemma {:induction false} BurstGetsThrough(c: Config, t: Table, a: Addr, cl: int, now: int, m: nat, v: Counter)
    requires Valid(c) && a != NoAddr && 0 <= cl < NUM_CLASSES && t.keys == map[MakeKey(a, cl) := v]
    requires Live(v.start, now, c.window) && v.n + m <= c.limits[cl]
    ensures LetsThrough(c, t, Burst(a, cl, now, m), MakeKey(a, cl), Passage(m, now, now, Counter(v.start, v.n + m)))
    decreases m
  {
    if m > 0 {
      OneThrough(c, t, a, cl, now);
      hide Live, MakeKey, LetsThrough, Step;
      var k, one, v1 := MakeKey(a, cl), [Request(a, cl, now)], Counter(v.start, v.n + 1);
      ThroughLeaves(c, t, one, k, Passage(1, now, now, v1));
      BurstGetsThrough(c, After(c, t, one), a, cl, now, m - 1, v1);
      ThroughInTurn(c, t, one, Burst(a, cl, now, m - 1), k,
                    Passage(1, now, now, v1), Passage(m - 1, now, now, Counter(v.start, v.n + m)));
    }
  }

  lemma ThroughLeaves(c: Config, t: Table, es: seq<Event>, k: Key, p: Passage)
    requires Valid(c) && LetsThrough(c, t, es, k, p)
    ensures After(c, t, es).keys == map[k := p.end]
  {
  }

  lemma {:induction false} CountAll(h: seq<Admission>, lo: int, hi: int)
    requires forall i :: 0 <= i < |h| ==> lo <= h[i].time < hi
    ensures CountIn(h, lo, hi) == |h|
  {
    if h != [] { CountAll(h[1..], lo, hi); }
  }

  /** limit - 1 requests just before the window of one at time 0 elapses, and limit just after. */
  function Flank(c: Config, a: Addr, cl: int): seq<Event>
    requires Valid(c) && 0 <= cl < NUM_CLASSES
  {
    Burst(a, cl, c.window - 1, c.limits[cl] - 1) + Burst(a, cl, c.window, c.limits[cl])
  }

  function Straddle(c: Config, a: Addr, cl: int): seq<Event>
    requires Valid(c) && 0 <= cl < NUM_CLASSES
  {
    [Request(a, cl, 0)] + Flank(c, a, cl)
  }

  lemma {:induction false} BurstClock(a: Addr, cl: int, now: int, m: nat, es: seq<Event>, clock: int)
    requires clock <= now && ClockRuns(es, now)
    ensures ClockRuns(Burst(a, cl, now, m) + es, clock)
  {
    if m == 0 {
      assert Burst(a, cl, now, m) + es == es;
    } else {
      assert (Burst(a, cl, now, m) + es)[1..] == Burst(a, cl, now, m - 1) + es;
      BurstClock(a, cl, now, m - 1, es, now);
    }
  }

  lemma StraddleClock(c: Config, a: Addr, cl: int)
    requires Valid(c) && 0 <= cl < NUM_CLASSES
    ensures ClockRuns(Straddle(c, a, cl), 0)
  {
    var w, limit := c.window, c.limits[cl];
    var third := Burst(a, cl, w, limit);
    BurstClock(a, cl, w, limit, [], w - 1);
    assert third + [] == third;
    BurstClock(a, cl, w - 1, limit - 1, third, 0);
    assert Straddle(c, a, cl)[1..] == Flank(c, a, cl);
  }

  /** A burst into an elapsed window: the first request opens a new one, and the rest follow into it. */
  lemma BurstOpens(c: Config, t: Table, a: Addr, cl: int, now: int, m: nat)
    requires Valid(c) && a != NoAddr && 0 <= cl < NUM_CLASSES && 1 <= m <= c.limits[cl]
    requires t.keys.Keys <= {MakeKey(a, cl)}
    requires MakeKey(a, cl) in t.keys ==> !Live(t.keys[MakeKey(a, cl)].start, now, c.window)
    ensures LetsThrough(c, t, Burst(a, cl, now, m), MakeKey(a, cl), Passage(m, now, now, Counter(now, m)))
  {
    hide MakeKey, Step, LetsThrough, After;
    var k, one, v1 := MakeKey(a, cl), [Request(a, cl, now)], Counter(now, 1);
    assert Burst(a, cl, now, m) == one + Burst(a, cl, now, m - 1);
    LiveExactly(now, now, c.window);
    hide Live;
    OneThrough(c, t, a, cl, now);
    hide Onward, Burst, Valid;
    ThroughLeaves(c, t, one, k, Passage(1, now, now, v1));
    BurstGetsThrough(c, After(c, t, one), a, cl, now, m - 1, v1);
    ThroughInTurn(c, t, one, Burst(a, cl, now, m - 1), k,
                  Passage(1, now, now, v1), Passage(m - 1, now, now, Counter(now, m)));
  }

  lemma FillAndRollOver(c: Config, t: Table, a: Addr, cl: int)
    requires Valid(c) && c.window >= 2 && a != NoAddr && 0 <= cl < NUM_CLASSES
    requires t.keys == map[MakeKey(a, cl) := Counter(0, 1)]
    ensures var w, limit := c.window, c.limits[cl];
      LetsThrough(c, t, Flank(c, a, cl), MakeKey(a, cl), Passage(2 * limit - 1, w - 1, w, Counter(w, limit)))
  {
    var k, limit, w := MakeKey(a, cl), c.limits[cl], c.window;
    var second, third := Burst(a, cl, w - 1, limit - 1), Burst(a, cl, w, limit);
    var p, q := Passage(limit - 1, w - 1, w - 1, Counter(0, limit)), Passage(limit, w, w, Counter(w, limit));
    hide MakeKey, Step, LetsThrough, Burst, After;
    LiveExactly(0, w - 1, w);
    LiveExactly(0, w, w);
    hide Live, Valid, Admitted, Onward;
    assert Flank(c, a, cl) == second + third;
    hide Flank;
    BurstGetsThrough(c, t, a, cl, w - 1, limit - 1, Counter(0, 1));
    ThroughLeaves(c, t, second, k, p);
    BurstOpens(c, After(c, t, second), a, cl, w, limit);
    ThroughInTurn(c, t, second, third, k, p, q);
  }

  lemma StraddleThrough(c: Config, t: Table, a: Addr, cl: int)
    requires Valid(c) && c.window >= 2 && a != NoAddr && 0 <= cl < NUM_CLASSES && t.keys == map[]
    ensures LetsThrough(c, t, [Request(a, cl, 0)], MakeKey(a, cl), Passage(1, 0, 0, Counter(0, 1)))
    ensures var w, limit := c.window, c.limits[cl];
      LetsThrough(c, After(c, t, [Request(a, cl, 0)]), Flank(c, a, cl), MakeKey(a, cl),
                  Passage(2 * limit - 1, w - 1, w, Counter(w, limit)))
  {
    OneThrough(c, t, a, cl, 0);
    hide LetsThrough, MakeKey, Burst, After, Flank;
    ThroughLeaves(c, t, [Request(a, cl, 0)], MakeKey(a, cl), Passage(1, 0, 0, Counter(0, 1)));
    FillAndRollOver(c, After(c, t, [Request(a, cl, 0)]), a, cl);
  }

  lemma ThroughCounts(c: Config, t: Table, es: seq<Event>, fs: seq<Event>, k: Key, p: Passage, q: Passage)
    requires Valid(c) && p.count == 1 && p.hi < q.lo <= q.hi
    requires LetsThrough(c, t, es, k, p) && LetsThrough(c, After(c, t, es), fs, k, q)
    ensures forall end :: end > q.hi ==> CountIn(Admitted(c, t, es + fs, k), q.lo, end) == q.count
  {
    AdmittedSplits(c, t, es, fs, k);
    var g, h := Admitted(c, t, es, k), Admitted(c, After(c, t, es), fs, k);
    assert g[0] in g;
    hide Admitted, After, CountIn, Valid;
    forall end | end > q.hi ensures CountIn(g + h, q.lo, end) == q.count { OutsideThenInside(g, h, q.lo, end); }
  }

  /** The bound is the best there is: for every configuration with a window over a nanosecond, a run reaches it. */
  lemma BoundIsReached(c: Config, a: Addr, cl: int)
    requires Valid(c) && c.window >= 2 && a != NoAddr && 0 <= cl < NUM_CLASSES
    ensures ClockRuns(Straddle(c, a, cl), 0)
    ensures CountIn(Admitted(c, Table(map[], 0), Straddle(c, a, cl), MakeKey(a, cl)), c.window - 1, 2 * c.window - 1)
            == 2 * c.limits[cl] - 1
  {
    var k, limit, w, t := MakeKey(a, cl), c.limits[cl], c.window, Table(map[], 0);
    StraddleClock(c, a, cl);
    StraddleThrough(c, t, a, cl);
    assert Straddle(c, a, cl) == [Request(a, cl, 0)] + Flank(c, a, cl);
    hide *;
    ThroughCounts(c, t, [Request(a, cl, 0)], Flank(c, a, cl), k,
                  Passage(1, 0, 0, Counter(0, 1)), Passage(2 * limit - 1, w - 1, w, Counter(w, limit)));
  }

  lemma OutsideThenInside(g: seq<Admission>, h: seq<Admission>, lo: int, hi: int)
    requires |g| == 1 && g[0].time < lo && forall a :: a in h ==> lo <= a.time < hi
    ensures CountIn(g + h, lo, hi) == |h|
  {
    assert (g + h)[1..] == h;
    CountAll(h, lo, hi);
  }
}
