/**
 The signal store refines a plain map from keys to blobs with an expiry, beside a
 map of open reads. The plain machine has no channel structs, no garbage
 collection, no sweeps, no stored waiter count and no active or delivered flags.
 When the clock does not run backwards, both answer every event alike.
 */
module SignalPlain {
  import opened Base
  import opened SignalModel
  import opened SignalInvariant
  import opened SignalContents
  import opened SignalRuns

  datatype Status = Polling | Handed(blob: Bytes) | TurnedAway | Gone

  datatype Reader = Reader(key: Key, status: Status)

  datatype Plain<W(==)> = Plain(cfg: Config, blobs: map<Key, Content>, readers: map<W, Reader>, closed: bool)

  function LiveAt(c: Option<Content>, now: int): Option<Content> {
    if c.Some? && now < c.value.expiresAt then c else None
  }

  function BlobAt<W>(p: Plain<W>, k: Key): Option<Content> {
    if k in p.blobs then Some(p.blobs[k]) else None
  }

  function PollingOn<W>(p: Plain<W>, k: Key): set<W> {
    set w | w in p.readers && p.readers[w] == Reader(k, Polling)
  }

  function PollingAll<W>(p: Plain<W>): set<W> {
    set w | w in p.readers && p.readers[w].status == Polling
  }

  function PlainPost<W>(p: Plain<W>, id: Option<Key>, blob: Bytes, now: int, pick: Option<W>): (Plain<W>, Reason) {
    if id.None? then (p, BadChannel)
    else if |blob| > p.cfg.maxBlob then (p, TooLarge)
    else if p.closed then (p, RateLimited)
    else if LiveAt(BlobAt(p, id.value), now).Some? then (p, Conflict)
    else if pick.Some? then
      (p.(blobs := p.blobs - {id.value}, readers := p.readers[pick.value := Reader(id.value, Handed(blob))]), Stored)
    else (p.(blobs := p.blobs[id.value := Content(blob, now + p.cfg.ttl)]), Stored)
  }

  predicate Full<W>(p: Plain<W>, k: Key) {
    |PollingAll(p)| >= p.cfg.maxWaiters || |PollingOn(p, k)| >= p.cfg.maxPerChan
  }

  predicate PlainMustWait<W>(p: Plain<W>, id: Option<Key>, now: int) {
    id.Some? && !p.closed && LiveAt(BlobAt(p, id.value), now).None? && !Full(p, id.value)
  }

  function PlainEnter<W>(p: Plain<W>, id: Option<Key>, now: int, reader: Option<W>): (Plain<W>, Outcome)
    requires PlainMustWait(p, id, now) ==> reader.Some?
  {
    if id.None? then (p, Answer(BadChannel, None))
    else if p.closed then (p, Answer(RateLimited, None))
    else
      var live := LiveAt(BlobAt(p, id.value), now);
      if live.Some? then (p.(blobs := p.blobs - {id.value}), Answer(Delivered, Some(live.value.blob)))
      else if Full(p, id.value) then (p, Answer(RateLimited, None))
      else (p.(readers := p.readers[reader.value := Reader(id.value, Polling)]), Silent)
  }

  function PlainTake<W>(p: Plain<W>, w: W): (Plain<W>, Outcome) {
    if w in p.readers && p.readers[w].status.Handed? then
      (p.(readers := p.readers[w := Reader(p.readers[w].key, Gone)]),
       Answer(Delivered, Some(p.readers[w].status.blob)))
    else (p, Silent)
  }

  function PlainFinish<W>(p: Plain<W>, w: W): (Plain<W>, Outcome) {
    if w !in p.readers || p.readers[w].status.Handed? then (p, Silent)
    else (p.(readers := p.readers[w := Reader(p.readers[w].key, Gone)]),
          Answer(if p.closed then RateLimited else Empty, None))
  }

  function PlainShutdown<W>(p: Plain<W>): Plain<W> {
    p.(closed := true, blobs := map[],
       readers := map w | w in p.readers ::
         if p.readers[w].status == Polling then Reader(p.readers[w].key, TurnedAway) else p.readers[w])
  }

  /** The choices the store made are ones the plain machine has: some polling reader if there is one. */
  ghost predicate PlainEnabled<C, W>(p: Plain<W>, e: Event<C, W>) {
    match e
    case Post(id, blob, now, _, pick) =>
      PlainPost(p, id, blob, now, None).1 == Stored ==>
        if PollingOn(p, id.value) == {} then pick.None? else pick.Some? && pick.value in PollingOn(p, id.value)
    case Enter(id, now, _, reader) => reader.Some? <==> PlainMustWait(p, id, now)
    case _ => true
  }

  function PlainStep<C, W>(p: Plain<W>, e: Event<C, W>): (Plain<W>, Outcome)
    requires PlainEnabled(p, e)
  {
    match e
    case Post(id, blob, now, _, pick) => var r := PlainPost(p, id, blob, now, pick); (r.0, Answer(r.1, None))
    case Enter(id, now, _, reader) => PlainEnter(p, id, now, reader)
    case Receive(w) => PlainTake(p, w)
    case Lose(w) => (p, Silent)
    case Finish(w) => PlainFinish(p, w)
    case Drain(w) => PlainTake(p, w)
    case Shutdown => (PlainShutdown(p), Silent)
  }

  // The correspondence

  function StatusOf<C>(q: Poll<C>): Status {
    if q.active then Polling
    else if q.buf.Some? then Handed(q.buf.value)
    else if q.phase == Returned then Gone
    else TurnedAway
  }

  function Readers<C, W>(s: State<C, W>): map<W, Reader> {
    map w | w in s.polls :: Reader(s.polls[w].key, StatusOf(s.polls[w]))
  }

  ghost predicate Matches<C, W>(s: State<C, W>, p: Plain<W>, clock: int) {
    && p.cfg == s.cfg && p.closed == s.closed && p.readers == Readers(s)
    && forall k :: LiveAt(SlotOf(s, k), clock) == LiveAt(BlobAt(p, k), clock)
  }

  function TimeOf<C, W>(e: Event<C, W>, clock: int): int {
    if e.Post? || e.Enter? then e.now else clock
  }

  lemma ListeningIsPolling<C, W>(s: State<C, W>, p: Plain<W>, k: Key)
    requires Inv(s) && p.readers == Readers(s)
    ensures Listening(s, k) == PollingOn(p, k)
    ensures PollingAll(p) == Active(s)
  {
    forall w | w in PollingOn(p, k) ensures w in Listening(s, k) {
      assert s.polls[w].active && s.polls[w].key == k;
    }
    forall w | w in Listening(s, k) ensures w in PollingOn(p, k) {
      assert s.polls[w].active && s.channels[s.polls[w].key] == s.channels[k];
    }
  }

  lemma SweptLive<C, W>(s: State<C, W>, now: int)
    requires Inv(s)
    ensures forall k :: k in SweptKeys(s, now) ==> LiveAt(SlotOf(s, k), now).None?
  {
  }

  lemma AcceptedMatches<C, W>(s: State<C, W>, p: Plain<W>, clock: int, e: Event<C, W>)
    requires Inv(s) && Matches(s, p, clock) && e.Post? && Enabled(s, e) && clock <= e.now
    requires PostView(s, e.id, e.blob, e.now).Some?
    ensures PlainEnabled(p, e) && PlainStep(p, e).1 == Step(s, e).1
    ensures Matches(Step(s, e).0, PlainStep(p, e).0, e.now)
  {
    hide Inv, SlotOf, PostStep, PostEnabled, PostView, SweptKeys, PollingOn, PollingAll, Listening;
    PostPolls(s, e.id, e.blob, e.now, e.alloc, e.pick);
    SweptLive(s, e.now);
    ListeningIsPolling(s, p, e.id.value);
    AcceptedContents(s, e.id, e.blob, e.now, e.alloc, e.pick);
    assert LiveAt(SlotOf(s, e.id.value), e.now) == LiveAt(BlobAt(p, e.id.value), e.now);
    PostFrame(s, e.id, e.blob, e.now, e.alloc, e.pick);
    assert PlainStep(p, e).0.readers == Readers(Step(s, e).0);
  }

  lemma RefusedMatches<C, W>(s: State<C, W>, p: Plain<W>, clock: int, e: Event<C, W>)
    requires Inv(s) && Matches(s, p, clock) && e.Post? && Enabled(s, e) && clock <= e.now
    requires PostView(s, e.id, e.blob, e.now).None?
    ensures PlainEnabled(p, e) && PlainStep(p, e).1 == Step(s, e).1
    ensures Matches(Step(s, e).0, PlainStep(p, e).0, e.now)
  {
    hide Inv, SlotOf, SweptKeys, PollingOn, PollingAll, Kept;
    SweptLive(s, e.now);
    RefusedContents(s, e.id, e.blob, e.now, e.alloc, e.pick);
    if e.id.Some? {
      assert LiveAt(SlotOf(s, e.id.value), e.now) == LiveAt(BlobAt(p, e.id.value), e.now);
    }
  }

  lemma EnterReaders<C, W>(s: State<C, W>, id: Option<Key>, now: int, alloc: Option<C>, reader: Option<W>)
    requires Linked(s) && EnterEnabled(s, id, now, alloc, reader)
    ensures var s' := EnterStep(s, id, now, alloc, reader).0;
      && s'.cfg == s.cfg && s'.closed == s.closed
      && Readers(s') == if reader.Some? then Readers(s)[reader.value := Reader(id.value, Polling)] else Readers(s)
  {
    if MustWait(s, id, now) {
      var key := id.value;
      var s1 := if key in s.channels then ClearBlob(s, s.channels[key]) else s;
      var s2 := if key in s1.channels then s1 else Create(s1, key, alloc.value);
      assert s2.polls == s.polls;
      assert EnterStep(s, id, now, alloc, reader).0 == Register(s2, key, s2.channels[key], reader.value);
    } else {
      assert EnterStep(s, id, now, alloc, reader).0.polls == s.polls;
    }
  }

  /** The stored count and the set sizes refuse a reader exactly when counting the open reads does. */
  lemma MustWaitAgrees<C, W>(s: State<C, W>, p: Plain<W>, clock: int, id: Option<Key>, now: int)
    requires Inv(s) && Matches(s, p, clock) && clock <= now
    ensures MustWait(s, id, now) <==> PlainMustWait(p, id, now)
  {
    hide Links, Buffers, PollingOn, PollingAll;
    if id.Some? {
      ListeningIsPolling(s, p, id.value);
      assert LiveAt(SlotOf(s, id.value), now) == LiveAt(BlobAt(p, id.value), now);
    }
  }

  lemma EnterMatches<C, W>(s: State<C, W>, p: Plain<W>, clock: int, e: Event<C, W>)
    requires Inv(s) && Matches(s, p, clock) && e.Enter? && Enabled(s, e) && clock <= e.now
    ensures PlainEnabled(p, e) && PlainStep(p, e).1 == Step(s, e).1
    ensures Matches(Step(s, e).0, PlainStep(p, e).0, e.now)
  {
    hide Inv, SlotOf, Full, EnterStep, MustWait, PlainMustWait, Readers, Immediate, Linked;
    EnterReaders(s, e.id, e.now, e.alloc, e.reader);
    EnterContents(s, e.id, e.now, e.alloc, e.reader);
    MustWaitAgrees(s, p, clock, e.id, e.now);
    EnterAgrees(s, p, clock, e.id, e.now, e.alloc, e.reader);
  }

  lemma EnterAgrees<C, W>(s: State<C, W>, p: Plain<W>, clock: int, id: Option<Key>, now: int,
                          alloc: Option<C>, reader: Option<W>)
    requires Inv(s) && Matches(s, p, clock) && EnterEnabled(s, id, now, alloc, reader) && clock <= now
    requires MustWait(s, id, now) <==> PlainMustWait(p, id, now)
    ensures var p', out := PlainEnter(p, id, now, reader).0, PlainEnter(p, id, now, reader).1;
      && out == EnterStep(s, id, now, alloc, reader).1
      && p'.cfg == p.cfg && p'.closed == p.closed
      && p'.readers == (if reader.Some? then p.readers[reader.value := Reader(id.value, Polling)] else p.readers)
      && forall k :: LiveAt(BlobAt(p', k), now) ==
           if id.Some? && !p.closed && k == id.value then None else LiveAt(BlobAt(p, k), now)
  {
    hide Inv, SlotOf, EnterStep, Readers, Full, Refuses, Held;
    EnterAnswers(s, id, now, alloc, reader);
    if id.Some? {
      assert LiveAt(SlotOf(s, id.value), now) == LiveAt(BlobAt(p, id.value), now);
    }
  }

  lemma EnterAnswers<C, W>(s: State<C, W>, id: Option<Key>, now: int, alloc: Option<C>, reader: Option<W>)
    requires Inv(s) && EnterEnabled(s, id, now, alloc, reader)
    ensures EnterStep(s, id, now, alloc, reader).1 ==
              if id.None? then Answer(BadChannel, None)
              else if s.closed then Answer(RateLimited, None)
              else if LiveAt(SlotOf(s, id.value), now).Some?
              then Answer(Delivered, Some(SlotOf(s, id.value).value.blob))
              else if MustWait(s, id, now) then Silent
              else Answer(RateLimited, None)
  {
  }

  lemma TakeMatches<C, W>(s: State<C, W>, p: Plain<W>, clock: int, w: W)
    requires Inv(s) && Matches(s, p, clock) && w in s.polls && s.polls[w].buf.Some?
    ensures PlainTake(p, w).1 == Take(s, w).1
    ensures Matches(Take(s, w).0, PlainTake(p, w).0, clock)
  {
    hide Links, Counts;
    assert PlainTake(p, w).0.readers == Readers(Take(s, w).0);
    assert forall k :: SlotOf(Take(s, w).0, k) == SlotOf(s, k);
  }

  lemma FinishMatches<C, W>(s: State<C, W>, p: Plain<W>, clock: int, w: W)
    requires Inv(s) && Matches(s, p, clock) && w in s.polls && s.polls[w].phase == Lost
    ensures PlainFinish(p, w).1 == FinishStep(s, w).1
    ensures Matches(FinishStep(s, w).0, PlainFinish(p, w).0, clock)
  {
    FinishContents(s, w);
    hide Links, Counts, SlotOf, Gc;
    var s' := FinishStep(s, w).0;
    assert s'.closed == s.closed && s'.cfg == s.cfg by { FinishFrame(s, w); }
    assert PlainFinish(p, w).0.readers == Readers(s') by { FinishReaders(s, w); }
  }

  lemma LoseMatches<C, W>(s: State<C, W>, p: Plain<W>, clock: int, w: W)
    requires Inv(s) && Matches(s, p, clock) && w in s.polls && s.polls[w].phase == Selecting
    ensures Matches(SetPhase(s, w, Lost), p, clock)
  {
    hide Inv;
    assert Readers(SetPhase(s, w, Lost)) == Readers(s);
    assert forall k :: SlotOf(SetPhase(s, w, Lost), k) == SlotOf(s, k);
  }

  lemma FinishFrame<C, W>(s: State<C, W>, w: W)
    requires Linked(s) && w in s.polls
    ensures FinishStep(s, w).0.closed == s.closed && FinishStep(s, w).0.cfg == s.cfg
  {
  }

  lemma FinishReaders<C, W>(s: State<C, W>, w: W)
    requires Inv(s) && w in s.polls && s.polls[w].phase == Lost
    ensures Readers(FinishStep(s, w).0) ==
              if s.polls[w].delivered then Readers(s) else Readers(s)[w := Reader(s.polls[w].key, Gone)]
  {
    hide Links, Counts, Gc;
    if !s.polls[w].delivered {
      var left := if s.polls[w].active then s.polls[w := s.polls[w].(active := false)] else s.polls;
      assert Release(s, w).polls == left by {
        GcPolls(Deactivate(s, s.polls[w].ch, w), s.polls[w].key, s.polls[w].ch);
      }
    }
  }

  lemma GcPolls<C, W>(s: State<C, W>, key: Key, c: C)
    requires c in s.heap
    ensures Gc(s, key, c).polls == s.polls
  {
  }

  lemma NoneLeftActive<C, W>(s: State<C, W>)
    requires Inv(s)
    ensures forall w :: w in s.polls ==> !ShutdownStep(s).polls[w].active
  {
    hide Buffers;
    if !s.closed { ShutdownInactive(s); }
  }

  lemma ShutdownReaders<C, W>(s: State<C, W>, p: Plain<W>)
    requires Inv(s) && p.readers == Readers(s)
    ensures PlainShutdown(p).readers == Readers(ShutdownStep(s))
  {
    hide Inv, ShutdownStep;
    var s' := ShutdownStep(s);
    forall w | w in s.polls
      ensures w in s'.polls && PlainShutdown(p).readers[w] == Reader(s'.polls[w].key, StatusOf(s'.polls[w]))
    {
      ShutdownPoll(s, w);
      if s.polls[w].active { ActivePoll(s, w); }
    }
    ShutdownPollKeys(s);
  }

  lemma ShutdownPoll<C, W>(s: State<C, W>, w: W)
    requires Inv(s) && w in s.polls
    ensures w in ShutdownStep(s).polls && ShutdownStep(s).polls[w] == s.polls[w].(active := false)
  {
    NoneLeftActive(s);
    hide Inv;
    var q := ShutdownStep(s).polls[w];
    assert q == s.polls[w] || q == s.polls[w].(active := false);
  }

  lemma ShutdownPollKeys<C, W>(s: State<C, W>)
    ensures ShutdownStep(s).polls.Keys == s.polls.Keys
  {
  }

  lemma ActivePoll<C, W>(s: State<C, W>, w: W)
    requires Inv(s) && w in s.polls && s.polls[w].active
    ensures s.polls[w].buf.None? && s.polls[w].phase != Returned
  {
  }

  lemma ShutdownMatches<C, W>(s: State<C, W>, p: Plain<W>, clock: int)
    requires Inv(s) && Matches(s, p, clock)
    ensures Matches(ShutdownStep(s), PlainShutdown(p), clock)
  {
    ShutdownKeeps(s);
    ShutdownReaders(s, p);
    hide Inv, Readers;
  }

  /** One step: the plain machine can take it, gives the same answer, and matches again. */
  lemma StepMatches<C, W>(s: State<C, W>, p: Plain<W>, clock: int, e: Event<C, W>)
    requires Inv(s) && Matches(s, p, clock) && Enabled(s, e) && clock <= TimeOf(e, clock)
    ensures PlainEnabled(p, e) && PlainStep(p, e).1 == Step(s, e).1
    ensures Matches(Step(s, e).0, PlainStep(p, e).0, TimeOf(e, clock))
  {
    hide Inv, PostStep, EnterStep, FinishStep, ShutdownStep, Readers, SlotOf, PlainPost, PlainEnter, PlainFinish;
    match e
    case Post(id, blob, now, alloc, pick) =>
      if PostView(s, id, blob, now).Some? { AcceptedMatches(s, p, clock, e); } else { RefusedMatches(s, p, clock, e); }
    case Enter(id, now, alloc, reader) => EnterMatches(s, p, clock, e);
    case Receive(w) => TakeMatches(s, p, clock, w);
    case Lose(w) => LoseMatches(s, p, clock, w);
    case Finish(w) => FinishMatches(s, p, clock, w);
    case Drain(w) => NeverBlocks(s, e); TakeMatches(s, p, clock, w);
    case Shutdown => ShutdownMatches(s, p, clock);
  }

  // Whole runs

  /** No clock reading along es is before the one it follows. */
  ghost predicate ClockRuns<C, W>(es: seq<Event<C, W>>, clock: int) {
    es == [] || (clock <= TimeOf(es[0], clock) && ClockRuns(es[1..], TimeOf(es[0], clock)))
  }

  ghost predicate PlainCanRun<C, W>(p: Plain<W>, es: seq<Event<C, W>>)
    decreases |es|
  {
    es == [] || (PlainEnabled(p, es[0]) && PlainCanRun(PlainStep(p, es[0]).0, es[1..]))
  }

  function PlainOutcomes<C, W>(p: Plain<W>, es: seq<Event<C, W>>): seq<Outcome>
    requires PlainCanRun(p, es)
    decreases |es|
  {
    if es == [] then [] else [PlainStep(p, es[0]).1] + PlainOutcomes(PlainStep(p, es[0]).0, es[1..])
  }

  /** Every run of the store with a clock that never runs backwards gives the answers of the plain map. */
  lemma {:induction false} RunRefinesPlain<C, W>(s: State<C, W>, p: Plain<W>, clock: int, es: seq<Event<C, W>>)
    requires Inv(s) && Matches(s, p, clock) && CanRun(s, es) && ClockRuns(es, clock)
    ensures PlainCanRun(p, es)
    ensures Outcomes(s, es) == PlainOutcomes(p, es)
    decreases |es|
  {
    hide Inv, Matches, Step, Enabled, PlainStep, PlainEnabled;
    if es != [] {
      StepKeeps(s, es[0]);
      StepMatches(s, p, clock, es[0]);
      RunRefinesPlain(Step(s, es[0]).0, PlainStep(p, es[0]).0, TimeOf(es[0], clock), es[1..]);
    }
  }

  lemma InitMatches<C, W>(o: Options, clock: int)
    ensures Matches(Init<C, W>(Configure(o)), Plain(Configure(o), map[], map[], false), clock)
  {
    assert Readers(Init<C, W>(Configure(o))) == map[];
    assert forall k :: SlotOf(Init<C, W>(Configure(o)), k).None?;
  }

  /**
   First write wins: a Post to a key with a live blob is refused, and the blob and its
   expiry stay as they were.
   */
  lemma FirstWriteWins<C, W>(s: State<C, W>, id: Option<Key>, blob: Bytes, now: int, alloc: Option<C>, pick: Option<W>)
    requires Inv(s) && PostEnabled(s, id, blob, now, alloc, pick)
    requires id.Some? && |blob| <= s.cfg.maxBlob && !s.closed
    ensures LiveAt(SlotOf(s, id.value), now).Some? <==> PostStep(s, id, blob, now, alloc, pick).1 == Conflict
    ensures PostStep(s, id, blob, now, alloc, pick).1 == Conflict ==>
              SlotOf(PostStep(s, id, blob, now, alloc, pick).0, id.value) == SlotOf(s, id.value)
  {
    hide Inv, SlotOf, PostEnabled, SweptKeys, Kept;
    SweptLive(s, now);
    if PostView(s, id, blob, now).Some? {
      AcceptedContents(s, id, blob, now, alloc, pick);
    } else {
      RefusedContents(s, id, blob, now, alloc, pick);
    }
  }
}
