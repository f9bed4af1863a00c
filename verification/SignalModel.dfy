/**
 The signal channel store as a state machine over its critical sections.

 A state is the mutable part of the store together with the two kinds of heap
 object it points at: channel structs (C) and waiters (W). Pointers stay
 abstract, so the same machine describes a run over ids and a run over the real
 objects of module SignalStore. A Get is not atomic: it enters, then waits in a
 select with a captured channel pointer and a one-slot buffer, then either
 receives or loses the select and takes the mutex a second time.
 */
module SignalModel {
  import opened Base

  type Key = Bytes

  const SECOND: int := 1_000_000_000
  const MAX_TTL: int := 300 * SECOND
  const MAX_POLL_WINDOW: int := 30 * SECOND
  const MAX_BLOB_BYTES: int := 65536
  const DEFAULT_MAX_WAITERS: int := 10_000
  const DEFAULT_MAX_WAITERS_PER_CHANNEL: int := 8
  const MIN_SWEEP_CHANNELS: int := 1024

  datatype Reason = Stored | Delivered | Empty | RateLimited | BadChannel | TooLarge | Conflict

  datatype Options = Options(ttl: int, poll: int, maxBlob: int, maxWaiters: int, maxPerChan: int)

  datatype Config = Config(ttl: int, poll: int, maxBlob: int, maxWaiters: int, maxPerChan: int)

  /** A duration, or the ceiling where it is unset or over it. */
  function Clamp(d: int, max: int): int {
    if d <= 0 || d > max then max else d
  }

  /** Unset options take the defaults; the ceilings of the wire format cannot be raised. */
  function Configure(o: Options): (c: Config)
    ensures 0 < c.ttl <= MAX_TTL && 0 < c.poll <= MAX_POLL_WINDOW && 0 < c.maxBlob <= MAX_BLOB_BYTES
    ensures 0 < c.maxWaiters && 0 < c.maxPerChan
    ensures 0 < o.ttl ==> c.ttl == if o.ttl < MAX_TTL then o.ttl else MAX_TTL
    ensures 0 < o.poll ==> c.poll == if o.poll < MAX_POLL_WINDOW then o.poll else MAX_POLL_WINDOW
    ensures 0 < o.maxBlob ==> c.maxBlob == if o.maxBlob < MAX_BLOB_BYTES then o.maxBlob else MAX_BLOB_BYTES
    ensures (o.ttl <= 0 ==> c.ttl == 300_000_000_000) && (o.poll <= 0 ==> c.poll == 30_000_000_000)
    ensures o.maxBlob <= 0 ==> c.maxBlob == 65536
    ensures (o.maxWaiters <= 0 ==> c.maxWaiters == 10_000) && (o.maxPerChan <= 0 ==> c.maxPerChan == 8)
    ensures 0 < o.maxWaiters ==> c.maxWaiters == o.maxWaiters
    ensures 0 < o.maxPerChan ==> c.maxPerChan == o.maxPerChan
  {
    Config(
      Clamp(o.ttl, MAX_TTL),
      Clamp(o.poll, MAX_POLL_WINDOW),
      if o.maxBlob <= 0 || o.maxBlob > MAX_BLOB_BYTES then MAX_BLOB_BYTES else o.maxBlob,
      if o.maxWaiters <= 0 then DEFAULT_MAX_WAITERS else o.maxWaiters,
      if o.maxPerChan <= 0 then DEFAULT_MAX_WAITERS_PER_CHANNEL else o.maxPerChan)
  }

  /** One channel struct. */
  datatype Chan<W> = Chan(blob: Option<Bytes>, expiresAt: int, waiters: set<W>)

  /** Where a Get that registered a waiter stands. */
  datatype Phase =
    | Selecting  // blocked in the select
    | Lost       // another select arm fired; about to take the mutex again
    | Draining   // saw delivered under the mutex; about to receive from its buffer
    | Returned

  /** A waiter, with the locals of the Get that owns it: its key and captured channel. */
  datatype Poll<C> = Poll(key: Key, ch: C, buf: Option<Bytes>, delivered: bool, active: bool, phase: Phase)

  datatype State<C(==), W(==)> = State(
    cfg: Config,
    channels: map<Key, C>,
    heap: map<C, Chan<W>>,
    polls: map<W, Poll<C>>,
    waiting: int,
    sweepAt: int,
    closed: bool)

  datatype Event<C, W> =
    | Post(id: Option<Key>, blob: Bytes, now: int, alloc: Option<C>, pick: Option<W>)
    | Enter(id: Option<Key>, now: int, alloc: Option<C>, reader: Option<W>)
    | Receive(w: W)
    | Lose(w: W)
    | Finish(w: W)
    | Drain(w: W)
    | Shutdown

  /** What a step returns to a caller: nothing yet, or a reason with the bytes of a delivery. */
  datatype Outcome = Silent | Answer(reason: Reason, blob: Option<Bytes>)

  function Init<C(==), W(==)>(cfg: Config): State<C, W> {
    State(cfg, map[], map[], map[], 0, MIN_SWEEP_CHANNELS, false)
  }

  predicate Held<W>(ch: Chan<W>, now: int) {
    ch.blob.Some? && now < ch.expiresAt
  }

  /** Every pointer the state mentions leads somewhere. */
  ghost predicate Linked<C, W>(s: State<C, W>) {
    && (forall k :: k in s.channels ==> s.channels[k] in s.heap)
    && (forall c, w :: c in s.heap && w in s.heap[c].waiters ==> w in s.polls)
    && (forall w :: w in s.polls ==> s.polls[w].ch in s.heap)
  }

  // The helpers that run with the mutex held.

  function Gc<C, W>(s: State<C, W>, key: Key, c: C): State<C, W>
    requires c in s.heap
  {
    if s.heap[c].blob.None? && s.heap[c].waiters == {}
    then s.(channels := s.channels - {key})
    else s
  }

  predicate Kept<C, W>(s: State<C, W>, key: Key, now: int)
    requires key in s.channels && s.channels[key] in s.heap
  {
    s.heap[s.channels[key]].waiters != {} || Held(s.heap[s.channels[key]], now)
  }

  function Sweep<C, W>(s: State<C, W>, now: int): State<C, W>
    requires forall k :: k in s.channels ==> s.channels[k] in s.heap
  {
    var keep := map k | k in s.channels && Kept(s, k, now) :: s.channels[k];
    s.(channels := keep, sweepAt := if 2 * |keep| < MIN_SWEEP_CHANNELS then MIN_SWEEP_CHANNELS else 2 * |keep|)
  }

  predicate SweepDue<C, W>(s: State<C, W>) {
    |s.channels| >= s.sweepAt
  }

  function SweepIfDue<C, W>(s: State<C, W>, now: int): State<C, W>
    requires forall k :: k in s.channels ==> s.channels[k] in s.heap
  {
    if SweepDue(s) then Sweep(s, now) else s
  }

  /** A new, empty channel under key. */
  function Create<C, W>(s: State<C, W>, key: Key, c: C): State<C, W> {
    s.(channels := s.channels[key := c], heap := s.heap[c := Chan(None, 0, {})])
  }

  function ClearBlob<C, W>(s: State<C, W>, c: C): State<C, W>
    requires c in s.heap
  {
    s.(heap := s.heap[c := s.heap[c].(blob := None)])
  }

  function StoreBlob<C, W>(s: State<C, W>, c: C, blob: Bytes, expiresAt: int): State<C, W>
    requires c in s.heap
  {
    s.(heap := s.heap[c := s.heap[c].(blob := Some(blob), expiresAt := expiresAt)])
  }

  /** Takes w out of c's waiter set; the caller decides whether it was handed a blob. */
  function Deactivate<C, W>(s: State<C, W>, c: C, w: W): State<C, W>
    requires c in s.heap && w in s.polls
  {
    s.(heap := s.heap[c := s.heap[c].(waiters := s.heap[c].waiters - {w})],
       polls := s.polls[w := s.polls[w].(active := false)],
       waiting := s.waiting - 1)
  }

  function Send<C, W>(s: State<C, W>, w: W, blob: Bytes): State<C, W>
    requires w in s.polls
  {
    s.(polls := s.polls[w := s.polls[w].(delivered := true, buf := Some(blob))])
  }

  function Release<C, W>(s: State<C, W>, w: W): State<C, W>
    requires w in s.polls && s.polls[w].ch in s.heap
  {
    if !s.polls[w].active then s
    else Gc(Deactivate(s, s.polls[w].ch, w), s.polls[w].key, s.polls[w].ch)
  }

  predicate Refuses<C, W>(s: State<C, W>, key: Key)
    requires key in s.channels ==> s.channels[key] in s.heap
  {
    || s.waiting >= s.cfg.maxWaiters
    || (key in s.channels && |s.heap[s.channels[key]].waiters| >= s.cfg.maxPerChan)
  }

  function Register<C, W>(s: State<C, W>, key: Key, c: C, w: W): State<C, W>
    requires c in s.heap
  {
    s.(heap := s.heap[c := s.heap[c].(waiters := s.heap[c].waiters + {w})],
       polls := s.polls[w := Poll(key, c, None, false, true, Selecting)],
       waiting := s.waiting + 1)
  }

  // Post

  /** The state in which Post looks for a stored blob, or None when it answers before that. */
  function PostView<C, W>(s: State<C, W>, id: Option<Key>, blob: Bytes, now: int): (r: Option<State<C, W>>)
    requires Linked(s)
    ensures r.Some? ==> id.Some? && |blob| <= s.cfg.maxBlob && !s.closed
  {
    if id.None? || |blob| > s.cfg.maxBlob || s.closed then None
    else
      var s1 := SweepIfDue(s, now);
      if id.value in s1.channels && Held(s1.heap[s1.channels[id.value]], now) then None
      else Some(s1)
  }

  /** alloc is a new channel pointer exactly when Post creates one; pick is the waiter it hands to. */
  ghost predicate PostEnabled<C, W>(s: State<C, W>, id: Option<Key>, blob: Bytes, now: int,
                                    alloc: Option<C>, pick: Option<W>)
    requires Linked(s)
  {
    match PostView(s, id, blob, now)
    case None => alloc.None? && pick.None?
    case Some(s1) =>
      && (id.value !in s1.channels ==> alloc.Some? && alloc.value !in s.heap && pick.None?)
      && (id.value in s1.channels ==>
            && alloc.None?
            && var ws := s1.heap[s1.channels[id.value]].waiters;
               if ws == {} then pick.None? else pick.Some? && pick.value in ws)
  }

  function OpenChannel<C, W>(s: State<C, W>, key: Key, alloc: Option<C>): State<C, W>
    requires key in s.channels ==> s.channels[key] in s.heap
    requires key !in s.channels ==> alloc.Some?
  {
    if key in s.channels then ClearBlob(s, s.channels[key]) else Create(s, key, alloc.value)
  }

  /** Hands the blob to a waiting reader if there is one, and stores it otherwise. */
  function Deposit<C, W>(s: State<C, W>, key: Key, blob: Bytes, expiresAt: int,
                         alloc: Option<C>, pick: Option<W>): State<C, W>
    requires key in s.channels ==> s.channels[key] in s.heap
    requires key !in s.channels ==> alloc.Some?
    requires pick.Some? ==> pick.value in s.polls
  {
    var s1 := OpenChannel(s, key, alloc);
    var c := s1.channels[key];
    if pick.Some? then Gc(Send(Deactivate(s1, c, pick.value), pick.value, blob), key, c)
    else StoreBlob(s1, c, blob, expiresAt)
  }

  function PostStep<C, W>(s: State<C, W>, id: Option<Key>, blob: Bytes, now: int,
                          alloc: Option<C>, pick: Option<W>): (State<C, W>, Reason)
    requires Linked(s) && PostEnabled(s, id, blob, now, alloc, pick)
  {
    if id.None? then (s, BadChannel)
    else if |blob| > s.cfg.maxBlob then (s, TooLarge)
    else if s.closed then (s, RateLimited)
    else
      var s1 := SweepIfDue(s, now);
      var key := id.value;
      if key in s1.channels && Held(s1.heap[s1.channels[key]], now) then (s1, Conflict)
      else (Deposit(s1, key, blob, now + s.cfg.ttl, alloc, pick), Stored)
  }

  // Get, first critical section

  /** True when Get gets past the immediate answers and may register a waiter. */
  predicate MustWait<C, W>(s: State<C, W>, id: Option<Key>, now: int)
    requires forall k :: k in s.channels ==> s.channels[k] in s.heap
  {
    && id.Some? && !s.closed
    && !(id.value in s.channels && Held(s.heap[s.channels[id.value]], now))
    && !Refuses(s, id.value)
  }

  ghost predicate EnterEnabled<C, W>(s: State<C, W>, id: Option<Key>, now: int, alloc: Option<C>, w: Option<W>)
    requires Linked(s)
  {
    if MustWait(s, id, now) then
      && w.Some? && w.value !in s.polls
      && (if id.value in s.channels then alloc.None? else alloc.Some? && alloc.value !in s.heap)
    else alloc.None? && w.None?
  }

  function EnterStep<C, W>(s: State<C, W>, id: Option<Key>, now: int, alloc: Option<C>, w: Option<W>)
    : (State<C, W>, Outcome)
    requires Linked(s) && EnterEnabled(s, id, now, alloc, w)
  {
    if id.None? then (s, Answer(BadChannel, None))
    else if s.closed then (s, Answer(RateLimited, None))
    else
      var key := id.value;
      if key in s.channels && Held(s.heap[s.channels[key]], now) then
        var c := s.channels[key];
        (Gc(ClearBlob(s, c), key, c), Answer(Delivered, s.heap[c].blob))
      else
        var s1 := if key in s.channels then ClearBlob(s, s.channels[key]) else s;
        if Refuses(s1, key) then (s1, Answer(RateLimited, None))
        else
          var s2 := if key in s1.channels then s1 else Create(s1, key, alloc.value);
          (Register(s2, key, s2.channels[key], w.value), Silent)
  }

  // Get, after its select

  function Take<C, W>(s: State<C, W>, w: W): (State<C, W>, Outcome)
    requires w in s.polls
  {
    (s.(polls := s.polls[w := s.polls[w].(buf := None, phase := Returned)]),
     Answer(Delivered, s.polls[w].buf))
  }

  function SetPhase<C, W>(s: State<C, W>, w: W, phase: Phase): State<C, W>
    requires w in s.polls
  {
    s.(polls := s.polls[w := s.polls[w].(phase := phase)])
  }

  function FinishStep<C, W>(s: State<C, W>, w: W): (State<C, W>, Outcome)
    requires w in s.polls && s.polls[w].ch in s.heap
  {
    if s.polls[w].delivered then (SetPhase(s, w, Draining), Silent)
    else (SetPhase(Release(s, w), w, Returned), Answer(if s.closed then RateLimited else Empty, None))
  }

  function ShutdownStep<C, W>(s: State<C, W>): State<C, W> {
    if s.closed then s
    else
      s.(channels := map[],
         heap := map c | c in s.heap :: if c in s.channels.Values then s.heap[c].(waiters := {}) else s.heap[c],
         polls := map w | w in s.polls ::
           if s.polls[w].ch in s.channels.Values && s.polls[w].ch in s.heap && w in s.heap[s.polls[w].ch].waiters
           then s.polls[w].(active := false) else s.polls[w],
         waiting := 0,
         closed := true)
  }

  // The machine

  ghost predicate Enabled<C, W>(s: State<C, W>, e: Event<C, W>)
    requires Linked(s)
  {
    match e
    case Post(id, blob, now, alloc, pick) => PostEnabled(s, id, blob, now, alloc, pick)
    case Enter(id, now, alloc, w) => EnterEnabled(s, id, now, alloc, w)
    case Receive(w) => w in s.polls && s.polls[w].phase == Selecting && s.polls[w].buf.Some?
    case Lose(w) => w in s.polls && s.polls[w].phase == Selecting
    case Finish(w) => w in s.polls && s.polls[w].phase == Lost
    case Drain(w) => w in s.polls && s.polls[w].phase == Draining
    case Shutdown => true
  }

  function Step<C, W>(s: State<C, W>, e: Event<C, W>): (State<C, W>, Outcome)
    requires Linked(s) && Enabled(s, e)
  {
    match e
    case Post(id, blob, now, alloc, pick) =>
      var r := PostStep(s, id, blob, now, alloc, pick);
      (r.0, Answer(r.1, None))
    case Enter(id, now, alloc, w) => EnterStep(s, id, now, alloc, w)
    case Receive(w) => Take(s, w)
    case Lose(w) => (SetPhase(s, w, Lost), Silent)
    case Finish(w) => FinishStep(s, w)
    case Drain(w) => Take(s, w)
    case Shutdown => (ShutdownStep(s), Silent)
  }

  /** The channel operations in a step that would block: a send into a full buffer, a receive from an empty one. */
  ghost predicate Blocks<C, W>(s: State<C, W>, e: Event<C, W>)
    requires Linked(s) && Enabled(s, e)
  {
    match e
    case Post(_, _, _, _, pick) => pick.Some? && pick.value in s.polls && s.polls[pick.value].buf.Some?
    case Drain(w) => s.polls[w].buf.None?
    case _ => false
  }
}
