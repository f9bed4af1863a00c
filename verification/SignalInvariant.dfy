/**
 What every step of the signal store keeps, under any clock: pointer identity of
 channels with waiters, the waiter counts and caps, and the buffer discipline
 that makes every channel send and receive non-blocking.
 */
module SignalInvariant {
  import opened Base
  import opened SignalModel

  ghost function Active<C, W>(s: State<C, W>): set<W> {
    set w | w in s.polls && s.polls[w].active
  }

  ghost predicate PollOk<C>(p: Poll<C>, closed: bool) {
    && (p.active ==> !p.delivered && (p.phase == Selecting || p.phase == Lost))
    && (p.buf.Some? <==> p.delivered && p.phase != Returned)
    && (p.phase == Draining ==> p.delivered)
    && (!p.active && !p.delivered && p.phase != Returned ==> closed)
  }

  /** Pointers: who is in which set, and which channel struct a key is mapped to. */
  ghost predicate Links<C, W>(s: State<C, W>)
    ensures Links(s) ==> Linked(s)
  {
    && Linked(s)
    // Distinct keys never share a channel struct.
    && (forall k, k' :: k in s.channels && k' in s.channels && k != k' ==> s.channels[k] != s.channels[k'])
    // A waiter in a set is active and captured that channel; an active waiter is in
    // the set of the channel that its key is mapped to.
    && (forall c, w :: c in s.heap && w in s.heap[c].waiters ==> s.polls[w].active && s.polls[w].ch == c)
    && (forall w :: w in s.polls && s.polls[w].active ==>
          && w in s.heap[s.polls[w].ch].waiters
          && s.polls[w].key in s.channels && s.channels[s.polls[w].key] == s.polls[w].ch)
  }

  /** Buffers: every unfinished Get is waiting, or was handed a blob, or the store is closed. */
  ghost predicate Buffers<C, W>(s: State<C, W>) {
    && (forall w :: w in s.polls ==> PollOk(s.polls[w], s.closed))
    // A channel with waiters holds no blob.
    && (forall c :: c in s.heap && s.heap[c].waiters != {} ==> s.heap[c].blob.None?)
  }

  /** Counts: the waiter total and the caps. */
  ghost predicate Counts<C, W>(s: State<C, W>) {
    && 0 < s.cfg.ttl && 0 < s.cfg.maxWaiters && 0 < s.cfg.maxPerChan
    && s.waiting == |Active(s)| <= s.cfg.maxWaiters
    && (forall c :: c in s.heap ==> |s.heap[c].waiters| <= s.cfg.maxPerChan)
    && s.sweepAt >= MIN_SWEEP_CHANNELS
    && (s.closed ==> s.channels == map[])
  }

  ghost predicate Inv<C, W>(s: State<C, W>)
    ensures Inv(s) ==> Linked(s)
  {
    Links(s) && Buffers(s) && Counts(s)
  }

  lemma InitInv<C, W>(o: Options)
    ensures Inv(Init<C, W>(Configure(o)))
  {
    assert Active(Init<C, W>(Configure(o))) == {};
  }

  /** No step blocks: a send finds an empty buffer, and the receive after a lost select a full one. */
  lemma NeverBlocks<C, W>(s: State<C, W>, e: Event<C, W>)
    requires Inv(s) && Enabled(s, e)
    ensures !Blocks(s, e)
  {
    if e.Post? && e.pick.Some? {
      var s1 := SweepIfDue(s, e.now);
      assert e.pick.value in s1.heap[s1.channels[e.id.value]].waiters;
    }
  }

  // One lemma for each building block of a step.

  lemma GcKeeps<C, W>(s: State<C, W>, key: Key, c: C)
    requires Inv(s) && key in s.channels && s.channels[key] == c
    ensures Inv(Gc(s, key, c))
  {
    assert Active(Gc(s, key, c)) == Active(s);
  }

  lemma SweepKeeps<C, W>(s: State<C, W>, now: int)
    requires Inv(s)
    ensures Inv(SweepIfDue(s, now))
  {
    assert Active(SweepIfDue(s, now)) == Active(s);
  }

  lemma ClearBlobKeeps<C, W>(s: State<C, W>, c: C)
    requires Inv(s) && c in s.heap
    ensures Inv(ClearBlob(s, c))
  {
    assert Active(ClearBlob(s, c)) == Active(s);
  }

  lemma CreateKeeps<C, W>(s: State<C, W>, key: Key, c: C)
    requires Inv(s) && !s.closed && key !in s.channels && c !in s.heap
    ensures Inv(Create(s, key, c))
  {
    assert Active(Create(s, key, c)) == Active(s);
  }

  lemma DeliverKeeps<C, W>(s: State<C, W>, c: C, w: W, blob: Bytes)
    requires Inv(s) && c in s.heap && w in s.heap[c].waiters
    ensures Inv(Send(Deactivate(s, c, w), w, blob))
  {
    assert Active(Send(Deactivate(s, c, w), w, blob)) == Active(s) - {w};
  }

  lemma StoreKeeps<C, W>(s: State<C, W>, c: C, blob: Bytes, expiresAt: int)
    requires Inv(s) && c in s.heap && s.heap[c].waiters == {}
    ensures Inv(StoreBlob(s, c, blob, expiresAt))
  {
    assert Active(StoreBlob(s, c, blob, expiresAt)) == Active(s);
  }

  lemma RegisterLinks<C, W>(s: State<C, W>, c: C, key: Key, w: W)
    requires Links(s) && key in s.channels && s.channels[key] == c && w !in s.polls
    ensures Links(Register(s, key, c, w))
  {
  }

  lemma RegisterCounts<C, W>(s: State<C, W>, c: C, key: Key, w: W)
    requires Counts(s) && !s.closed && c in s.heap && w !in s.polls
    requires s.waiting < s.cfg.maxWaiters && |s.heap[c].waiters| < s.cfg.maxPerChan
    ensures Counts(Register(s, key, c, w))
  {
    assert Active(Register(s, key, c, w)) == Active(s) + {w};
  }

  lemma RegisterKeeps<C, W>(s: State<C, W>, key: Key, w: W)
    requires Inv(s) && !s.closed && key in s.channels && s.heap[s.channels[key]].blob.None?
    requires w !in s.polls && !Refuses(s, key)
    ensures Inv(Register(s, key, s.channels[key], w))
  {
    hide Links, Counts;
    RegisterLinks(s, s.channels[key], key, w);
    RegisterCounts(s, s.channels[key], key, w);
  }

  lemma OpenChannelKeeps<C, W>(s: State<C, W>, key: Key, alloc: Option<C>)
    requires Inv(s) && !s.closed
    requires key !in s.channels ==> alloc.Some? && alloc.value !in s.heap
    ensures Inv(OpenChannel(s, key, alloc))
  {
    if key in s.channels { ClearBlobKeeps(s, s.channels[key]); } else { CreateKeeps(s, key, alloc.value); }
  }

  lemma DepositKeeps<C, W>(s: State<C, W>, key: Key, blob: Bytes, expiresAt: int, alloc: Option<C>, pick: Option<W>)
    requires Inv(s) && !s.closed
    requires if key in s.channels then alloc.None? else alloc.Some? && alloc.value !in s.heap && pick.None?
    requires key in s.channels ==>
      var ws := s.heap[s.channels[key]].waiters;
      if ws == {} then pick.None? else pick.Some? && pick.value in ws
    ensures Inv(Deposit(s, key, blob, expiresAt, alloc, pick))
  {
    hide Links, Buffers, Counts, Gc;
    OpenChannelKeeps(s, key, alloc);
    var s1 := OpenChannel(s, key, alloc);
    var c := s1.channels[key];
    if pick.Some? {
      DeliverKeeps(s1, c, pick.value, blob);
      GcKeeps(Send(Deactivate(s1, c, pick.value), pick.value, blob), key, c);
    } else {
      StoreKeeps(s1, c, blob, expiresAt);
    }
  }

  lemma PostKeeps<C, W>(s: State<C, W>, id: Option<Key>, blob: Bytes, now: int, alloc: Option<C>, pick: Option<W>)
    requires Inv(s) && PostEnabled(s, id, blob, now, alloc, pick)
    ensures Inv(PostStep(s, id, blob, now, alloc, pick).0)
  {
    hide Links, Buffers, Counts, Kept, Deposit;
    SweepKeeps(s, now);
    if PostView(s, id, blob, now).Some? {
      DepositKeeps(SweepIfDue(s, now), id.value, blob, now + s.cfg.ttl, alloc, pick);
    }
  }

  lemma EnterKeeps<C, W>(s: State<C, W>, id: Option<Key>, now: int, alloc: Option<C>, reader: Option<W>)
    requires Inv(s) && EnterEnabled(s, id, now, alloc, reader)
    ensures Inv(EnterStep(s, id, now, alloc, reader).0)
  {
    if id.None? || s.closed { return; }
    var key := id.value;
    if key in s.channels {
      var c := s.channels[key];
      ClearBlobKeeps(s, c);
      GcKeeps(ClearBlob(s, c), key, c);
      if MustWait(s, id, now) { RegisterKeeps(ClearBlob(s, c), key, reader.value); }
    } else if MustWait(s, id, now) {
      CreateKeeps(s, key, alloc.value);
      RegisterKeeps(Create(s, key, alloc.value), key, reader.value);
    }
  }

  lemma TakeKeeps<C, W>(s: State<C, W>, w: W)
    requires Inv(s) && w in s.polls && s.polls[w].buf.Some?
    ensures Inv(Take(s, w).0)
  {
    assert Active(Take(s, w).0) == Active(s);
  }

  /** A phase change that leaves waiting is not needed: the waiter stays where its flags put it. */
  lemma PhaseKeeps<C, W>(s: State<C, W>, w: W, phase: Phase)
    requires Inv(s) && w in s.polls && s.polls[w].phase != Returned
    requires phase == Lost || (phase == Draining && s.polls[w].delivered)
    requires s.polls[w].phase != Draining
    ensures Inv(SetPhase(s, w, phase))
  {
    assert Active(SetPhase(s, w, phase)) == Active(s);
  }

  lemma QuietLeaveKeeps<C, W>(s: State<C, W>, w: W)
    requires Inv(s) && w in s.polls && !s.polls[w].delivered && !s.polls[w].active
    ensures Inv(SetPhase(s, w, Returned))
  {
    assert Active(SetPhase(s, w, Returned)) == Active(s);
  }

  /** Leaving empty-handed: the waiter gives up its place, if Shutdown has not taken it already. */
  lemma LeaveKeeps<C, W>(s: State<C, W>, w: W)
    requires Inv(s) && w in s.polls && !s.polls[w].delivered
    ensures Inv(SetPhase(Release(s, w), w, Returned))
  {
    hide Buffers, Counts, Active;
    if s.polls[w].active {
      var key, c := s.polls[w].key, s.polls[w].ch;
      var s1 := SetPhase(Deactivate(s, c, w), w, Returned);
      DepartKeeps(s, c, w);
      GcKeeps(s1, key, c);
      assert SetPhase(Release(s, w), w, Returned) == Gc(s1, key, c);
    } else {
      QuietLeaveKeeps(s, w);
    }
  }

  lemma DepartKeeps<C, W>(s: State<C, W>, c: C, w: W)
    requires Inv(s) && w in s.polls && s.polls[w].active && s.polls[w].ch == c
    ensures Inv(SetPhase(Deactivate(s, c, w), w, Returned))
  {
    assert Active(SetPhase(Deactivate(s, c, w), w, Returned)) == Active(s) - {w};
  }

  /** In a mapped channel's waiter set exactly when active. */
  lemma ActiveIffListed<C, W>(s: State<C, W>, w: W)
    requires Links(s) && w in s.polls
    ensures s.polls[w].active <==> s.polls[w].ch in s.channels.Values && w in s.heap[s.polls[w].ch].waiters
  {
    if s.polls[w].active { assert s.channels[s.polls[w].key] == s.polls[w].ch; }
  }

  /** Shutdown leaves no channels and no waiters. */
  lemma ShutdownKeeps<C, W>(s: State<C, W>)
    requires Inv(s)
    ensures Inv(ShutdownStep(s))
    ensures ShutdownStep(s).channels == map[] && ShutdownStep(s).waiting == 0
  {
    if s.closed {
      assert Active(s) == {};
    } else {
      ShutdownInactive(s);
      ShutdownLinks(s);
      hide Links;
      assert Active(ShutdownStep(s)) == {};
    }
  }

  lemma ShutdownInactive<C, W>(s: State<C, W>)
    requires Links(s) && !s.closed
    ensures forall w :: w in s.polls ==> !ShutdownStep(s).polls[w].active
  {
    forall w | w in s.polls ensures !ShutdownStep(s).polls[w].active { ActiveIffListed(s, w); }
  }

  lemma ShutdownLinks<C, W>(s: State<C, W>)
    requires Links(s) && !s.closed
    ensures Links(ShutdownStep(s))
  {
    ShutdownInactive(s);
    var s' := ShutdownStep(s);
    forall c | c in s.heap ensures s'.heap[c].waiters == {} {
      forall w | w in s.heap[c].waiters ensures c in s.channels.Values { ActiveIffListed(s, w); }
    }
  }

  /** Every step of the store keeps the invariant, whatever the clock reads. */
  lemma StepKeeps<C, W>(s: State<C, W>, e: Event<C, W>)
    requires Inv(s) && Enabled(s, e)
    ensures Inv(Step(s, e).0)
  {
    hide Links, Buffers, Counts, PostStep, EnterStep, ShutdownStep, SetPhase, Release, Take, PollOk;
    match e
    case Post(id, blob, now, alloc, pick) => PostKeeps(s, id, blob, now, alloc, pick);
    case Enter(id, now, alloc, reader) => EnterKeeps(s, id, now, alloc, reader);
    case Receive(w) => TakeKeeps(s, w);
    case Lose(w) => PhaseKeeps(s, w, Lost);
    case Finish(w) => if s.polls[w].delivered { PhaseKeeps(s, w, Draining); } else { LeaveKeeps(s, w); }
    case Drain(w) => NeverBlocks(s, e); TakeKeeps(s, w);
    case Shutdown => ShutdownKeeps(s);
  }

  // The waiter count, as a sum over the map.

  /** The number of waiters in the sets of the channels under ks. */
  ghost function WaitersUnder<C, W>(s: State<C, W>, ks: set<Key>): nat
    requires Linked(s) && ks <= s.channels.Keys
  {
    if ks == {} then 0
    else
      var k :| k in ks;
      |s.heap[s.channels[k]].waiters| + WaitersUnder(s, ks - {k})
  }

  ghost function ActiveUnder<C, W>(s: State<C, W>, ks: set<Key>): set<W> {
    set w | w in s.polls && s.polls[w].active && s.polls[w].key in ks
  }

  lemma ActiveUnderSplit<C, W>(s: State<C, W>, ks: set<Key>, k: Key)
    requires Links(s) && k in ks && ks <= s.channels.Keys
    ensures ActiveUnder(s, ks) == s.heap[s.channels[k]].waiters + ActiveUnder(s, ks - {k})
    ensures s.heap[s.channels[k]].waiters !! ActiveUnder(s, ks - {k})
  {
  }

  lemma {:induction false} WaitersUnderCount<C, W>(s: State<C, W>, ks: set<Key>)
    requires Links(s) && ks <= s.channels.Keys
    ensures WaitersUnder(s, ks) == |ActiveUnder(s, ks)|
  {
    hide Links;
    if ks == {} {
      assert ActiveUnder(s, ks) == {};
    } else {
      var k :| k in ks && WaitersUnder(s, ks) == |s.heap[s.channels[k]].waiters| + WaitersUnder(s, ks - {k});
      WaitersUnderCount(s, ks - {k});
      ActiveUnderSplit(s, ks, k);
    }
  }

  /** waiting is the sum of the sizes of the mapped channels' waiter sets, and within both caps. */
  lemma WaitingIsSum<C, W>(s: State<C, W>)
    requires Inv(s)
    ensures s.waiting == WaitersUnder(s, s.channels.Keys) <= s.cfg.maxWaiters
    ensures forall k :: k in s.channels ==> |s.heap[s.channels[k]].waiters| <= s.cfg.maxPerChan
  {
    WaitersUnderCount(s, s.channels.Keys);
    assert Active(s) == ActiveUnder(s, s.channels.Keys);
  }
}
