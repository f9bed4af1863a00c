/** What each step does to the blob stored under each key, with the channel structs out of sight. */
module SignalContents {
  import opened Base
  import opened SignalModel
  import opened SignalInvariant

  /** A stored blob and its expiry, whether or not it has expired. */
  datatype Content = Content(blob: Bytes, expiresAt: int)

  function SlotOf<C, W>(s: State<C, W>, k: Key): Option<Content> {
    if k in s.channels && s.channels[k] in s.heap && s.heap[s.channels[k]].blob.Some?
    then Some(Content(s.heap[s.channels[k]].blob.value, s.heap[s.channels[k]].expiresAt))
    else None
  }

  /** The waiters a Post to k can hand its blob to. */
  function Listening<C, W>(s: State<C, W>, k: Key): set<W> {
    if k in s.channels && s.channels[k] in s.heap then s.heap[s.channels[k]].waiters else {}
  }

  /** The keys a sweep at now removes. */
  function SweptKeys<C, W>(s: State<C, W>, now: int): set<Key>
    requires forall k :: k in s.channels ==> s.channels[k] in s.heap
  {
    if SweepDue(s) then set k | k in s.channels && !Kept(s, k, now) else {}
  }

  predicate Immediate<C, W>(s: State<C, W>, id: Option<Key>, now: int)
    requires Linked(s)
  {
    id.Some? && !s.closed && id.value in s.channels && Held(s.heap[s.channels[id.value]], now)
  }

  lemma GcContents<C, W>(s: State<C, W>, key: Key, c: C)
    requires c in s.heap && key in s.channels && s.channels[key] == c
    ensures forall k :: SlotOf(Gc(s, key, c), k) == SlotOf(s, k)
  {
  }

  lemma SweepContents<C, W>(s: State<C, W>, now: int)
    requires Links(s)
    ensures forall k :: SlotOf(SweepIfDue(s, now), k) == if k in SweptKeys(s, now) then None else SlotOf(s, k)
    ensures forall k :: Listening(SweepIfDue(s, now), k) == Listening(s, k)
  {
  }

  lemma OpenContents<C, W>(s: State<C, W>, key: Key, alloc: Option<C>)
    requires Links(s) && (key !in s.channels ==> alloc.Some? && alloc.value !in s.heap)
    ensures forall k :: SlotOf(OpenChannel(s, key, alloc), k) == if k == key then None else SlotOf(s, k)
    ensures forall k :: Listening(OpenChannel(s, key, alloc), k) == Listening(s, k)
  {
  }

  lemma HandContents<C, W>(s: State<C, W>, key: Key, c: C, w: W, blob: Bytes)
    requires Inv(s) && key in s.channels && s.channels[key] == c && w in s.heap[c].waiters
    ensures forall k :: SlotOf(Gc(Send(Deactivate(s, c, w), w, blob), key, c), k) == SlotOf(s, k)
  {
    var s1 := Send(Deactivate(s, c, w), w, blob);
    hide Buffers, Counts;
    GcContents(s1, key, c);
    forall k ensures SlotOf(s1, k) == SlotOf(s, k) {}
  }

  /** A Post that is accepted: the posted key holds the new blob, unless a reader took it. */
  lemma AcceptedContents<C, W>(s: State<C, W>, id: Option<Key>, blob: Bytes, now: int,
                               alloc: Option<C>, pick: Option<W>)
    requires Inv(s) && PostEnabled(s, id, blob, now, alloc, pick) && PostView(s, id, blob, now).Some?
    ensures PostStep(s, id, blob, now, alloc, pick).1 == Stored
    ensures pick.Some? <==> Listening(s, id.value) != {}
    ensures pick.Some? ==> pick.value in Listening(s, id.value)
    ensures id.value !in SweptKeys(s, now) && SlotOf(s, id.value).Some? ==> SlotOf(s, id.value).value.expiresAt <= now
    ensures forall k :: SlotOf(PostStep(s, id, blob, now, alloc, pick).0, k) ==
              if k == id.value then (if pick.Some? then None else Some(Content(blob, now + s.cfg.ttl)))
              else if k in SweptKeys(s, now) then None
              else SlotOf(s, k)
  {
    hide Links, Buffers, Counts, Gc, Kept, StoreBlob, SweepIfDue, SweptKeys;
    SweepKeeps(s, now);
    SweepContents(s, now);
    var s1 := SweepIfDue(s, now);
    assert SlotOf(s1, id.value).Some? ==> SlotOf(s1, id.value).value.expiresAt <= now;
    SweepFrame(s, now);
    DepositContents(s1, id.value, blob, now + s.cfg.ttl, alloc, pick);
  }

  lemma SweepFrame<C, W>(s: State<C, W>, now: int)
    requires Linked(s)
    ensures var s1 := SweepIfDue(s, now);
      s1.closed == s.closed && s1.cfg == s.cfg && s1.polls == s.polls && s1.heap == s.heap && Linked(s1)
  {
  }

  lemma PostFrame<C, W>(s: State<C, W>, id: Option<Key>, blob: Bytes, now: int, alloc: Option<C>, pick: Option<W>)
    requires Linked(s) && PostEnabled(s, id, blob, now, alloc, pick)
    ensures var s' := PostStep(s, id, blob, now, alloc, pick).0; s'.cfg == s.cfg && s'.closed == s.closed
  {
    hide Held, Kept;
  }

  lemma DepositContents<C, W>(s: State<C, W>, key: Key, blob: Bytes, expiresAt: int, alloc: Option<C>, pick: Option<W>)
    requires Inv(s) && !s.closed && (key !in s.channels ==> alloc.Some? && alloc.value !in s.heap)
    requires pick.Some? ==> pick.value in Listening(s, key)
    ensures forall k :: SlotOf(Deposit(s, key, blob, expiresAt, alloc, pick), k)
              == if k == key then (if pick.Some? then None else Some(Content(blob, expiresAt))) else SlotOf(s, k)
  {
    hide Buffers, Counts, Gc, StoreBlob;
    OpenChannelKeeps(s, key, alloc);
    OpenContents(s, key, alloc);
    var s2 := OpenChannel(s, key, alloc);
    if pick.Some? {
      HandContents(s2, key, s2.channels[key], pick.value, blob);
    } else {
      StoreContents(s2, key, blob, expiresAt);
    }
  }

  /** A Post that is refused leaves every blob that a sweep does not reclaim. */
  lemma RefusedContents<C, W>(s: State<C, W>, id: Option<Key>, blob: Bytes, now: int,
                              alloc: Option<C>, pick: Option<W>)
    requires Inv(s) && PostEnabled(s, id, blob, now, alloc, pick) && PostView(s, id, blob, now).None?
    ensures var (s', reason) := PostStep(s, id, blob, now, alloc, pick);
      && (reason == BadChannel || reason == TooLarge || reason == RateLimited || reason == Conflict)
      && (reason == Conflict ==>
            && id.Some? && id.value !in SweptKeys(s, now)
            && SlotOf(s, id.value).Some? && now < SlotOf(s, id.value).value.expiresAt)
      && forall k :: SlotOf(s', k) == if reason == Conflict && k in SweptKeys(s, now) then None else SlotOf(s, k)
  {
    SweepContents(s, now);
  }

  lemma StoreContents<C, W>(s: State<C, W>, key: Key, blob: Bytes, expiresAt: int)
    requires Links(s) && key in s.channels
    ensures forall k :: SlotOf(StoreBlob(s, s.channels[key], blob, expiresAt), k)
                        == if k == key then Some(Content(blob, expiresAt)) else SlotOf(s, k)
  {
  }

  /** Post touches no waiter but the one it hands its blob to, which was waiting for that key. */
  lemma PostPolls<C, W>(s: State<C, W>, id: Option<Key>, blob: Bytes, now: int, alloc: Option<C>, pick: Option<W>)
    requires Inv(s) && PostEnabled(s, id, blob, now, alloc, pick)
    ensures var (s', reason) := PostStep(s, id, blob, now, alloc, pick);
      if pick.Some? then
        && id.Some? && pick.value in s.polls && s.polls[pick.value].active && s.polls[pick.value].key == id.value
        && s'.polls == s.polls[pick.value :=
             s.polls[pick.value].(active := false, delivered := true, buf := Some(blob))]
      else s'.polls == s.polls
  {
    hide Buffers, Counts, Kept;
    if pick.Some? {
      SweepFrame(s, now);
      var s1 := SweepIfDue(s, now);
      assert pick.value in s1.heap[s1.channels[id.value]].waiters;
      assert s.polls[pick.value].key == id.value by { SweepKeeps(s, now); }
    }
  }

  lemma EnterSlots<C, W>(s: State<C, W>, id: Option<Key>, now: int, alloc: Option<C>, reader: Option<W>)
    requires Links(s) && EnterEnabled(s, id, now, alloc, reader)
    ensures forall k :: SlotOf(EnterStep(s, id, now, alloc, reader).0, k) ==
              if id.Some? && !s.closed && k == id.value then None else SlotOf(s, k)
  {
    if id.None? || s.closed { return; }
    var key := id.value;
    if key in s.channels { GcContents(ClearBlob(s, s.channels[key]), key, s.channels[key]); }
  }

  /** Get: the blob is returned if it is live, and the key is empty afterwards either way. */
  lemma EnterContents<C, W>(s: State<C, W>, id: Option<Key>, now: int, alloc: Option<C>, reader: Option<W>)
    requires Inv(s) && EnterEnabled(s, id, now, alloc, reader)
    ensures var (s', out) := EnterStep(s, id, now, alloc, reader);
      && (Immediate(s, id, now) <==> out.Answer? && out.reason == Delivered)
      && (out.Answer? ==> out.reason == Delivered || out.reason == BadChannel || out.reason == RateLimited)
      && (Immediate(s, id, now) ==>
            && SlotOf(s, id.value).Some? && now < SlotOf(s, id.value).value.expiresAt
            && out.blob == Some(SlotOf(s, id.value).value.blob))
      && (id.Some? && !s.closed && !Immediate(s, id, now) && SlotOf(s, id.value).Some? ==>
            SlotOf(s, id.value).value.expiresAt <= now)
      && forall k :: SlotOf(s', k) == if id.Some? && !s.closed && k == id.value then None else SlotOf(s, k)
  {
    EnterSlots(s, id, now, alloc, reader);
    hide Inv, Gc, Register, Create, ClearBlob;
  }

  lemma FinishLeaves<C, W>(s: State<C, W>, w: W)
    requires Inv(s) && w in s.polls && s.polls[w].active
    ensures var key, c := s.polls[w].key, s.polls[w].ch;
      && key in s.channels && s.channels[key] == c && c in s.heap
      && FinishStep(s, w).0 == Gc(SetPhase(Deactivate(s, c, w), w, Returned), key, c)
  {
  }

  /** Leaving a channel does not touch any blob. */
  lemma FinishContents<C, W>(s: State<C, W>, w: W)
    requires Inv(s) && w in s.polls && s.polls[w].phase == Lost
    ensures forall k :: SlotOf(FinishStep(s, w).0, k) == SlotOf(s, k)
  {
    if s.polls[w].active {
      var key, c := s.polls[w].key, s.polls[w].ch;
      FinishLeaves(s, w);
      hide Inv, Gc, FinishStep;
      GcContents(SetPhase(Deactivate(s, c, w), w, Returned), key, c);
    }
  }

  /** No buffer changes, and a new waiter starts with an empty one. */
  ghost predicate BuffersUntouched<C, W>(s: State<C, W>, s': State<C, W>) {
    && s'.closed == s.closed
    && (forall w :: w in s.polls ==>
          w in s'.polls && s'.polls[w].key == s.polls[w].key && s'.polls[w].buf == s.polls[w].buf)
    && (forall w :: w in s'.polls && w !in s.polls ==> s'.polls[w].buf.None?)
  }

  lemma EnterPolls<C, W>(s: State<C, W>, id: Option<Key>, now: int, alloc: Option<C>, reader: Option<W>)
    requires Linked(s) && EnterEnabled(s, id, now, alloc, reader)
    ensures BuffersUntouched(s, EnterStep(s, id, now, alloc, reader).0)
  {
    if MustWait(s, id, now) {
      var key := id.value;
      var s1 := if key in s.channels then ClearBlob(s, s.channels[key]) else s;
      var s2 := if key in s1.channels then s1 else Create(s1, key, alloc.value);
      assert s2.polls == s.polls;
      assert EnterStep(s, id, now, alloc, reader).0 == Register(s2, key, s2.channels[key], reader.value);
    } else {
      assert EnterStep(s, id, now, alloc, reader).0.polls == s.polls;
    }
  }

  lemma FinishPolls<C, W>(s: State<C, W>, w: W)
    requires Linked(s) && w in s.polls
    ensures BuffersUntouched(s, FinishStep(s, w).0)
  {
    if !s.polls[w].delivered {
      var s1 := Release(s, w);
      assert s1.polls == if s.polls[w].active then s.polls[w := s.polls[w].(active := false)] else s.polls;
    }
  }

  /**
   A Get refused by a cap changes nothing exactly when it found no expired blob. Where it did, the
   blob is dropped and the channel stays mapped, holding nothing if nobody is waiting on it.
   */
  lemma RefusedGetTrace<C, W>(s: State<C, W>, key: Key, now: int)
    requires Inv(s) && !s.closed && !(key in s.channels && Held(s.heap[s.channels[key]], now)) && Refuses(s, key)
    ensures EnterEnabled(s, Some(key), now, None, None)
    ensures var (s', out) := EnterStep(s, Some(key), now, None, None);
      && out == Answer(RateLimited, None)
      && (s' == s <==> SlotOf(s, key).None?)
      && (SlotOf(s, key).Some? ==>
            && key in s'.channels
            && s'.heap[s'.channels[key]] == Chan(None, s.heap[s.channels[key]].expiresAt, {}))
  {
    if key in s.channels {
      var c := s.channels[key];
      var ch := s.heap[c];
      if ch.blob.None? {
        assert ch.(blob := None) == ch && s.heap[c := ch] == s.heap;
      } else {
        assert s.heap[c := ch.(blob := None)][c] != s.heap[c];
      }
    }
  }

  // What is reclaimed

  /** Somebody waits on k, or it holds a blob that has not expired. */
  ghost predicate InUse<C, W>(s: State<C, W>, k: Key, now: int) {
    Listening(s, k) != {} || (SlotOf(s, k).Some? && now < SlotOf(s, k).value.expiresAt)
  }

  /** A sweep keeps the channels in use and no others, and comes again when twice as many are mapped. */
  lemma SweepKeepsInUse<C, W>(s: State<C, W>, now: int)
    requires Linked(s)
    ensures var s1 := SweepIfDue(s, now);
      if |s.channels| >= s.sweepAt
      then && (forall k :: k in s1.channels <==> k in s.channels && InUse(s, k, now))
           && (forall k :: k in s1.channels ==> InUse(s1, k, now))
           && s1.sweepAt == if 2 * |s1.channels| < 1024 then 1024 else 2 * |s1.channels|
      else s1 == s
  {
  }

  /** Collection unmaps a channel exactly when it holds no blob and nobody waits on it. */
  lemma GcUnmaps<C, W>(s: State<C, W>, key: Key, c: C)
    requires c in s.heap && key in s.channels && s.channels[key] == c
    ensures forall k :: k in Gc(s, key, c).channels <==>
              k in s.channels && (k == key ==> SlotOf(s, key).Some? || Listening(s, key) != {})
  {
  }

  /** A Get that is answered at once leaves no channel behind. */
  lemma DeliveryUnmaps<C, W>(s: State<C, W>, id: Option<Key>, now: int, alloc: Option<C>, reader: Option<W>)
    requires Inv(s) && EnterEnabled(s, id, now, alloc, reader) && Immediate(s, id, now)
    ensures EnterStep(s, id, now, alloc, reader).0.channels == s.channels - {id.value}
  {
    var c := s.channels[id.value];
    GcUnmaps(ClearBlob(s, c), id.value, c);
  }

  /** A Get that gives up unmaps its channel exactly when it was the last to wait on it. */
  lemma DepartureUnmaps<C, W>(s: State<C, W>, w: W)
    requires Inv(s) && w in s.polls && s.polls[w].phase == Lost && s.polls[w].active
    ensures var key := s.polls[w].key; var s' := FinishStep(s, w).0;
      forall k :: k in s'.channels <==> k in s.channels && (k == key ==> Listening(s, key) != {w})
  {
    var key, c := s.polls[w].key, s.polls[w].ch;
    FinishLeaves(s, w);
    var s1 := SetPhase(Deactivate(s, c, w), w, Returned);
    GcUnmaps(s1, key, c);
    assert SlotOf(s1, key).None?;
    assert Listening(s1, key) == Listening(s, key) - {w};
    assert w in Listening(s, key);
    hide Inv, Gc, FinishStep;
  }

  lemma HandoverMaps<C, W>(s: State<C, W>, key: Key, c: C, w: W, blob: Bytes)
    requires Inv(s) && key in s.channels && s.channels[key] == c && w in s.heap[c].waiters && s.heap[c].blob.None?
    ensures var s' := Gc(Send(Deactivate(s, c, w), w, blob), key, c);
      && (key in s'.channels <==> Listening(s, key) != {w})
      && (forall k :: k != key ==> (k in s'.channels <==> k in s.channels) && Listening(s', k) == Listening(s, k))
  {
    hide Buffers, Counts;
    var s2 := Send(Deactivate(s, c, w), w, blob);
    assert Listening(s2, key) == Listening(s, key) - {w};
    GcUnmaps(s2, key, c);
  }

  lemma DepositMaps<C, W>(s: State<C, W>, key: Key, blob: Bytes, expiresAt: int, alloc: Option<C>, pick: Option<W>)
    requires Inv(s) && !s.closed && (key !in s.channels ==> alloc.Some? && alloc.value !in s.heap)
    requires pick.Some? ==> pick.value in Listening(s, key) && pick.value in s.polls
    ensures var s' := Deposit(s, key, blob, expiresAt, alloc, pick);
      && (key in s'.channels <==> pick.None? || Listening(s, key) != {pick.value})
      && (forall k :: k != key ==> (k in s'.channels <==> k in s.channels) && Listening(s', k) == Listening(s, k))
  {
    var s1 := OpenChannel(s, key, alloc);
    OpenContents(s, key, alloc);
    OpenChannelKeeps(s, key, alloc);
    OpenMaps(s, key, alloc);
    hide Inv, OpenChannel;
    if pick.Some? {
      HandoverMaps(s1, key, s1.channels[key], pick.value, blob);
      hide Gc, Send, Deactivate;
    } else {
      StoreMaps(s1, key, blob, expiresAt);
      hide StoreBlob;
    }
  }

  lemma OpenMaps<C, W>(s: State<C, W>, key: Key, alloc: Option<C>)
    requires Inv(s) && (key !in s.channels ==> alloc.Some? && alloc.value !in s.heap)
    ensures var s1 := OpenChannel(s, key, alloc);
      && s1.channels.Keys == s.channels.Keys + {key} && s1.polls == s.polls
      && s1.channels[key] in s1.heap && s1.heap[s1.channels[key]].blob.None?
  {
    hide Buffers, Counts;
  }

  lemma StoreMaps<C, W>(s: State<C, W>, key: Key, blob: Bytes, expiresAt: int)
    requires key in s.channels && s.channels[key] in s.heap
    ensures var s' := StoreBlob(s, s.channels[key], blob, expiresAt);
      s'.channels == s.channels && forall k :: Listening(s', k) == Listening(s, k)
  {
  }

  /**
   After an accepted Post to a store that was due to sweep, every other mapped channel is in use; and its own
   is mapped unless its blob went to the only reader.
   */
  lemma PostLeavesInUse<C, W>(s: State<C, W>, id: Option<Key>, blob: Bytes, now: int, alloc: Option<C>, pick: Option<W>)
    requires Inv(s) && PostEnabled(s, id, blob, now, alloc, pick) && PostView(s, id, blob, now).Some?
    ensures var s' := PostStep(s, id, blob, now, alloc, pick).0;
      && (|s.channels| >= s.sweepAt ==> forall k :: k in s'.channels && k != id.value ==> InUse(s', k, now))
      && (id.value in s'.channels <==> pick.None? || Listening(s, id.value) != {pick.value})
  {
    hide Links, Buffers, Counts, Kept, Held, Deposit, Sweep, SlotOf, Listening, Immediate;
    PostIsDeposit(s, id, blob, now, alloc, pick);
    AcceptedContents(s, id, blob, now, alloc, pick);
    hide PostStep, PostEnabled, PostView, Linked;
    var s1 := SweepIfDue(s, now);
    SweepContents(s, now);
    SweepKeepsInUse(s, now);
    hide SweepIfDue, Inv;
    DepositMaps(s1, id.value, blob, now + s.cfg.ttl, alloc, pick);
  }

  lemma PostIsDeposit<C, W>(s: State<C, W>, id: Option<Key>, blob: Bytes, now: int, alloc: Option<C>, pick: Option<W>)
    requires Inv(s) && PostEnabled(s, id, blob, now, alloc, pick) && PostView(s, id, blob, now).Some?
    ensures var s1 := SweepIfDue(s, now);
      && Inv(s1) && !s1.closed && (id.value !in s1.channels ==> alloc.Some? && alloc.value !in s1.heap)
      && (pick.Some? ==> pick.value in Listening(s1, id.value) && pick.value in s1.polls)
      && PostStep(s, id, blob, now, alloc, pick).0 == Deposit(s1, id.value, blob, now + s.cfg.ttl, alloc, pick)
  {
    hide Buffers, Counts, Kept, Held, Deposit, Sweep;
    SweepKeeps(s, now);
    SweepFrame(s, now);
  }
}
