/**
 The signal store as it is written: structs updated in place under one mutex. Each
 method is one critical section, and is proved to be one step of the machine of
 module SignalModel, with the channel and waiter structs themselves as its pointers.
 */
module SignalStore {
  import opened Base
  import opened SignalModel
  import opened SignalInvariant

  class Waiter {
    var c: Option<Bytes>  // the one-slot buffer
    var delivered: bool
    var active: bool

    constructor ()
      ensures c == None && !delivered && active
    {
      c, delivered, active := None, false, true;
    }
  }

  class Channel {
    var blob: Option<Bytes>
    var expiresAt: int
    var waiters: set<Waiter>

    constructor ()
      ensures blob == None && expiresAt == 0 && waiters == {}
    {
      blob, expiresAt, waiters := None, 0, {};
    }

    predicate Holds(now: int)
      reads this
    {
      blob.Some? && now < expiresAt
    }
  }

  ghost predicate ChannelsMirrored(heap: map<Channel, Chan<Waiter>>)
    reads heap.Keys
  {
    forall c :: c in heap ==> heap[c] == Chan(c.blob, c.expiresAt, c.waiters)
  }

  ghost predicate WaitersMirrored(polls: map<Waiter, Poll<Channel>>)
    reads polls.Keys
  {
    forall w :: w in polls ==>
      polls[w].buf == w.c && polls[w].delivered == w.delivered && polls[w].active == w.active
  }

  /** Dropping the keys that are not kept, one at a time, is the sweep. */
  lemma SweepMap(s: State<Channel, Waiter>, m: map<Key, Channel>, now: int)
    requires forall k :: k in s.channels ==> s.channels[k] in s.heap
    requires forall k :: k in m <==> k in s.channels && Kept(s, k, now)
    requires forall k :: k in m ==> m[k] == s.channels[k]
    ensures Sweep(s, now) == s.(channels := m,
              sweepAt := if 2 * |m| < MIN_SWEEP_CHANNELS then MIN_SWEEP_CHANNELS else 2 * |m|)
  {
    assert m == map k | k in s.channels && Kept(s, k, now) :: s.channels[k];
  }

  lemma SameKept(s: State<Channel, Waiter>, t: State<Channel, Waiter>, key: Key, now: int)
    requires key in s.channels && s.channels[key] in s.heap
    requires key in t.channels && t.channels[key] == s.channels[key] && t.heap == s.heap
    ensures Kept(s, key, now) <==> Kept(t, key, now)
  {
  }

  /** A listed waiter has not been handed anything, so the send to it finds room. */
  lemma ListedBufferIsEmpty(s: State<Channel, Waiter>, ch: Channel, w: Waiter)
    requires Inv(s) && ch in s.heap && w in s.heap[ch].waiters
    ensures w in s.polls && s.polls[w].buf == None
  {
  }

  lemma DeactivatedBuffer(s: State<Channel, Waiter>, ch: Channel, w: Waiter)
    requires ch in s.heap && w in s.polls
    ensures Deactivate(s, ch, w).polls[w].buf == s.polls[w].buf
  {
  }

  lemma ChosenOnceOpen(s: State<Channel, Waiter>, key: Key, alloc: Option<Channel>, pick: Option<Waiter>)
    requires Linked(s)
    requires if key in s.channels then alloc.None? else alloc.Some? && alloc.value !in s.heap
    requires var s1 := OpenChannel(s, key, alloc); var ws := s1.heap[s1.channels[key]].waiters;
      if ws == {} then pick.None? else pick.Some? && pick.value in ws
    ensures Chosen(s, key, alloc, pick)
  {
  }

  /** The choices a Deposit in s leaves open: which struct a new channel is, and who is handed the blob. */
  ghost predicate Chosen(s: State<Channel, Waiter>, key: Key, alloc: Option<Channel>, pick: Option<Waiter>)
    requires Linked(s)
  {
    if key in s.channels then
      && alloc.None?
      && var ws := s.heap[s.channels[key]].waiters;
         if ws == {} then pick.None? else pick.Some? && pick.value in ws
    else alloc.Some? && alloc.value !in s.heap && pick.None?
  }

  lemma DepositFrame(s: State<Channel, Waiter>, key: Key, blob: Bytes, expiresAt: int,
                     alloc: Option<Channel>, pick: Option<Waiter>)
    requires Linked(s) && Chosen(s, key, alloc, pick)
    ensures var s' := Deposit(s, key, blob, expiresAt, alloc, pick);
      && s'.polls.Keys == s.polls.Keys
      && s'.heap.Keys == s.heap.Keys + (if alloc.Some? then {alloc.value} else {})
  {
  }

  lemma DepositingPost(s: State<Channel, Waiter>, id: Option<Key>, blob: Bytes, now: int,
                       alloc: Option<Channel>, pick: Option<Waiter>)
    requires Inv(s) && PostView(s, id, blob, now).Some? && Linked(SweepIfDue(s, now))
    requires Chosen(SweepIfDue(s, now), id.value, alloc, pick)
    ensures PostEnabled(s, id, blob, now, alloc, pick)
    ensures PostStep(s, id, blob, now, alloc, pick) ==
              (Deposit(SweepIfDue(s, now), id.value, blob, now + s.cfg.ttl, alloc, pick), Stored)
    ensures Inv(PostStep(s, id, blob, now, alloc, pick).0)
  {
    hide Links, Buffers, Counts, Deposit, Kept;
    assert PostEnabled(s, id, blob, now, alloc, pick);
    PostKeeps(s, id, blob, now, alloc, pick);
  }

  lemma RefusedPost(s: State<Channel, Waiter>, id: Option<Key>, blob: Bytes, now: int)
    requires Inv(s) && PostView(s, id, blob, now).None?
    ensures PostEnabled(s, id, blob, now, None, None)
    ensures PostStep(s, id, blob, now, None, None) ==
              if id.None? then (s, BadChannel)
              else if |blob| > s.cfg.maxBlob then (s, TooLarge)
              else if s.closed then (s, RateLimited)
              else (SweepIfDue(s, now), Conflict)
  {
    hide Links, Buffers, Counts, Kept, Deposit;
  }

  // The three ways a Get enters.

  lemma ImmediateEnter(s: State<Channel, Waiter>, key: Key, now: int)
    requires Inv(s) && !s.closed && key in s.channels && Held(s.heap[s.channels[key]], now)
    ensures EnterEnabled(s, Some(key), now, None, None)
    ensures EnterStep(s, Some(key), now, None, None) ==
              (Gc(ClearBlob(s, s.channels[key]), key, s.channels[key]), Answer(Delivered, s.heap[s.channels[key]].blob))
    ensures Inv(EnterStep(s, Some(key), now, None, None).0)
  {
    hide Links, Buffers, Counts;
    EnterKeeps(s, Some(key), now, None, None);
  }

  lemma BadEnter(s: State<Channel, Waiter>, id: Option<Key>, now: int)
    requires Inv(s) && (id.None? || s.closed)
    ensures EnterEnabled(s, id, now, None, None)
    ensures EnterStep(s, id, now, None, None) == (s, Answer(if id.None? then BadChannel else RateLimited, None))
  {
    hide Links, Buffers, Counts;
  }

  /** The state in which a Get that found no live blob asks for a place. */
  function Cleared(s: State<Channel, Waiter>, key: Key): State<Channel, Waiter>
    requires key in s.channels ==> s.channels[key] in s.heap
  {
    if key in s.channels then ClearBlob(s, s.channels[key]) else s
  }

  lemma RefusedEnter(s: State<Channel, Waiter>, key: Key, now: int)
    requires Inv(s) && !s.closed && !(key in s.channels && Held(s.heap[s.channels[key]], now))
    requires Refuses(Cleared(s, key), key)
    ensures EnterEnabled(s, Some(key), now, None, None)
    ensures EnterStep(s, Some(key), now, None, None) == (Cleared(s, key), Answer(RateLimited, None))
    ensures Inv(EnterStep(s, Some(key), now, None, None).0)
  {
    hide Links, Buffers, Counts;
    assert Refuses(s, key);
    EnterKeeps(s, Some(key), now, None, None);
  }

  lemma WaitingEnter(s: State<Channel, Waiter>, key: Key, now: int, alloc: Option<Channel>, w: Waiter)
    requires Inv(s) && !s.closed && !(key in s.channels && Held(s.heap[s.channels[key]], now))
    requires !Refuses(Cleared(s, key), key) && w !in s.polls
    requires if key in s.channels then alloc.None? else alloc.Some? && alloc.value !in s.heap
    ensures EnterEnabled(s, Some(key), now, alloc, Some(w))
    ensures var s1 := if key in s.channels then Cleared(s, key) else Create(s, key, alloc.value);
            && s1.channels[key] in s1.heap
            && EnterStep(s, Some(key), now, alloc, Some(w)) == (Register(s1, key, s1.channels[key], w), Silent)
    ensures Inv(EnterStep(s, Some(key), now, alloc, Some(w)).0)
  {
    hide Links, Buffers, Counts;
    assert !Refuses(s, key);
    EnterKeeps(s, Some(key), now, alloc, Some(w));
  }

  lemma CapturedExists(s: State<Channel, Waiter>, w: Waiter)
    requires Inv(s) && w in s.polls
    ensures s.polls[w].ch in s.heap
  {
  }

  lemma DrainingIsFull(s: State<Channel, Waiter>, w: Waiter)
    requires Inv(s) && w in s.polls && s.polls[w].phase == Draining
    ensures s.polls[w].buf.Some?
  {
  }

  // Shutdown, one channel and one waiter at a time.

  /** q is p with the waiters in ws inactive. */
  ghost predicate Dropped(p: map<Waiter, Poll<Channel>>, q: map<Waiter, Poll<Channel>>, ws: set<Waiter>) {
    && q.Keys == p.Keys
    && forall w :: w in p ==> q[w] == if w in ws then p[w].(active := false) else p[w]
  }

  /** h is g with the waiter sets of the channels in gone empty. */
  ghost predicate Vacated(g: map<Channel, Chan<Waiter>>, h: map<Channel, Chan<Waiter>>, gone: set<Channel>) {
    && h.Keys == g.Keys
    && forall c :: c in g ==> h[c] == if c in gone then g[c].(waiters := {}) else g[c]
  }

  function ListedIn(s: State<Channel, Waiter>, gone: set<Channel>): set<Waiter> {
    set w | w in s.polls && s.polls[w].ch in gone && s.polls[w].ch in s.heap && w in s.heap[s.polls[w].ch].waiters
  }

  lemma DropOneMore(p: map<Waiter, Poll<Channel>>, q: map<Waiter, Poll<Channel>>, ws: set<Waiter>, w: Waiter)
    requires Dropped(p, q, ws) && w in p
    ensures Dropped(p, q[w := q[w].(active := false)], ws + {w})
  {
  }

  lemma DropMore(p: map<Waiter, Poll<Channel>>, q: map<Waiter, Poll<Channel>>, r: map<Waiter, Poll<Channel>>,
                 ws: set<Waiter>, vs: set<Waiter>)
    requires Dropped(p, q, ws) && Dropped(q, r, vs)
    ensures Dropped(p, r, ws + vs)
  {
  }

  lemma VacateOneMore(g: map<Channel, Chan<Waiter>>, h: map<Channel, Chan<Waiter>>, gone: set<Channel>, c: Channel)
    requires Vacated(g, h, gone) && c in g
    ensures Vacated(g, h[c := h[c].(waiters := {})], gone + {c})
  {
  }

  lemma ListedOneMore(s: State<Channel, Waiter>, h: map<Channel, Chan<Waiter>>, gone: set<Channel>, key: Key)
    requires Inv(s) && Vacated(s.heap, h, gone) && key in s.channels
    ensures s.channels[key] in s.heap && s.channels[key] in h
    ensures h[s.channels[key]].waiters <= s.polls.Keys
    ensures ListedIn(s, gone + {s.channels[key]}) == ListedIn(s, gone) + h[s.channels[key]].waiters
  {
    MappedWaiters(s, key);
    hide Inv, ListedIn;
    ListedSplit(s, gone, s.channels[key]);
  }

  lemma ListedSplit(s: State<Channel, Waiter>, gone: set<Channel>, c: Channel)
    ensures ListedIn(s, gone + {c}) == ListedIn(s, gone) + ListedIn(s, {c})
    ensures c in gone ==> ListedIn(s, {c}) <= ListedIn(s, gone)
  {
  }

  lemma MappedWaiters(s: State<Channel, Waiter>, key: Key)
    requires Inv(s) && key in s.channels
    ensures s.channels[key] in s.heap
    ensures s.heap[s.channels[key]].waiters <= s.polls.Keys
    ensures ListedIn(s, {s.channels[key]}) == s.heap[s.channels[key]].waiters
  {
    hide Buffers, Counts;
  }

  lemma GoneGrows(all: map<Key, Channel>, rest: map<Key, Channel>, key: Key)
    requires key in rest && rest.Keys <= all.Keys && forall k :: k in rest ==> rest[k] == all[k]
    ensures (set k | k in all && k !in rest - {key} :: all[k])
            == (set k | k in all && k !in rest :: all[k]) + {rest[key]}
  {
  }

  /** t is s in the middle of Shutdown, with the channels in gone closed and the others still mapped. */
  ghost predicate ShutSoFar(s: State<Channel, Waiter>, t: State<Channel, Waiter>, gone: set<Channel>) {
    && t.cfg == s.cfg && t.waiting == s.waiting && t.sweepAt == s.sweepAt && t.closed
    && t.channels.Keys <= s.channels.Keys
    && (forall k :: k in t.channels ==> t.channels[k] == s.channels[k])
    && gone == (set k | k in s.channels && k !in t.channels :: s.channels[k])
    && Vacated(s.heap, t.heap, gone) && Dropped(s.polls, t.polls, ListedIn(s, gone))
  }

  lemma NothingShut(s: State<Channel, Waiter>, t: State<Channel, Waiter>)
    requires t == s.(closed := true)
    ensures ShutSoFar(s, t, {})
  {
  }

  lemma AllShut(s: State<Channel, Waiter>, t: State<Channel, Waiter>, gone: set<Channel>)
    requires !s.closed && ShutSoFar(s, t, gone) && t.channels == map[]
    ensures t.(waiting := 0) == ShutdownStep(s)
  {
    assert gone == s.channels.Values;
    assert t.heap == ShutdownStep(s).heap && t.polls == ShutdownStep(s).polls;
  }

  lemma NothingDropped(p: map<Waiter, Poll<Channel>>)
    ensures Dropped(p, p, {})
  {
  }

  lemma SameKeys(p: map<Waiter, Poll<Channel>>, q: map<Waiter, Poll<Channel>>, ws: set<Waiter>)
    requires Dropped(p, q, ws)
    ensures q.Keys == p.Keys
  {
  }

  lemma AlreadyShut(s: State<Channel, Waiter>)
    requires s.closed
    ensures ShutdownStep(s) == s
  {
  }

  lemma UpdateTwice<K, V>(m: map<K, V>, k: K, x: V, y: V)
    ensures m[k := x][k := y] == m[k := y]
  {
  }

  class Store {
    const cfg: Config
    var channels: map<Key, Channel>
    var waiting: int
    var sweepAt: int
    var closed: bool

    // Every channel struct and every waiter allocated so far, as the machine sees them.
    ghost var heap: map<Channel, Chan<Waiter>>
    ghost var polls: map<Waiter, Poll<Channel>>

    ghost function Abs(): State<Channel, Waiter>
      reads this
    {
      State(cfg, channels, heap, polls, waiting, sweepAt, closed)
    }

    ghost predicate Mirrors()
      reads this, heap.Keys, polls.Keys
    {
      ChannelsMirrored(heap) && WaitersMirrored(polls)
    }

    ghost predicate Valid()
      reads this, heap.Keys, polls.Keys
    {
      Mirrors() && Inv(Abs())
    }

    lemma HoldsIsHeld(key: Key, now: int)
      requires Mirrors() && Linked(Abs())
      ensures key in channels ==>
                && channels[key] in heap && channels[key].blob == heap[channels[key]].blob
                && (channels[key].Holds(now) <==> Held(heap[channels[key]], now))
    {
    }

    constructor (o: Options)
      ensures Valid() && Abs() == Init(Configure(o))
    {
      cfg := Configure(o);
      channels, waiting, sweepAt, closed := map[], 0, MIN_SWEEP_CHANNELS, false;
      heap, polls := map[], map[];
      new;
      InitInv<Channel, Waiter>(o);
    }

    method GcLocked(key: Key, ch: Channel)
      requires Mirrors() && ch in heap
      modifies this`channels
      ensures Mirrors() && Abs() == Gc(old(Abs()), key, ch)
    {
      if ch.blob.None? && ch.waiters == {} {
        channels := channels - {key};
      }
    }

    /** Drops the channel under key unless it holds a live blob or somebody waits on it. */
    method ReclaimLocked(key: Key, now: int)
      requires Mirrors() && key in channels && channels[key] in heap
      modifies this`channels
      ensures Mirrors()
      ensures channels == if Kept(old(Abs()), key, now) then old(channels) else old(channels) - {key}
    {
      var ch := channels[key];
      if ch.waiters == {} && !ch.Holds(now) {
        channels := channels - {key};
      }
    }

    method SweepLocked(now: int)
      requires Mirrors() && Linked(Abs())
      modifies this`channels, this`sweepAt
      ensures Mirrors() && Abs() == Sweep(old(Abs()), now)
    {
      hide Sweep, Kept, Inv, ChannelsMirrored, WaitersMirrored;
      ghost var s := Abs();
      var keys := channels.Keys;
      while keys != {}
        invariant keys <= s.channels.Keys && Abs() == s.(channels := channels)
        invariant Mirrors()
        invariant forall k :: k in channels <==> k in s.channels && (k in keys || Kept(s, k, now))
        invariant forall k :: k in channels ==> channels[k] == s.channels[k]
        decreases keys
      {
        var key :| key in keys;
        ghost var s1 := Abs();
        SameKept(s, s1, key, now);
        ReclaimLocked(key, now);
        keys := keys - {key};
      }
      SweepMap(s, channels, now);
      ScheduleLocked();
    }

    method ScheduleLocked()
      requires Mirrors()
      modifies this`sweepAt
      ensures Mirrors()
      ensures Abs() == old(Abs()).(sweepAt :=
                if 2 * |channels| < MIN_SWEEP_CHANNELS then MIN_SWEEP_CHANNELS else 2 * |channels|)
    {
      sweepAt := 2 * |channels|;
      if sweepAt < MIN_SWEEP_CHANNELS {
        sweepAt := MIN_SWEEP_CHANNELS;
      }
    }

    /** Marks w inactive and drops it from ch's set. */
    method UnlistLocked(ch: Channel, w: Waiter)
      requires Mirrors() && ch in heap && w in polls
      modifies this`heap, this`polls, ch`waiters, w`active
      ensures Mirrors()
      ensures heap == old(heap)[ch := old(heap)[ch].(waiters := old(heap)[ch].waiters - {w})]
      ensures polls == old(polls)[w := old(polls)[w].(active := false)]
    {
      w.active := false;
      polls := polls[w := polls[w].(active := false)];
      assert WaitersMirrored(polls);
      ch.waiters := ch.waiters - {w};
      heap := heap[ch := heap[ch].(waiters := ch.waiters)];
    }

    method RemoveLocked(ch: Channel, w: Waiter)
      requires Mirrors() && ch in heap && w in polls
      modifies this`waiting, this`heap, this`polls, ch`waiters, w`active
      ensures Mirrors() && Abs() == Deactivate(old(Abs()), ch, w)
    {
      UnlistLocked(ch, w);
      waiting := waiting - 1;
    }

    /** Which waiter is unspecified. */
    method TakeWaiterLocked(ch: Channel) returns (w: Waiter?)
      requires Mirrors() && Linked(Abs()) && ch in heap
      modifies this`waiting, this`heap, this`polls, ch`waiters, polls.Keys`active
      ensures Mirrors()
      ensures w == null <==> old(heap)[ch].waiters == {}
      ensures w == null ==> Abs() == old(Abs())
      ensures w != null ==> w in old(heap)[ch].waiters && w in old(polls) && Abs() == Deactivate(old(Abs()), ch, w)
      ensures heap.Keys == old(heap.Keys) && polls.Keys == old(polls.Keys)
    {
      if ch.waiters == {} {
        w := null;
      } else {
        w :| w in ch.waiters;
        RemoveLocked(ch, w);
      }
    }

    method ReleaseLocked(key: Key, ch: Channel, w: Waiter)
      requires Mirrors() && w in polls && polls[w].key == key && polls[w].ch == ch && ch in heap
      modifies this`channels, this`waiting, this`heap, this`polls, ch`waiters, w`active
      ensures Mirrors() && Abs() == Release(old(Abs()), w) && polls.Keys == old(polls.Keys)
    {
      if !w.active {
        return;
      }
      RemoveLocked(ch, w);
      GcLocked(key, ch);
    }

    method AddChannelLocked(key: Key) returns (ch: Channel)
      requires Mirrors()
      modifies this`channels, this`heap
      ensures fresh(ch) && ch !in old(heap)
      ensures Mirrors() && Abs() == Create(old(Abs()), key, ch)
    {
      ch := new Channel();
      channels := channels[key := ch];
      heap := heap[ch := Chan(None, 0, {})];
    }

    method AddWaiterLocked(key: Key, ch: Channel) returns (w: Waiter)
      requires Mirrors() && ch in heap
      modifies this`waiting, this`heap, this`polls, ch`waiters
      ensures fresh(w) && w !in old(polls)
      ensures Mirrors() && Abs() == Register(old(Abs()), key, ch, w)
    {
      w := new Waiter();
      ch.waiters := ch.waiters + {w};
      waiting := waiting + 1;
      heap := heap[ch := heap[ch].(waiters := ch.waiters)];
      polls := polls[w := Poll(key, ch, None, false, true, Selecting)];
    }

    /** Adds a waiter for key, or none when a cap is reached; a new channel only once both caps are cleared. */
    method RegisterLocked(key: Key, ch: Channel?) returns (w: Waiter?, ghost alloc: Option<Channel>)
      requires Mirrors()
      requires if ch == null then key !in channels else key in channels && channels[key] == ch && ch in heap
      modifies this`channels, this`waiting, this`heap, this`polls, (if ch == null then {} else {ch})`waiters
      ensures Mirrors()
      ensures w == null <==> Refuses(old(Abs()), key)
      ensures w == null ==> alloc == None && Abs() == old(Abs())
      ensures w != null ==>
        && fresh(w) && w !in old(polls)
        && (if ch == null then alloc.Some? && fresh(alloc.value) && alloc.value !in old(heap) else alloc == None)
        && var s := if ch == null then Create(old(Abs()), key, alloc.value) else old(Abs());
           Abs() == Register(s, key, s.channels[key], w)
      ensures w != null ==> key in channels && w in polls && polls[w].key == key && polls[w].ch == channels[key]
    {
      alloc := None;
      if waiting >= cfg.maxWaiters || (ch != null && |ch.waiters| >= cfg.maxPerChan) {
        return null, None;
      }
      if ch == null {
        var c := AddChannelLocked(key);
        w := AddWaiterLocked(key, c);
        alloc := Some(c);
      } else {
        w := AddWaiterLocked(key, ch);
      }
    }

    method ClearLocked(ch: Channel)
      requires Mirrors() && ch in heap
      modifies this`heap, ch`blob
      ensures Mirrors() && Abs() == ClearBlob(old(Abs()), ch)
    {
      ch.blob := None;
      heap := heap[ch := heap[ch].(blob := None)];
    }

    method PutLocked(ch: Channel, blob: Bytes, expiresAt: int)
      requires Mirrors() && ch in heap
      modifies this`heap, ch`blob, ch`expiresAt
      ensures Mirrors() && Abs() == StoreBlob(old(Abs()), ch, blob, expiresAt)
    {
      ch.blob := Some(blob);
      ch.expiresAt := expiresAt;
      heap := heap[ch := heap[ch].(blob := Some(blob), expiresAt := expiresAt)];
    }

    /** The send: it does not block because the buffer is empty. */
    method HandLocked(w: Waiter, blob: Bytes)
      requires Mirrors() && w in polls && polls[w].buf == None
      modifies this`polls, w`delivered, w`c
      ensures Mirrors() && Abs() == Send(old(Abs()), w, blob) && polls.Keys == old(polls.Keys)
    {
      w.delivered := true;
      w.c := Some(blob);
      polls := polls[w := polls[w].(delivered := true, buf := Some(blob))];
    }

    method OpenLocked(key: Key) returns (ch: Channel, ghost alloc: Option<Channel>)
      requires Mirrors() && Linked(Abs())
      modifies this`channels, this`heap, heap.Keys`blob
      ensures if key in old(channels) then alloc == None && ch == old(channels)[key]
              else alloc == Some(ch) && fresh(ch) && ch !in old(heap)
      ensures key in channels && channels[key] == ch && ch in heap
      ensures heap.Keys == old(heap.Keys) + (if alloc.Some? then {ch} else {})
      ensures Mirrors() && Abs() == OpenChannel(old(Abs()), key, alloc)
    {
      alloc := None;
      if key !in channels {
        ch := AddChannelLocked(key);
        alloc := Some(ch);
      } else {
        ch := channels[key];
        ClearLocked(ch);
      }
    }

    method DepositLocked(key: Key, blob: Bytes, expiresAt: int)
      returns (ghost alloc: Option<Channel>, ghost pick: Option<Waiter>)
      requires Valid() && !closed
      modifies this, heap.Keys, polls.Keys
      ensures Chosen(old(Abs()), key, alloc, pick) && (alloc.Some? ==> fresh(alloc.value))
      ensures Mirrors() && Abs() == Deposit(old(Abs()), key, blob, expiresAt, alloc, pick)
      ensures fresh(heap.Keys - old(heap.Keys)) && polls.Keys == old(polls.Keys)
    {
      ghost var s := Abs();
      hide Inv, Linked, Mirrors, Deactivate, OpenChannel, StoreBlob, Send, Gc, Chosen;
      var ch;
      ch, alloc := OpenLocked(key);
      OpenChannelKeeps(s, key, alloc);
      var w := TakeWaiterLocked(ch);
      pick := if w == null then None else Some(w);
      ChosenOnceOpen(s, key, alloc, pick);
      DepositFrame(s, key, blob, expiresAt, alloc, pick);
      if w != null {
        ListedBufferIsEmpty(OpenChannel(s, key, alloc), ch, w);
        assert polls[w].buf == None by { DeactivatedBuffer(OpenChannel(s, key, alloc), ch, w); }
        HandLocked(w, blob);
        GcLocked(key, ch);
      } else {
        PutLocked(ch, blob, expiresAt);
      }
    }

    method Post(id: Option<Key>, blob: Bytes, now: int)
      returns (reason: Reason, ghost alloc: Option<Channel>, ghost pick: Option<Waiter>)
      requires Valid()
      modifies this, heap.Keys, polls.Keys
      ensures Valid() && PostEnabled(old(Abs()), id, blob, now, alloc, pick)
      ensures (Abs(), reason) == PostStep(old(Abs()), id, blob, now, alloc, pick)
      ensures fresh(heap.Keys - old(heap.Keys)) && polls.Keys == old(polls.Keys)
    {
      alloc, pick := None, None;
      ghost var s := Abs();
      hide Inv, Linked, Mirrors, Kept, Deposit, PostStep, PostEnabled, Chosen, Sweep;
      if id.None? {
        RefusedPost(s, id, blob, now);
        return BadChannel, alloc, pick;
      }
      if |blob| > cfg.maxBlob {
        RefusedPost(s, id, blob, now);
        return TooLarge, alloc, pick;
      }
      if closed {
        RefusedPost(s, id, blob, now);
        return RateLimited, alloc, pick;
      }
      if |channels| >= sweepAt {
        SweepLocked(now);
      }
      SweepKeeps(s, now);
      var key := id.value;
      HoldsIsHeld(key, now);
      if key in channels && channels[key].Holds(now) {
        RefusedPost(s, id, blob, now);
        return Conflict, alloc, pick;
      }
      assert PostView(s, id, blob, now).Some?;
      alloc, pick := DepositLocked(key, blob, now + cfg.ttl);
      DepositingPost(s, id, blob, now, alloc, pick);
      return Stored, alloc, pick;
    }

    /** Get up to its select: an answer, or a waiter w on the channel struct ch. */
    method GetEnter(id: Option<Key>, now: int)
      returns (w: Waiter?, ch: Channel?, reason: Reason, blob: Option<Bytes>, ghost alloc: Option<Channel>)
      requires Valid()
      modifies this, heap.Keys
      ensures Valid() && EnterEnabled(old(Abs()), id, now, alloc, if w == null then None else Some(w))
      ensures (Abs(), if w == null then Answer(reason, blob) else Silent)
              == EnterStep(old(Abs()), id, now, alloc, if w == null then None else Some(w))
      ensures w != null ==> fresh(w) && id.Some? && w in polls && polls[w].key == id.value && polls[w].ch == ch
    {
      w, ch, blob, alloc := null, null, None, None;
      ghost var s := Abs();
      hide Inv, Linked, Mirrors, EnterStep, EnterEnabled, Gc, Create, Register, Refuses, MustWait;
      if id.None? {
        BadEnter(s, id, now);
        return null, null, BadChannel, None, None;
      }
      if closed {
        BadEnter(s, id, now);
        return null, null, RateLimited, None, None;
      }
      var key := id.value;
      HoldsIsHeld(key, now);
      ch := if key in channels then channels[key] else null;
      if ch != null {
        if ch.Holds(now) {
          ImmediateEnter(s, key, now);
          blob := ch.blob;
          ClearLocked(ch);
          GcLocked(key, ch);
          return null, null, Delivered, blob, None;
        }
        ClearLocked(ch);
      }
      w, alloc := RegisterLocked(key, ch);
      if w == null {
        RefusedEnter(s, key, now);
        return null, null, RateLimited, None, None;
      }
      WaitingEnter(s, key, now, alloc, w);
      ch := channels[key];
      reason := Empty;
    }

    /** A waiter's goroutine receives from its buffer and returns. */
    method EmptyBuffer(w: Waiter) returns (blob: Bytes)
      requires Mirrors() && w in polls && polls[w].buf.Some?
      modifies this`polls, w`c
      ensures Mirrors() && (Abs(), Answer(Delivered, Some(blob))) == Take(old(Abs()), w)
    {
      blob := w.c.value;
      w.c := None;
      polls := polls[w := polls[w].(buf := None, phase := Returned)];
    }

    /** A waiter's goroutine moves on, without touching the store. */
    ghost method Mark(w: Waiter, phase: Phase)
      requires Mirrors() && w in polls
      modifies this`polls
      ensures Mirrors() && Abs() == SetPhase(old(Abs()), w, phase)
    {
      polls := polls[w := polls[w].(phase := phase)];
    }

    /** The select takes the waiter's buffer. */
    method Receive(w: Waiter) returns (blob: Bytes)
      requires Valid() && w in polls && polls[w].phase == Selecting && polls[w].buf.Some?
      modifies this`polls, w`c
      ensures Valid() && (Abs(), Answer(Delivered, Some(blob))) == Take(old(Abs()), w)
    {
      hide Inv, Mirrors;
      TakeKeeps(Abs(), w);
      blob := EmptyBuffer(w);
    }

    /** The select takes its timer, context or done arm. */
    ghost method Lose(w: Waiter)
      requires Valid() && w in polls && polls[w].phase == Selecting
      modifies this`polls
      ensures Valid() && Abs() == SetPhase(old(Abs()), w, Lost)
    {
      hide Inv, Mirrors;
      PhaseKeeps(Abs(), w, Lost);
      Mark(w, Lost);
    }

    /** Get's second critical section. When draining, the blob is still to be received from w. */
    method Finish(key: Key, ch: Channel, w: Waiter) returns (draining: bool, reason: Reason)
      requires Valid() && w in polls && polls[w].phase == Lost && polls[w].key == key && polls[w].ch == ch
      modifies this, ch`waiters, w`active
      ensures Valid()
      ensures (Abs(), if draining then Silent else Answer(reason, None)) == FinishStep(old(Abs()), w)
    {
      hide Inv, Mirrors, Release, SetPhase;
      ghost var s := Abs();
      WaiterIs(w);
      CapturedExists(s, w);
      draining, reason := w.delivered, Delivered;
      if draining {
        PhaseKeeps(s, w, Draining);
        Mark(w, Draining);
      } else {
        LeaveKeeps(s, w);
        ReleaseLocked(key, ch, w);
        Mark(w, Returned);
        reason := if closed then RateLimited else Empty;
      }
    }

    lemma WaiterIs(w: Waiter)
      requires Mirrors() && w in polls
      ensures polls[w].delivered == w.delivered
    {
    }

    /** The receive after a lost select: it does not block because the buffer is full. */
    method Drain(w: Waiter) returns (blob: Bytes)
      requires Valid() && w in polls && polls[w].phase == Draining
      modifies this`polls, w`c
      ensures Valid() && (Abs(), Answer(Delivered, Some(blob))) == Take(old(Abs()), w)
    {
      DrainingIsFull(Abs(), w);
      hide Inv, Mirrors;
      TakeKeeps(Abs(), w);
      blob := EmptyBuffer(w);
    }

    /** Drops some waiter of ch. */
    method UnlistOneLocked(ch: Channel, ghost h: map<Channel, Chan<Waiter>>, ghost p: map<Waiter, Poll<Channel>>)
      requires Mirrors() && ch in heap && ch.waiters != {} && ch.waiters <= polls.Keys
      requires ch in h && ch.waiters <= h[ch].waiters && heap == h[ch := h[ch].(waiters := ch.waiters)]
      requires Dropped(p, polls, h[ch].waiters - ch.waiters)
      modifies this`heap, this`polls, ch`waiters, polls.Keys`active
      ensures Mirrors() && ch in heap && ch.waiters < old(ch.waiters) && polls.Keys == old(polls.Keys)
      ensures heap == h[ch := h[ch].(waiters := ch.waiters)]
      ensures Dropped(p, polls, h[ch].waiters - ch.waiters)
    {
      hide ChannelsMirrored, WaitersMirrored, Dropped;
      ghost var left := ch.waiters;
      ChannelIs(ch);
      var w :| w in ch.waiters;
      SameKeys(p, polls, h[ch].waiters - left);
      DropOneMore(p, polls, h[ch].waiters - left, w);
      UnlistLocked(ch, w);
      ChannelIs(ch);
      UpdateTwice(h, ch, h[ch].(waiters := left), h[ch].(waiters := left - {w}));
      assert h[ch].waiters - left + {w} == h[ch].waiters - (left - {w});
    }

    /** Empties one channel's waiter set. */
    method EmptyLocked(ch: Channel)
      requires Mirrors() && ch in heap && heap[ch].waiters <= polls.Keys
      modifies this`heap, this`polls, ch`waiters, polls.Keys`active
      ensures Mirrors()
      ensures heap == old(heap)[ch := old(heap)[ch].(waiters := {})]
      ensures Dropped(old(polls), polls, old(heap)[ch].waiters)
    {
      ghost var h, p := heap, polls;
      ChannelIs(ch);
      hide ChannelsMirrored, WaitersMirrored, Dropped;
      NothingDropped(p);
      assert h == h[ch := h[ch].(waiters := ch.waiters)];
      assert h[ch].waiters - ch.waiters == {};
      while ch.waiters != {}
        invariant Mirrors() && ch in heap && polls.Keys == p.Keys
        invariant ch.waiters <= h[ch].waiters
        invariant heap == h[ch := h[ch].(waiters := ch.waiters)]
        invariant Dropped(p, polls, h[ch].waiters - ch.waiters)
        decreases ch.waiters
      {
        UnlistOneLocked(ch, h, p);
      }
      assert h[ch].waiters - {} == h[ch].waiters;
    }

    lemma ChannelIs(ch: Channel)
      requires Mirrors() && ch in heap
      ensures heap[ch].waiters == ch.waiters
    {
    }

    /** Releases the waiters of the channel under key and drops it; gone are the ones before it. */
    method CloseLocked(key: Key, ghost s: State<Channel, Waiter>, ghost gone: set<Channel>)
      requires Mirrors() && Inv(s) && key in channels && polls.Keys == s.polls.Keys && ShutSoFar(s, Abs(), gone)
      modifies this`channels, this`heap, this`polls, heap.Keys`waiters, polls.Keys`active
      ensures Mirrors() && channels == old(channels) - {key}
      ensures heap.Keys == old(heap.Keys) && polls.Keys == old(polls.Keys)
      ensures ShutSoFar(s, Abs(), gone + {old(channels)[key]})
    {
      hide Inv, ChannelsMirrored, WaitersMirrored, Vacated, Dropped, ListedIn;
      ghost var h, p := heap, polls;
      var ch := channels[key];
      ListedOneMore(s, h, gone, key);
      EmptyLocked(ch);
      VacateOneMore(s.heap, h, gone, ch);
      DropMore(s.polls, p, polls, ListedIn(s, gone), h[ch].waiters);
      SameKeys(p, polls, h[ch].waiters);
      GoneGrows(s.channels, channels, key);
      channels := channels - {key};
    }

    /** Releases every waiter and drops every channel. */
    method CloseAllLocked()
      requires Mirrors() && Inv(Abs().(closed := false))  && closed
      modifies this`channels, this`heap, this`polls, heap.Keys`waiters, polls.Keys`active
      ensures Mirrors()
      ensures Abs().(waiting := 0) == ShutdownStep(old(Abs()).(closed := false))
    {
      hide Inv, ChannelsMirrored, WaitersMirrored, ShutdownStep, ShutSoFar;
      ghost var s := Abs().(closed := false);
      ghost var gone := {};
      NothingShut(s, Abs());
      while channels != map[]
        invariant Mirrors() && heap.Keys == s.heap.Keys && polls.Keys == s.polls.Keys
        invariant ShutSoFar(s, Abs(), gone)
        decreases channels.Keys
      {
        var key :| key in channels;
        ghost var ch := channels[key];
        CloseLocked(key, s, gone);
        gone := gone + {ch};
      }
      AllShut(s, Abs(), gone);
    }

    method ResetWaiting()
      requires Mirrors()
      modifies this`waiting
      ensures Mirrors() && Abs() == old(Abs()).(waiting := 0)
    {
      waiting := 0;
    }

    method Shutdown()
      requires Valid()
      modifies this, heap.Keys, polls.Keys
      ensures Valid() && Abs() == ShutdownStep(old(Abs()))
    {
      ghost var s := Abs();
      ShutdownKeeps(s);
      hide Inv, ShutdownStep;
      if closed {
        AlreadyShut(s);
        return;
      }
      closed := true;
      assert Abs().(closed := false) == s;
      CloseAllLocked();
      ResetWaiting();
    }
  }
}
