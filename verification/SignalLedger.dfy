/**
 Conservation of blobs. A ledger follows a run and says, for every blob accepted
 with Stored, where it is: in its channel's slot, in one waiter's buffer, returned
 by one Get, or discarded and why. LedgerOk ties the ledger to the store in both
 directions, so nothing is in the store that the ledger does not place there.
 */
module SignalLedger {
  import opened Base
  import opened SignalModel
  import opened SignalInvariant
  import opened SignalRuns
  import opened SignalContents

  /** One accepted Post. */
  datatype Entry = Entry(key: Key, blob: Bytes, expiry: int)

  /** One delivery: the key the Get asked for, the bytes it returned, and the Post they came from. */
  datatype Return = Return(key: Key, blob: Bytes, origin: nat)

  datatype Fate<W> = InSlot(key: Key) | InBuffer(w: W) | ReturnedAs(ret: nat) | Expired(at: int) | Drained

  datatype Ledger<W(==)> = Ledger(
    entries: seq<Entry>,
    fates: seq<Fate<W>>,
    slot: map<Key, nat>,
    buf: map<W, nat>,
    handed: seq<Return>)

  function Blank<W(==)>(): Ledger<W> {
    Ledger([], [], map[], map[], [])
  }

  /** The entries in the slots under ks meet the given end. */
  function DropSlots<W>(l: Ledger<W>, ks: set<Key>, fate: Fate<W>): Ledger<W> {
    l.(fates := seq(|l.fates|, i requires 0 <= i < |l.fates| =>
                      if l.fates[i].InSlot? && l.fates[i].key in ks then fate else l.fates[i]),
       slot := l.slot - ks)
  }

  function Append<W>(l: Ledger<W>, entry: Entry, pick: Option<W>): Ledger<W> {
    var i := |l.entries|;
    if pick.Some?
    then l.(entries := l.entries + [entry], fates := l.fates + [InBuffer(pick.value)], buf := l.buf[pick.value := i])
    else l.(entries := l.entries + [entry], fates := l.fates + [InSlot(entry.key)], slot := l.slot[entry.key := i])
  }

  function ReturnEntry<W>(l: Ledger<W>, i: nat): Ledger<W>
    requires |l.entries| == |l.fates| && i < |l.fates|
  {
    l.(fates := l.fates[i := ReturnedAs(|l.handed|)],
       handed := l.handed + [Return(l.entries[i].key, l.entries[i].blob, i)])
  }

  function ReturnSlot<W>(l: Ledger<W>, key: Key): Ledger<W>
    requires |l.entries| == |l.fates|
  {
    if key in l.slot && l.slot[key] < |l.entries|
    then ReturnEntry(l, l.slot[key]).(slot := l.slot - {key}) else l
  }

  function ReturnBuffer<W>(l: Ledger<W>, w: W): Ledger<W>
    requires |l.entries| == |l.fates|
  {
    if w in l.buf && l.buf[w] < |l.entries|
    then ReturnEntry(l, l.buf[w]).(buf := l.buf - {w}) else l
  }

  /** The ledger after the step e from s. */
  ghost function Record<C, W>(l: Ledger<W>, s: State<C, W>, e: Event<C, W>): Ledger<W>
    requires Linked(s) && Enabled(s, e) && |l.entries| == |l.fates|
  {
    match e
    case Post(id, blob, now, alloc, pick) =>
      if id.None? || |blob| > s.cfg.maxBlob || s.closed then l
      else if PostView(s, id, blob, now).None? then DropSlots(l, SweptKeys(s, now), Expired(now))
      else Append(DropSlots(l, SweptKeys(s, now) + {id.value}, Expired(now)),
                  Entry(id.value, blob, now + s.cfg.ttl), pick)
    case Enter(id, now, alloc, reader) =>
      if id.None? || s.closed then l
      else if id.value in s.channels && Held(s.heap[s.channels[id.value]], now) then ReturnSlot(l, id.value)
      else DropSlots(l, {id.value}, Expired(now))
    case Receive(w) => ReturnBuffer(l, w)
    case Drain(w) => ReturnBuffer(l, w)
    case Lose(w) => l
    case Finish(w) => l
    case Shutdown => DropSlots(l, s.channels.Keys, Drained)
  }

  // What the ledger says about the store, and about itself.

  ghost predicate SlotsOk<C, W>(l: Ledger<W>, s: State<C, W>) {
    && |l.fates| == |l.entries|
    && (forall k :: k in l.slot ==>
          && l.slot[k] < |l.entries|
          && l.entries[l.slot[k]].key == k
          && SlotOf(s, k) == Some(Content(l.entries[l.slot[k]].blob, l.entries[l.slot[k]].expiry)))
    && (forall k :: SlotOf(s, k).Some? ==> k in l.slot)
  }

  ghost predicate BuffersMatch<C, W>(l: Ledger<W>, s: State<C, W>) {
    && (forall w :: w in l.buf ==>
          && l.buf[w] < |l.entries|
          && w in s.polls
          && s.polls[w].key == l.entries[l.buf[w]].key
          && s.polls[w].buf == Some(l.entries[l.buf[w]].blob))
    && (forall w :: w in s.polls && s.polls[w].buf.Some? ==> w in l.buf)
  }

  ghost predicate FatesOk<W>(l: Ledger<W>, closed: bool) {
    && |l.fates| == |l.entries|
    && (forall k :: k in l.slot ==> l.slot[k] < |l.fates| && l.fates[l.slot[k]] == InSlot(k))
    && (forall w :: w in l.buf ==> l.buf[w] < |l.fates| && l.fates[l.buf[w]] == InBuffer(w))
    && (forall j :: 0 <= j < |l.handed| ==> ReturnOk(l, j))
    && (forall i :: 0 <= i < |l.fates| ==> FateOk(l, i, closed))
  }

  ghost predicate ReturnOk<W>(l: Ledger<W>, j: nat)
    requires j < |l.handed| && |l.fates| == |l.entries|
  {
    var r := l.handed[j];
    && r.origin < |l.entries| && l.fates[r.origin] == ReturnedAs(j)
    && l.entries[r.origin].key == r.key && l.entries[r.origin].blob == r.blob
  }

  ghost predicate FateOk<W>(l: Ledger<W>, i: nat, closed: bool)
    requires |l.entries| == |l.fates| && i < |l.fates|
  {
    match l.fates[i]
    case InSlot(k) => k in l.slot && l.slot[k] == i
    case InBuffer(w) => w in l.buf && l.buf[w] == i
    case ReturnedAs(j) => j < |l.handed| && l.handed[j].origin == i
    case Expired(at) => l.entries[i].expiry <= at
    case Drained => closed
  }

  /**
   Exactly one place for every accepted blob: its fate is one value, and each place
   of the store or return to a caller is the fate of exactly one entry.
   */
  ghost predicate LedgerOk<C, W>(l: Ledger<W>, s: State<C, W>)
    ensures LedgerOk(l, s) ==> |l.fates| == |l.entries|
  {
    SlotsOk(l, s) && BuffersMatch(l, s) && FatesOk(l, s.closed)
  }

  // The ledger operations keep FatesOk.

  lemma DropFates<W>(l: Ledger<W>, ks: set<Key>, fate: Fate<W>, closed: bool)
    requires FatesOk(l, closed)
    requires fate.Drained? || fate.Expired?
    requires fate.Expired? ==> forall k :: k in ks && k in l.slot ==> l.entries[l.slot[k]].expiry <= fate.at
    ensures FatesOk(DropSlots(l, ks, fate), closed || fate.Drained?)
  {
    var l' := DropSlots(l, ks, fate);
    var closed' := closed || fate.Drained?;
    forall i | 0 <= i < |l'.fates| ensures FateOk(l', i, closed') {
      assert FateOk(l, i, closed);
    }
    forall j | 0 <= j < |l'.handed| ensures ReturnOk(l', j) {
      assert ReturnOk(l, j);
    }
  }

  lemma AppendFates<W>(l: Ledger<W>, entry: Entry, pick: Option<W>, closed: bool)
    requires FatesOk(l, closed)
    requires if pick.Some? then pick.value !in l.buf else entry.key !in l.slot
    ensures FatesOk(Append(l, entry, pick), closed)
  {
    var l' := Append(l, entry, pick);
    forall i | 0 <= i < |l'.fates| ensures FateOk(l', i, closed) {
      if i < |l.fates| { assert FateOk(l, i, closed); }
    }
    forall j | 0 <= j < |l'.handed| ensures ReturnOk(l', j) {
      assert ReturnOk(l, j);
    }
  }

  lemma ReturnFates<W>(l: Ledger<W>, i: nat, slot: map<Key, nat>, buf: map<W, nat>, closed: bool)
    requires FatesOk(l, closed) && i < |l.fates|
    requires match l.fates[i]
             case InSlot(k) => slot == l.slot - {k} && buf == l.buf
             case InBuffer(w) => slot == l.slot && buf == l.buf - {w}
             case _ => false
    ensures FatesOk(ReturnEntry(l, i).(slot := slot, buf := buf), closed)
  {
    var l' := ReturnEntry(l, i).(slot := slot, buf := buf);
    assert FateOk(l, i, closed);
    forall n | 0 <= n < |l'.fates| ensures FateOk(l', n, closed) {
      assert FateOk(l, n, closed);
    }
    forall j | 0 <= j < |l'.handed| ensures ReturnOk(l', j) {
      if j < |l.handed| { assert ReturnOk(l, j); }
    }
  }

  // Each event keeps the ledger in step with the store.

  /** The ledger of an accepted Post: the slots it empties have expired, and its entry is new. */
  ghost function Accept<C, W>(l: Ledger<W>, s: State<C, W>, key: Key, blob: Bytes, now: int, pick: Option<W>): Ledger<W>
    requires Linked(s)
  {
    Append(DropSlots(l, SweptKeys(s, now) + {key}, Expired(now)), Entry(key, blob, now + s.cfg.ttl), pick)
  }

  lemma AcceptedSlots<C, W>(l: Ledger<W>, s: State<C, W>, id: Option<Key>, blob: Bytes, now: int,
                            alloc: Option<C>, pick: Option<W>)
    requires Inv(s) && SlotsOk(l, s) && PostEnabled(s, id, blob, now, alloc, pick)
    requires PostView(s, id, blob, now).Some?
    ensures SlotsOk(Accept(l, s, id.value, blob, now, pick), PostStep(s, id, blob, now, alloc, pick).0)
  {
    hide Inv, PostStep, PostEnabled, PostView, SlotOf, SweptKeys, SlotsOk;
    AcceptedContents(s, id, blob, now, alloc, pick);
    AppendSlots(l, s, PostStep(s, id, blob, now, alloc, pick).0, SweptKeys(s, now),
                Entry(id.value, blob, now + s.cfg.ttl), pick, now);
  }

  lemma AcceptedFates<C, W>(l: Ledger<W>, s: State<C, W>, id: Option<Key>, blob: Bytes, now: int,
                            alloc: Option<C>, pick: Option<W>)
    requires Inv(s) && LedgerOk(l, s) && PostEnabled(s, id, blob, now, alloc, pick)
    requires PostView(s, id, blob, now).Some?
    ensures FatesOk(Accept(l, s, id.value, blob, now, pick), s.closed)
  {
    hide Inv, PostStep, PostEnabled, PostView, SlotOf, SweptKeys, SlotsOk, BuffersMatch, FatesOk;
    var ks := SweptKeys(s, now) + {id.value};
    AcceptedContents(s, id, blob, now, alloc, pick);
    PostPolls(s, id, blob, now, alloc, pick);
    SweptHaveExpired(s, now);
    DropsMeet(l, s, ks, now);
    DropFates(l, ks, Expired(now), s.closed);
    NotBuffered(l, s, pick);
    AppendFates(DropSlots(l, ks, Expired(now)), Entry(id.value, blob, now + s.cfg.ttl), pick, s.closed);
  }

  lemma AcceptedBuffers<C, W>(l: Ledger<W>, s: State<C, W>, id: Option<Key>, blob: Bytes, now: int,
                              alloc: Option<C>, pick: Option<W>)
    requires Inv(s) && BuffersMatch(l, s) && PostEnabled(s, id, blob, now, alloc, pick)
    requires PostView(s, id, blob, now).Some?
    ensures BuffersMatch(Accept(l, s, id.value, blob, now, pick), PostStep(s, id, blob, now, alloc, pick).0)
  {
    hide Links, Counts, PostStep, PostEnabled, PostView, SweptKeys;
    PostPolls(s, id, blob, now, alloc, pick);
  }

  lemma AcceptedRecorded<C, W>(l: Ledger<W>, s: State<C, W>, id: Option<Key>, blob: Bytes, now: int,
                               alloc: Option<C>, pick: Option<W>)
    requires Inv(s) && LedgerOk(l, s) && PostEnabled(s, id, blob, now, alloc, pick)
    requires PostView(s, id, blob, now).Some?
    ensures LedgerOk(Accept(l, s, id.value, blob, now, pick), PostStep(s, id, blob, now, alloc, pick).0)
  {
    hide Inv, PostStep, PostEnabled, PostView, SlotsOk, BuffersMatch, FatesOk, Accept;
    AcceptedSlots(l, s, id, blob, now, alloc, pick);
    AcceptedFates(l, s, id, blob, now, alloc, pick);
    AcceptedBuffers(l, s, id, blob, now, alloc, pick);
    PostFrame(s, id, blob, now, alloc, pick);
  }

  lemma PostRecorded<C, W>(l: Ledger<W>, s: State<C, W>, id: Option<Key>, blob: Bytes, now: int,
                           alloc: Option<C>, pick: Option<W>)
    requires Inv(s) && LedgerOk(l, s) && PostEnabled(s, id, blob, now, alloc, pick)
    ensures LedgerOk(Record(l, s, Post(id, blob, now, alloc, pick)), PostStep(s, id, blob, now, alloc, pick).0)
  {
    hide Inv, PostStep, PostEnabled, LedgerOk, SweptKeys, Append, DropSlots, PostView;
    if PostView(s, id, blob, now).Some? {
      AcceptedRecorded(l, s, id, blob, now, alloc, pick);
    } else {
      RefusedRecorded(l, s, id, blob, now, alloc, pick);
    }
  }

  lemma RefusedRecorded<C, W>(l: Ledger<W>, s: State<C, W>, id: Option<Key>, blob: Bytes, now: int,
                              alloc: Option<C>, pick: Option<W>)
    requires Inv(s) && LedgerOk(l, s) && PostEnabled(s, id, blob, now, alloc, pick)
    requires PostView(s, id, blob, now).None?
    ensures LedgerOk(Record(l, s, Post(id, blob, now, alloc, pick)), PostStep(s, id, blob, now, alloc, pick).0)
  {
    hide Inv, SlotsOk, FatesOk, SlotOf, SweptKeys, Held, Kept, SweepIfDue;
    if id.Some? && |blob| <= s.cfg.maxBlob && !s.closed {
      hide PostStep, PostEnabled, PostView, LedgerOk;
      ConflictRecorded(l, s, id, blob, now, alloc, pick);
    }
  }

  lemma ConflictRecorded<C, W>(l: Ledger<W>, s: State<C, W>, id: Option<Key>, blob: Bytes, now: int,
                               alloc: Option<C>, pick: Option<W>)
    requires Inv(s) && LedgerOk(l, s) && PostEnabled(s, id, blob, now, alloc, pick)
    requires PostView(s, id, blob, now).None? && id.Some? && |blob| <= s.cfg.maxBlob && !s.closed
    ensures LedgerOk(DropSlots(l, SweptKeys(s, now), Expired(now)), PostStep(s, id, blob, now, alloc, pick).0)
  {
    hide Inv, SlotsOk, FatesOk, SlotOf, SweptKeys, PostStep, PostEnabled, PostView, Held, Kept;
    RefusalIsConflict(s, id, blob, now, alloc, pick);
    RefusedContents(s, id, blob, now, alloc, pick);
    PostPolls(s, id, blob, now, alloc, pick);
    PostFrame(s, id, blob, now, alloc, pick);
    SweptHaveExpired(s, now);
    DropsMeet(l, s, SweptKeys(s, now), now);
    DropFates(l, SweptKeys(s, now), Expired(now), s.closed);
    KeepSlots(l, s, PostStep(s, id, blob, now, alloc, pick).0, SweptKeys(s, now), now);
  }

  lemma RefusalIsConflict<C, W>(s: State<C, W>, id: Option<Key>, blob: Bytes, now: int,
                                alloc: Option<C>, pick: Option<W>)
    requires Linked(s) && PostEnabled(s, id, blob, now, alloc, pick)
    requires PostView(s, id, blob, now).None? && id.Some? && |blob| <= s.cfg.maxBlob && !s.closed
    ensures PostStep(s, id, blob, now, alloc, pick).1 == Conflict && pick.None?
  {
    hide Held, Kept, Deposit, Sweep;
  }

  lemma DropsMeet<C, W>(l: Ledger<W>, s: State<C, W>, ks: set<Key>, now: int)
    requires SlotsOk(l, s)
    requires forall k :: k in ks && SlotOf(s, k).Some? ==> SlotOf(s, k).value.expiresAt <= now
    ensures forall k :: k in ks && k in l.slot ==> l.slot[k] < |l.entries| && l.entries[l.slot[k]].expiry <= now
  {
  }

  lemma NotBuffered<C, W>(l: Ledger<W>, s: State<C, W>, pick: Option<W>)
    requires Inv(s) && BuffersMatch(l, s)
    requires pick.Some? ==> pick.value in s.polls && s.polls[pick.value].active
    ensures pick.Some? ==> pick.value !in l.buf
  {
  }

  lemma AppendSlots<C, W>(l: Ledger<W>, s: State<C, W>, s': State<C, W>, swept: set<Key>, entry: Entry,
                          pick: Option<W>, now: int)
    requires SlotsOk(l, s)
    requires forall k :: SlotOf(s', k) ==
               if k == entry.key then (if pick.Some? then None else Some(Content(entry.blob, entry.expiry)))
               else if k in swept then None else SlotOf(s, k)
    ensures SlotsOk(Append(DropSlots(l, swept + {entry.key}, Expired(now)), entry, pick), s')
  {
    hide SlotOf;
  }

  lemma KeepSlots<C, W>(l: Ledger<W>, s: State<C, W>, s': State<C, W>, dropped: set<Key>, now: int)
    requires SlotsOk(l, s)
    requires forall k :: SlotOf(s', k) == if k in dropped then None else SlotOf(s, k)
    ensures SlotsOk(DropSlots(l, dropped, Expired(now)), s')
  {
    hide SlotOf;
  }

  lemma SweptHaveExpired<C, W>(s: State<C, W>, now: int)
    requires Inv(s)
    ensures forall k :: k in SweptKeys(s, now) && SlotOf(s, k).Some? ==> SlotOf(s, k).value.expiresAt <= now
  {
  }

  lemma UntouchedBuffers<C, W>(l: Ledger<W>, s: State<C, W>, s': State<C, W>)
    requires BuffersMatch(l, s) && BuffersUntouched(s, s')
    ensures BuffersMatch(l, s')
  {
  }

  lemma EnterRecorded<C, W>(l: Ledger<W>, s: State<C, W>, id: Option<Key>, now: int,
                            alloc: Option<C>, reader: Option<W>)
    requires Inv(s) && LedgerOk(l, s) && EnterEnabled(s, id, now, alloc, reader)
    ensures LedgerOk(Record(l, s, Enter(id, now, alloc, reader)), EnterStep(s, id, now, alloc, reader).0)
  {
    hide Inv, SlotOf, FatesOk, EnterStep, EnterEnabled, Held;
    var s' := EnterStep(s, id, now, alloc, reader).0;
    EnterContents(s, id, now, alloc, reader);
    EnterPolls(s, id, now, alloc, reader);
    UntouchedBuffers(l, s, s');
    if id.None? || s.closed { return; }
    if Immediate(s, id, now) {
      SlotReturned(l, s, s', id.value);
    } else {
      DropsMeet(l, s, {id.value}, now);
      DropFates(l, {id.value}, Expired(now), s.closed);
      KeepSlots(l, s, s', {id.value}, now);
    }
  }

  lemma SlotReturned<C, W>(l: Ledger<W>, s: State<C, W>, s': State<C, W>, key: Key)
    requires LedgerOk(l, s) && BuffersMatch(l, s') && s'.closed == s.closed && SlotOf(s, key).Some?
    requires forall k :: SlotOf(s', k) == if k == key then None else SlotOf(s, k)
    ensures LedgerOk(ReturnSlot(l, key), s')
  {
    hide FatesOk, SlotOf;
    SlotFate(l, s, key);
    ReturnFates(l, l.slot[key], l.slot - {key}, l.buf, s.closed);
  }

  lemma SlotFate<C, W>(l: Ledger<W>, s: State<C, W>, k: Key)
    requires SlotsOk(l, s) && FatesOk(l, s.closed) && SlotOf(s, k).Some?
    ensures k in l.slot && l.slot[k] < |l.fates| && l.fates[l.slot[k]] == InSlot(k)
  {
  }

  lemma TakeRecorded<C, W>(l: Ledger<W>, s: State<C, W>, w: W)
    requires Inv(s) && LedgerOk(l, s) && w in s.polls && s.polls[w].buf.Some?
    ensures LedgerOk(ReturnBuffer(l, w), Take(s, w).0)
    ensures ReturnBuffer(l, w).handed == l.handed + [Return(s.polls[w].key, s.polls[w].buf.value, l.buf[w])]
  {
    hide Inv, FatesOk;
    assert l.buf[w] < |l.fates| && l.fates[l.buf[w]] == InBuffer(w) by { BufferFate(l, s, w); }
    ReturnFates(l, l.buf[w], l.slot, l.buf - {w}, s.closed);
    assert forall k :: SlotOf(Take(s, w).0, k) == SlotOf(s, k);
  }

  lemma BufferFate<C, W>(l: Ledger<W>, s: State<C, W>, w: W)
    requires BuffersMatch(l, s) && FatesOk(l, s.closed) && w in s.polls && s.polls[w].buf.Some?
    ensures w in l.buf && l.buf[w] < |l.fates| && l.fates[l.buf[w]] == InBuffer(w)
  {
  }

  /** Losing the select and leaving touch no blob: what was handed over stays handed over. */
  lemma LeaveRecorded<C, W>(l: Ledger<W>, s: State<C, W>, e: Event<C, W>)
    requires Inv(s) && LedgerOk(l, s) && Enabled(s, e) && (e.Lose? || e.Finish?)
    ensures LedgerOk(l, Step(s, e).0)
  {
    hide Inv, FatesOk, FinishStep, BuffersMatch;
    if e.Finish? {
      FinishContents(s, e.w);
      FinishPolls(s, e.w);
    } else {
      assert forall k :: SlotOf(Step(s, e).0, k) == SlotOf(s, k);
    }
    UntouchedBuffers(l, s, Step(s, e).0);
  }

  lemma SameBuffers<C, W>(l: Ledger<W>, l': Ledger<W>, s: State<C, W>, s': State<C, W>)
    requires BuffersMatch(l, s) && s'.polls == s.polls && l'.entries == l.entries && l'.buf == l.buf
    ensures BuffersMatch(l', s')
  {
  }

  lemma AllDropped<C, W>(l: Ledger<W>, s: State<C, W>, s': State<C, W>)
    requires SlotsOk(l, s) && s'.channels == map[]
    ensures SlotsOk(DropSlots(l, s.channels.Keys, Drained), s')
  {
  }

  lemma ShutdownRecorded<C, W>(l: Ledger<W>, s: State<C, W>)
    requires Inv(s) && LedgerOk(l, s)
    ensures LedgerOk(DropSlots(l, s.channels.Keys, Drained), ShutdownStep(s))
  {
    hide Links, Buffers, FatesOk, BuffersMatch, SlotsOk;
    DropFates(l, s.channels.Keys, Drained, s.closed);
    UntouchedBuffers(l, s, ShutdownStep(s).(closed := s.closed));
    SameBuffers(l, DropSlots(l, s.channels.Keys, Drained), ShutdownStep(s).(closed := s.closed), ShutdownStep(s));
    AllDropped(l, s, ShutdownStep(s));
    assert ShutdownStep(s).closed;
  }

  /** Every step keeps the ledger true. */
  lemma StepRecorded<C, W>(l: Ledger<W>, s: State<C, W>, e: Event<C, W>)
    requires Inv(s) && LedgerOk(l, s) && Enabled(s, e)
    ensures LedgerOk(Record(l, s, e), Step(s, e).0)
  {
    hide SlotsOk, BuffersMatch, FatesOk, Links, Counts;
    match e
    case Post(id, blob, now, alloc, pick) => PostRecorded(l, s, id, blob, now, alloc, pick);
    case Enter(id, now, alloc, reader) => EnterRecorded(l, s, id, now, alloc, reader);
    case Receive(w) => TakeRecorded(l, s, w);
    case Lose(w) => LeaveRecorded(l, s, e);
    case Finish(w) => LeaveRecorded(l, s, e);
    case Drain(w) => TakeRecorded(l, s, w);
    case Shutdown => ShutdownRecorded(l, s);
  }

  // The ledger against what callers were told.

  /** The key a Get that takes part in e asked for. */
  function AskedFor<C, W>(s: State<C, W>, e: Event<C, W>): Key {
    match e
    case Enter(id, _, _, _) => if id.Some? then id.value else []
    case Receive(w) => if w in s.polls then s.polls[w].key else []
    case Drain(w) => if w in s.polls then s.polls[w].key else []
    case _ => []
  }

  /**
   An entry is added exactly when a Post answers Stored, and carries its key and bytes.
   A return is added exactly when a Get answers Delivered: its key is the one that Get
   asked for and its bytes are the ones that Get returned.
   */
  ghost predicate Tells<C, W>(l: Ledger<W>, l': Ledger<W>, s: State<C, W>, e: Event<C, W>, out: Outcome) {
    && (if out.Answer? && out.reason == Stored
        then e.Post? && e.id.Some? && l'.entries == l.entries + [Entry(e.id.value, e.blob, e.now + s.cfg.ttl)]
        else l'.entries == l.entries)
    && (if out.Answer? && out.reason == Delivered
        then && out.blob.Some? && |l'.handed| == |l.handed| + 1
             && var r := l'.handed[|l.handed|];
                r.key == AskedFor(s, e) && r.blob == out.blob.value && l'.handed == l.handed + [r]
        else l'.handed == l.handed)
  }

  lemma PostTells<C, W>(l: Ledger<W>, s: State<C, W>, e: Event<C, W>)
    requires Inv(s) && LedgerOk(l, s) && e.Post? && Enabled(s, e)
    ensures Tells(l, Record(l, s, e), s, e, Step(s, e).1)
  {
    hide Inv, LedgerOk, SlotOf, PostStep, PostEnabled, PostView, SweptKeys, Held;
    if PostView(s, e.id, e.blob, e.now).Some? {
      AcceptedContents(s, e.id, e.blob, e.now, e.alloc, e.pick);
    } else {
      RefusedContents(s, e.id, e.blob, e.now, e.alloc, e.pick);
    }
  }

  lemma EnterTells<C, W>(l: Ledger<W>, s: State<C, W>, e: Event<C, W>)
    requires Inv(s) && LedgerOk(l, s) && e.Enter? && Enabled(s, e)
    ensures Tells(l, Record(l, s, e), s, e, Step(s, e).1)
  {
    hide Inv, FatesOk, BuffersMatch, SlotOf, EnterStep, EnterEnabled, Held;
    EnterContents(s, e.id, e.now, e.alloc, e.reader);
  }

  lemma TakeTells<C, W>(l: Ledger<W>, s: State<C, W>, e: Event<C, W>)
    requires Inv(s) && LedgerOk(l, s) && (e.Receive? || e.Drain?) && Enabled(s, e)
    ensures Tells(l, Record(l, s, e), s, e, Step(s, e).1)
  {
    hide Inv, FatesOk, SlotsOk;
    NeverBlocks(s, e);
    TakeRecorded(l, s, e.w);
  }

  lemma QuietTells<C, W>(l: Ledger<W>, s: State<C, W>, e: Event<C, W>)
    requires Inv(s) && LedgerOk(l, s) && (e.Lose? || e.Finish? || e.Shutdown?) && Enabled(s, e)
    ensures Tells(l, Record(l, s, e), s, e, Step(s, e).1)
  {
    hide Inv, LedgerOk, Release, ShutdownStep;
  }

  lemma LedgerTellsOutcomes<C, W>(l: Ledger<W>, s: State<C, W>, e: Event<C, W>)
    requires Inv(s) && LedgerOk(l, s) && Enabled(s, e)
    ensures Tells(l, Record(l, s, e), s, e, Step(s, e).1)
  {
    hide Inv, LedgerOk, Enabled, Step, Record, Tells;
    match e
    case Post(_, _, _, _, _) => PostTells(l, s, e);
    case Enter(_, _, _, _) => EnterTells(l, s, e);
    case Receive(_) => TakeTells(l, s, e);
    case Drain(_) => TakeTells(l, s, e);
    case _ => QuietTells(l, s, e);
  }

  /** How the place of one blob may change in one step. */
  ghost predicate Moves<C, W>(from: Fate<W>, to: Fate<W>, e: Event<C, W>) {
    match from
    case InSlot(k) =>
      || to == from
      || (to.ReturnedAs? && e.Enter? && e.id == Some(k))
      || ((e.Post? || e.Enter?) && to == Expired(e.now))
      || (to.Drained? && e.Shutdown?)
    case InBuffer(w) => to == from || (to.ReturnedAs? && (e == Receive(w) || e == Drain(w)))
    case _ => to == from
  }

  /**
   A blob leaves a slot only by delivery, by a step at or past its expiry, or by Shutdown;
   once in a waiter's buffer it can only be returned by that waiter's Get; and a blob that
   was returned or discarded stays so.
   */
  lemma BlobsMove<C, W>(l: Ledger<W>, s: State<C, W>, e: Event<C, W>, i: nat)
    requires Inv(s) && LedgerOk(l, s) && Enabled(s, e) && i < |l.fates|
    ensures var l' := Record(l, s, e);
      && i < |l'.fates| && Moves(l.fates[i], l'.fates[i], e)
      && (l'.fates[i].Expired? ==> i < |l'.entries| && l'.entries[i].expiry <= l'.fates[i].at)
  {
    hide Inv, LedgerOk, Step, Enabled, Record, Moves;
    StepRecorded(l, s, e);
    if e.Post? { PostMoves(l, s, e, i); } else { OtherMoves(l, s, e, i); }
    ExpiredInTime(Record(l, s, e), Step(s, e).0, i);
  }

  lemma ExpiredInTime<C, W>(l: Ledger<W>, s: State<C, W>, i: nat)
    requires LedgerOk(l, s) && i < |l.fates|
    ensures l.fates[i].Expired? ==> l.entries[i].expiry <= l.fates[i].at
  {
    assert FateOk(l, i, s.closed);
  }

  lemma PostMoves<C, W>(l: Ledger<W>, s: State<C, W>, e: Event<C, W>, i: nat)
    requires Inv(s) && LedgerOk(l, s) && e.Post? && Enabled(s, e) && i < |l.fates|
    ensures i < |Record(l, s, e).fates| && Moves(l.fates[i], Record(l, s, e).fates[i], e)
  {
    hide Inv, LedgerOk, PostView, PostEnabled, SweptKeys;
  }

  lemma OtherMoves<C, W>(l: Ledger<W>, s: State<C, W>, e: Event<C, W>, i: nat)
    requires Inv(s) && LedgerOk(l, s) && !e.Post? && Enabled(s, e) && i < |l.fates|
    ensures i < |Record(l, s, e).fates| && Moves(l.fates[i], Record(l, s, e).fates[i], e)
  {
    hide Inv, SlotsOk, BuffersMatch, EnterEnabled, Held;
    assert FateOk(l, i, s.closed);
  }

  // Whole runs

  ghost function RunLedger<C, W>(l: Ledger<W>, s: State<C, W>, es: seq<Event<C, W>>): Ledger<W>
    requires CanRun(s, es) && |l.entries| == |l.fates|
    decreases |es|
  {
    if es == [] then l else RunLedger(Record(l, s, es[0]), Step(s, es[0]).0, es[1..])
  }

  /** In every reachable state each accepted blob is in exactly one place, and the store holds nothing else. */
  lemma {:induction false} Conservation<C, W>(l: Ledger<W>, s: State<C, W>, es: seq<Event<C, W>>)
    requires Inv(s) && LedgerOk(l, s) && CanRun(s, es)
    ensures LedgerOk(RunLedger(l, s, es), Final(s, es))
    decreases |es|
  {
    hide Inv, LedgerOk, Record, Step, Enabled;
    if es != [] {
      StepKeeps(s, es[0]);
      StepRecorded(l, s, es[0]);
      Conservation(Record(l, s, es[0]), Step(s, es[0]).0, es[1..]);
    }
  }

  lemma BlankLedger<C, W>(o: Options)
    ensures LedgerOk(Blank<W>(), Init<C, W>(Configure(o)))
  {
    assert forall k :: SlotOf(Init<C, W>(Configure(o)), k).None?;
  }

  // The same, said of what callers saw.

  /** The posts answered Stored along a run: key and bytes, in order. */
  ghost function Accepted<C, W>(s: State<C, W>, es: seq<Event<C, W>>): seq<(Key, Bytes)>
    requires CanRun(s, es)
    decreases |es|
  {
    if es == [] then []
    else (if es[0].Post? && es[0].id.Some? && Step(s, es[0]).1 == Answer(Stored, None)
          then [(es[0].id.value, es[0].blob)] else [])
         + Accepted(Step(s, es[0]).0, es[1..])
  }

  /** The gets answered Delivered along a run: the key asked for and the bytes returned, in order. */
  ghost function Deliveries<C, W>(s: State<C, W>, es: seq<Event<C, W>>): seq<(Key, Bytes)>
    requires CanRun(s, es)
    decreases |es|
  {
    if es == [] then []
    else
      var out := Step(s, es[0]).1;
      (if out.Answer? && out.reason == Delivered && out.blob.Some?
       then [(AskedFor(s, es[0]), out.blob.value)] else [])
      + Deliveries(Step(s, es[0]).0, es[1..])
  }

  function EntryPairs(entries: seq<Entry>): (r: seq<(Key, Bytes)>)
    ensures |r| == |entries|
  {
    seq(|entries|, i requires 0 <= i < |entries| => (entries[i].key, entries[i].blob))
  }

  function ReturnPairs(handed: seq<Return>): (r: seq<(Key, Bytes)>)
    ensures |r| == |handed|
  {
    seq(|handed|, i requires 0 <= i < |handed| => (handed[i].key, handed[i].blob))
  }

  lemma {:induction false} RunTells<C, W>(l: Ledger<W>, s: State<C, W>, es: seq<Event<C, W>>)
    requires Inv(s) && LedgerOk(l, s) && CanRun(s, es)
    ensures EntryPairs(RunLedger(l, s, es).entries) == EntryPairs(l.entries) + Accepted(s, es)
    ensures ReturnPairs(RunLedger(l, s, es).handed) == ReturnPairs(l.handed) + Deliveries(s, es)
    decreases |es|
  {
    hide Inv, LedgerOk, Record, Step, Enabled;
    if es != [] {
      var l1, s1 := Record(l, s, es[0]), Step(s, es[0]).0;
      StepKeeps(s, es[0]);
      StepRecorded(l, s, es[0]);
      StepTells(l, s, es[0]);
      RunTells(l1, s1, es[1..]);
    }
  }

  lemma StepTells<C, W>(l: Ledger<W>, s: State<C, W>, e: Event<C, W>)
    requires Inv(s) && LedgerOk(l, s) && Enabled(s, e)
    ensures CanRun(s, [e])
    ensures EntryPairs(Record(l, s, e).entries) == EntryPairs(l.entries) + Accepted(s, [e])
    ensures ReturnPairs(Record(l, s, e).handed) == ReturnPairs(l.handed) + Deliveries(s, [e])
  {
    hide Inv, LedgerOk, Step, Enabled, Record;
    LedgerTellsOutcomes(l, s, e);
    StoredAnswersAreBare(s, e);
  }

  lemma StoredAnswersAreBare<C, W>(s: State<C, W>, e: Event<C, W>)
    requires Inv(s) && Enabled(s, e)
    ensures Step(s, e).1.Answer? && Step(s, e).1.reason == Stored ==> Step(s, e).1.blob.None?
  {
    hide Inv;
  }

  /** Every delivery comes from a post: each from one that matches it, and no two from the same. */
  ghost predicate Matched(got: seq<(Key, Bytes)>, posts: seq<(Key, Bytes)>, origins: seq<nat>) {
    && |origins| == |got|
    && (forall j :: 0 <= j < |origins| ==> origins[j] < |posts| && got[j] == posts[origins[j]])
    && (forall i, j :: 0 <= i < j < |origins| ==> origins[i] != origins[j])
  }

  lemma Origins<W>(l: Ledger<W>, closed: bool) returns (origins: seq<nat>)
    requires FatesOk(l, closed)
    ensures Matched(ReturnPairs(l.handed), EntryPairs(l.entries), origins)
  {
    origins := seq(|l.handed|, j requires 0 <= j < |l.handed| => l.handed[j].origin);
    forall j | 0 <= j < |origins|
      ensures origins[j] < |l.entries| && ReturnPairs(l.handed)[j] == EntryPairs(l.entries)[origins[j]]
      ensures l.fates[origins[j]] == ReturnedAs(j)
    {
      assert ReturnOk(l, j);
    }
  }

  /**
   Over any run from a new store, each delivery answers one accepted post of the same key
   with the same bytes, and no two deliveries answer the same post.
   */
  lemma DeliveredAtMostOnce<C, W>(o: Options, es: seq<Event<C, W>>) returns (origins: seq<nat>)
    requires CanRun(Init<C, W>(Configure(o)), es)
    ensures Matched(Deliveries(Init<C, W>(Configure(o)), es), Accepted(Init<C, W>(Configure(o)), es), origins)
  {
    hide Inv, Init, SlotsOk, BuffersMatch, FatesOk, Matched, CanRun;
    var s := Init<C, W>(Configure(o));
    InitInv<C, W>(o);
    BlankLedger<C, W>(o);
    Conservation(Blank<W>(), s, es);
    RunTells(Blank<W>(), s, es);
    var l := RunLedger(Blank<W>(), s, es);
    assert EntryPairs(l.entries) == Accepted(s, es) && ReturnPairs(l.handed) == Deliveries(s, es);
    origins := Origins(l, Final(s, es).closed);
  }
}
