/**
 The cost of the opportunistic sweep. A sweep visits every channel in the map; over
 any run, and for any clock, those visits number at most twice the channels created.
 */
module SignalCost {
  import opened Base
  import opened SignalModel
  import opened SignalInvariant
  import opened SignalContents
  import opened SignalRuns

  /** The channels a sweep in this step visits. */
  function Visited<C, W>(s: State<C, W>, e: Event<C, W>): nat {
    if e.Post? && e.id.Some? && |e.blob| <= s.cfg.maxBlob && !s.closed && SweepDue(s) then |s.channels| else 0
  }

  /** The channel structs this step allocates. */
  function Created<C, W>(e: Event<C, W>): nat {
    if (e.Post? && e.alloc.Some?) || (e.Enter? && e.alloc.Some?) then 1 else 0
  }

  ghost function VisitedOver<C, W>(s: State<C, W>, es: seq<Event<C, W>>): nat
    requires CanRun(s, es)
    decreases |es|
  {
    if es == [] then 0 else Visited(s, es[0]) + VisitedOver(Step(s, es[0]).0, es[1..])
  }

  function CreatedOver<C, W>(es: seq<Event<C, W>>): nat {
    if es == [] then 0 else Created(es[0]) + CreatedOver(es[1..])
  }

  /** A step adds at most the channel it allocates; if it sweeps, sweepAt covers twice what is left. */
  lemma ChannelsGrow<C, W>(s: State<C, W>, e: Event<C, W>)
    requires Inv(s) && Enabled(s, e)
    ensures var s' := Step(s, e).0;
      if Visited(s, e) > 0 then s'.sweepAt >= 2 * (|s'.channels| - Created(e))
      else s'.sweepAt == s.sweepAt && |s'.channels| <= |s.channels| + Created(e)
  {
    hide Inv, Kept, Held, PostStep, EnterStep, PostEnabled, EnterEnabled;
    match e
    case Post(_, _, _, _, _) => PostGrows(s, e);
    case Enter(id, now, alloc, reader) =>
      EnterChannels(s, id, now, alloc, reader);
      GrownSize(s.channels, Step(s, e).0.channels, if id.Some? && alloc.Some? then {id.value} else {});
    case Finish(w) => GrownSize(s.channels, Step(s, e).0.channels, {});
    case _ =>
  }

  lemma SweepThreshold<C, W>(s: State<C, W>, now: int)
    requires Inv(s)
    ensures var s1 := SweepIfDue(s, now);
      if SweepDue(s) then |s.channels| > 0 && s1.sweepAt >= 2 * |s1.channels| else s1 == s
  {
    hide Links, Buffers, Kept;
  }

  lemma PostGrows<C, W>(s: State<C, W>, e: Event<C, W>)
    requires Inv(s) && e.Post? && Enabled(s, e)
    ensures var s' := Step(s, e).0;
      if Visited(s, e) > 0 then s'.sweepAt >= 2 * (|s'.channels| - Created(e))
      else s'.sweepAt == s.sweepAt && |s'.channels| <= |s.channels| + Created(e)
  {
    hide Inv, Kept, Held, Deposit, Sweep;
    if PostView(s, e.id, e.blob, e.now).Some? {
      AcceptedGrows(s, e.id, e.blob, e.now, e.alloc, e.pick);
    } else if e.id.Some? && |e.blob| <= s.cfg.maxBlob && !s.closed {
      SweepThreshold(s, e.now);
    }
  }

  lemma AcceptedGrows<C, W>(s: State<C, W>, id: Option<Key>, blob: Bytes, now: int, alloc: Option<C>, pick: Option<W>)
    requires Inv(s) && PostEnabled(s, id, blob, now, alloc, pick) && PostView(s, id, blob, now).Some?
    ensures var s', n := PostStep(s, id, blob, now, alloc, pick).0, if alloc.Some? then 1 else 0;
      if SweepDue(s) then |s.channels| > 0 && s'.sweepAt >= 2 * (|s'.channels| - n)
      else s'.sweepAt == s.sweepAt && |s'.channels| <= |s.channels| + n
  {
    var s1 := SweepIfDue(s, now);
    SweepThreshold(s, now);
    DepositFollows(s, id, blob, now, alloc, pick);
    hide *;
    DepositGrows(s1, id.value, blob, now + s.cfg.ttl, alloc, pick);
  }

  /** An accepted Post leaves no more channels mapped than the threshold at which the next one sweeps. */
  lemma PostStaysWithin<C, W>(s: State<C, W>, id: Option<Key>, blob: Bytes, now: int, alloc: Option<C>, pick: Option<W>)
    requires Inv(s) && PostEnabled(s, id, blob, now, alloc, pick) && PostView(s, id, blob, now).Some?
    ensures var s' := PostStep(s, id, blob, now, alloc, pick).0; |s'.channels| <= s'.sweepAt
  {
    var s1 := SweepIfDue(s, now);
    SweepThreshold(s, now);
    SweepKeeps(s, now);
    assert |s1.channels| < s1.sweepAt;
    DepositFollows(s, id, blob, now, alloc, pick);
    hide *;
    DepositGrows(s1, id.value, blob, now + s.cfg.ttl, alloc, pick);
  }

  lemma DepositGrows<C, W>(s: State<C, W>, key: Key, blob: Bytes, expiresAt: int, alloc: Option<C>, pick: Option<W>)
    requires (key in s.channels ==> s.channels[key] in s.heap && alloc.None?) && (key !in s.channels ==> alloc.Some?)
    requires pick.Some? ==> pick.value in s.polls
    ensures var s' := Deposit(s, key, blob, expiresAt, alloc, pick);
      |s'.channels| <= |s.channels| + (if alloc.Some? then 1 else 0) && s'.sweepAt == s.sweepAt
  {
    DepositChannels(s, key, blob, expiresAt, alloc, pick);
    hide Deposit;
    GrownSize(s.channels, Deposit(s, key, blob, expiresAt, alloc, pick).channels, if alloc.Some? then {key} else {});
  }

  /** Where a Post is accepted, its step is the deposit after any sweep. */
  lemma DepositFollows<C, W>(s: State<C, W>, id: Option<Key>, blob: Bytes, now: int, alloc: Option<C>, pick: Option<W>)
    requires Linked(s) && PostEnabled(s, id, blob, now, alloc, pick) && PostView(s, id, blob, now).Some?
    ensures var s1 := SweepIfDue(s, now);
      && (if id.value in s1.channels then s1.channels[id.value] in s1.heap && alloc.None? else alloc.Some?)
      && (pick.Some? ==> pick.value in s1.polls)
      && PostStep(s, id, blob, now, alloc, pick).0 == Deposit(s1, id.value, blob, now + s.cfg.ttl, alloc, pick)
  {
    hide Kept, Held, Deposit, Sweep;
    SweepFrame(s, now);
    hide SweepIfDue;
  }

  lemma DepositChannels<C, W>(s: State<C, W>, key: Key, blob: Bytes, expiresAt: int, alloc: Option<C>, pick: Option<W>)
    requires (key in s.channels ==> s.channels[key] in s.heap && alloc.None?) && (key !in s.channels ==> alloc.Some?)
    requires pick.Some? ==> pick.value in s.polls
    ensures var s' := Deposit(s, key, blob, expiresAt, alloc, pick);
      s'.channels.Keys <= s.channels.Keys + (if alloc.Some? then {key} else {}) && s'.sweepAt == s.sweepAt
  {
    var s1 := OpenChannel(s, key, alloc);
    assert s1.channels.Keys == s.channels.Keys + (if alloc.Some? then {key} else {}) && s1.sweepAt == s.sweepAt;
  }

  lemma EnterChannels<C, W>(s: State<C, W>, id: Option<Key>, now: int, alloc: Option<C>, reader: Option<W>)
    requires Linked(s) && EnterEnabled(s, id, now, alloc, reader)
    ensures var s' := EnterStep(s, id, now, alloc, reader).0;
      && s'.sweepAt == s.sweepAt
      && s'.channels.Keys <= s.channels.Keys + (if id.Some? && alloc.Some? then {id.value} else {})
      && (alloc.Some? ==> id.Some?)
  {
  }

  /**
   With what was visited and created so far, sweepAt is a potential:
   visited + 2 * |channels| - sweepAt stays within twice what was created.
   */
  lemma {:induction false} SweepCost<C, W>(s: State<C, W>, es: seq<Event<C, W>>, visited: nat, created: nat)
    requires Inv(s) && CanRun(s, es)
    requires visited <= 2 * created && visited + 2 * |s.channels| - s.sweepAt <= 2 * created
    ensures visited + VisitedOver(s, es) <= 2 * (created + CreatedOver(es))
    decreases |es|
  {
    if es != [] {
      hide Inv, Enabled, Step;
      StepKeeps(s, es[0]);
      ChannelsGrow(s, es[0]);
      SweepCost(Step(s, es[0]).0, es[1..], visited + Visited(s, es[0]), created + Created(es[0]));
    }
  }

  /** From a new store: at most two visits for each channel that Post and Get create. */
  lemma SweepsAreAmortised<C, W>(o: Options, es: seq<Event<C, W>>)
    requires CanRun(Init<C, W>(Configure(o)), es)
    ensures VisitedOver(Init<C, W>(Configure(o)), es) <= 2 * CreatedOver(es)
  {
    InitInv<C, W>(o);
    SweepCost(Init<C, W>(Configure(o)), es, 0, 0);
  }
}
