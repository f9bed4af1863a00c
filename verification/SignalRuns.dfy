/** Runs of the signal store: any interleaving of critical sections. */
module SignalRuns {
  import opened Base
  import opened SignalModel
  import opened SignalInvariant
  import opened SignalContents

  /** es can be taken one after another from s. */
  ghost predicate CanRun<C, W>(s: State<C, W>, es: seq<Event<C, W>>)
    decreases |es|
  {
    es == [] || (Linked(s) && Enabled(s, es[0]) && CanRun(Step(s, es[0]).0, es[1..]))
  }

  function Final<C, W>(s: State<C, W>, es: seq<Event<C, W>>): State<C, W>
    requires CanRun(s, es)
    decreases |es|
  {
    if es == [] then s else Final(Step(s, es[0]).0, es[1..])
  }

  function Outcomes<C, W>(s: State<C, W>, es: seq<Event<C, W>>): (os: seq<Outcome>)
    requires CanRun(s, es)
    ensures |os| == |es|
    decreases |es|
  {
    if es == [] then [] else [Step(s, es[0]).1] + Outcomes(Step(s, es[0]).0, es[1..])
  }

  /** The invariant holds in every reachable state, whatever the clock readings. */
  lemma {:induction false} RunKeeps<C, W>(s: State<C, W>, es: seq<Event<C, W>>)
    requires Inv(s) && CanRun(s, es)
    ensures Inv(Final(s, es))
    decreases |es|
  {
    if es != [] {
      StepKeeps(s, es[0]);
      RunKeeps(Step(s, es[0]).0, es[1..]);
    }
  }

  // Draining after Shutdown

  /** What a Get that is still open has to go through when the store has been shut down. */
  function WayOut<C, W>(s: State<C, W>, w: W): (es: seq<Event<C, W>>)
    requires w in s.polls
    ensures es == [] <==> s.polls[w].phase == Returned
  {
    match s.polls[w].phase
    case Selecting => [Lose(w), Finish(w)] + if s.polls[w].delivered then [Drain(w)] else []
    case Lost => [Finish(w)] + if s.polls[w].delivered then [Drain(w)] else []
    case Draining => [Drain(w)]
    case Returned => []
  }

  /** Every open Get can finish: with its blob if it was handed one, and refused otherwise. */
  lemma EveryGetFinishes<C, W>(s: State<C, W>, w: W)
    requires Inv(s) && s.closed && w in s.polls && s.polls[w].phase != Returned
    ensures CanRun(s, WayOut(s, w))
    ensures w in Final(s, WayOut(s, w)).polls && Final(s, WayOut(s, w)).polls[w].phase == Returned
    ensures var last := Outcomes(s, WayOut(s, w))[|WayOut(s, w)| - 1];
            last == if s.polls[w].buf.Some? then Answer(Delivered, s.polls[w].buf) else Answer(RateLimited, None)
    decreases |WayOut(s, w)|
  {
    hide Links, Counts;
    var e := WayOut(s, w)[0];
    var s1 := Step(s, e).0;
    StepKeeps(s, e);
    assert WayOut(s, w)[1..] == WayOut(s1, w);
    if WayOut(s1, w) != [] { EveryGetFinishes(s1, w); }
  }

  /** Once the store is shut down no step answers Empty, and no step answers Stored. */
  lemma NoEmptyOnceClosed<C, W>(s: State<C, W>, e: Event<C, W>)
    requires Inv(s) && s.closed && Enabled(s, e)
    ensures Step(s, e).1.Answer? ==> Step(s, e).1.reason != Empty && Step(s, e).1.reason != Stored
    ensures Step(s, e).0.closed
  {
  }

  lemma RunNext<C, W>(s: State<C, W>, e: Event<C, W>, es: seq<Event<C, W>>)
    requires Linked(s) && Enabled(s, e) && CanRun(Step(s, e).0, es)
    ensures CanRun(s, [e] + es) && Final(s, [e] + es) == Final(Step(s, e).0, es)
    ensures Outcomes(s, [e] + es) == [Step(s, e).1] + Outcomes(Step(s, e).0, es)
  {
    hide Step, Enabled, Linked;
    assert ([e] + es)[0] == e && ([e] + es)[1..] == es;
  }

  // A channel that holds nothing

  const ONE_READER: Options := Options(0, 0, 0, 1, 0)

  /** A reader takes the only place, a blob is posted elsewhere, and a Get comes for it as it expires. */
  function LateGet(k: Key, l: Key, blob: Bytes): seq<Event<int, int>> {
    [Enter(Some(k), 0, Some(0), Some(0)), Post(Some(l), blob, 0, Some(1), None), Enter(Some(l), MAX_TTL, None, None)]
  }

  function OneReading(k: Key): State<int, int> {
    State(Configure(ONE_READER), map[k := 0], map[0 := Chan(None, 0, {0})],
          map[0 := Poll(k, 0, None, false, true, Selecting)], 1, MIN_SWEEP_CHANNELS, false)
  }

  function OnePosted(k: Key, l: Key, blob: Bytes): State<int, int> {
    State(Configure(ONE_READER), map[k := 0, l := 1], map[0 := Chan(None, 0, {0}), 1 := Chan(Some(blob), MAX_TTL, {})],
          map[0 := Poll(k, 0, None, false, true, Selecting)], 1, MIN_SWEEP_CHANNELS, false)
  }

  lemma ReaderWaits(k: Key)
    ensures var s, e := Init<int, int>(Configure(ONE_READER)), Event<int, int>.Enter(Some(k), 0, Some(0), Some(0));
      Inv(s) && Enabled(s, e) && Step(s, e) == (OneReading(k), Silent)
  {
    var s := Init<int, int>(Configure(ONE_READER));
    InitInv<int, int>(ONE_READER);
    hide Inv;
    var s1 := EnterStep(s, Some(k), 0, Some(0), Some(0)).0;
    assert s1.channels == OneReading(k).channels;
    assert s1.heap[0].waiters == {0};
    assert s1.heap == OneReading(k).heap;
    assert s1.polls == OneReading(k).polls;
  }

  lemma OtherIsPosted(k: Key, l: Key, blob: Bytes)
    requires k != l && |blob| <= MAX_BLOB_BYTES && Linked(OneReading(k))
    ensures var s, e := OneReading(k), Event<int, int>.Post(Some(l), blob, 0, Some(1), None);
      Enabled(s, e) && Step(s, e) == (OnePosted(k, l, blob), Answer(Stored, None))
  {
    var s := OneReading(k);
    assert !SweepDue(s);
    hide Sweep, Kept;
    var s2 := PostStep(s, Some(l), blob, 0, Some(1), None).0;
    assert s2.channels == OnePosted(k, l, blob).channels;
    assert s2.heap == OnePosted(k, l, blob).heap;
  }

  lemma GetIsLate(k: Key, l: Key, blob: Bytes)
    requires k != l && Inv(OnePosted(k, l, blob))
    ensures var s, e := OnePosted(k, l, blob), Event<int, int>.Enter(Some(l), MAX_TTL, None, None);
      && Enabled(s, e) && Step(s, e).1 == Answer(RateLimited, None)
      && l in Step(s, e).0.channels && Step(s, e).0.channels[l] in Step(s, e).0.heap
      && Step(s, e).0.heap[Step(s, e).0.channels[l]] == Chan(None, MAX_TTL, {})
  {
    RefusedGetTrace(OnePosted(k, l, blob), l, MAX_TTL);
    hide Inv, EnterStep, EnterEnabled;
  }

  /**
   The trace a refused Get leaves is reached from a new store: that Get is turned away by the cap, and its
   channel stays mapped with neither a blob nor a waiter.
   */
  lemma EmptyChannelIsReachable(k: Key, l: Key, blob: Bytes)
    requires k != l && |blob| <= MAX_BLOB_BYTES
    ensures var s, es := Init<int, int>(Configure(ONE_READER)), LateGet(k, l, blob);
      && CanRun(s, es) && Outcomes(s, es) == [Silent, Answer(Stored, None), Answer(RateLimited, None)]
      && var s' := Final(s, es);
         l in s'.channels && s'.channels[l] in s'.heap && s'.heap[s'.channels[l]] == Chan(None, MAX_TTL, {})
  {
    var es := LateGet(k, l, blob);
    var s, s1, s2 := Init<int, int>(Configure(ONE_READER)), OneReading(k), OnePosted(k, l, blob);
    hide Inv, Enabled, Step, Init, OneReading, OnePosted, Linked, CanRun, Final, Outcomes;
    ReaderWaits(k);
    StepKeeps(s, es[0]);
    OtherIsPosted(k, l, blob);
    StepKeeps(s1, es[1]);
    GetIsLate(k, l, blob);
    assert [es[2]] + [] == [es[2]] && [es[1]] + [es[2]] == [es[1], es[2]] && [es[0]] + [es[1], es[2]] == es;
    RunEnds(Step(s2, es[2]).0);
    RunNext(s2, es[2], []);
    RunNext(s1, es[1], [es[2]]);
    RunNext(s, es[0], [es[1], es[2]]);
  }

  lemma RunEnds<C, W>(s: State<C, W>)
    ensures CanRun<C, W>(s, []) && Final<C, W>(s, []) == s && Outcomes<C, W>(s, []) == []
  {
  }
}
