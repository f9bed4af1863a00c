/** The limiter object: the table updated in place under its mutex, proved against the functions of RateLimit. */
module RateLimiter {
  import opened Base
  import opened RateLimit

  class TableState {
    var keys: map<Key, Counter>
    var nextSweep: int

    constructor ()
      ensures keys == map[] && nextSweep == 0
    {
      keys, nextSweep := map[], 0;
    }

    function Abs(): Table
      reads this
    {
      Table(keys, nextSweep)
    }

    /** Go visits the entries in no particular order and deletes as it goes. */
    method SweepLocked(now: int, window: int, interval: int)
      modifies this
      ensures keys == Current(old(keys), now, window) && nextSweep == now + interval
    {
      var unvisited := keys.Keys;
      while unvisited != {}
        invariant unvisited <= keys.Keys <= old(keys).Keys
        invariant forall k :: k in keys ==>
                    keys[k] == old(keys)[k] && (k in unvisited || Live(keys[k].start, now, window))
        invariant forall k :: k in old(keys) && Live(old(keys)[k].start, now, window) ==> k in keys
        decreases unvisited
      {
        var k :| k in unvisited;
        unvisited := unvisited - {k};
        if !Live(keys[k].start, now, window) {
          keys := keys - {k};
        }
      }
      nextSweep := now + interval;
    }
  }

  class Limiter {
    var limits: seq<int>
    var window: int
    var sweepInterval: int
    var maxKeys: int
    var state: TableState?

    function Settings(): Config
      reads this
    {
      Config(limits, window, sweepInterval, maxKeys)
    }

    /** Only New makes a limiter with a table, kept within its bounds; the zero value has limits of zero. */
    ghost predicate Usable()
      reads this, state
    {
      && (state == null ==> limits == [0, 0, 0])
      && (state != null ==> RateLimit.Valid(Settings()) && TableOk(Settings(), state.Abs()))
    }

    constructor Zero()
      ensures Usable() && state == null
    {
      limits, window, sweepInterval, maxKeys, state := [0, 0, 0], 0, 0, 0, null;
    }

    constructor New(opts: Options)
      ensures Usable() && state != null && fresh(state)
      ensures Settings() == Configure(opts) && state.Abs() == Table(map[], 0)
    {
      var w := OrDefault(opts.window, DEFAULT_WINDOW);
      window := w;
      maxKeys := OrDefault(opts.maxKeys, DEFAULT_MAX_KEYS);
      limits := [OrDefault(opts.putRecord, DEFAULT_LIMIT), OrDefault(opts.getRecord, DEFAULT_LIMIT),
                 OrDefault(opts.signal, DEFAULT_LIMIT)];
      sweepInterval := w / SWEEP_DIVISOR;
      if w / SWEEP_DIVISOR <= 0 {
        sweepInterval := w;
      }
      var t := new TableState();
      state := t;
    }

    method Allow(addr: Addr, c: int, now: int) returns (ok: bool)
      requires Usable()
      modifies state
      ensures Usable()
      ensures state == null ==> !ok
      ensures state != null ==> (state.Abs(), ok) == RateLimit.Allow(Settings(), old(state.Abs()), addr, c, now)
    {
      if c < 0 || c >= NUM_CLASSES { return false; }
      if addr == NoAddr { return false; }
      var limit := limits[c];
      if limit < 1 { return false; }
      var t := state;
      if t == null { return false; }
      AllowKeeps(Settings(), t.Abs(), addr, c, now);
      ok := Locked(t, MakeKey(addr, c), limit, now);
    }

    /** The part of Allow that holds the mutex. */
    method Locked(t: TableState, k: Key, limit: int, now: int) returns (ok: bool)
      requires t == state && RateLimit.Valid(Settings())
      modifies t
      ensures (t.Abs(), ok) == Decide(Settings(), old(t.Abs()), k, limit, now)
    {
      var swept := false;
      if now >= t.nextSweep {
        t.SweepLocked(now, window, sweepInterval);
        swept := true;
      }
      if k in t.keys && Live(t.keys[k].start, now, window) {
        if t.keys[k].n >= limit { return false; }
        t.keys := t.keys[k := Counter(t.keys[k].start, t.keys[k].n + 1)];
        return true;
      }
      if k !in t.keys && |t.keys| >= maxKeys {
        if !swept { t.SweepLocked(now, window, sweepInterval); }
        if |t.keys| >= maxKeys { return false; }
      }
      t.keys := t.keys[k := Counter(now, 1)];
      return true;
    }

    method Sweep(now: int)
      requires Usable()
      modifies state
      ensures Usable()
      ensures state != null ==> state.Abs() == SweepAt(Settings(), old(state.Abs()), now)
    {
      var t := state;
      if t == null { return; }
      SweepKeeps(Settings(), t.Abs(), now);
      t.SweepLocked(now, window, sweepInterval);
    }

    /** What an operator sizes the bound against: never over it, nor under the windows current at any time. */
    method TrackedKeys() returns (n: nat)
      requires Usable()
      ensures state == null ==> n == 0
      ensures state != null ==> n <= maxKeys
      ensures state != null ==> forall now: int :: |Current(state.keys, now, window)| <= n
      ensures state != null ==> (n == 0 <==> state.keys == map[])
      ensures state != null ==> forall now: int ::
                Current(state.keys, now, window) == state.keys ==> n == |Current(state.keys, now, window)|
    {
      if state == null { return 0; }
      n := |state.keys|;
      forall now: int ensures |Current(state.keys, now, window)| <= n {
        SubsetSize(Current(state.keys, now, window).Keys, state.keys.Keys);
      }
    }
  }
}
