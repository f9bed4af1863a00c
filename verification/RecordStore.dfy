/** The store object: one table of rows, changed by each statement, proved against the functions of Records. */
module RecordStore {
  import opened Base
  import opened Query
  import opened Records

  class Store {
    var rows: Table

    ghost predicate Valid()
      reads this
    {
      TableOk(rows)
    }

    constructor Open()
      ensures Valid() && rows == map[]
    {
      rows := map[];
    }

    method Put(rec: Record, now: int64) returns (r: PutResult)
      requires Valid()
      modifies this
      ensures Valid() && (rows, r) == Records.Put(old(rows), rec, now)
    {
      if |rec.id| != ID_LEN { return BadIdLength; }
      if |rec.envelope| == 0 { return EmptyEnvelope; }
      var (after, n) := Upsert(rows, rec, now);
      rows := after;
      r := if n == 0 then NotNewer else Accepted;
    }

    method ByPrefix(q: Query, now: int64) returns (envelopes: seq<Bytes>)
      requires Valid() && WellFormed(q) && q.bits <= LOOKUP_ID_BITS
      ensures envelopes == Lookup(rows, q, now)
    {
      var (lo, hi) := Range(q);
      var scan := Sorted(InScan(rows, lo, hi, now));
      ScanIsInTable(rows, lo, hi, now);
      ScanIsLookup(rows, q, now);
      envelopes := Collect(scan, q);
    }

    /** Walks the scan's rows in order, keeping the envelopes of those that pass the filter. */
    method Collect(scan: seq<Bytes>, q: Query) returns (envelopes: seq<Bytes>)
      requires |q.full| == Need(q.bits) && forall i :: 0 <= i < |scan| ==> scan[i] in rows
      ensures forall x :: x in Filtered(scan, q) ==> x in rows
      ensures envelopes == Envelopes(rows, Filtered(scan, q))
    {
      hide Matches, Filtered;
      envelopes := [];
      FilteredNone(q);
      assert scan[..0] == [];
      for i := 0 to |scan|
        invariant forall x :: x in Filtered(scan[..i], q) ==> x in rows
        invariant envelopes == Envelopes(rows, Filtered(scan[..i], q))
      {
        FilteredNext(scan, i, q);
        if Matches(q, scan[i]) {
          envelopes := envelopes + [rows[scan[i]].envelope];
        }
      }
      assert scan[..|scan|] == scan;
    }

    method Sweep(now: int64) returns (n: int)
      requires Valid()
      modifies this
      ensures Valid() && rows == Records.Sweep(old(rows), now)
      ensures n == |set id | id in old(rows) && old(rows)[id].expiresAt <= now|
    {
      var kept := Records.Sweep(rows, now);
      n := |rows| - |kept|;
      ghost var gone := set id | id in rows && rows[id].expiresAt <= now;
      assert rows.Keys == kept.Keys + gone;
      rows := kept;
    }

    /** The true count: the same whatever has been swept up to now, and what the lookup of width zero returns. */
    method Count(now: int64) returns (n: nat)
      requires Valid()
      ensures n == Records.Count(rows, now)
      ensures forall swept: int64 :: swept <= now ==> n == Records.Count(Records.Sweep(rows, swept), now)
      ensures WellFormed(Query(0, 0, [])) && n == |Lookup(rows, Query(0, 0, []), now)|
    {
      n := |Live(rows, now)|;
      forall swept: int64 | swept <= now ensures n == Records.Count(Records.Sweep(rows, swept), now) {
        CountIgnoresSweeps(rows, swept, now);
      }
      CountIsLookup(rows, now);
    }
  }
}
