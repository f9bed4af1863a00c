/** Shared value types: optional values, results, and byte strings. */
module Base {

  datatype Option<+T> = None | Some(value: T)

  datatype Result<+T, +E> = Ok(value: T) | Err(error: E)

  type byte = x: int | 0 <= x < 256

  type Bytes = seq<byte>

  /** The range of Go's int64. */
  const MAX_INT64: int := 0x7fff_ffff_ffff_ffff
  const MIN_INT64: int := -0x8000_0000_0000_0000

  type int64 = x: int | MIN_INT64 <= x <= MAX_INT64

  /** Two's-complement wrap-around of an int64 result. */
  function Wrap64(x: int): (r: int64)
    ensures MIN_INT64 <= x <= MAX_INT64 ==> r == x
    ensures x >= MIN_INT64 ==> r <= x
  {
    (x + 0x8000_0000_0000_0000) % 0x1_0000_0000_0000_0000 - 0x8000_0000_0000_0000
  }

  lemma WrapTwice(x: int, y: int)
    ensures Wrap64(Wrap64(x) + y) == Wrap64(x + y)
  {
  }

  // Sizes

  lemma SubsetSize<K>(a: set<K>, b: set<K>)
    requires a <= b
    ensures |a| <= |b|
  {
    assert b == a + (b - a);
  }

  lemma GrownSize<K, V>(m: map<K, V>, n: map<K, V>, new': set<K>)
    requires n.Keys <= m.Keys + new'
    ensures |n| <= |m| + |new'|
  {
    SubsetSize(n.Keys, m.Keys + new');
    SubsetSize(new' - m.Keys, new');
    assert m.Keys + new' == m.Keys + (new' - m.Keys);
  }

  lemma ProperSubsetSize<K>(a: set<K>, b: set<K>, k: K)
    requires a <= b && k in b && k !in a
    ensures |a| < |b|
  {
    SubsetSize(a + {k}, b);
  }
}
