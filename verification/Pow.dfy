/** The publish proof of work: the hashed input, the leading-zero test, and the search for a counter. */
module Pow {
  import opened Base
  import opened Bits
  import opened Framing

  const LEN: nat := 8
  const MAX_BITS: int := 40
  const CHECK_INTERVAL: nat := 0x1_0000
  const COUNTERS: nat := 0x1_0000_0000_0000_0000

  type Digest = b: Bytes | |b| == 32 witness seq(32, _ => 0)

  /** The domain separation string trig-pow-v1. */
  const PREFIX: Bytes := [116, 114, 105, 103, 45, 112, 111, 119, 45, 118, 49]

  function Input(lookupId: Bytes, expiresAt: int64, pow: Bytes): Bytes {
    PREFIX + lookupId + Uint64Bytes(expiresAt) + pow
  }

  /** Where each field of the hashed input lies. */
  lemma InputAt(lookupId: Bytes, expiresAt: int64, pow: Bytes)
    requires |lookupId| == LOOKUP_ID_LEN
    ensures var b := Input(lookupId, expiresAt, pow);
      && (forall i :: 0 <= i < 11 ==> b[i] == "trig-pow-v1"[i] as int) && b[11..43] == lookupId && b[51..] == pow
      && BE(b[43..51]) == if expiresAt >= 0 then expiresAt else expiresAt + 0x1_0000_0000_0000_0000
  {
    InputParts(lookupId, expiresAt, pow);
    Uint64BytesRead(expiresAt);
    hide Input, Uint64Bytes;
  }

  lemma InputParts(lookupId: Bytes, expiresAt: int64, pow: Bytes)
    requires |lookupId| == LOOKUP_ID_LEN
    ensures var b := Input(lookupId, expiresAt, pow);
      b[..11] == PREFIX && b[11..43] == lookupId && b[43..51] == Uint64Bytes(expiresAt) && b[51..] == pow
  {
  }

  /** A proof is bound to its identifier and expiry: no two challenges hash one input. */
  lemma InputInjective(lookupId: Bytes, expiresAt: int64, pow: Bytes, lookupId': Bytes, expiresAt': int64, pow': Bytes)
    requires |lookupId| == |lookupId'| == LOOKUP_ID_LEN
    requires Input(lookupId, expiresAt, pow) == Input(lookupId', expiresAt', pow')
    ensures lookupId == lookupId' && expiresAt == expiresAt' && pow == pow'
  {
    InputParts(lookupId, expiresAt, pow);
    InputParts(lookupId', expiresAt', pow');
    hide Input, Uint64Bytes;
    Uint64BytesInjective(expiresAt, expiresAt');
  }

  /** The leading zero bits of a digest: those above its value's highest one. */
  function LeadingZeros(d: Bytes): (n: int) {
    8 * |d| - Len(BE(d))
  }

  lemma {:induction false} LenBelow(x: nat, m: nat)
    ensures Len(x) <= m <==> x < Pow2(m)
    decreases m
  {
    if x > 0 && m > 0 { LenBelow(x / 2, m - 1); }
  }

  /** At least b leading zeros means a value below 2^(8 * |d| - b). */
  lemma LeadingZerosIs(d: Bytes, b: nat)
    requires b <= 8 * |d|
    ensures LeadingZeros(d) >= b <==> BE(d) < Pow2(8 * |d| - b)
    ensures 0 <= LeadingZeros(d) <= 8 * |d|
  {
    LenBelow(BE(d), 8 * |d| - b);
    BEBelow(d);
    LenBelow(BE(d), 8 * |d|);
  }

  lemma {:induction false} LenOfConcat(x: nat, y: nat, s: nat)
    requires x > 0 && y < Pow2(s)
    ensures Len(x * Pow2(s) + y) == Len(x) + s
    decreases s
  {
    if s > 0 {
      HalfTimes(x, s);
      assert (x * Pow2(s) + y) / 2 == x * Pow2(s - 1) + y / 2;
      LenOfConcat(x, y / 2, s - 1);
      assert x * Pow2(s) > 0;
    }
  }

  lemma {:induction false} ZeroBytes(b: Bytes)
    requires forall k :: 0 <= k < |b| ==> b[k] == 0
    ensures BE(b) == 0
  {
    if b != [] { ZeroBytes(b[..|b| - 1]); }
  }

  /** bits.LeadingZeros8. */
  function LeadingZeros8(x: byte): int {
    8 - Len(x)
  }

  lemma LeadingZerosAfter(d: Bytes, i: nat)
    requires i < |d| && d[i] != 0 && forall k :: 0 <= k < i ==> d[k] == 0
    ensures LeadingZeros(d) == 8 * i + LeadingZeros8(d[i])
  {
    var head, tail := d[..i + 1], d[i + 1..];
    assert d == head + tail;
    assert head[..i] == d[..i];
    ZeroBytes(d[..i]);
    BEOfConcat(head, tail);
    BEBelow(tail);
    LenOfConcat(d[i], BE(tail), 8 * |tail|);
  }

  method LeadingZeroBits(digest: Bytes) returns (n: int)
    ensures n == LeadingZeros(digest)
  {
    n := 0;
    for i := 0 to |digest|
      invariant n == 8 * i && forall k :: 0 <= k < i ==> digest[k] == 0
    {
      if digest[i] != 0 {
        LeadingZerosAfter(digest, i);
        return n + LeadingZeros8(digest[i]);
      }
      n := n + 8;
    }
    ZeroBytes(digest);
  }

  /** The challenge met: hash stands for SHA-256. */
  predicate Verify(hash: Bytes -> Digest, lookupId: Bytes, expiresAt: int64, pow: Bytes, powBits: int) {
    |pow| == LEN && powBits >= 0 && LeadingZeros(hash(Input(lookupId, expiresAt, pow))) >= powBits
  }

  /** A proof verifies exactly when it is eight bytes and the digest's value is below 2^(256 - powBits). */
  lemma VerifyIsThreshold(hash: Bytes -> Digest, lookupId: Bytes, expiresAt: int64, pow: Bytes, powBits: int)
    ensures Verify(hash, lookupId, expiresAt, pow, powBits) <==>
            |pow| == LEN && 0 <= powBits <= 256 && BE(hash(Input(lookupId, expiresAt, pow))) < Pow2(256 - powBits)
  {
    var d := hash(Input(lookupId, expiresAt, pow));
    LeadingZerosIs(d, 0);
    if 0 <= powBits <= 256 { LeadingZerosIs(d, powBits); }
  }

  datatype Error = BadBits | Cancelled | Exhausted

  /** What is being solved: hash stands for SHA-256. */
  datatype Challenge = Challenge(hash: Bytes -> Digest, lookupId: Bytes, expiresAt: int64, powBits: int) {
    predicate SolvedBy(i: nat) {
      Verify(hash, lookupId, expiresAt, ToBE(i, LEN), powBits)
    }

    ghost predicate NoneBefore(i: nat) {
      forall j: nat :: j < i ==> !SolvedBy(j)
    }
  }

  ghost predicate NotCancelledBefore(cancelled: nat -> bool, i: nat) {
    forall j: nat :: j < i && j % 65536 == 0 ==> !cancelled(j)
  }

  /** Every attempt before i failed and every poll before it said to go on. */
  ghost predicate Searched(c: Challenge, cancelled: nat -> bool, i: nat) {
    c.NoneBefore(i) && NotCancelledBefore(cancelled, i)
  }

  lemma SearchedOn(c: Challenge, cancelled: nat -> bool, i: nat)
    requires Searched(c, cancelled, i) && i < COUNTERS
    ensures i % CHECK_INTERVAL == 0 && cancelled(i) ==> CancelledAt(c, cancelled, i)
    ensures (i % CHECK_INTERVAL == 0 ==> !cancelled(i)) ==>
              if c.SolvedBy(i) then FoundAt(c, cancelled, i) else Searched(c, cancelled, i + 1)
  {
  }

  /** The least solution is counter i, and no poll up to its attempt said to stop. */
  ghost predicate FoundAt(c: Challenge, cancelled: nat -> bool, i: nat) {
    i < COUNTERS && c.SolvedBy(i) && c.NoneBefore(i) && NotCancelledBefore(cancelled, i + 1)
  }

  /** The poll before attempt i was the first to say stop, with no solution until then. */
  ghost predicate CancelledAt(c: Challenge, cancelled: nat -> bool, i: nat) {
    i < COUNTERS && i % 65536 == 0 && cancelled(i) && c.NoneBefore(i) && NotCancelledBefore(cancelled, i)
  }

  method PutUint64(buf: array<byte>, at: nat, x: nat)
    requires at + 8 == buf.Length
    modifies buf
    ensures buf[..] == old(buf[..])[..at] + ToBE(x, 8)
  {
    var b := ToBE(x, 8);
    hide ToBE;
    for k := 0 to 8
      invariant forall j :: 0 <= j < at ==> buf[j] == old(buf[j])
      invariant forall j :: at <= j < at + k ==> buf[j] == b[j - at]
    {
      buf[at + k] := b[k];
    }
    assert buf[..at] == old(buf[..])[..at] && buf[at..] == b;
  }

  /** One attempt: overwrite the counter, hash the buffer, look at the zeros. */
  method Attempt(c: Challenge, buf: array<byte>, at: nat, i: nat) returns (ok: bool)
    requires c.powBits >= 0 && buf.Length == at + LEN && buf[..at] == Input(c.lookupId, c.expiresAt, [])
    modifies buf
    ensures buf[..at] == old(buf[..at]) && buf[at..] == ToBE(i, LEN)
    ensures ok == c.SolvedBy(i)
  {
    hide LeadingZeros, Input;
    PutUint64(buf, at, i);
    assert buf[..] == Input(c.lookupId, c.expiresAt, ToBE(i, LEN)) by { InputSplits(c, ToBE(i, LEN)); }
    var zeros := LeadingZeroBits(c.hash(buf[..]));
    ok := zeros >= c.powBits;
  }

  lemma InputSplits(c: Challenge, pow: Bytes)
    ensures Input(c.lookupId, c.expiresAt, pow) == Input(c.lookupId, c.expiresAt, []) + pow
  {
    assert PREFIX + c.lookupId + Uint64Bytes(c.expiresAt) + [] == PREFIX + c.lookupId + Uint64Bytes(c.expiresAt);
  }

  /**
   The search, in one shared buffer. cancelled(i) is what the context says when polled before attempt i.
   The answer is the least counter that solves the challenge, unless a poll before it said to stop.
   */
  method Solve(c: Challenge, cancelled: nat -> bool) returns (r: Result<Bytes, Error>)
    ensures r == Err(BadBits) <==> c.powBits < 0 || c.powBits > 40
    ensures r.Ok? ==> exists i: nat :: FoundAt(c, cancelled, i) && r.value == ToBE(i, LEN)
    ensures r == Err(Cancelled) ==> exists i: nat :: CancelledAt(c, cancelled, i)
    ensures r == Err(Exhausted) ==> Searched(c, cancelled, COUNTERS)
  {
    if c.powBits < 0 || c.powBits > MAX_BITS { return Err(BadBits); }
    assert Searched(c, cancelled, 0);
    hide Verify, Input, Searched, FoundAt, CancelledAt;
    var input := Input(c.lookupId, c.expiresAt, seq(LEN, _ => 0));
    InputSplits(c, seq(LEN, _ => 0));
    var buf := new byte[|input|](k requires 0 <= k < |input| => input[k]);
    var at := buf.Length - LEN;
    assert buf[..at] == Input(c.lookupId, c.expiresAt, []);
    var i := 0;
    while true
      invariant i < COUNTERS && buf[..at] == Input(c.lookupId, c.expiresAt, [])
      invariant Searched(c, cancelled, i)
      decreases COUNTERS - i
    {
      SearchedOn(c, cancelled, i);
      if i % CHECK_INTERVAL == 0 && cancelled(i) {
        return Err(Cancelled);
      }
      var ok := Attempt(c, buf, at, i);
      if ok {
        return Ok(buf[at..]);
      }
      if i == COUNTERS - 1 { return Err(Exhausted); }
      i := i + 1;
    }
  }

  /** Exhaustion means that no proof whatever would verify. */
  lemma ExhaustedMeansNone(c: Challenge, cancelled: nat -> bool, pow: Bytes)
    requires Searched(c, cancelled, COUNTERS)
    ensures !Verify(c.hash, c.lookupId, c.expiresAt, pow, c.powBits)
  {
    if |pow| == LEN {
      BEBelow(pow);
      Pow2Of(64);
      ToBEOfBE(pow);
      assert !c.SolvedBy(BE(pow));
    }
  }

  /** The search has one answer: a least solution rules out any other, a cancelled poll before it, and exhaustion. */
  lemma OneOutcome(c: Challenge, cancelled: nat -> bool, i: nat, j: nat)
    requires FoundAt(c, cancelled, i)
    ensures FoundAt(c, cancelled, j) ==> i == j
    ensures !CancelledAt(c, cancelled, j)
    ensures !Searched(c, cancelled, COUNTERS)
  {
  }
}
