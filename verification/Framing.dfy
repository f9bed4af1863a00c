/** The two byte framings: the envelope's signing input and the payload plaintext. */
module Framing {
  import opened Base
  import opened Bits

  const LOOKUP_ID_LEN: nat := 32
  const WK_PUB_LEN: nat := 32
  const NONCE_LEN: nat := 12
  const FIXED_PREFIX_LEN: nat := 85

  /** Go's conversion of an int64 to uint64. */
  function Unsigned64(x: int64): (r: nat)
    ensures r == if x >= 0 then x else x + 0x1_0000_0000_0000_0000
  {
    x % 0x1_0000_0000_0000_0000
  }

  /** Eight big-endian bytes of an int64 converted to uint64. */
  function Uint64Bytes(x: int64): (b: Bytes)
    ensures |b| == 8
  {
    ToBE(Unsigned64(x), 8)
  }

  lemma Uint64BytesRead(x: int64)
    ensures BE(Uint64Bytes(x)) == Unsigned64(x)
  {
    Pow2Of(64);
    hide Pow2, ToBE, BE;
    BEOfToBE(Unsigned64(x), 8);
  }

  lemma Uint64BytesInjective(x: int64, y: int64)
    requires Uint64Bytes(x) == Uint64Bytes(y)
    ensures x == y
  {
    hide Uint64Bytes, BE;
    Uint64BytesRead(x);
    Uint64BytesRead(y);
  }

  // The envelope's signing input

  /** The fields the envelope signature covers. */
  datatype Signed = Signed(v: byte, lookupId: Bytes, wkPub: Bytes, expiresAt: int64, nonce: Bytes, ct: Bytes)

  /** The widths decoding enforces. */
  predicate Sized(s: Signed) {
    |s.lookupId| == LOOKUP_ID_LEN && |s.wkPub| == WK_PUB_LEN && |s.nonce| == NONCE_LEN
  }

  function Canonical(s: Signed): Bytes {
    [s.v] + s.lookupId + s.wkPub + Uint64Bytes(s.expiresAt) + s.nonce + s.ct
  }

  /** Where each field lies, whatever the ciphertext. */
  lemma FieldsAt(s: Signed)
    requires Sized(s)
    ensures var b := Canonical(s);
      && |b| == FIXED_PREFIX_LEN + |s.ct|
      && b[0] == s.v && b[1..33] == s.lookupId && b[33..65] == s.wkPub
      && b[65..73] == Uint64Bytes(s.expiresAt) && b[73..85] == s.nonce && b[85..] == s.ct
  {
  }

  /** b is version v, 32-byte identifier and key, big-endian expiry, 12-byte nonce, and ciphertext, end to end. */
  ghost predicate Covers(b: Bytes, v: byte, id: Bytes, key: Bytes, expiresAt: int64, nonce: Bytes, ct: Bytes) {
    && |b| == 85 + |ct| && b[0] == v && b[1..33] == id && b[33..65] == key
    && BE(b[65..73]) == (if expiresAt >= 0 then expiresAt else expiresAt + 0x1_0000_0000_0000_0000)
    && b[73..85] == nonce && b[85..] == ct
  }

  /** At the decoded widths the signing input is the one byte string that does so. */
  lemma CanonicalExactly(s: Signed, b: Bytes)
    requires Sized(s)
    ensures b == Canonical(s) <==> Covers(b, s.v, s.lookupId, s.wkPub, s.expiresAt, s.nonce, s.ct)
  {
    FieldsAt(s);
    Uint64BytesRead(s.expiresAt);
    if Covers(b, s.v, s.lookupId, s.wkPub, s.expiresAt, s.nonce, s.ct) {
      var c := Canonical(s);
      ToBEOfBE(b[65..73]);
      ToBEOfBE(c[65..73]);
      hide Canonical, Uint64Bytes, BE, ToBE;
      Pieces(b);
      Pieces(c);
    }
  }

  lemma Pieces(b: Bytes)
    requires |b| >= 85
    ensures b == [b[0]] + b[1..33] + b[33..65] + b[65..73] + b[73..85] + b[85..]
  {
  }

  /** Fields of the decoded widths land at their fixed offsets, with the ciphertext to the end. */
  method CanonicalEnvelope(v: byte, lookupId: Bytes, wkPub: Bytes, expiresAt: int64, nonce: Bytes, ct: Bytes)
    returns (out: Bytes)
    ensures out == Canonical(Signed(v, lookupId, wkPub, expiresAt, nonce, ct))
    ensures |lookupId| == |wkPub| == 32 && |nonce| == 12 ==> Covers(out, v, lookupId, wkPub, expiresAt, nonce, ct)
  {
    out := [];
    out := out + [v];
    out := out + lookupId;
    out := out + wkPub;
    out := out + Uint64Bytes(expiresAt);
    out := out + nonce;
    out := out + ct;
    assert out == Canonical(Signed(v, lookupId, wkPub, expiresAt, nonce, ct));
    if |lookupId| == |wkPub| == 32 && |nonce| == 12 {
      CanonicalExactly(Signed(v, lookupId, wkPub, expiresAt, nonce, ct), out);
    }
    hide Canonical, Uint64Bytes, Covers;
  }

  /** No two different field tuples of the widths decoding enforces share a signing input. */
  lemma CanonicalInjective(s: Signed, t: Signed)
    requires Sized(s) && Sized(t) && Canonical(s) == Canonical(t)
    ensures s == t
  {
    FieldsAt(s);
    FieldsAt(t);
    Uint64BytesInjective(s.expiresAt, t.expiresAt);
  }

  /** The widths are what makes it so: without them a byte can move from one field to the next. */
  lemma WidthsAreNeeded() returns (s: Signed, t: Signed)
    ensures s != t && |s.wkPub| == |t.wkPub| + 1 && Canonical(s) == Canonical(t)
  {
    s := Signed(1, [], [7], 0, [], []);
    t := Signed(1, [7], [], 0, [], []);
    assert [1 as byte] + [] + [7] == [1 as byte] + [7] + [];
  }

  // The payload plaintext

  const BODY_LEN_SIZE: nat := 2
  const PAYLOAD_SIG_LEN: nat := 64
  const MAX_BODY_LEN: nat := 0xffff

  datatype PlaintextError = BodyTooLarge | PayloadFormat | PayloadSignature

  /** sign gives the detached signature of the private key in use. */
  function MarshalPlaintext(sign: Bytes -> Bytes, body: Bytes): Result<Bytes, PlaintextError> {
    if |body| > MAX_BODY_LEN then Err(BodyTooLarge) else Ok(ToBE(|body|, BODY_LEN_SIZE) + body + sign(body))
  }

  function ParsePlaintext(plaintext: Bytes): Result<(Bytes, Bytes), PlaintextError> {
    if |plaintext| < BODY_LEN_SIZE + PAYLOAD_SIG_LEN then Err(PayloadFormat)
    else
      var bodyLen := BE(plaintext[..BODY_LEN_SIZE]);
      if |plaintext| != BODY_LEN_SIZE + bodyLen + PAYLOAD_SIG_LEN then Err(PayloadFormat)
      else Ok((plaintext[BODY_LEN_SIZE..BODY_LEN_SIZE + bodyLen], plaintext[BODY_LEN_SIZE + bodyLen..]))
  }

  /** verify(body, sig) is the signature check under the public key in use. */
  function VerifyPlaintext(verify: (Bytes, Bytes) -> bool, plaintext: Bytes): Result<Bytes, PlaintextError> {
    match ParsePlaintext(plaintext)
    case Err(e) => Err(e)
    case Ok((body, sig)) =>
      if |sig| != PAYLOAD_SIG_LEN || !verify(body, sig) then Err(PayloadSignature) else Ok(body)
  }

  lemma Pow2Of16()
    ensures Pow2(16) == 0x1_0000
  {
    Pow2Of8();
    PowerStep(8);
  }

  lemma LengthReads(n: nat)
    requires n <= MAX_BODY_LEN
    ensures BE(ToBE(n, BODY_LEN_SIZE)) == n
  {
    Pow2Of16();
    BEOfToBE(n, 2);
  }

  ghost predicate Frames(plaintext: Bytes, body: Bytes, sig: Bytes) {
    |body| <= 65535 && |sig| == 64 && plaintext == [|body| / 256, |body| % 256] + body + sig
  }

  lemma TwoBytes(n: nat)
    requires n <= 65535
    ensures ToBE(n, BODY_LEN_SIZE) == [n / 256, n % 256]
  {
    assert ToBE(n / 256, 1) == ToBE(n / 256 / 256, 0) + [n / 256 % 256];
  }

  lemma FramedParses(plaintext: Bytes, body: Bytes, sig: Bytes)
    requires Frames(plaintext, body, sig)
    ensures ParsePlaintext(plaintext) == Ok((body, sig))
  {
    LengthReads(|body|);
    TwoBytes(|body|);
    hide ToBE, BE;
    assert plaintext[..BODY_LEN_SIZE] == ToBE(|body|, BODY_LEN_SIZE);
  }

  lemma ParsedIsFramed(plaintext: Bytes, body: Bytes, sig: Bytes)
    requires ParsePlaintext(plaintext) == Ok((body, sig))
    ensures Frames(plaintext, body, sig)
  {
    var head := plaintext[..BODY_LEN_SIZE];
    BEBelow(head);
    Pow2Of16();
    ToBEOfBE(head);
    TwoBytes(|body|);
    hide ToBE, BE, Pow2;
    assert plaintext == head + body + sig;
  }

  /** A plaintext is accepted as body and signature exactly when it is their framing, with no byte to spare. */
  lemma ParsesExactly(plaintext: Bytes, body: Bytes, sig: Bytes)
    ensures ParsePlaintext(plaintext) == Ok((body, sig)) <==> Frames(plaintext, body, sig)
  {
    hide ParsePlaintext;
    if Frames(plaintext, body, sig) { FramedParses(plaintext, body, sig); }
    if ParsePlaintext(plaintext) == Ok((body, sig)) { ParsedIsFramed(plaintext, body, sig); }
  }

  /** Framing makes exactly that framing, and refuses exactly the bodies the length prefix cannot describe. */
  lemma MarshalsExactly(sign: Bytes -> Bytes, body: Bytes)
    requires |sign(body)| == 64
    ensures |body| > 65535 <==> MarshalPlaintext(sign, body) == Err(BodyTooLarge)
    ensures |body| <= 65535 <==> MarshalPlaintext(sign, body).Ok?
    ensures |body| <= 65535 ==> Frames(MarshalPlaintext(sign, body).value, body, sign(body))
  {
    if |body| <= 65535 { TwoBytes(|body|); }
    hide ToBE;
  }

  /** Framing and parsing are inverse on every body the length prefix can describe. */
  lemma PlaintextRoundTrip(sign: Bytes -> Bytes, body: Bytes)
    requires |body| <= MAX_BODY_LEN && |sign(body)| == PAYLOAD_SIG_LEN
    ensures MarshalPlaintext(sign, body).Ok?
    ensures ParsePlaintext(MarshalPlaintext(sign, body).value) == Ok((body, sign(body)))
  {
    MarshalsExactly(sign, body);
    ParsesExactly(MarshalPlaintext(sign, body).value, body, sign(body));
  }

  /** What a client accepts is a body whose signature verifies over those very bytes, framed in the only way. */
  lemma VerifiesExactly(verify: (Bytes, Bytes) -> bool, plaintext: Bytes, body: Bytes)
    ensures VerifyPlaintext(verify, plaintext) == Ok(body)
            <==> exists sig :: ParsePlaintext(plaintext) == Ok((body, sig)) && verify(body, sig)
  {
    if ParsePlaintext(plaintext).Ok? {
      var (b, s) := ParsePlaintext(plaintext).value;
      ParsesExactly(plaintext, b, s);
    }
  }
}
