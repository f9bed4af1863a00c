/**
 Whether a publish is admitted: decoding an envelope and the conditions in their order. JSON, base64
 and the cryptography are parameters.
 */
module Accept {
  import opened Base
  import opened Framing
  import Pow

  const VERSION: int := 1
  const POW_LEN: nat := 8
  const SIG_LEN: nat := 64
  const TAG_LEN: nat := 16

  datatype Envelope = Envelope(
    v: int, lookupId: string, wkPub: string, expiresAt: int64, ct: string, nonce: string, pow: string, sig: string)

  datatype Decoded = Decoded(
    v: byte, lookupId: Bytes, wkPub: Bytes, expiresAt: int64, ct: Bytes, nonce: Bytes, pow: Bytes, sig: Bytes)

  datatype DecodeError = UnsupportedVersion | FieldSize | Ciphertext

  /** What is taken as given: the JSON layer, base64, SHA-256, and Ed25519 verification of (key, message, signature). */
  datatype World = World(
    parse: Bytes -> Option<Envelope>,
    b64: string -> Option<Bytes>,
    hash: Bytes -> Pow.Digest,
    verify: (Bytes, Bytes, Bytes) -> bool)

  datatype Limits = Limits(maxRecordBytes: int, maxTTL: int64, powBits: int, skewGrace: int64)

  function DecodeFixed(w: World, s: string, n: nat): Option<Bytes> {
    var b := w.b64(s);
    if b.Some? && |b.value| == n then b else None
  }

  /** What decoding yields: every field at its width, and a ciphertext that holds its tag. */
  function Decode(w: World, e: Envelope): Result<Decoded, DecodeError> {
    if e.v != VERSION then Err(UnsupportedVersion)
    else
      var id, key := DecodeFixed(w, e.lookupId, LOOKUP_ID_LEN), DecodeFixed(w, e.wkPub, WK_PUB_LEN);
      var nonce, pow := DecodeFixed(w, e.nonce, NONCE_LEN), DecodeFixed(w, e.pow, POW_LEN);
      var sig := DecodeFixed(w, e.sig, SIG_LEN);
      var ct := w.b64(e.ct);
      if id.None? || key.None? || nonce.None? || pow.None? || sig.None? || ct.None? then Err(FieldSize)
      else if |ct.value| < TAG_LEN then Err(Ciphertext)
      else Ok(Decoded(e.v, id.value, key.value, e.expiresAt, ct.value, nonce.value, pow.value, sig.value))
  }

  /** The text is base64 of n bytes. */
  predicate Reads(w: World, s: string, n: nat) {
    w.b64(s).Some? && |w.b64(s).value| == n
  }

  predicate FixedRead(w: World, e: Envelope) {
    && Reads(w, e.lookupId, 32) && Reads(w, e.wkPub, 32) && Reads(w, e.nonce, 12)
    && Reads(w, e.pow, 8) && Reads(w, e.sig, 64)
  }

  /** Every field is base64 of its width, and the ciphertext of at least sixteen bytes. */
  predicate WellEncoded(w: World, e: Envelope) {
    FixedRead(w, e) && w.b64(e.ct).Some? && |w.b64(e.ct).value| >= 16
  }

  /** Each field of d is what its own text says. */
  ghost predicate SameFields(w: World, e: Envelope, d: Decoded) {
    && d.v == 1 && d.expiresAt == e.expiresAt
    && w.b64(e.lookupId) == Some(d.lookupId) && w.b64(e.wkPub) == Some(d.wkPub)
    && w.b64(e.nonce) == Some(d.nonce) && w.b64(e.pow) == Some(d.pow) && w.b64(e.sig) == Some(d.sig)
    && w.b64(e.ct) == Some(d.ct)
  }

  /** What decoding an envelope has to answer. */
  ghost predicate DecodesTo(w: World, e: Envelope, r: Result<Decoded, DecodeError>) {
    match r
    case Ok(d) => e.v == 1 && WellEncoded(w, e) && SameFields(w, e, d)
    case Err(UnsupportedVersion) => e.v != 1
    case Err(FieldSize) => e.v == 1 && (!FixedRead(w, e) || w.b64(e.ct).None?)
    case Err(Ciphertext) => e.v == 1 && FixedRead(w, e) && w.b64(e.ct).Some? && |w.b64(e.ct).value| < 16
  }

  /** An envelope decodes to exactly one answer, and that is it. */
  lemma DecodesExactly(w: World, e: Envelope, r: Result<Decoded, DecodeError>)
    ensures Decode(w, e) == r <==> DecodesTo(w, e, r)
  {
  }

  /** Decoding as it is written: a loop over a table of fields, filling one destination after another. */
  method DecodeEnvelope(w: World, e: Envelope) returns (r: Result<Decoded, DecodeError>)
    ensures r == Decode(w, e) && DecodesTo(w, e, r)
  {
    DecodesExactly(w, e, Decode(w, e));
    hide DecodesTo;
    if e.v != VERSION { return Err(UnsupportedVersion); }
    var fields := [
      (e.lookupId, LOOKUP_ID_LEN), (e.wkPub, WK_PUB_LEN), (e.nonce, NONCE_LEN), (e.pow, POW_LEN), (e.sig, SIG_LEN)];
    var dst := new Bytes[5](_ => []);
    for i := 0 to 5
      invariant forall k :: 0 <= k < i ==> DecodeFixed(w, fields[k].0, fields[k].1) == Some(dst[k])
    {
      var v := DecodeFixed(w, fields[i].0, fields[i].1);
      if v.None? {
        assert DecodeFixed(w, fields[i].0, fields[i].1).None?;
        return Err(FieldSize);
      }
      dst[i] := v.value;
    }
    assert DecodeFixed(w, fields[0].0, fields[0].1) == Some(dst[0]);
    assert DecodeFixed(w, fields[1].0, fields[1].1) == Some(dst[1]);
    assert DecodeFixed(w, fields[2].0, fields[2].1) == Some(dst[2]);
    assert DecodeFixed(w, fields[3].0, fields[3].1) == Some(dst[3]);
    assert DecodeFixed(w, fields[4].0, fields[4].1) == Some(dst[4]);
    var ct := w.b64(e.ct);
    if ct.None? { return Err(FieldSize); }
    if |ct.value| < TAG_LEN { return Err(Ciphertext); }
    r := Ok(Decoded(e.v, dst[0], dst[1], e.expiresAt, ct.value, dst[2], dst[3], dst[4]));
  }

  function SigningBytes(d: Decoded): Bytes {
    Canonical(Signed(d.v, d.lookupId, d.wkPub, d.expiresAt, d.nonce, d.ct))
  }

  /** In the order the conditions are evaluated. */
  datatype Reason =
    | Accepted | RateLimited | TooLarge | Malformed | BadVersion | TTLTooLong | LookupMismatch
    | PoWInsufficient | SigInvalid | Expired | NotNewer

  /** The fields of a body, its version apart. */
  function Fields(w: World, body: Bytes): Option<(Envelope, Decoded)> {
    match w.parse(body)
    case None => None
    case Some(env) =>
      match Decode(w, env.(v := VERSION))
      case Err(_) => None
      case Ok(d) => Some((env, d))
  }

  /** A body gives fields exactly when it parses and is well encoded, and then each is what its text says. */
  lemma FieldsExactly(w: World, body: Bytes, env: Envelope, d: Decoded)
    ensures Fields(w, body) == Some((env, d)) <==>
            w.parse(body) == Some(env) && WellEncoded(w, env) && SameFields(w, env, d)
    ensures Fields(w, body).None? <==> w.parse(body).None? || !WellEncoded(w, w.parse(body).value)
  {
    if w.parse(body).Some? {
      var probe := w.parse(body).value.(v := VERSION);
      DecodesExactly(w, probe, Decode(w, probe));
      DecodesExactly(w, probe, Ok(d));
    }
    hide Decode;
  }

  /** The latest expiry admitted at now, a sum taken in 64 bits. */
  function Deadline(lim: Limits, now: int64): int64 {
    Wrap64(Wrap64(now + lim.maxTTL) + lim.skewGrace)
  }

  function Check(w: World, body: Bytes, now: int64, lim: Limits, rateLimited: bool): (Reason, Option<Decoded>) {
    if rateLimited then (RateLimited, None)
    else if |body| > lim.maxRecordBytes then (TooLarge, None)
    else
      match Fields(w, body)
      case None => (Malformed, None)
      case Some((env, d)) =>
        if env.v != VERSION then (BadVersion, None)
        else if d.expiresAt > Deadline(lim, now) then (TTLTooLong, None)
        else if w.hash(d.wkPub) != d.lookupId then (LookupMismatch, None)
        else if !Pow.Verify(w.hash, d.lookupId, d.expiresAt, d.pow, lim.powBits) then (PoWInsufficient, None)
        else if !w.verify(d.wkPub, SigningBytes(d), d.sig) then (SigInvalid, None)
        else if d.expiresAt <= now then (Expired, None)
        else (Accepted, Some(d))
  }

  /**
   An envelope of the supported version whose identifier is the hash of its key, whose proof of work
   meets the difficulty, and whose signature verifies under that key over its signed fields.
   */
  predicate Authentic(w: World, powBits: int, body: Bytes) {
    match Fields(w, body)
    case None => false
    case Some((env, d)) =>
      && env.v == VERSION && |d.lookupId| == LOOKUP_ID_LEN && w.hash(d.wkPub) == d.lookupId
      && Pow.Verify(w.hash, d.lookupId, d.expiresAt, d.pow, powBits) && w.verify(d.wkPub, SigningBytes(d), d.sig)
  }

  /**
   Authenticity in terms of the body's own members: the key hashes to the identifier, the proof is of them
   and the expiry, and the signature is over version 1 and the six fields at their offsets.
   */
  lemma AuthenticExactly(w: World, powBits: int, body: Bytes)
    ensures Authentic(w, powBits, body) <==>
            match w.parse(body)
            case None => false
            case Some(env) =>
              && env.v == 1 && WellEncoded(w, env)
              && var id, key, sig := w.b64(env.lookupId).value, w.b64(env.wkPub).value, w.b64(env.sig).value;
                 && w.hash(key) == id && Pow.Verify(w.hash, id, env.expiresAt, w.b64(env.pow).value, powBits)
                 && exists m: Bytes ::
                      && Covers(m, 1, id, key, env.expiresAt, w.b64(env.nonce).value, w.b64(env.ct).value)
                      && w.verify(key, m, sig)
  {
    match w.parse(body)
    case None =>
    case Some(env) =>
      if WellEncoded(w, env) {
        var d := Decoded(1, w.b64(env.lookupId).value, w.b64(env.wkPub).value, env.expiresAt, w.b64(env.ct).value,
                         w.b64(env.nonce).value, w.b64(env.pow).value, w.b64(env.sig).value);
        FieldsExactly(w, body, env, d);
        hide Fields, Covers, Pow.Verify, Canonical;
        SigningBytesExactly(d, SigningBytes(d));
        forall m: Bytes
          ensures m == SigningBytes(d) <==> Covers(m, 1, d.lookupId, d.wkPub, d.expiresAt, d.nonce, d.ct)
        {
          SigningBytesExactly(d, m);
        }
        hide SigningBytes;
      } else {
        FieldsExactly(w, body, env, Decoded(1, [], [], 0, [], [], [], []));
        hide Fields;
      }
  }

  /** What is signed: all of the fields but proof and signature, at their offsets. */
  lemma SigningBytesExactly(d: Decoded, m: Bytes)
    requires |d.lookupId| == |d.wkPub| == 32 && |d.nonce| == 12
    ensures m == SigningBytes(d) <==> Covers(m, d.v, d.lookupId, d.wkPub, d.expiresAt, d.nonce, d.ct)
  {
    CanonicalExactly(Signed(d.v, d.lookupId, d.wkPub, d.expiresAt, d.nonce, d.ct), m);
  }

  /** Admitted are exactly the authentic envelopes within the size limit that expire after now and by the deadline. */
  lemma AcceptedMeans(w: World, body: Bytes, now: int64, lim: Limits, rateLimited: bool)
    ensures Check(w, body, now, lim, rateLimited).0 == Accepted <==>
            && !rateLimited && |body| <= lim.maxRecordBytes && Authentic(w, lim.powBits, body)
            && now < Fields(w, body).value.1.expiresAt <= Deadline(lim, now)
    ensures Check(w, body, now, lim, rateLimited).0 == Accepted ==>
              Check(w, body, now, lim, rateLimited).1 == Some(Fields(w, body).value.1)
    ensures Check(w, body, now, lim, rateLimited).0 != Accepted ==> Check(w, body, now, lim, rateLimited).1 == None
  {
    hide SigningBytes, Pow.Verify;
  }

  /** The 64-bit sum does not come out above the true one, or else admits nothing. */
  predicate OnTime(lim: Limits, now: int64) {
    Deadline(lim, now) <= now + lim.maxTTL + lim.skewGrace || Deadline(lim, now) <= now
  }

  /** So it is for limits that are not negative, and for any time to live while clock and grace are not. */
  lemma OrdinarilyOnTime(lim: Limits, now: int64)
    requires lim.skewGrace >= 0 && (lim.maxTTL >= 0 || now >= 0)
    ensures OnTime(lim, now)
  {
  }

  // Signed fields

  function SignedFields(d: Decoded): Signed {
    Signed(d.v, d.lookupId, d.wkPub, d.expiresAt, d.nonce, d.ct)
  }

  lemma DecodedWidths(w: World, e: Envelope)
    ensures Decode(w, e).Ok? ==> Sized(SignedFields(Decode(w, e).value)) && |Decode(w, e).value.pow| == POW_LEN
                                 && |Decode(w, e).value.sig| == SIG_LEN && |Decode(w, e).value.ct| >= TAG_LEN
  {
  }

  /** Whatever two envelopes decode to, one signing input between them means the same signed fields. */
  lemma SignatureCoversFields(w: World, e: Envelope, f: Envelope)
    requires Decode(w, e).Ok? && Decode(w, f).Ok?
    ensures SigningBytes(Decode(w, e).value) == SigningBytes(Decode(w, f).value)
            <==> SignedFields(Decode(w, e).value) == SignedFields(Decode(w, f).value)
  {
    DecodedWidths(w, e);
    DecodedWidths(w, f);
    hide Decode, Canonical, Sized;
    if SigningBytes(Decode(w, e).value) == SigningBytes(Decode(w, f).value) {
      CanonicalInjective(SignedFields(Decode(w, e).value), SignedFields(Decode(w, f).value));
    }
  }

  // The evaluation order

  /** Place in the normative table. */
  function Rank(r: Reason): nat {
    match r
    case Accepted => 0
    case RateLimited => 1
    case TooLarge => 2
    case Malformed => 3
    case BadVersion => 4
    case TTLTooLong => 5
    case LookupMismatch => 6
    case PoWInsufficient => 7
    case SigInvalid => 8
    case Expired => 9
    case NotNewer => 10
  }

  /** Each condition by itself, whatever the others say. */
  predicate Violates(w: World, body: Bytes, now: int64, lim: Limits, rateLimited: bool, r: Reason) {
    var f := Fields(w, body);
    match r
    case RateLimited => rateLimited
    case TooLarge => |body| > lim.maxRecordBytes
    case Malformed => f.None?
    case BadVersion => f.Some? && f.value.0.v != VERSION
    case TTLTooLong => f.Some? && f.value.1.expiresAt > Deadline(lim, now)
    case LookupMismatch => f.Some? && w.hash(f.value.1.wkPub) != f.value.1.lookupId
    case PoWInsufficient =>
      f.Some? && !Pow.Verify(w.hash, f.value.1.lookupId, f.value.1.expiresAt, f.value.1.pow, lim.powBits)
    case SigInvalid => f.Some? && !w.verify(f.value.1.wkPub, SigningBytes(f.value.1), f.value.1.sig)
    case Expired => f.Some? && f.value.1.expiresAt <= now
    case _ => false
  }

  /**
   The answer is the first condition in the table's order that the publish violates, and acceptance means
   that it violates none.
   */
  lemma FirstViolation(w: World, body: Bytes, now: int64, lim: Limits, rateLimited: bool, r: Reason)
    ensures Check(w, body, now, lim, rateLimited).0 == r <==>
            && (r == Accepted || Violates(w, body, now, lim, rateLimited, r))
            && forall s :: s != Accepted && (r == Accepted || Rank(s) < Rank(r)) ==>
                 !Violates(w, body, now, lim, rateLimited, s)
  {
    var got := Check(w, body, now, lim, rateLimited).0;
    hide Fields, SigningBytes;
    assert got == Accepted || Violates(w, body, now, lim, rateLimited, got);
    forall s | s != Accepted && (got == Accepted || Rank(s) < Rank(got))
      ensures !Violates(w, body, now, lim, rateLimited, s)
    {
    }
    RankInjective(r, got);
  }

  lemma RankInjective(r: Reason, s: Reason)
    ensures r == s <==> Rank(r) == Rank(s)
  {
  }
}
