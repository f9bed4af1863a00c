/** The publish handler: one clock reading a request, shared by the check and the conditional upsert. */
module Publish {
  import opened Base
  import opened Accept
  import Pow
  import Query
  import Records

  datatype PutAnswer = Status(reason: Reason) | InternalError

  /** The body as read under the limit: at most one byte over it. */
  function ReadLimited(body: Bytes, n: int): Bytes {
    if n <= 0 then [] else if |body| <= n then body else body[..n]
  }

  /** A publish: allowed is the limiter's answer, readable whether the body arrived whole. */
  function HandlePut(w: World, lim: Limits, t: Records.Table, body: Bytes, now: int64, allowed: bool, readable: bool)
    : (Records.Table, PutAnswer)
  {
    if !allowed then (t, Status(RateLimited))
    else if !readable then (t, Status(Malformed))
    else
      var read := ReadLimited(body, lim.maxRecordBytes + 1);
      var (reason, decoded) := Check(w, read, now, lim, false);
      if reason == Accepted && decoded.Some? then
        var d := decoded.value;
        match Records.Put(t, Records.Record(d.lookupId, d.wkPub, d.expiresAt, read), now)
        case (t', Accepted) => (t', Status(Accepted))
        case (t', NotNewer) => (t', Status(NotNewer))
        case (t', _) => (t', InternalError)
      else (t, Status(reason))
  }

  predicate PutAccepted(
    w: World, lim: Limits, t: Records.Table, body: Bytes, now: int64, allowed: bool, readable: bool)
  {
    HandlePut(w, lim, t, body, now, allowed, readable).1 == Status(Accepted)
  }

  /** The identifier, key and expiry a body carries. */
  function Id(w: World, body: Bytes): Bytes {
    if Fields(w, body).Some? then Fields(w, body).value.1.lookupId else []
  }

  function Key(w: World, body: Bytes): Bytes {
    if Fields(w, body).Some? then Fields(w, body).value.1.wkPub else []
  }

  function Expiry(w: World, body: Bytes): int64 {
    if Fields(w, body).Some? then Fields(w, body).value.1.expiresAt else 0
  }

  /** They are what the body's own members say. */
  lemma BodySays(w: World, body: Bytes, env: Envelope)
    requires w.parse(body) == Some(env) && WellEncoded(w, env)
    ensures Some(Id(w, body)) == w.b64(env.lookupId) && Some(Key(w, body)) == w.b64(env.wkPub)
    ensures Expiry(w, body) == env.expiresAt
  {
    var d := Decoded(1, w.b64(env.lookupId).value, w.b64(env.wkPub).value, env.expiresAt, w.b64(env.ct).value,
                     w.b64(env.nonce).value, w.b64(env.pow).value, w.b64(env.sig).value);
    FieldsExactly(w, body, env, d);
    hide Fields;
  }

  /** The row an authentic body is stored as: the body itself, and columns that repeat what it says. */
  ghost predicate StoredAs(w: World, powBits: int, id: Bytes, row: Records.Row) {
    && Authentic(w, powBits, row.envelope) && |id| == Records.ID_LEN && row.envelope != []
    && id == Id(w, row.envelope)
    && row == Records.Row(Query.Prefix32(id), Key(w, row.envelope), Expiry(w, row.envelope), row.envelope)
  }

  /**
   An accepted publish is authentic, expires ahead of the reading and by the deadline, and is stored byte
   for byte as sent in a row that gives way only if it has lapsed or expires earlier; no other row
   changes. Any other publish changes nothing.
   */
  lemma PutStoresVerbatim(
    w: World, lim: Limits, t: Records.Table, body: Bytes, now: int64, allowed: bool, readable: bool)
    ensures var t' := HandlePut(w, lim, t, body, now, allowed, readable).0;
      if PutAccepted(w, lim, t, body, now, allowed, readable) then
        var id := Id(w, body);
        && Authentic(w, lim.powBits, body) && now < Expiry(w, body) <= Deadline(lim, now)
        && id in t' && t'[id].envelope == body && StoredAs(w, lim.powBits, id, t'[id]) && t' == t[id := t'[id]]
        && (id in t ==> t[id].expiresAt <= now || t[id].expiresAt < Expiry(w, body))
      else t' == t
  {
    var read := ReadLimited(body, lim.maxRecordBytes + 1);
    AcceptedMeans(w, read, now, lim, false);
    if Check(w, read, now, lim, false).0 == Accepted {
      assert read == body;
    }
    hide Check, Fields, Deadline;
  }

  // The answer

  /** Each condition of the whole table by itself, the recency rule included. */
  predicate Refused(
    w: World, lim: Limits, t: Records.Table, body: Bytes, now: int64, allowed: bool, r: Reason)
  {
    match r
    case NotNewer =>
      && Fields(w, body).Some? && Id(w, body) in t
      && now < t[Id(w, body)].expiresAt && Expiry(w, body) <= t[Id(w, body)].expiresAt
    case _ => Violates(w, body, now, lim, !allowed, r)
  }

  /** r is the first condition violated, in the table's order; for acceptance, none is. */
  ghost predicate FirstRefused(
    w: World, lim: Limits, t: Records.Table, body: Bytes, now: int64, allowed: bool, r: Reason)
  {
    && (r == Accepted || Refused(w, lim, t, body, now, allowed, r))
    && forall s :: s != Accepted && (r == Accepted || Rank(s) < Rank(r)) ==>
         !Refused(w, lim, t, body, now, allowed, s)
  }

  lemma ReadTells(lim: Limits, body: Bytes)
    ensures var read := ReadLimited(body, lim.maxRecordBytes + 1);
      && (|read| > lim.maxRecordBytes <==> |body| > lim.maxRecordBytes)
      && (|body| <= lim.maxRecordBytes ==> read == body)
  {
  }

  lemma OneFirst(
    w: World, lim: Limits, t: Records.Table, body: Bytes, now: int64, allowed: bool, r: Reason, s: Reason)
    requires FirstRefused(w, lim, t, body, now, allowed, r) && FirstRefused(w, lim, t, body, now, allowed, s)
    ensures r == s
  {
    RankInjective(r, s);
    hide Refused;
  }

  lemma AnswerIsFirst(w: World, lim: Limits, t: Records.Table, body: Bytes, now: int64, allowed: bool)
    ensures match HandlePut(w, lim, t, body, now, allowed, true).1
            case Status(r) =>
              FirstRefused(w, lim, t, body, now, allowed, r) && (body == [] ==> r != Accepted && r != NotNewer)
            case InternalError =>
              body == [] && (FirstRefused(w, lim, t, body, now, allowed, Accepted)
                             || FirstRefused(w, lim, t, body, now, allowed, NotNewer))
  {
    ReadTells(lim, body);
    hide ReadLimited, Fields, SigningBytes, Deadline, Query.Prefix32, Pow.Verify;
  }

  /**
   Across limiter, check and store, a publish draws the first condition in the table's order that it
   violates, taken on the body as sent, and is accepted when it violates none. Only an empty body that
   passed the whole check would be a storage error instead, and a JSON parser passes no empty body.
   */
  lemma PublishAnswer(
    w: World, lim: Limits, t: Records.Table, body: Bytes, now: int64, allowed: bool, r: Reason)
    ensures HandlePut(w, lim, t, body, now, allowed, true).1 == Status(r) <==>
            FirstRefused(w, lim, t, body, now, allowed, r) && (body != [] || (r != Accepted && r != NotNewer))
    ensures body != [] || w.parse(body).None? ==>
              (HandlePut(w, lim, t, body, now, allowed, true).1 == Status(r) <==>
               FirstRefused(w, lim, t, body, now, allowed, r))
  {
    AnswerIsFirst(w, lim, t, body, now, allowed);
    if w.parse(body).None? { EmptyIsMalformed(w, lim, t, body, now, allowed); }
    hide HandlePut, FirstRefused;
    forall s, u | FirstRefused(w, lim, t, body, now, allowed, s) && FirstRefused(w, lim, t, body, now, allowed, u)
      ensures s == u
    {
      OneFirst(w, lim, t, body, now, allowed, s, u);
    }
  }

  /** A body that does not arrive whole draws only the limiter's refusal or a malformed one, and stores nothing. */
  lemma UnreadableIsMalformed(w: World, lim: Limits, t: Records.Table, body: Bytes, now: int64, allowed: bool)
    ensures HandlePut(w, lim, t, body, now, allowed, false)
            == (t, Status(if allowed then Malformed else RateLimited))
  {
  }

  lemma EmptyIsMalformed(w: World, lim: Limits, t: Records.Table, body: Bytes, now: int64, allowed: bool)
    requires w.parse(body).None?
    ensures !FirstRefused(w, lim, t, body, now, allowed, Accepted)
    ensures !FirstRefused(w, lim, t, body, now, allowed, NotNewer)
  {
    assert Refused(w, lim, t, body, now, allowed, Malformed);
  }
}
