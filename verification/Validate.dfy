// Offline validation of a token (licensing/client/validate.go) and the replay ledger it may
// record into (licensing/client/jti_ledger.go).
module Validate {
  import opened Base
  import opened Claims
  import opened TokenCodec

  datatype ClientError =
    | InvalidTokenFormat
    | UnknownKidError
    | AlgorithmMismatchError
    | UnsupportedAlgorithmError
    | TokenNotYetValid
    | TokenExpired
    | LicenseRevoked
    | LicenseSuspended
    | RequiresOnlineRefresh
    | FingerprintMismatch
    | AudienceMismatch
    | IssuerMismatch
    | TokenReplayed
    | NoToken
    | GraceExpired
    | IssuerUnreachable
    | IssuerProtocolError
    | IssuerRefused(code: Text)

  // Empty audience and issuer are not pinned.
  datatype Options = Options(trust: Trust, audience: Text, issuer: Text, fingerprint: Text, skewSec: int)

  datatype Accepted = Accepted(envelope: Envelope, claims: Claims)

  const ACTIVE := Ascii("active")
  const GRACE := Ascii("grace")
  const REVOKED := Ascii("revoked")
  const SUSPENDED := Ascii("suspended")
  const EXPIRED := Ascii("expired")

  function Skew(o: Options): (s: int)
    ensures s > 0
  {
    if o.skewSec > 0 then o.skewSec else 60
  }

  function Translate(e: TokenError): ClientError {
    match e
    case UnknownKid => UnknownKidError
    case AlgorithmMismatch => AlgorithmMismatchError
    case UnsupportedAlgorithm => UnsupportedAlgorithmError
    case _ => InvalidTokenFormat
  }

  function CheckStatus(status: Text): Result<(), ClientError> {
    if status == ACTIVE || status == GRACE then Ok(())
    else if status == REVOKED then Err(LicenseRevoked)
    else if status == SUSPENDED then Err(LicenseSuspended)
    else if status == EXPIRED then Err(TokenExpired)
    else Err(InvalidTokenFormat)
  }

  // Steps 2 to 7 on the claims, in order.
  function CheckClaims(c: Claims, o: Options, now: int): Result<(), ClientError> {
    if c.nbf > now + Skew(o) then Err(TokenNotYetValid)
    else if c.exp + Skew(o) < now then Err(TokenExpired)
    else
      var _ :- CheckStatus(c.status);
      if c.forceOnlineAfter.Some? && now >= c.forceOnlineAfter.value then Err(RequiresOnlineRefresh)
      else if c.fingerprint != o.fingerprint then Err(FingerprintMismatch)
      else if o.audience != [] && !(c.aud.Some? && o.audience in c.aud.value) then Err(AudienceMismatch)
      else if o.issuer != [] && c.iss != Some(o.issuer) then Err(IssuerMismatch)
      else Ok(())
  }

  // Everything but the ledger.
  ghost function Checked(token: Text, o: Options, now: int): Result<Accepted, ClientError> {
    match VerifyEnvelope(o.trust, token)
    case Err(e) => Err(Translate(e))
    case Ok(envelope) =>
      match ReadClaims(envelope.payload)
      case Err(_) => Err(InvalidTokenFormat)
      case Ok(c) =>
        var _ :- CheckClaims(c, o, now);
        Ok(Accepted(envelope, c))
  }

  // The lifetime claims alone, unverified, zero where missing.
  datatype Peeked = Peeked(nbf: int, exp: int, forceOnlineAfter: Option<int>)

  function OrZero(o: Option<int>): int {
    if o.Some? then o.value else 0
  }

  ghost function Peek(codecs: seq<Codec>, token: Text): Result<Peeked, ClientError> {
    match DecodeEnvelope(codecs, token)
    case Err(e) => Err(Translate(e))
    case Ok(d) =>
      Ok(Peeked(OrZero(ClaimInt(d.payload, NBF)), OrZero(ClaimInt(d.payload, EXP)), ClaimInt(d.payload, FORCE_ONLINE_AFTER)))
  }

  method PeekToken(codecs: seq<Codec>, token: Text) returns (r: Result<Peeked, ClientError>)
    ensures r == Peek(codecs, token)
  {
    var parts := Decode(codecs, token);
    if parts.Err? {
      return Err(Translate(parts.error));
    }
    var p := parts.value.payload;
    return Ok(Peeked(OrZero(ClaimInt(p, NBF)), OrZero(ClaimInt(p, EXP)), ClaimInt(p, FORCE_ONLINE_AFTER)));
  }

  // Peeking and validating read the same lifetime.
  lemma PeekAgrees(token: Text, o: Options, now: int)
    requires Checked(token, o, now).Ok?
    ensures Peek(o.trust.codecs, token).Ok?
    ensures
      var p := Peek(o.trust.codecs, token).value;
      var c := Checked(token, o, now).value.claims;
      p.forceOnlineAfter == c.forceOnlineAfter && p.exp == c.exp && p.nbf == c.nbf
  {
  }

  // ---------- the replay ledger ----------

  class MemoryJtiLedger {
    var entries: map<Text, int>

    constructor ()
      ensures entries == map[]
    {
      entries := map[];
    }

    method RecordJtiUse(jti: Text, expSec: int) returns (firstUse: bool)
      modifies this
      ensures firstUse <==> jti !in old(entries)
      ensures entries == if firstUse then old(entries)[jti := expSec] else old(entries)
    {
      if jti in entries {
        return false;
      }
      entries := entries[jti := expSec];
      return true;
    }

    // Exactly the entries due by now go.
    method PruneExpired(nowSec: int) returns (removed: nat)
      modifies this
      ensures entries == Pruned(old(entries), nowSec)
      ensures removed == |old(entries)| - |entries|
    {
      removed := 0;
      ghost var before := entries;
      var todo := entries.Keys;
      while todo != {}
        invariant todo <= entries.Keys && entries.Keys <= before.Keys
        invariant forall j :: j in entries ==> entries[j] == before[j]
        invariant forall j :: j in before && j !in todo ==> (j in entries <==> before[j] > nowSec)
        invariant removed == |before| - |entries|
        decreases todo
      {
        var jti :| jti in todo;
        todo := todo - {jti};
        if entries[jti] <= nowSec {
          assert (entries - {jti}).Keys == entries.Keys - {jti};
          assert |entries - {jti}| == |(entries - {jti}).Keys| && |entries| == |entries.Keys|;
          entries := entries - {jti};
          removed := removed + 1;
        }
      }
      assert entries.Keys == Pruned(before, nowSec).Keys;
    }
  }

  function Pruned(entries: map<Text, int>, now: int): map<Text, int> {
    map j | j in entries && entries[j] > now :: entries[j]
  }

  // Validate with a ledger: the entry is recorded only when every other check passed.
  ghost function WithLedger(token: Text, o: Options, now: int, entries: map<Text, int>)
    : (Result<Accepted, ClientError>, map<Text, int>)
  {
    match Checked(token, o, now)
    case Err(e) => (Err(e), entries)
    case Ok(a) =>
      if a.claims.jti in entries then (Err(TokenReplayed), entries)
      else (Ok(a), entries[a.claims.jti := a.claims.exp + Skew(o)])
  }

  // Validate, recording into the ledger when there is one.
  method ValidateToken(token: Text, o: Options, now: int, ledger: MemoryJtiLedger?)
    returns (r: Result<Accepted, ClientError>)
    modifies ledger
    ensures ledger == null ==> r == Checked(token, o, now)
    ensures ledger != null ==> (r, ledger.entries) == WithLedger(token, o, now, old(ledger.entries))
  {
    hide VerifyEnvelope, ReadClaims, CheckClaims;
    var parts := Verify(o.trust, token);
    if parts.Err? {
      return Err(Translate(parts.error));
    }
    var claims := ReadClaims(parts.value.payload);
    if claims.Err? {
      return Err(InvalidTokenFormat);
    }
    var c := claims.value;
    var checked := CheckClaims(c, o, now);
    if checked.Err? {
      return Err(checked.error);
    }
    if ledger != null {
      var firstUse := ledger.RecordJtiUse(c.jti, c.exp + Skew(o));
      if !firstUse {
        return Err(TokenReplayed);
      }
    }
    return Ok(Accepted(parts.value, c));
  }
}
