// Issuing a token for a seat (licensing/token_service.go).
module IssueToken {
  import opened Base
  import opened Claims
  import opened Crypto
  import opened JsonValue
  import opened TokenCodec
  import Entities
  import Keys
  import KeyHierarchy
  import Lifecycle
  import Validate

  datatype IssueError =
    | FingerprintRejected
    | Malformed
    | LicenseSuspended
    | LicenseRevoked
    | LicenseExpired
    | NoSigningKey
    | MissingKeyPassphrase
    | KeyDecryptionFailed
    | NoBackend
    | TokenFailure(e: TokenError)

  // One reading of the clock: as an instant, and in Unix seconds.
  datatype Clock = Clock(now: Entities.Instant, unixSeconds: int)

  // The rows and the caller's choices. Identifiers and the fingerprint appear in the text form
  // the claims use; scopeSlug is None when the license's scope row is missing; the optional
  // overrides are None when not supplied.
  datatype Input = Input(
    license: Entities.License, licenseMeta: Option<Members>, usage: Entities.Usage,
    scopeId: Option<Keys.Id>, scopeSlug: Option<Text>,
    licenseId: Text, usageId: Text, fingerprint: Text, jti: Text,
    alg: Alg, format: Format, passphrase: Text, ttlSeconds: int,
    forceOnlineAfter: Option<Option<int>>, entitlements: Option<Option<Members>>, meta: Option<Members>)

  datatype Issued = Issued(token: Text, kid: Text, jti: Text, iat: int, exp: int)

  const FORCE_ONLINE_MAX_SEC := 10 * 365 * 24 * 3600
  const FORCE_ONLINE_AFTER_SEC := Ascii("force_online_after_sec")

  function StatusText(s: Entities.LicenseStatus): Text {
    match s
    case Pending => Ascii("pending")
    case Active => Validate.ACTIVE
    case Suspended => Validate.SUSPENDED
    case Grace => Validate.GRACE
    case Expired => Validate.EXPIRED
    case Revoked => Validate.REVOKED
  }

  function CheckIssuable(s: Entities.LicenseStatus): Result<(), IssueError> {
    match s
    case Active => Ok(())
    case Grace => Ok(())
    case Pending => Err(Malformed)
    case Suspended => Err(LicenseSuspended)
    case Revoked => Err(LicenseRevoked)
    case Expired => Err(LicenseExpired)
  }

  // ---------- the signing key ----------

  predicate Serves(k: Keys.Key, scopeId: Option<Keys.Id>, alg: Alg) {
    Keys.ActiveSigning(k, scopeId) && k.alg == alg
  }

  // The active key of a scope; storage keeps it unique.
  ghost function ActiveKey(rows: map<Keys.Id, Keys.Key>, scopeId: Option<Keys.Id>, alg: Alg): Option<Keys.Key> {
    if i :| i in rows && Serves(rows[i], scopeId, alg) then Some(rows[i]) else None
  }

  // The scope's own key first, the global one otherwise.
  ghost function SigningKeyFor(rows: map<Keys.Id, Keys.Key>, scopeId: Option<Keys.Id>, alg: Alg): Option<Keys.Key> {
    if scopeId.Some? && ActiveKey(rows, scopeId, alg).Some? then ActiveKey(rows, scopeId, alg)
    else ActiveKey(rows, None, alg)
  }

  ghost predicate OneServes(rows: map<Keys.Id, Keys.Key>) {
    forall i, j, scopeId, alg :: i in rows && j in rows && Serves(rows[i], scopeId, alg) && Serves(rows[j], scopeId, alg)
      ==> i == j
  }

  method FindActiveKey(rows: map<Keys.Id, Keys.Key>, scopeId: Option<Keys.Id>, alg: Alg) returns (r: Option<Keys.Key>)
    requires OneServes(rows)
    ensures r == ActiveKey(rows, scopeId, alg)
  {
    var todo := rows.Keys;
    while todo != {}
      invariant todo <= rows.Keys
      invariant forall i :: i in rows && i !in todo ==> !Serves(rows[i], scopeId, alg)
      decreases todo
    {
      var id :| id in todo;
      if Serves(rows[id], scopeId, alg) {
        return Some(rows[id]);
      }
      todo := todo - {id};
    }
    return None;
  }

  // ---------- optional claims ----------

  function CheckDeadline(candidate: int, iat: int): Result<(), IssueError> {
    if candidate < iat || candidate > iat + FORCE_ONLINE_MAX_SEC then Err(FingerprintRejected) else Ok(())
  }

  function ResolveForceOnlineAfter(i: Input, iat: int): Result<Option<int>, IssueError> {
    match i.forceOnlineAfter
    case Some(None) => Ok(None)
    case Some(Some(v)) =>
      var _ :- CheckDeadline(v, iat);
      Ok(Some(v))
    case None =>
      if i.licenseMeta.None? || FORCE_ONLINE_AFTER_SEC !in i.licenseMeta.value then Ok(None)
      else
        match ClaimInt(i.licenseMeta.value, FORCE_ONLINE_AFTER_SEC)
        case None => Err(FingerprintRejected)
        case Some(sec) =>
          if sec <= 0 || sec > FORCE_ONLINE_MAX_SEC then Err(FingerprintRejected) else Ok(Some(iat + sec))
  }

  function ResolveEntitlements(i: Input): Option<Members> {
    match i.entitlements
    case Some(e) => e
    case None =>
      if i.licenseMeta.Some? && ENTITLEMENTS in i.licenseMeta.value && i.licenseMeta.value[ENTITLEMENTS].Obj?
        then Some(i.licenseMeta.value[ENTITLEMENTS].members)
      else None
  }

  // A deadline that was set lies within the horizon; one from the license lies in the future.
  lemma ForceOnlineBounds(i: Input, iat: int)
    requires ResolveForceOnlineAfter(i, iat).Ok? && ResolveForceOnlineAfter(i, iat).value.Some?
    ensures iat <= ResolveForceOnlineAfter(i, iat).value.value <= iat + FORCE_ONLINE_MAX_SEC
    ensures i.forceOnlineAfter.None? ==> iat < ResolveForceOnlineAfter(i, iat).value.value
  {
  }

  // ---------- the payload ----------

  function Int(i: int): Json {
    Num(Finite(i as real))
  }

  function Required(i: Input, status: Entities.LicenseStatus, slug: Text, iat: int): Members {
    map[
      JTI := Str(i.jti), IAT := Int(iat), NBF := Int(iat), EXP := Int(iat + i.ttlSeconds), SCOPE := Str(slug),
      LICENSE_ID := Str(i.licenseId), USAGE_ID := Str(i.usageId), USAGE_FINGERPRINT := Str(i.fingerprint),
      STATUS := Str(StatusText(status)), MAX_USAGES := Int(i.license.maxUsages)]
  }

  function With(m: Members, key: Text, v: Option<Json>): Members {
    if v.Some? then m[key := v.value] else m
  }

  function AsInt(o: Option<int>): Option<Json> {
    if o.Some? then Some(Int(o.value)) else None
  }

  function AsObj(o: Option<Members>): Option<Json> {
    if o.Some? then Some(Obj(o.value)) else None
  }

  function Payload(i: Input, status: Entities.LicenseStatus, slug: Text, iat: int, deadline: Option<int>): Members {
    With(With(With(Required(i, status, slug, iat), FORCE_ONLINE_AFTER, AsInt(deadline)),
              ENTITLEMENTS, AsObj(ResolveEntitlements(i))),
         META, AsObj(i.meta))
  }

  // ---------- issuance ----------

  // ImportSigningPrivate on the found key.
  function ImportPrivate(registered: set<Alg>, k: Keys.Key, passphrase: Text): Result<Text, IssueError> {
    if passphrase == [] then Err(MissingKeyPassphrase)
    else if k.private.None? then Err(Malformed)
    else if k.alg !in registered then Err(NoBackend)
    else if k.private.value.passphrase != passphrase then Err(KeyDecryptionFailed)
    else Ok(k.private.value.public)
  }

  function ScopeSlug(i: Input): Result<Text, IssueError> {
    if i.scopeId.None? then Ok([])
    else if i.scopeSlug.None? then Err(Malformed)
    else Ok(i.scopeSlug.value)
  }

  ghost function Issue(rows: map<Keys.Id, Keys.Key>, reg: KeyHierarchy.Registry, clock: Clock, i: Input)
    : Result<Issued, IssueError>
  {
    if i.ttlSeconds <= 0 then Err(FingerprintRejected)
    else if i.usage.licenseId != i.license.id || i.usage.status != Entities.InUse then Err(Malformed)
    else
      var status := Lifecycle.EffectiveStatus(i.license, clock.now);
      var _ :- CheckIssuable(status);
      match SigningKeyFor(rows, i.scopeId, i.alg)
      case None => Err(NoSigningKey)
      case Some(signing) =>
        if signing.scopeId.Some? && signing.scopeId != i.scopeId then Err(NoSigningKey)
        else
          var slug :- ScopeSlug(i);
          var iat := clock.unixSeconds;
          var deadline :- ResolveForceOnlineAfter(i, iat);
          var public :- ImportPrivate(reg.registered, signing, i.passphrase);
          if i.alg !in reg.registered then Err(NoBackend)
          else if !Supports(i.format, i.alg) then Err(TokenFailure(TokenError.UnsupportedAlgorithm))
          else
            match EncodeToken(i.format, reg.backend, public, i.alg, signing.kid, Obj(Payload(i, status, slug, iat, deadline)))
            case Err(e) => Err(TokenFailure(e))
            case Ok(token) => Ok(Issued(token, signing.kid, i.jti, iat, iat + i.ttlSeconds))
  }

  method FindSigningKey(rows: map<Keys.Id, Keys.Key>, scopeId: Option<Keys.Id>, alg: Alg) returns (r: Option<Keys.Key>)
    requires OneServes(rows)
    ensures r == SigningKeyFor(rows, scopeId, alg)
  {
    if scopeId.Some? {
      r := FindActiveKey(rows, scopeId, alg);
      if r.Some? {
        return;
      }
    }
    r := FindActiveKey(rows, None, alg);
  }

  method IssueFor(rows: map<Keys.Id, Keys.Key>, reg: KeyHierarchy.Registry, clock: Clock, i: Input)
    returns (r: Result<Issued, IssueError>)
    requires OneServes(rows)
    ensures r == Issue(rows, reg, clock, i)
  {
    hide EncodeLic1, EncodeLic2, ResolveForceOnlineAfter, ImportPrivate, SigningKeyFor, OneServes, Required;
    if i.ttlSeconds <= 0 {
      return Err(FingerprintRejected);
    }
    if i.usage.licenseId != i.license.id || i.usage.status != Entities.InUse {
      return Err(Malformed);
    }
    var status := Lifecycle.EffectiveStatus(i.license, clock.now);
    var _ :- CheckIssuable(status);
    var found := FindSigningKey(rows, i.scopeId, i.alg);
    if found.None? {
      return Err(NoSigningKey);
    }
    var signing := found.value;
    if signing.scopeId.Some? && signing.scopeId != i.scopeId {
      return Err(NoSigningKey);
    }
    var slug :- ScopeSlug(i);
    var iat := clock.unixSeconds;
    var payload := Required(i, status, slug, iat);
    var deadline :- ResolveForceOnlineAfter(i, iat);
    if deadline.Some? {
      payload := payload[FORCE_ONLINE_AFTER := Int(deadline.value)];
    }
    var entitlements := ResolveEntitlements(i);
    if entitlements.Some? {
      payload := payload[ENTITLEMENTS := Obj(entitlements.value)];
    }
    if i.meta.Some? {
      payload := payload[META := Obj(i.meta.value)];
    }
    assert payload == Payload(i, status, slug, iat, deadline);
    var public :- ImportPrivate(reg.registered, signing, i.passphrase);
    if i.alg !in reg.registered {
      return Err(NoBackend);
    }
    if !Supports(i.format, i.alg) {
      return Err(TokenFailure(TokenError.UnsupportedAlgorithm));
    }
    var token: Result<Text, TokenError>;
    if i.format == Lic1 {
      token := WriteLic1(reg.backend, public, i.alg, signing.kid, Obj(payload));
    } else {
      token := WriteLic2(reg.backend, public, i.alg, signing.kid, Obj(payload));
    }
    if token.Err? {
      return Err(TokenFailure(token.error));
    }
    return Ok(Issued(token.value, signing.kid, i.jti, iat, iat + i.ttlSeconds));
  }
}
