// An issued token, in either format, validates exactly within its window, with its claims.
module TokenAcceptance {
  import opened Base
  import opened Claims
  import opened Crypto
  import opened IssueToken
  import opened JsonValue
  import opened TokenCodec
  import opened TokenTheorems
  import CanonicalBytes
  import CanonicalJson
  import Entities
  import KeyHierarchy
  import Keys
  import Lifecycle
  import Validate

  // ---------- reading back the payload ----------

  lemma KeptAt(m: Members, k: Text)
    ensures k in Kept(Obj(m)) <==> k in m && k != PROTO
    ensures k in m && k != PROTO ==> Kept(Obj(m))[k] == WithoutProto(Numeric(m[k]))
  {
  }

  lemma StringKept(m: Members, k: Text, s: Text)
    requires k in m && k != PROTO && m[k] == Str(s)
    ensures ClaimString(Kept(Obj(m)), k) == Some(s)
  {
    KeptAt(m, k);
  }

  lemma IntKept(m: Members, k: Text, i: int)
    requires k in m && k != PROTO && m[k] == Int(i) && ToCanonical(Obj(m)).Ok?
    ensures ClaimInt(Kept(Obj(m)), k) == Some(i)
  {
    KeptAt(m, k);
    CanonicalJson.PrintsExactlyExpressible(Obj(m));
    assert Expressible(m[k]);
  }

  lemma AbsentKept(m: Members, k: Text)
    requires k !in m
    ensures k !in Kept(Obj(m)) && ClaimInt(Kept(Obj(m)), k) == None && !Present(Kept(Obj(m)), k)
  {
    KeptAt(m, k);
  }

  lemma ObjKept(m: Members, k: Text, o: Members)
    requires k in m && k != PROTO && m[k] == Obj(o)
    ensures Present(Kept(Obj(m)), k) && Kept(Obj(m))[k] == Obj(Kept(Obj(o)))
  {
    KeptAt(m, k);
  }

  ghost function KeptOption(o: Option<Members>): Option<Members> {
    if o.Some? then Some(Kept(Obj(o.value))) else None
  }

  // What an issued payload claims.
  ghost function Claimed(i: Input, status: Entities.LicenseStatus, slug: Text, iat: int, deadline: Option<int>): Claims {
    Claims(i.jti, iat, iat, iat + i.ttlSeconds, slug, i.licenseId, i.usageId, i.fingerprint, StatusText(status),
           i.license.maxUsages, deadline, KeptOption(ResolveEntitlements(i)), None, None)
  }

  // Adding optional claims moves none of the others.
  lemma WithKeeps(m: Members, key: Text, v: Option<Json>, k: Text)
    ensures k != key ==> (k in With(m, key, v) <==> k in m) && (k in m ==> With(m, key, v)[k] == m[k])
    ensures key !in m ==> (key in With(m, key, v) <==> v.Some?) && (v.Some? ==> With(m, key, v)[key] == v.value)
  {
  }

  // The required claims, by name.
  lemma RequiredAt(i: Input, status: Entities.LicenseStatus, slug: Text, iat: int)
    ensures
      var m := Required(i, status, slug, iat);
      && m.Keys == {JTI, IAT, NBF, EXP, SCOPE, LICENSE_ID, USAGE_ID, USAGE_FINGERPRINT, STATUS, MAX_USAGES}
      && m[JTI] == Str(i.jti) && m[IAT] == Int(iat) && m[NBF] == Int(iat) && m[EXP] == Int(iat + i.ttlSeconds)
      && m[SCOPE] == Str(slug) && m[LICENSE_ID] == Str(i.licenseId) && m[USAGE_ID] == Str(i.usageId)
      && m[USAGE_FINGERPRINT] == Str(i.fingerprint) && m[STATUS] == Str(StatusText(status))
      && m[MAX_USAGES] == Int(i.license.maxUsages)
  {
    Marks();
    hide Mark, Int, StatusText;
  }

  lemma PayloadAt(i: Input, status: Entities.LicenseStatus, slug: Text, iat: int, deadline: Option<int>)
    ensures
      var m := Payload(i, status, slug, iat, deadline);
      var r := Required(i, status, slug, iat);
      && (forall k :: k in r ==> k in m && m[k] == r[k])
      && (FORCE_ONLINE_AFTER in m <==> deadline.Some?)
      && (deadline.Some? ==> m[FORCE_ONLINE_AFTER] == Int(deadline.value))
      && (ENTITLEMENTS in m <==> ResolveEntitlements(i).Some?)
      && (ResolveEntitlements(i).Some? ==> m[ENTITLEMENTS] == Obj(ResolveEntitlements(i).value))
      && AUD !in m && ISS !in m
  {
    hide Required, ResolveEntitlements, With;
    var r := Required(i, status, slug, iat);
    NewNames(i, status, slug, iat);
    var m1 := With(r, FORCE_ONLINE_AFTER, AsInt(deadline));
    var m2 := With(m1, ENTITLEMENTS, AsObj(ResolveEntitlements(i)));
    var m := With(m2, META, AsObj(i.meta));
    forall k | k in r ensures k in m && m[k] == r[k] {
      WithKeeps(r, FORCE_ONLINE_AFTER, AsInt(deadline), k);
      WithKeeps(m1, ENTITLEMENTS, AsObj(ResolveEntitlements(i)), k);
      WithKeeps(m2, META, AsObj(i.meta), k);
    }
    Fate(r, i, deadline, FORCE_ONLINE_AFTER);
    Fate(r, i, deadline, ENTITLEMENTS);
    Fate(r, i, deadline, AUD);
    Fate(r, i, deadline, ISS);
  }

  // Where a name outside the required ones ends up.
  lemma Fate(r: Members, i: Input, deadline: Option<int>, k: Text)
    ensures
      var m1 := With(r, FORCE_ONLINE_AFTER, AsInt(deadline));
      var m2 := With(m1, ENTITLEMENTS, AsObj(ResolveEntitlements(i)));
      var m := With(m2, META, AsObj(i.meta));
      && (k != META && k != ENTITLEMENTS ==> (k in m <==> k in m1) && (k in m1 ==> m[k] == m1[k]))
      && (k != META && k != ENTITLEMENTS && k != FORCE_ONLINE_AFTER ==> (k in m1 <==> k in r))
      && (k == FORCE_ONLINE_AFTER && k !in r ==>
            (k in m1 <==> deadline.Some?) && (deadline.Some? ==> m1[k] == Int(deadline.value)))
      && (k == ENTITLEMENTS && k != META && k != FORCE_ONLINE_AFTER && k !in r ==>
            (k in m <==> ResolveEntitlements(i).Some?)
            && (ResolveEntitlements(i).Some? ==> m[k] == Obj(ResolveEntitlements(i).value)))
  {
    hide ResolveEntitlements;
  }

  lemma NewNames(i: Input, status: Entities.LicenseStatus, slug: Text, iat: int)
    ensures
      var r := Required(i, status, slug, iat);
      && FORCE_ONLINE_AFTER !in r && ENTITLEMENTS !in r && META !in r && AUD !in r && ISS !in r
    ensures FORCE_ONLINE_AFTER != ENTITLEMENTS && FORCE_ONLINE_AFTER != META && ENTITLEMENTS != META
    ensures AUD != FORCE_ONLINE_AFTER && AUD != ENTITLEMENTS && AUD != META
    ensures ISS != FORCE_ONLINE_AFTER && ISS != ENTITLEMENTS && ISS != META
  {
    RequiredAt(i, status, slug, iat);
    Marks();
    hide Mark, Required;
  }

  // The claims read from the decoded payload are the ones issued.
  lemma ClaimsRead(i: Input, status: Entities.LicenseStatus, slug: Text, iat: int, deadline: Option<int>)
    requires ToCanonical(Obj(Payload(i, status, slug, iat, deadline))).Ok?
    ensures ReadClaims(Kept(Obj(Payload(i, status, slug, iat, deadline)))) == Ok(Claimed(i, status, slug, iat, deadline))
  {
    var m := Payload(i, status, slug, iat, deadline);
    PayloadAt(i, status, slug, iat, deadline);
    RequiredAt(i, status, slug, iat);
    NotProto();
    hide Payload, Required, Kept, ToCanonical, Int, ClaimString, ClaimInt, StatusText, ResolveEntitlements, Present;
    StringKept(m, JTI, i.jti);
    IntKept(m, IAT, iat);
    IntKept(m, NBF, iat);
    IntKept(m, EXP, iat + i.ttlSeconds);
    StringKept(m, SCOPE, slug);
    StringKept(m, LICENSE_ID, i.licenseId);
    StringKept(m, USAGE_ID, i.usageId);
    StringKept(m, USAGE_FINGERPRINT, i.fingerprint);
    StringKept(m, STATUS, StatusText(status));
    IntKept(m, MAX_USAGES, i.license.maxUsages);
    OptionalInt(m, deadline);
    OptionalObj(m, ResolveEntitlements(i));
    AbsentKept(m, AUD);
    AbsentKept(m, ISS);
  }

  lemma NotProto()
    ensures PROTO !in {JTI, IAT, NBF, EXP, SCOPE, LICENSE_ID, USAGE_ID, USAGE_FINGERPRINT, STATUS, MAX_USAGES}
    ensures PROTO != FORCE_ONLINE_AFTER && PROTO != ENTITLEMENTS
  {
    Marks();
    hide Mark;
  }

  lemma OptionalInt(m: Members, deadline: Option<int>)
    requires ToCanonical(Obj(m)).Ok? && PROTO != FORCE_ONLINE_AFTER
    requires FORCE_ONLINE_AFTER in m <==> deadline.Some?
    requires deadline.Some? ==> m[FORCE_ONLINE_AFTER] == Int(deadline.value)
    ensures ClaimInt(Kept(Obj(m)), FORCE_ONLINE_AFTER) == deadline
  {
    if deadline.Some? {
      IntKept(m, FORCE_ONLINE_AFTER, deadline.value);
    } else {
      AbsentKept(m, FORCE_ONLINE_AFTER);
    }
  }

  lemma OptionalObj(m: Members, o: Option<Members>)
    requires PROTO != ENTITLEMENTS
    requires ENTITLEMENTS in m <==> o.Some?
    requires o.Some? ==> m[ENTITLEMENTS] == Obj(o.value)
    ensures
      var k := Kept(Obj(m));
      (if Present(k, ENTITLEMENTS) && k[ENTITLEMENTS].Obj? then Some(k[ENTITLEMENTS].members) else None) == KeptOption(o)
  {
    if o.Some? {
      ObjKept(m, ENTITLEMENTS, o.value);
    } else {
      AbsentKept(m, ENTITLEMENTS);
    }
  }

  // ---------- the envelope ----------

  // A verifier set up for the key a token was signed with.
  ghost predicate Trusts(t: Trust, b: Backend, kid: Text, alg: Alg, public: Text) {
    && Standard(t.codecs) && t.backend == b && alg in t.registered
    && kid in t.bindings && t.bindings[kid] == alg
    && kid in t.keys && t.keys[kid] == KeyRecord(alg, public)
  }

  // An encoded token of either format verifies with its payload.
  lemma EncodedVerifies(t: Trust, f: Format, b: Backend, public: Text, alg: Alg, kid: Text, payload: Json)
    requires Ed25519Sized(b) && kid != [] && Trusts(t, b, kid, alg, public)
    requires EncodeToken(f, b, public, alg, kid, payload).Ok?
    ensures payload.Obj? && ToCanonical(payload).Ok?
    ensures
      var v := VerifyEnvelope(t, EncodeToken(f, b, public, alg, kid, payload).value);
      v.Ok? && v.value.payload == Kept(payload) && v.value.kid == kid && v.value.alg == alg
  {
    hide ToCanonical, Kept, Lic1Input, Lic2Input, DecodeEnvelope, HeaderJson, FooterJson;
    var token := EncodeToken(f, b, public, alg, kid, payload).value;
    var input := EncodedDecodes(t.codecs, f, b, public, alg, kid, payload);
    hide EncodeToken, Standard;
    assert DecodeEnvelope(t.codecs, token) == Ok(Envelope(alg, kid, Kept(payload), input, b.sign(alg, public, input)));
  }

  lemma EncodedDecodes(codecs: seq<Codec>, f: Format, b: Backend, public: Text, alg: Alg, kid: Text, payload: Json)
    returns (input: Bytes)
    requires Ed25519Sized(b) && kid != [] && Standard(codecs)
    requires EncodeToken(f, b, public, alg, kid, payload).Ok?
    ensures payload.Obj? && ToCanonical(payload).Ok?
    ensures DecodeEnvelope(codecs, EncodeToken(f, b, public, alg, kid, payload).value)
      == Ok(Envelope(alg, kid, Kept(payload), input, b.sign(alg, public, input)))
  {
    var token := EncodeToken(f, b, public, alg, kid, payload).value;
    Prefixed(f, b, public, alg, kid, payload);
    StandardDispatch(codecs, f, token);
    hide DecodeLic1, DecodeLic2, EncodeLic1, EncodeLic2, CodecFor, Standard, ToCanonical, Kept, Lic1Input, Lic2Input;
    match f
    case Lic1 =>
      Lic1RoundTrip(b, public, alg, kid, payload);
      input := Lic1Input(ToCanonical(HeaderJson(alg, kid)).value, ToCanonical(payload).value);
    case Lic2 =>
      Lic2RoundTrip(b, public, alg, kid, payload);
      input := Lic2Input(ToCanonical(payload).value, ToCanonical(FooterJson(kid)).value);
  }

  lemma Prefixed(f: Format, b: Backend, public: Text, alg: Alg, kid: Text, payload: Json)
    requires EncodeToken(f, b, public, alg, kid, payload).Ok?
    ensures Prefix(f) <= EncodeToken(f, b, public, alg, kid, payload).value
  {
    hide ToCanonical, Lic1Input, Lic2Input, HeaderJson, FooterJson;
  }

  // ---------- acceptance ----------

  // What issuance settled on.
  lemma IssueShape(rows: map<Keys.Id, Keys.Key>, reg: KeyHierarchy.Registry, clock: Clock, i: Input)
    returns (signing: Keys.Key, public: Text, status: Entities.LicenseStatus, slug: Text, deadline: Option<int>)
    requires Issue(rows, reg, clock, i).Ok?
    ensures SigningKeyFor(rows, i.scopeId, i.alg) == Some(signing)
    ensures signing.private.Some? && public == signing.private.value.public
    ensures status == Lifecycle.EffectiveStatus(i.license, clock.now) && (status.Active? || status.Grace?)
    ensures ScopeSlug(i) == Ok(slug) && ResolveForceOnlineAfter(i, clock.unixSeconds) == Ok(deadline)
    ensures
      var issued := Issue(rows, reg, clock, i).value;
      && issued.kid == signing.kid && issued.iat == clock.unixSeconds && issued.exp == issued.iat + i.ttlSeconds
      && EncodeToken(i.format, reg.backend, public, i.alg, signing.kid,
                     Obj(Payload(i, status, slug, clock.unixSeconds, deadline))) == Ok(issued.token)
  {
    hide EncodeToken, SigningKeyFor, ResolveForceOnlineAfter, Payload, Lifecycle.EffectiveStatus;
    signing := SigningKeyFor(rows, i.scopeId, i.alg).value;
    public := signing.private.value.public;
    status := Lifecycle.EffectiveStatus(i.license, clock.now);
    slug := ScopeSlug(i).value;
    deadline := ResolveForceOnlineAfter(i, clock.unixSeconds).value;
  }

  // A token issued in either format and checked with its key bound, on its device, with
  // audience and issuer unpinned, is accepted at a time exactly within its window, and its
  // claims come back as issued.
  lemma IssuedTokenAccepted(rows: map<Keys.Id, Keys.Key>, reg: KeyHierarchy.Registry, clock: Clock, i: Input,
                            o: Validate.Options, now: int)
    requires Issue(rows, reg, clock, i).Ok? && Ed25519Sized(reg.backend)
    requires
      var k := SigningKeyFor(rows, i.scopeId, i.alg).value;
      k.kid != [] && k.private.Some? && Trusts(o.trust, reg.backend, k.kid, i.alg, k.private.value.public)
    requires o.audience == [] && o.issuer == [] && o.fingerprint == i.fingerprint
    ensures ResolveForceOnlineAfter(i, clock.unixSeconds).Ok?
    ensures
      var issued := Issue(rows, reg, clock, i).value;
      var deadline := ResolveForceOnlineAfter(i, clock.unixSeconds).value;
      var r := Validate.Checked(issued.token, o, now);
      && (r.Ok? <==>
            && issued.iat - Validate.Skew(o) <= now <= issued.exp + Validate.Skew(o)
            && (deadline.Some? ==> now < deadline.value))
      && (r.Ok? ==>
            && r.value.envelope.kid == issued.kid && r.value.envelope.alg == i.alg
            && r.value.claims == Claims(
                 i.jti, issued.iat, issued.iat, issued.exp, ScopeSlug(i).value, i.licenseId, i.usageId, i.fingerprint,
                 StatusText(Lifecycle.EffectiveStatus(i.license, clock.now)), i.license.maxUsages, deadline,
                 KeptOption(ResolveEntitlements(i)), None, None))
  {
    hide Issue, EncodeToken, VerifyEnvelope, ReadClaims, Validate.Checked, Validate.CheckClaims, Payload,
      ToCanonical, Kept, SigningKeyFor, Trusts, Ed25519Sized, ResolveForceOnlineAfter, ResolveEntitlements,
      StatusText, Lifecycle.EffectiveStatus, ScopeSlug, KeptOption;
    var signing, public, status, slug, deadline := IssueShape(rows, reg, clock, i);
    var payload := Obj(Payload(i, status, slug, clock.unixSeconds, deadline));
    EncodedVerifies(o.trust, i.format, reg.backend, public, i.alg, signing.kid, payload);
    ClaimsRead(i, status, slug, clock.unixSeconds, deadline);
    var c := Claimed(i, status, slug, clock.unixSeconds, deadline);
    WindowOf(c, o, now, status);
    CheckedOf(Issue(rows, reg, clock, i).value.token, o, now, c);
  }

  lemma CheckedOf(token: Text, o: Validate.Options, now: int, c: Claims)
    requires VerifyEnvelope(o.trust, token).Ok? && ReadClaims(VerifyEnvelope(o.trust, token).value.payload) == Ok(c)
    ensures
      var r := Validate.Checked(token, o, now);
      && (r.Ok? <==> Validate.CheckClaims(c, o, now).Ok?)
      && (r.Ok? ==> r.value == Validate.Accepted(VerifyEnvelope(o.trust, token).value, c))
  {
    hide VerifyEnvelope, ReadClaims, Validate.CheckClaims;
  }

  lemma WindowOf(c: Claims, o: Validate.Options, now: int, status: Entities.LicenseStatus)
    requires status.Active? || status.Grace?
    requires c.status == StatusText(status) && c.fingerprint == o.fingerprint && o.audience == [] && o.issuer == []
    ensures Validate.CheckClaims(c, o, now).Ok? <==>
      c.nbf - Validate.Skew(o) <= now <= c.exp + Validate.Skew(o) && (c.forceOnlineAfter.Some? ==> now < c.forceOnlineAfter.value)
  {
    StatusAccepted(status);
    hide StatusText, Validate.CheckStatus;
  }

  lemma StatusAccepted(s: Entities.LicenseStatus)
    requires s.Active? || s.Grace?
    ensures Validate.CheckStatus(StatusText(s)) == Ok(())
  {
  }

  // Entitlements come back unchanged exactly when they hold no __proto__ key and no bigint.
  lemma EntitlementsKept(o: Members)
    ensures Kept(Obj(o)) == o <==> NoProto(Obj(o)) && NoBigInt(Obj(o))
  {
    NumericFixed(Obj(o));
    WithoutProtoFixed(Numeric(Obj(o)));
    WithoutProtoFixed(Obj(o));
    if Kept(Obj(o)) == o {
      KeptIsClean(Obj(o));
    }
  }

  lemma {:induction false} KeptIsClean(v: Json)
    ensures NoProto(WithoutProto(Numeric(v))) && NoBigInt(WithoutProto(Numeric(v)))
  {
    match v
    case Arr(items) =>
      forall n | 0 <= n < |items|
        ensures NoProto(WithoutProto(Numeric(items[n]))) && NoBigInt(WithoutProto(Numeric(items[n])))
      {
        KeptIsClean(items[n]);
      }
    case Obj(m) =>
      forall k | k in m ensures NoProto(WithoutProto(Numeric(m[k]))) && NoBigInt(WithoutProto(Numeric(m[k]))) {
        KeptIsClean(m[k]);
      }
    case _ =>
  }
}
