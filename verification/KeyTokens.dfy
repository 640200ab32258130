// Tokens and key runs together: what is signed before any run of key operations verifies after
// it, under the keys then stored.
module KeyTokens {
  import opened Base
  import opened Crypto
  import opened Keys
  import opened KeyHierarchy
  import opened KeyTheorems
  import opened KeyRuns
  import opened TokenCodec
  import opened TokenTheorems
  import IssueToken
  import Lifecycle
  import TokenAcceptance
  import Validate

  // ---------- the verifier's tables ----------

  ghost function Kids(s: Store): set<Text> {
    set i | i in s.Records() :: s.Records()[i].kid
  }

  // A verifier that knows every stored key, bound to its algorithm.
  ghost function TrustOf(s: Store, b: Registry, codecs: seq<Codec>): Trust {
    Trust(codecs, b.registered,
          map kid | kid in Kids(s) :: s.FindByKid(kid).value.alg,
          map kid | kid in Kids(s) :: KeyRecord(s.FindByKid(kid).value.alg, s.FindByKid(kid).value.public),
          b.backend)
  }

  lemma TrustsRecord(s: Store, b: Registry, codecs: seq<Codec>, i: Id)
    requires s.Valid() && i in s.Records()
    ensures
      var k := s.Records()[i];
      var t := TrustOf(s, b, codecs);
      && k.kid in t.bindings && t.bindings[k.kid] == k.alg
      && k.kid in t.keys && t.keys[k.kid] == KeyRecord(k.alg, k.public)
  {
    FoundByKid(s, s.Records()[i].kid);
    hide Store.FindByKid;
  }

  lemma KnownKid(s: Store, b: Registry, codecs: seq<Codec>, kid: Text)
    ensures kid in TrustOf(s, b, codecs).bindings <==> exists i :: i in s.Records() && s.Records()[i].kid == kid
  {
  }

  // A verdict rests on the decoded kid's entries alone.
  lemma SameVerdict(t: Trust, u: Trust, token: Text)
    requires t.codecs == u.codecs && t.registered == u.registered && t.backend == u.backend
    requires DecodeEnvelope(t.codecs, token).Ok? ==>
      var kid := DecodeEnvelope(t.codecs, token).value.kid;
      kid in t.bindings && kid in u.bindings && t.bindings[kid] == u.bindings[kid]
      && kid in t.keys && kid in u.keys && t.keys[kid] == u.keys[kid]
    ensures VerifyEnvelope(t, token) == VerifyEnvelope(u, token)
  {
    hide DecodeEnvelope;
  }

  lemma KnownVerdict(t: Trust, token: Text)
    requires DecodeEnvelope(t.codecs, token).Ok? && VerifyEnvelope(t, token) != Err(TokenError.UnknownKid)
    ensures DecodeEnvelope(t.codecs, token).value.kid in t.bindings
  {
    hide DecodeEnvelope;
  }

  // Any token's verdict stays through any run of key operations, rotations and failures
  // included, unless its kid was unknown.
  lemma VerdictStays(s: Store, b: Registry, ops: seq<KeyOp>, codecs: seq<Codec>, token: Text)
    requires s.Valid() && OneActive(s.Records()) && FreshRun(s, b, ops)
    ensures Run(s, b, ops).Valid()
    ensures
      var before := VerifyEnvelope(TrustOf(s, b, codecs), token);
      before != Err(TokenError.UnknownKid) ==> VerifyEnvelope(TrustOf(Run(s, b, ops), b, codecs), token) == before
  {
    RunIsSound(s, b, ops);
    var after := Run(s, b, ops);
    hide Run, FreshRun, Store.Valid, OneActive, DecodeEnvelope, VerifyEnvelope;
    var t, u := TrustOf(s, b, codecs), TrustOf(after, b, codecs);
    assert t.codecs == codecs;
    if VerifyEnvelope(t, token) != Err(TokenError.UnknownKid) {
      if DecodeEnvelope(codecs, token).Ok? {
        KnownVerdict(t, token);
        KeptEntries(s, after, b, codecs, DecodeEnvelope(codecs, token).value.kid);
      }
      SameVerdict(t, u, token);
    }
  }

  lemma KeptEntries(s: Store, after: Store, b: Registry, codecs: seq<Codec>, kid: Text)
    requires s.Valid() && after.Valid() && KeepsMaterial(s.Records(), after.Records())
    requires kid in TrustOf(s, b, codecs).bindings
    ensures
      var t, u := TrustOf(s, b, codecs), TrustOf(after, b, codecs);
      && kid in u.bindings && t.bindings[kid] == u.bindings[kid]
      && kid in t.keys && kid in u.keys && t.keys[kid] == u.keys[kid]
  {
    hide Store.Valid, TrustOf;
    KnownKid(s, b, codecs, kid);
    var i :| i in s.Records() && s.Records()[i].kid == kid;
    TrustsRecord(s, b, codecs, i);
    TrustsRecord(after, b, codecs, i);
    assert SameMaterial(s.Records()[i], after.Records()[i]);
  }

  // ---------- key pairs ----------

  // Every stored private key is the private half of its record's public key.
  ghost predicate Paired(rows: map<Id, Key>) {
    forall i :: i in rows && rows[i].private.Some? ==> rows[i].private.value.public == rows[i].public
  }

  predicate PairedKey(k: Key) {
    k.private.Some? ==> k.private.value.public == k.public
  }

  lemma SetKeepsPaired(rows: map<Id, Key>, id: Id, k: Key)
    requires Paired(rows) && PairedKey(k)
    ensures Paired(rows[id := k])
  {
  }

  lemma GenerateKeepsPaired(s: Store, b: Registry, op: KeyOp)
    requires s.Valid() && op.GenerateOp? && Fresh(s, op.m) && Paired(s.Records())
    requires GenerateRoot(s, b, op.scopeId, op.alg, op.passphrase, op.notAfter, op.m).Ok?
    ensures Paired(GenerateRoot(s, b, op.scopeId, op.alg, op.passphrase, op.notAfter, op.m).value.Records())
  {
    var rec := RootKey(op.scopeId, op.alg, op.passphrase, op.notAfter, op.m);
    PutShape(s, rec, op.m);
    hide Store.Put, Store.Valid, Paired;
    SetKeepsPaired(s.Records(), Landed(s, op.m), rec.(id := Landed(s, op.m)));
  }

  lemma IssueKeepsPaired(s: Store, b: Registry, req: Request, notAfter: Option<Text>, m: Minted)
    requires s.Valid() && Fresh(s, m) && Paired(s.Records()) && IssueSigning(s, b, req, notAfter, m).Ok?
    ensures Paired(IssueSigning(s, b, req, notAfter, m).value.0.Records())
    ensures PairedKey(IssueSigning(s, b, req, notAfter, m).value.1)
  {
    IssueShape(s, b, req, notAfter, m);
    hide IssueSigning, Store.Valid, Paired, Attest, RequireRoot;
    var rec := IssueSigning(s, b, req, notAfter, m).value.1;
    SetKeepsPaired(s.Records(), Landed(s, m), rec.(id := Landed(s, m)));
  }

  lemma UpdateKeepsPaired(s: Store, id: Id, next: Key)
    requires s.Valid() && Paired(s.Records()) && s.Resolve(id) in s.Records() && s.Update(id, next).Ok?
    requires
      var cur := s.Records()[s.Resolve(id)];
      next.(id := cur.id) == cur.(state := next.state, rotatedFrom := next.rotatedFrom, rotatedAt := next.rotatedAt,
                                  notAfter := next.notAfter)
    ensures Paired(s.Update(id, next).value.Records())
  {
    UpdateShape(s, id, next);
    assert PairedKey(s.Records()[s.Resolve(id)]);
    hide Store.Update, Store.Valid, Paired;
    SetKeepsPaired(s.Records(), s.Resolve(id), next.(id := s.Resolve(id)));
  }

  lemma RotateKeepsPaired(s: Store, b: Registry, req: Request, retire: Retirement, now: Text, m: Minted)
    requires s.Valid() && Paired(s.Records()) && Fresh(s, m) && (s.Adapter? ==> s.idMap == map[])
    ensures Paired(RotateSigning(s, b, req, retire, now, m).0.Records())
  {
    hide RotateFrom, Paired;
    var actives := s.Actives(req.scopeId, req.alg);
    if actives != {} && !exists i, j :: i in actives && j in actives && i != j {
      var id :| id in actives && RotateSigning(s, b, req, retire, now, m) ==
        RotateFrom(s, b, req, retire, now, m, s.Records()[id]);
      RotateFromKeepsPaired(s, b, req, retire, now, m, s.Records()[id]);
    }
  }

  lemma RotateFromKeepsPaired(s: Store, b: Registry, req: Request, retire: Retirement, now: Text, m: Minted,
                              outgoing: Key)
    requires s.Valid() && Paired(s.Records()) && Fresh(s, m) && (s.Adapter? ==> s.idMap == map[])
    requires outgoing.id in s.Records() && s.Records()[outgoing.id] == outgoing
    ensures Paired(RotateFrom(s, b, req, retire, now, m, outgoing).0.Records())
  {
    hide Store.Update, IssueSigning, Store.Valid, Paired;
    var retiring := Demoted(outgoing, now, retire);
    if s.Update(outgoing.id, retiring).Ok? {
      UpdateKeepsPaired(s, outgoing.id, retiring);
      UpdateShape(s, outgoing.id, retiring);
      var demoted := s.Update(outgoing.id, retiring).value;
      if IssueSigning(demoted, b, req, None, m).Ok? {
        IssueKeepsPaired(demoted, b, req, None, m);
        IssueShape(demoted, b, req, None, m);
        hide IssuedBy;
        var (issued, incoming) := IssueSigning(demoted, b, req, None, m).value;
        var linked := incoming.(rotatedFrom := Some(outgoing.id));
        IssuedFields(demoted, b, req, m, incoming);
        if issued.Update(incoming.id, linked).Ok? {
          UpdateKeepsPaired(issued, incoming.id, linked);
        }
      }
    }
  }

  lemma StepKeepsPaired(s: Store, b: Registry, op: KeyOp)
    requires s.Valid() && Fresh(Begin(s), op.m) && Paired(s.Records())
    ensures Paired(Step(s, b, op).Records())
  {
    var t := Begin(s);
    assert t.Valid() && t.Records() == s.Records();
    hide Store.Valid, Fresh, Paired, GenerateRoot, IssueSigning, RotateSigning;
    match op
    case GenerateOp(sc, a, passphrase, notAfter, m) =>
      if GenerateRoot(t, b, sc, a, passphrase, notAfter, m).Ok? {
        GenerateKeepsPaired(t, b, op);
      }
    case IssueOp(req, notAfter, m) =>
      if IssueSigning(t, b, req, notAfter, m).Ok? {
        IssueKeepsPaired(t, b, req, notAfter, m);
      }
    case RotateOp(req, retireAt, now, m) =>
      RotateKeepsPaired(t, b, req, NotFlagged(retireAt), now, m);
    case BareRotateOp(req, retire, now, m) =>
      RotateKeepsPaired(t, b, req, retire, now, m);
  }

  lemma {:induction false} RunKeepsPaired(s: Store, b: Registry, ops: seq<KeyOp>)
    requires s.Valid() && OneActive(s.Records()) && FreshRun(s, b, ops) && Paired(s.Records())
    ensures Paired(Run(s, b, ops).Records())
    decreases |ops|
  {
    hide Store.Valid, OneActive, KeepsMaterial, Step, Fresh, Paired;
    if ops != [] {
      StepIsSound(s, b, ops[0]);
      StepKeepsPaired(s, b, ops[0]);
      RunKeepsPaired(Step(s, b, ops[0]), b, ops[1..]);
    }
  }

  // ---------- tokens outlive rotations ----------

  // The key issuance found is a stored record of that algorithm.
  lemma FoundIsStored(rows: map<Id, Key>, scopeId: Option<Id>, alg: Alg)
    requires IssueToken.SigningKeyFor(rows, scopeId, alg).Some?
    ensures
      var k := IssueToken.SigningKeyFor(rows, scopeId, alg).value;
      k.alg == alg && exists i :: i in rows && rows[i] == k
  {
  }

  lemma AlgIsRegistered(rows: map<Id, Key>, b: Registry, clock: IssueToken.Clock, i: IssueToken.Input)
    requires IssueToken.Issue(rows, b, clock, i).Ok?
    ensures i.alg in b.registered
  {
    hide IssueToken.SigningKeyFor, IssueToken.ResolveForceOnlineAfter, EncodeToken, IssueToken.Payload,
      Lifecycle.EffectiveStatus, IssueToken.ImportPrivate;
  }

  // The key a token was issued with is still trusted, with its public half.
  lemma TrustsSigning(s: Store, t: Store, b: Registry, codecs: seq<Codec>, clock: IssueToken.Clock, i: IssueToken.Input)
    requires s.Valid() && Paired(s.Records()) && t.Valid() && KeepsMaterial(s.Records(), t.Records())
    requires Standard(codecs) && IssueToken.Issue(s.Records(), b, clock, i).Ok?
    ensures IssueToken.SigningKeyFor(s.Records(), i.scopeId, i.alg).Some?
    ensures
      var k := IssueToken.SigningKeyFor(s.Records(), i.scopeId, i.alg).value;
      && k.private.Some? && k.kid == IssueToken.Issue(s.Records(), b, clock, i).value.kid
      && TokenAcceptance.Trusts(TrustOf(t, b, codecs), b.backend, k.kid, i.alg, k.private.value.public)
  {
    var signing, public, status, slug, deadline := TokenAcceptance.IssueShape(s.Records(), b, clock, i);
    AlgIsRegistered(s.Records(), b, clock, i);
    FoundIsStored(s.Records(), i.scopeId, i.alg);
    hide IssueToken.Issue, IssueToken.SigningKeyFor, Store.Valid;
    var id :| id in s.Records() && s.Records()[id] == signing;
    assert SameMaterial(s.Records()[id], t.Records()[id]);
    TrustsRecord(t, b, codecs, id);
    TrustTables(t, b, codecs);
    hide TrustOf;
  }

  lemma TrustTables(s: Store, b: Registry, codecs: seq<Codec>)
    ensures
      var t := TrustOf(s, b, codecs);
      t.codecs == codecs && t.registered == b.registered && t.backend == b.backend
  {
  }

  // What issuance answered, and the online deadline it settled on.
  ghost predicate IssuedFrom(s: Store, b: Registry, clock: IssueToken.Clock, i: IssueToken.Input,
                             issued: IssueToken.Issued, deadline: Option<int>)
  {
    && IssueToken.Issue(s.Records(), b, clock, i) == Ok(issued)
    && IssueToken.ResolveForceOnlineAfter(i, clock.unixSeconds) == Ok(deadline)
  }

  // A token issued from stored keys validates after any further run of key operations, under
  // the keys then stored, exactly within its window, with its claims as issued.
  lemma IssuedStaysValid(s: Store, b: Registry, ops: seq<KeyOp>, codecs: seq<Codec>, clock: IssueToken.Clock,
                         i: IssueToken.Input, issued: IssueToken.Issued, deadline: Option<int>,
                         o: Validate.Options, now: int)
    requires s.Valid() && OneActive(s.Records()) && Paired(s.Records()) && FreshRun(s, b, ops)
    requires Standard(codecs) && Ed25519Sized(b.backend) && o.trust == TrustOf(Run(s, b, ops), b, codecs)
    requires IssuedFrom(s, b, clock, i, issued, deadline) && issued.kid != []
    requires o.audience == [] && o.issuer == [] && o.fingerprint == i.fingerprint
    ensures
      var r := Validate.Checked(issued.token, o, now);
      && (r.Ok? <==>
            && issued.iat - Validate.Skew(o) <= now <= issued.exp + Validate.Skew(o)
            && (deadline.Some? ==> now < deadline.value))
      && (r.Ok? ==>
            && r.value.envelope.kid == issued.kid && r.value.envelope.alg == i.alg
            && IssueToken.ScopeSlug(i).Ok?
            && r.value.claims == TokenAcceptance.Claimed(
                 i, Lifecycle.EffectiveStatus(i.license, clock.now), IssueToken.ScopeSlug(i).value, issued.iat, deadline))
  {
    hide Run, FreshRun, Store.Valid, OneActive, Paired, KeepsMaterial, IssueToken.Issue, Validate.Checked,
      Validate.Skew, IssueToken.ResolveForceOnlineAfter, IssueToken.SigningKeyFor, TrustOf, Ed25519Sized, Standard,
      TokenAcceptance.Trusts, TokenAcceptance.KeptOption, Lifecycle.EffectiveStatus, IssueToken.StatusText,
      IssueToken.ResolveEntitlements, IssueToken.ScopeSlug;
    RunIsSound(s, b, ops);
    TrustsSigning(s, Run(s, b, ops), b, codecs, clock, i);
    TokenAcceptance.IssuedTokenAccepted(s.Records(), b, clock, i, o, now);
    IssuedTimes(s.Records(), b, clock, i);
  }

  lemma IssuedTimes(rows: map<Id, Key>, b: Registry, clock: IssueToken.Clock, i: IssueToken.Input)
    requires IssueToken.Issue(rows, b, clock, i).Ok?
    ensures
      var issued := IssueToken.Issue(rows, b, clock, i).value;
      issued.iat == clock.unixSeconds && issued.exp == issued.iat + i.ttlSeconds
    ensures IssueToken.ScopeSlug(i).Ok?
  {
    var signing, public, status, slug, deadline := TokenAcceptance.IssueShape(rows, b, clock, i);
  }

  // In particular from an empty store: keys set up and rotated in any run, a token issued, and
  // any further run, rotations of its signing key included.
  lemma TokensOutliveRotations(b: Registry, before: seq<KeyOp>, s: Store, after: seq<KeyOp>, codecs: seq<Codec>,
                               clock: IssueToken.Clock, i: IssueToken.Input, issued: IssueToken.Issued,
                               deadline: Option<int>, o: Validate.Options, now: int)
    requires FreshRun(Adapter(map[], map[]), b, before) && s == Run(Adapter(map[], map[]), b, before)
    requires FreshRun(s, b, after) && o.trust == TrustOf(Run(s, b, after), b, codecs)
    requires Standard(codecs) && Ed25519Sized(b.backend)
    requires IssuedFrom(s, b, clock, i, issued, deadline) && issued.kid != []
    requires o.audience == [] && o.issuer == [] && o.fingerprint == i.fingerprint
    ensures Validate.Checked(issued.token, o, now).Ok? <==>
      && issued.iat - Validate.Skew(o) <= now <= issued.exp + Validate.Skew(o)
      && (deadline.Some? ==> now < deadline.value)
  {
    hide Run, FreshRun, KeepsMaterial, Validate.Checked, Validate.Skew, TrustOf, Ed25519Sized, Standard, IssuedFrom;
    RunIsSound(Adapter(map[], map[]), b, before);
    RunKeepsPaired(Adapter(map[], map[]), b, before);
    hide Store.Valid, OneActive, Paired;
    IssuedStaysValid(s, b, after, codecs, clock, i, issued, deadline, o, now);
  }
}
