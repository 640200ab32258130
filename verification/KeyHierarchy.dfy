// Generating root keys, issuing signing keys and rotating them (licensing/key_hierarchy.go),
// over either store, and the transactional rotation of licensing/scope_service.go.
module KeyHierarchy {
  import opened Base
  import opened Crypto
  import opened Keys
  import CanonicalJson
  import JsonValue
  import Utf8

  // What one issuing call draws from outside: the generated id, the id storage assigns, the
  // chosen or derived kid, the generated key pair and the clock.
  datatype Minted = Minted(id: Id, adapterId: Id, kid: Text, public: Text, now: Text)

  datatype Request = Request(
    scopeId: Option<Id>, alg: Alg, rootKid: Text, rootPassphrase: Text, signingPassphrase: Text)

  // RetireOutgoingAt and RetireOutgoingSet: the new expiry of the outgoing key, and whether it
  // counts.
  datatype Retirement = Retirement(at: Option<Text>, flagged: bool)

  datatype Rotated = Rotated(outgoing: Key, incoming: Key)

  // The registered algorithms and their ideal signature.
  datatype Registry = Registry(registered: set<Alg>, backend: Backend)

  predicate Asymmetric(alg: Alg) {
    alg == Ed25519 || alg == RsaPss
  }

  // ---------- the attested statement ----------

  const KID := Ascii("kid")
  const ALG := Ascii("alg")
  const PUB := Ascii("pub")
  const NOT_BEFORE := Ascii("not_before")
  const NOT_AFTER := Ascii("not_after")

  function Statement(kid: Text, alg: Alg, public: Text, notBefore: Text, notAfter: Option<Text>): JsonValue.Json {
    JsonValue.Obj(map[
      KID := JsonValue.Str(kid),
      ALG := JsonValue.Str(AlgName(alg)),
      PUB := JsonValue.Str(public),
      NOT_BEFORE := JsonValue.Str(notBefore),
      NOT_AFTER := if notAfter.Some? then JsonValue.Str(notAfter.value) else JsonValue.Null
    ])
  }

  // attestationCanonical: the canonical JSON bytes the root signs.
  ghost function StatementBytes(kid: Text, alg: Alg, public: Text, notBefore: Text, notAfter: Option<Text>)
    : Result<Bytes, KeyError>
  {
    match CanonicalJson.Canonical(Statement(kid, alg, public, notBefore, notAfter))
    case Ok(t) => Ok(Utf8.Encode(t))
    case Err(_) => Err(NotCanonical)
  }

  ghost function Attest(b: Registry, root: Key, passphrase: Text, m: Minted, alg: Alg, notAfter: Option<Text>)
    : Result<Attestation, KeyError>
  {
    if root.private.None? then Err(TokenMalformed)
    else if root.alg !in b.registered then Err(KeyError.UnsupportedAlgorithm)
    else if root.private.value.passphrase != passphrase then Err(KeyDecryptionFailed)
    else
      var bytes :- StatementBytes(m.kid, alg, m.public, m.now, notAfter);
      Ok(Attestation(root.kid, b.backend.sign(root.alg, root.private.value.public, bytes)))
  }

  // ---------- the operations ----------

  function RootKey(scopeId: Option<Id>, alg: Alg, passphrase: Text, notAfter: Option<Text>, m: Minted): Key {
    Key(m.id, scopeId, m.kid, alg, Root, Active, m.public, Some(Wrapped(m.public, passphrase)), None, None,
        m.now, notAfter, None)
  }

  ghost function GenerateRoot(s: Store, b: Registry, scopeId: Option<Id>, alg: Alg, passphrase: Text,
                              notAfter: Option<Text>, m: Minted): Result<Store, KeyError>
  {
    if passphrase == [] then Err(MissingKeyPassphrase)
    else if !Asymmetric(alg) || alg !in b.registered then Err(KeyError.UnsupportedAlgorithm)
    else s.Put(RootKey(scopeId, alg, passphrase, notAfter, m), m.adapterId)
  }

  ghost function RequireRoot(s: Store, req: Request): Result<Key, KeyError> {
    match s.FindByKid(req.rootKid)
    case None => Err(KeyError.UnknownKid)
    case Some(root) =>
      if root.role != Root then Err(TokenMalformed)
      else if root.alg != req.alg then Err(KeyError.AlgorithmMismatch)
      else if root.scopeId != req.scopeId then Err(TokenMalformed)
      else Ok(root)
  }

  function SigningKey(req: Request, notAfter: Option<Text>, m: Minted, a: Attestation): Key {
    Key(m.id, req.scopeId, m.kid, req.alg, Signing, Active, m.public,
        Some(Wrapped(m.public, req.signingPassphrase)), None, None, m.now, notAfter, Some(a))
  }

  ghost function IssueSigning(s: Store, b: Registry, req: Request, notAfter: Option<Text>, m: Minted)
    : Result<(Store, Key), KeyError>
  {
    if req.rootPassphrase == [] || req.signingPassphrase == [] then Err(MissingKeyPassphrase)
    else if !Asymmetric(req.alg) then Err(KeyError.UnsupportedAlgorithm)
    else if s.Actives(req.scopeId, req.alg) != {} then Err(UniqueConstraintViolation)
    else
      var root :- RequireRoot(s, req);
      if req.alg !in b.registered then Err(KeyError.UnsupportedAlgorithm)
      else
        var a :- Attest(b, root, req.rootPassphrase, m, req.alg, notAfter);
        var rec := SigningKey(req, notAfter, m, a);
        var next :- s.Put(rec, m.adapterId);
        Ok((next, rec))
  }

  function Demoted(k: Key, now: Text, retire: Retirement): Key {
    k.(state := Retiring, notAfter := if retire.flagged then retire.at else k.notAfter, rotatedAt := Some(now))
  }

  // A failure after the demotion leaves the demotion behind.
  ghost function RotateSigning(s: Store, b: Registry, req: Request, retire: Retirement, now: Text, m: Minted)
    : (Store, Result<Rotated, KeyError>)
  {
    var actives := s.Actives(req.scopeId, req.alg);
    if actives == {} then (s, Err(TokenMalformed))
    else if exists i, j :: i in actives && j in actives && i != j then (s, Err(UniqueConstraintViolation))
    else
      var id :| id in actives;
      RotateFrom(s, b, req, retire, now, m, s.Records()[id])
  }

  ghost function RotateFrom(s: Store, b: Registry, req: Request, retire: Retirement, now: Text, m: Minted,
                            outgoing: Key): (Store, Result<Rotated, KeyError>)
  {
    var retiring := Demoted(outgoing, now, retire);
    match s.Update(outgoing.id, retiring)
    case Err(e) => (s, Err(e))
    case Ok(demoted) =>
      match IssueSigning(demoted, b, req, None, m)
      case Err(e) => (demoted, Err(e))
      case Ok((issued, incoming)) =>
        var linked := incoming.(rotatedFrom := Some(outgoing.id));
        match issued.Update(incoming.id, linked)
        case Err(e) => (issued, Err(e))
        case Ok(done) => (done, Ok(Rotated(retiring, linked)))
  }

  ghost function VerifyAttestation(s: Store, b: Registry, kid: Text): bool {
    match s.FindByKid(kid)
    case None => false
    case Some(k) =>
      && k.role == Signing && k.attestation.Some?
      && s.FindByKid(k.attestation.value.rootKid).Some?
      && var root := s.FindByKid(k.attestation.value.rootKid).value;
      && root.role == Root && root.alg == k.alg
      && k.alg in b.registered
      && var bytes := StatementBytes(k.kid, k.alg, k.public, k.notBefore, k.notAfter);
      && bytes.Ok?
      && b.backend.Verify(k.alg, root.public, bytes.value, k.attestation.value.signature)
  }

  // ---------- the service transaction ----------

  datatype RotateResult = RotateResult(rows: map<Id, Key>, rotated: Result<Rotated, KeyError>)

  // The service passes RetireOutgoingAt on without the flag that makes it count.
  function NotFlagged(retireAt: Option<Text>): Retirement {
    Retirement(retireAt, false)
  }

  // RotateSigningKey: all of the rotation's writes, or none.
  ghost function RotateSigningKey(rows: map<Id, Key>, b: Registry, req: Request, retireAt: Option<Text>, now: Text,
                                  m: Minted): RotateResult
  {
    var (s, r) := RotateSigning(Adapter(rows, map[]), b, req, NotFlagged(retireAt), now, m);
    RotateResult(if r.Ok? then s.Records() else rows, r)
  }

  // ---------- the hierarchy object ----------

  datatype StoreRef = Memory(memory: InMemoryKeyStore) | Storage(storage: StorageKeyStore)

  class KeyHierarchy {
    const store: StoreRef
    const registry: Registry

    ghost function View(): Store
      reads if store.Memory? then {store.memory as object} else {store.storage}
    {
      match store
      case Memory(m) => m.View()
      case Storage(a) => a.View()
    }

    constructor (store: StoreRef, registry: Registry)
      ensures this.store == store && this.registry == registry
    {
      this.store, this.registry := store, registry;
    }

    method Put(rec: Key, adapterId: Id) returns (r: Result<(), KeyError>)
      requires View().Valid()
      modifies if store.Memory? then {store.memory as object} else {store.storage}
      ensures match old(View()).Put(rec, adapterId)
        case Ok(next) => r == Ok(()) && View() == next
        case Err(e) => r == Err(e) && View() == old(View())
    {
      match store
      case Memory(m) => r := m.Put(rec);
      case Storage(a) => r := a.Put(rec, adapterId);
    }

    method Update(id: Id, next: Key) returns (r: Result<(), KeyError>)
      modifies if store.Memory? then {store.memory as object} else {store.storage}
      ensures match old(View()).Update(id, next)
        case Ok(s) => r == Ok(()) && View() == s
        case Err(e) => r == Err(e) && View() == old(View())
    {
      match store
      case Memory(m) => r := m.Update(id, next);
      case Storage(a) => r := a.Update(id, next);
    }

    method FindByKid(kid: Text) returns (r: Option<Key>)
      requires View().Valid()
      ensures r == View().FindByKid(kid)
    {
      match store
      case Memory(m) => r := m.FindByKid(kid);
      case Storage(a) => r := a.FindByKid(kid);
    }

    method List(f: Filter) returns (out: seq<Key>)
      requires View().Valid()
      ensures Lists(out, View().Records(), f)
    {
      match store
      case Memory(m) => out := m.List(f);
      case Storage(a) => out := a.List(f);
    }

    method RootFor(req: Request) returns (r: Result<Key, KeyError>)
      requires View().Valid()
      ensures r == RequireRoot(View(), req)
    {
      var found := FindByKid(req.rootKid);
      if found.None? {
        return Err(KeyError.UnknownKid);
      }
      var root := found.value;
      if root.role != Root {
        return Err(TokenMalformed);
      }
      if root.alg != req.alg {
        return Err(KeyError.AlgorithmMismatch);
      }
      if root.scopeId != req.scopeId {
        return Err(TokenMalformed);
      }
      return Ok(root);
    }

    method AttestSigning(root: Key, passphrase: Text, m: Minted, alg: Alg, notAfter: Option<Text>)
      returns (r: Result<Attestation, KeyError>)
      ensures r == Attest(registry, root, passphrase, m, alg, notAfter)
    {
      if root.private.None? {
        return Err(TokenMalformed);
      }
      if root.alg !in registry.registered {
        return Err(KeyError.UnsupportedAlgorithm);
      }
      if root.private.value.passphrase != passphrase {
        return Err(KeyDecryptionFailed);
      }
      var text := CanonicalJson.CanonicalizeToString(Statement(m.kid, alg, m.public, m.now, notAfter));
      if text.Err? {
        return Err(NotCanonical);
      }
      var signature := registry.backend.sign(root.alg, root.private.value.public, Utf8.Encode(text.value));
      return Ok(Attestation(root.kid, signature));
    }

    method GenerateRootKey(scopeId: Option<Id>, alg: Alg, passphrase: Text, notAfter: Option<Text>, m: Minted)
      returns (r: Result<Key, KeyError>)
      requires View().Valid()
      modifies if store.Memory? then {store.memory as object} else {store.storage}
      ensures match GenerateRoot(old(View()), registry, scopeId, alg, passphrase, notAfter, m)
        case Ok(next) => r == Ok(RootKey(scopeId, alg, passphrase, notAfter, m)) && View() == next
        case Err(e) => r == Err(e) && View() == old(View())
    {
      if passphrase == [] {
        return Err(MissingKeyPassphrase);
      }
      if alg != Ed25519 && alg != RsaPss {
        return Err(KeyError.UnsupportedAlgorithm);
      }
      if alg !in registry.registered {
        return Err(KeyError.UnsupportedAlgorithm);
      }
      var rec := RootKey(scopeId, alg, passphrase, notAfter, m);
      var put := Put(rec, m.adapterId);
      if put.Err? {
        return Err(put.error);
      }
      return Ok(rec);
    }

    method IssueSigningKey(req: Request, notAfter: Option<Text>, m: Minted) returns (r: Result<Key, KeyError>)
      requires View().Valid()
      modifies if store.Memory? then {store.memory as object} else {store.storage}
      ensures match IssueSigning(old(View()), registry, req, notAfter, m)
        case Ok((next, key)) => r == Ok(key) && View() == next
        case Err(e) => r == Err(e) && View() == old(View())
    {
      hide Store.Put, Attest, RequireRoot, Store.Valid, Store.FindByKid;
      if req.rootPassphrase == [] || req.signingPassphrase == [] {
        return Err(MissingKeyPassphrase);
      }
      if req.alg != Ed25519 && req.alg != RsaPss {
        return Err(KeyError.UnsupportedAlgorithm);
      }
      var existing := List(ActiveFilter(req.scopeId, req.alg));
      ActiveListing(View(), existing, req.scopeId, req.alg);
      if |existing| > 0 {
        return Err(UniqueConstraintViolation);
      }
      var root := RootFor(req);
      if root.Err? {
        return Err(root.error);
      }
      if req.alg !in registry.registered {
        return Err(KeyError.UnsupportedAlgorithm);
      }
      var attestation := AttestSigning(root.value, req.rootPassphrase, m, req.alg, notAfter);
      if attestation.Err? {
        return Err(attestation.error);
      }
      var rec := SigningKey(req, notAfter, m, attestation.value);
      var put := Put(rec, m.adapterId);
      if put.Err? {
        return Err(put.error);
      }
      return Ok(rec);
    }

    method RotateSigningKeys(req: Request, retire: Retirement, now: Text, m: Minted)
      returns (r: Result<Rotated, KeyError>)
      requires View().Valid()
      modifies if store.Memory? then {store.memory as object} else {store.storage}
      ensures RotateSigning(old(View()), registry, req, retire, now, m) == (View(), r)
    {
      hide IssueSigning, Store.Update;
      var actives := List(ActiveFilter(req.scopeId, req.alg));
      ActiveListing(View(), actives, req.scopeId, req.alg);
      if |actives| == 0 {
        return Err(TokenMalformed);
      }
      if |actives| > 1 {
        return Err(UniqueConstraintViolation);
      }
      var outgoing := actives[0];
      var retiring := Demoted(outgoing, now, retire);
      var demoted := Update(outgoing.id, retiring);
      if demoted.Err? {
        return Err(demoted.error);
      }
      DemotionIsValid(old(View()), outgoing, now, retire);
      var incoming := IssueSigningKey(req, None, m);
      if incoming.Err? {
        return Err(incoming.error);
      }
      var linked := incoming.value.(rotatedFrom := Some(outgoing.id));
      var done := Update(incoming.value.id, linked);
      if done.Err? {
        return Err(done.error);
      }
      return Ok(Rotated(retiring, linked));
    }
  }

  // The listing of active signing keys counts them.
  lemma ActiveListing(s: Store, out: seq<Key>, scopeId: Option<Id>, alg: Alg)
    requires s.Valid() && Lists(out, s.Records(), ActiveFilter(scopeId, alg))
    ensures |out| == 0 <==> s.Actives(scopeId, alg) == {}
    ensures |out| > 1 <==> exists i, j :: i in s.Actives(scopeId, alg) && j in s.Actives(scopeId, alg) && i != j
    ensures |out| == 1 ==> s.Actives(scopeId, alg) == {out[0].id} && s.Records()[out[0].id] == out[0]
  {
    var actives := s.Actives(scopeId, alg);
    forall i | i in actives ensures s.Records()[i] in out && s.Records()[i].id == i {
    }
    forall n | 0 <= n < |out| ensures out[n].id in actives && s.Records()[out[n].id] == out[n] {
      assert out[n] in out;
    }
    if actives != {} {
      var i :| i in actives;
      assert s.Records()[i] in out;
    }
    if |out| > 0 {
      assert out[0].id in actives;
    }
    if |out| > 1 {
      assert out[0].id != out[1].id;
    }
  }

  // Demoting a key leaves the store valid.
  lemma DemotionIsValid(s: Store, k: Key, now: Text, retire: Retirement)
    requires s.Valid() && k.id in s.Records() && s.Records()[k.id] == k
    requires s.Update(k.id, Demoted(k, now, retire)).Ok?
    ensures s.Update(k.id, Demoted(k, now, retire)).value.Valid()
  {
  }
}
