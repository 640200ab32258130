// Root attestations of signing keys: they verify throughout every run of the services, and
// stop verifying exactly when a rotation changes the attested expiry.
module KeyAttestations {
  import opened Base
  import opened Crypto
  import opened Keys
  import opened KeyHierarchy
  import opened KeyTheorems
  import opened KeyRuns
  import CanonicalBytes
  import JsonValue

  // A root record holds the private half of its own public key.
  ghost predicate RootsPaired(rows: map<Id, Key>) {
    forall i :: i in rows && rows[i].role == Root && rows[i].private.Some? ==> rows[i].private.value.public == rows[i].public
  }

  // The record's attestation is its root's signature over the record's statement.
  ghost predicate AttestedBy(root: Key, b: Registry, k: Key) {
    && k.attestation.Some?
    && root.kid == k.attestation.value.rootKid && root.role == Root && root.alg == k.alg
    && k.alg in b.registered
    && StatementBytes(k.kid, k.alg, k.public, k.notBefore, k.notAfter).Ok?
    && k.attestation.value.signature
       == b.backend.sign(k.alg, root.public, StatementBytes(k.kid, k.alg, k.public, k.notBefore, k.notAfter).value)
  }

  ghost predicate Attested(rows: map<Id, Key>, b: Registry, k: Key) {
    exists j :: j in rows && AttestedBy(rows[j], b, k)
  }

  // VerifyAttestation answers by the records.
  lemma VerifiesAttested(s: Store, b: Registry, id: Id)
    requires s.Valid() && id in s.Records() && s.Records()[id].role == Signing
    ensures VerifyAttestation(s, b, s.Records()[id].kid) <==> Attested(s.Records(), b, s.Records()[id])
  {
    hide StatementBytes;
    var rows := s.Records();
    var k := rows[id];
    FoundByKid(s, k.kid);
    if k.attestation.Some? {
      FoundByKid(s, k.attestation.value.rootKid);
    }
  }

  ghost predicate AllAttested(rows: map<Id, Key>, b: Registry) {
    && RootsPaired(rows)
    && (forall i :: i in rows && rows[i].role == Signing ==> Attested(rows, b, rows[i]))
  }

  // A key its root just attested.
  lemma IssuedIsAttested(s: Store, b: Registry, req: Request, notAfter: Option<Text>, m: Minted, rec: Key)
    requires s.Valid() && RootsPaired(s.Records()) && IssuedBy(s, b, req, notAfter, m, rec)
    ensures Attested(s.Records(), b, rec)
  {
    hide StatementBytes;
    FoundByKid(s, req.rootKid);
    var root := RequireRoot(s, req).value;
    assert AttestedBy(s.Records()[root.id], b, rec);
  }

  // Attestations outlive any change that keeps key material and expiries.
  lemma StaysAttested(before: map<Id, Key>, after: map<Id, Key>, b: Registry, k: Key, l: Key)
    requires Attested(before, b, k)
    requires KeepsMaterial(before, after)
    requires SameMaterial(k, l) && k.notAfter == l.notAfter
    ensures Attested(after, b, l)
  {
    hide StatementBytes;
    var j :| j in before && AttestedBy(before[j], b, k);
    assert AttestedBy(after[j], b, l);
  }

  // One changed record, one new record.
  lemma AttestedAfter(before: map<Id, Key>, after: map<Id, Key>, b: Registry, newId: Id)
    requires AllAttested(before, b) && KeepsMaterial(before, after)
    requires after.Keys == before.Keys + {newId} && newId !in before
    requires forall i :: i in before ==> after[i].notAfter == before[i].notAfter
    requires after[newId].role == Root && after[newId].private.Some? ==>
      after[newId].private.value.public == after[newId].public
    requires after[newId].role == Signing ==> Attested(before, b, after[newId])
    ensures AllAttested(after, b)
  {
    hide Attested;
    forall i | i in after && after[i].role == Signing ensures Attested(after, b, after[i]) {
      if i != newId {
        StaysAttested(before, after, b, before[i], after[i]);
      } else {
        StaysAttested(before, after, b, after[i], after[i]);
      }
    }
  }

  lemma AttestedWith(before: map<Id, Key>, b: Registry, k: Key, l: Key)
    requires Attested(before, b, k) && SameMaterial(k, l) && k.notAfter == l.notAfter
    ensures Attested(before, b, l)
  {
    StaysAttested(before, before, b, k, l);
  }

  lemma AddAttested(rows: map<Id, Key>, b: Registry, id: Id, k: Key)
    requires AllAttested(rows, b) && id !in rows
    requires k.role == Root && k.private.Some? ==> k.private.value.public == k.public
    requires k.role == Signing ==> Attested(rows, b, k)
    ensures AllAttested(rows[id := k], b)
  {
    hide Attested, AllAttested;
    assert rows[id := k].Keys == rows.Keys + {id};
    AttestedAfter(rows, rows[id := k], b, id);
  }

  lemma GenerateKeepsAttested(t: Store, b: Registry, op: KeyOp)
    requires t.Valid() && op.GenerateOp? && Fresh(t, op.m) && AllAttested(t.Records(), b)
    requires GenerateRoot(t, b, op.scopeId, op.alg, op.passphrase, op.notAfter, op.m).Ok?
    ensures AllAttested(GenerateRoot(t, b, op.scopeId, op.alg, op.passphrase, op.notAfter, op.m).value.Records(), b)
  {
    hide Store.Put, Store.Valid, AllAttested;
    var rec := RootKey(op.scopeId, op.alg, op.passphrase, op.notAfter, op.m);
    PutShape(t, rec, op.m);
    AddAttested(t.Records(), b, Landed(t, op.m), rec.(id := Landed(t, op.m)));
  }

  lemma IssueKeepsAttested(t: Store, b: Registry, op: KeyOp)
    requires t.Valid() && op.IssueOp? && Fresh(t, op.m) && AllAttested(t.Records(), b)
    requires IssueSigning(t, b, op.req, op.notAfter, op.m).Ok?
    ensures AllAttested(IssueSigning(t, b, op.req, op.notAfter, op.m).value.0.Records(), b)
  {
    hide IssueSigning, Store.Valid, Attested;
    IssueShape(t, b, op.req, op.notAfter, op.m);
    var rec := IssueSigning(t, b, op.req, op.notAfter, op.m).value.1;
    IssuedIsAttested(t, b, op.req, op.notAfter, op.m, rec);
    IssuedRole(t, b, op.req, op.notAfter, op.m, rec);
    hide IssuedBy;
    AttestedWith(t.Records(), b, rec, rec.(id := Landed(t, op.m)));
    AddAttested(t.Records(), b, Landed(t, op.m), rec.(id := Landed(t, op.m)));
    hide AllAttested;
  }

  lemma RotateKeepsAttested(t: Store, b: Registry, op: KeyOp)
    requires t.Valid() && t.Adapter? && t.idMap == map[] && op.RotateOp? && Fresh(t, op.m)
    requires OneActive(t.Records()) && AllAttested(t.Records(), b)
    requires RotateSigning(t, b, op.req, NotFlagged(op.retireAt), op.now, op.m).1.Ok?
    ensures AllAttested(RotateSigning(t, b, op.req, NotFlagged(op.retireAt), op.now, op.m).0.Records(), b)
  {
    hide RotateSigning, Store.Valid, Attested, KeepsMaterial, OneActive;
    RotateIsSound(t, b, op.req, NotFlagged(op.retireAt), op.now, op.m);
    var outgoing := RotateShape(t, b, op.req, NotFlagged(op.retireAt), op.now, op.m);
    var (done, r) := RotateSigning(t, b, op.req, NotFlagged(op.retireAt), op.now, op.m);
    var rec := r.value.incoming.(rotatedFrom := None);
    IssuedIsAttested(t, b, op.req, None, op.m, rec);
    IssuedRole(t, b, op.req, None, op.m, rec);
    hide IssuedBy;
    AttestedWith(t.Records(), b, rec, r.value.incoming.(id := Landed(t, op.m)));
    AttestedAfter(t.Records(), done.Records(), b, Landed(t, op.m));
    hide AllAttested;
  }

  lemma StepKeepsAttested(s: Store, b: Registry, op: KeyOp)
    requires s.Valid() && s.Adapter? && OneActive(s.Records()) && !op.BareRotateOp? && Fresh(Begin(s), op.m)
    requires AllAttested(s.Records(), b)
    ensures AllAttested(Step(s, b, op).Records(), b)
  {
    var t := Begin(s);
    assert t.Valid() && t.Records() == s.Records();
    hide Store.Valid, OneActive, Fresh, AllAttested, GenerateRoot, IssueSigning, RotateSigning;
    match op
    case GenerateOp(sc, a, passphrase, notAfter, m) =>
      if GenerateRoot(t, b, sc, a, passphrase, notAfter, m).Ok? {
        GenerateKeepsAttested(t, b, op);
      }
    case IssueOp(req, notAfter, m) =>
      if IssueSigning(t, b, req, notAfter, m).Ok? {
        IssueKeepsAttested(t, b, op);
      }
    case RotateOp(req, retireAt, now, m) =>
      if RotateSigning(t, b, req, NotFlagged(retireAt), now, m).1.Ok? {
        RotateKeepsAttested(t, b, op);
      }
  }

  lemma IssuedRole(s: Store, b: Registry, req: Request, notAfter: Option<Text>, m: Minted, rec: Key)
    requires IssuedBy(s, b, req, notAfter, m, rec)
    ensures rec.role == Signing
  {
  }

  ghost predicate AllVerify(s: Store, b: Registry) {
    forall i :: i in s.Records() && s.Records()[i].role == Signing ==> VerifyAttestation(s, b, s.Records()[i].kid)
  }

  lemma AllAttestedVerify(s: Store, b: Registry)
    requires s.Valid() && AllAttested(s.Records(), b)
    ensures AllVerify(s, b)
  {
    hide VerifyAttestation, Attested;
    forall i | i in s.Records() && s.Records()[i].role == Signing
      ensures VerifyAttestation(s, b, s.Records()[i].kid)
    {
      VerifiesAttested(s, b, i);
    }
  }

  // Where every signing key's attestation verifies (no keys at all, say), every one verifies
  // after any run of the services.
  lemma {:induction false} ServicesKeepAttestations(s: Store, b: Registry, ops: seq<KeyOp>)
    requires s.Valid() && OneActive(s.Records()) && AllAttested(s.Records(), b)
    requires FreshRun(s, b, ops) && ServiceRun(s, ops)
    ensures AllVerify(Run(s, b, ops), b)
    decreases |ops|
  {
    hide OneActive, Step, Fresh, KeepsMaterial, AllAttested, AllVerify, Store.Valid;
    if ops == [] {
      AllAttestedVerify(s, b);
    } else {
      StepIsSound(s, b, ops[0]);
      StepKeepsAttested(s, b, ops[0]);
      ServicesKeepAttestations(Step(s, b, ops[0]), b, ops[1..]);
    }
  }

  // ---------- a changed expiry ----------

  // The canonical statement determines what it states.
  lemma StatementDetermines(kid: Text, alg: Alg, public: Text, notBefore: Text, x: Option<Text>, y: Option<Text>)
    requires StatementBytes(kid, alg, public, notBefore, x).Ok?
    requires StatementBytes(kid, alg, public, notBefore, x) == StatementBytes(kid, alg, public, notBefore, y)
    ensures x == y
  {
    var v := Statement(kid, alg, public, notBefore, x);
    var w := Statement(kid, alg, public, notBefore, y);
    assert CanonicalBytes.Canonicalize(v) == CanonicalBytes.Canonicalize(w);
    StatementPlain(kid, alg, public, notBefore, x);
    StatementPlain(kid, alg, public, notBefore, y);
    CanonicalBytes.BytesInjective(v, w);
    KeysDiffer();
    assert v.members[NOT_AFTER] == w.members[NOT_AFTER];
  }

  lemma KeysDiffer()
    ensures NOT_AFTER != NOT_BEFORE && NOT_AFTER != KID && NOT_AFTER != ALG && NOT_AFTER != PUB
  {
    assert |NOT_AFTER| == 9 && |NOT_BEFORE| == 10 && |KID| == 3 && |ALG| == 3 && |PUB| == 3;
  }

  lemma StatementPlain(kid: Text, alg: Alg, public: Text, notBefore: Text, notAfter: Option<Text>)
    ensures JsonValue.NoBigInt(Statement(kid, alg, public, notBefore, notAfter))
  {
    var m := Statement(kid, alg, public, notBefore, notAfter).members;
    forall k | k in m ensures JsonValue.NoBigInt(m[k]) {
      assert m[k].Str? || m[k].Null?;
    }
  }

  // After a rotation that sets the outgoing key's expiry, its attestation verifies exactly
  // when that expiry is the attested one.
  lemma RetiringChangesAttestation(s: Store, b: Registry, req: Request, retire: Retirement, now: Text,
                                   m: Minted) returns (outgoing: Key)
    requires s.Valid() && OneActive(s.Records()) && Fresh(s, m) && (s.Adapter? ==> s.idMap == map[])
    requires AllAttested(s.Records(), b) && b.backend.Injective()
    requires RotateSigning(s, b, req, retire, now, m).1.Ok?
    ensures outgoing.id in s.Records() && outgoing == s.Records()[outgoing.id]
    ensures RotateSigning(s, b, req, retire, now, m).1.value.outgoing == Demoted(outgoing, now, retire)
    ensures VerifyAttestation(RotateSigning(s, b, req, retire, now, m).0, b, outgoing.kid)
      <==> !retire.flagged || retire.at == outgoing.notAfter
  {
    outgoing := RotateShape(s, b, req, retire, now, m);
    RotateIsSound(s, b, req, retire, now, m);
    var done := RotateSigning(s, b, req, retire, now, m).0;
    hide RotateSigning, IssuedBy, VerifyAttestation, Attested, Store.Valid, OneActive, KeepsMaterial;
    assert outgoing.id in s.Actives(req.scopeId, req.alg);
    var retiring := Demoted(outgoing, now, retire);
    assert done.Records()[outgoing.id] == retiring;
    VerifiesAttested(done, b, outgoing.id);
    if !retire.flagged || retire.at == outgoing.notAfter {
      StaysAttested(s.Records(), done.Records(), b, outgoing, retiring);
    } else {
      OtherExpiry(s.Records(), done, b, outgoing, retiring);
    }
  }

  lemma OtherExpiry(before: map<Id, Key>, after: Store, b: Registry, k: Key, l: Key)
    requires after.Valid() && KeepsMaterial(before, after.Records()) && b.backend.Injective()
    requires Attested(before, b, k) && SameMaterial(k, l) && k.notAfter != l.notAfter
    ensures !Attested(after.Records(), b, l)
  {
    hide StatementBytes;
    var i :| i in before && AttestedBy(before[i], b, k);
    if Attested(after.Records(), b, l) {
      var j :| j in after.Records() && AttestedBy(after.Records()[j], b, l);
      assert after.Records()[i].kid == after.Records()[j].kid;
      var p := StatementBytes(k.kid, k.alg, k.public, k.notBefore, k.notAfter);
      var q := StatementBytes(k.kid, k.alg, k.public, k.notBefore, l.notAfter);
      assert p.value == q.value;
      StatementDetermines(k.kid, k.alg, k.public, k.notBefore, k.notAfter, l.notAfter);
    }
  }
}
