// What every run of key operations keeps: one active signing key per scope and algorithm,
// immutable key material, an unbroken rotation lineage and valid attestations.
module KeyTheorems {
  import opened Base
  import opened Crypto
  import opened Keys
  import opened KeyHierarchy
  import CanonicalJson
  import JsonRoundTrip
  import JsonValue
  import Utf8

  // The id a new record lands under.
  function Landed(s: Store, m: Minted): Id {
    if s.InMemory? then m.id else m.adapterId
  }

  // Generated ids are new.
  ghost predicate Fresh(s: Store, m: Minted) {
    && m.id !in s.Records() && m.adapterId !in s.Records()
    && (s.Adapter? ==> m.id !in s.idMap && m.adapterId !in s.idMap)
  }

  // ---------- what the operations do to the records ----------

  lemma PutShape(s: Store, rec: Key, m: Minted)
    requires s.Valid() && Fresh(s, m) && rec.id == m.id && s.Put(rec, m.adapterId).Ok?
    ensures
      var next := s.Put(rec, m.adapterId).value;
      && next.Valid() && (next.InMemory? <==> s.InMemory?)
      && next.Records() == s.Records()[Landed(s, m) := rec.(id := Landed(s, m))]
      && next.Resolve(m.id) == Landed(s, m)
      && (forall i :: i in s.Records() ==> next.Resolve(i) == s.Resolve(i))
      && (forall i :: i in s.Records() ==> s.Records()[i].kid != rec.kid)
  {
    if s.InMemory? {
      forall i | i in s.byId ensures s.byId[i].kid != rec.kid {
      }
    }
  }

  lemma UpdateShape(s: Store, id: Id, next: Key)
    requires s.Valid() && s.Resolve(id) in s.Records() && s.Update(id, next).Ok?
    requires
      var cur := s.Records()[s.Resolve(id)];
      next.(id := cur.id) == cur.(state := next.state, rotatedFrom := next.rotatedFrom, rotatedAt := next.rotatedAt,
                                  notAfter := next.notAfter, attestation := next.attestation)
    ensures
      var done := s.Update(id, next).value;
      && done.Valid() && (done.InMemory? <==> s.InMemory?)
      && done.Records() == s.Records()[s.Resolve(id) := next.(id := s.Resolve(id))]
      && (s.Adapter? ==> done.idMap == s.idMap)
  {
  }

  // An issued key is a new active signing key, and there was none.
  lemma IssueShape(s: Store, b: Registry, req: Request, notAfter: Option<Text>, m: Minted)
    requires s.Valid() && Fresh(s, m) && IssueSigning(s, b, req, notAfter, m).Ok?
    ensures
      var (next, rec) := IssueSigning(s, b, req, notAfter, m).value;
      && next.Valid() && (next.InMemory? <==> s.InMemory?)
      && s.Actives(req.scopeId, req.alg) == {}
      && IssuedBy(s, b, req, notAfter, m, rec)
      && next.Records() == s.Records()[Landed(s, m) := rec.(id := Landed(s, m))]
      && next.Resolve(m.id) == Landed(s, m)
      && (forall i :: i in s.Records() ==> s.Records()[i].kid != rec.kid)
  {
    hide Store.Put, Attest, RequireRoot, Store.Actives, Store.Valid;
    var root := RequireRoot(s, req).value;
    var a := Attest(b, root, req.rootPassphrase, m, req.alg, notAfter).value;
    PutShape(s, SigningKey(req, notAfter, m, a), m);
  }

  // The key a request's root attests.
  ghost predicate IssuedBy(s: Store, b: Registry, req: Request, notAfter: Option<Text>, m: Minted, rec: Key) {
    && RequireRoot(s, req).Ok?
    && Attest(b, RequireRoot(s, req).value, req.rootPassphrase, m, req.alg, notAfter).Ok?
    && rec == SigningKey(req, notAfter, m,
         Attest(b, RequireRoot(s, req).value, req.rootPassphrase, m, req.alg, notAfter).value)
    && req.alg in b.registered
  }

  // Demoting a signing key changes no root.
  lemma RootsStay(s: Store, id: Id, next: Key, after: Store, req: Request)
    requires s.Valid() && after.Valid() && id in s.Records() && s.Records()[id].role == Signing
    requires next.role == Signing && next.kid == s.Records()[id].kid
    requires after.Records() == s.Records()[id := next]
    ensures RequireRoot(after, req).Ok? ==> RequireRoot(after, req) == RequireRoot(s, req)
  {
    FoundByKid(s, req.rootKid);
    FoundByKid(after, req.rootKid);
    if RequireRoot(after, req).Ok? {
      var root := RequireRoot(after, req).value;
      assert root.id in s.Records() && s.Records()[root.id] == root;
    }
  }

  // A successful rotation demotes the one active key and adds its successor, nothing else.
  lemma RotateShape(s: Store, b: Registry, req: Request, retire: Retirement, now: Text, m: Minted)
    returns (outgoing: Key)
    requires s.Valid() && Fresh(s, m) && (s.Adapter? ==> s.idMap == map[])
    requires RotateSigning(s, b, req, retire, now, m).1.Ok?
    ensures outgoing.id in s.Records() && s.Records()[outgoing.id] == outgoing
    ensures s.Actives(req.scopeId, req.alg) == {outgoing.id}
    ensures
      var (done, r) := RotateSigning(s, b, req, retire, now, m);
      var linked := r.value.incoming;
      && done.Valid() && (done.InMemory? <==> s.InMemory?)
      && r.value.outgoing == Demoted(outgoing, now, retire)
      && linked.rotatedFrom == Some(outgoing.id)
      && IssuedBy(s, b, req, None, m, linked.(rotatedFrom := None))
      && done.Records() == s.Records()[outgoing.id := Demoted(outgoing, now, retire)]
                                     [Landed(s, m) := linked.(id := Landed(s, m))]
      && (forall i :: i in s.Records() ==> s.Records()[i].kid != linked.kid)
  {
    hide RotateFrom, Demoted, IssuedBy, Store.Valid;
    var actives := s.Actives(req.scopeId, req.alg);
    var id :| id in actives && RotateSigning(s, b, req, retire, now, m) ==
      RotateFrom(s, b, req, retire, now, m, s.Records()[id]);
    outgoing := s.Records()[id];
    IdsMatch(s, id);
    assert actives == {id};
    RotateFromShape(s, b, req, retire, now, m, outgoing);
  }

  lemma IdsMatch(s: Store, id: Id)
    requires s.Valid() && id in s.Records()
    ensures s.Records()[id].id == id
  {
  }

  lemma RotateFromShape(s: Store, b: Registry, req: Request, retire: Retirement, now: Text, m: Minted,
                        outgoing: Key)
    requires s.Valid() && Fresh(s, m) && (s.Adapter? ==> s.idMap == map[])
    requires outgoing.id in s.Records() && s.Records()[outgoing.id] == outgoing && outgoing.role == Signing
    requires RotateFrom(s, b, req, retire, now, m, outgoing).1.Ok?
    ensures
      var (done, r) := RotateFrom(s, b, req, retire, now, m, outgoing);
      var linked := r.value.incoming;
      && done.Valid() && (done.InMemory? <==> s.InMemory?)
      && r.value.outgoing == Demoted(outgoing, now, retire)
      && linked.rotatedFrom == Some(outgoing.id)
      && IssuedBy(s, b, req, None, m, linked.(rotatedFrom := None))
      && done.Records() == s.Records()[outgoing.id := Demoted(outgoing, now, retire)]
                                     [Landed(s, m) := linked.(id := Landed(s, m))]
      && (forall i :: i in s.Records() ==> s.Records()[i].kid != linked.kid)
  {
    hide IssueSigning, Store.Update, Store.Valid, Store.Actives, IssuedBy;
    var id := outgoing.id;
    var demoted, issued, incoming := DemoteAndIssue(s, b, req, retire, now, m, outgoing);
    IssuedFields(s, b, req, m, incoming);
    UpdateShape(issued, m.id, incoming.(rotatedFrom := Some(id)));
    hide Demoted;
  }

  lemma DemoteAndIssue(s: Store, b: Registry, req: Request, retire: Retirement, now: Text, m: Minted,
                       outgoing: Key) returns (demoted: Store, issued: Store, incoming: Key)
    requires s.Valid() && Fresh(s, m) && (s.Adapter? ==> s.idMap == map[])
    requires outgoing.id in s.Records() && s.Records()[outgoing.id] == outgoing && outgoing.role == Signing
    requires RotateFrom(s, b, req, retire, now, m, outgoing).1.Ok?
    ensures s.Update(outgoing.id, Demoted(outgoing, now, retire)) == Ok(demoted)
    ensures IssueSigning(demoted, b, req, None, m) == Ok((issued, incoming))
    ensures issued.Valid() && (issued.InMemory? <==> s.InMemory?)
    ensures issued.Resolve(m.id) == Landed(s, m)
    ensures IssuedBy(s, b, req, None, m, incoming)
    ensures issued.Records() == s.Records()[outgoing.id := Demoted(outgoing, now, retire)]
                                          [Landed(s, m) := incoming.(id := Landed(s, m))]
    ensures forall i :: i in s.Records() ==> s.Records()[i].kid != incoming.kid
  {
    hide IssueSigning, Store.Update, RequireRoot, Attest, Store.Valid, Store.Actives;
    var retiring := Demoted(outgoing, now, retire);
    UpdateShape(s, outgoing.id, retiring);
    demoted := s.Update(outgoing.id, retiring).value;
    assert Fresh(demoted, m);
    IssueShape(demoted, b, req, None, m);
    RootsStay(s, outgoing.id, retiring, demoted, req);
    var p := IssueSigning(demoted, b, req, None, m).value;
    issued, incoming := p.0, p.1;
    hide IssuedBy, Demoted;
    forall i | i in s.Records() ensures s.Records()[i].kid != incoming.kid {
      assert i in demoted.Records() && demoted.Records()[i].kid == s.Records()[i].kid;
    }
  }

  lemma IssuedFields(s: Store, b: Registry, req: Request, m: Minted, rec: Key)
    requires IssuedBy(s, b, req, None, m, rec)
    ensures rec.id == m.id && rec.rotatedFrom == None
  {
  }
}
