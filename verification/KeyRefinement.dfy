// The storage-backed key store behaves as the in-process one for every call the hierarchy
// makes, up to renaming ids, except where storage allows fewer active keys.
module KeyRefinement {
  import opened Base
  import opened Crypto
  import opened Keys
  import opened KeyHierarchy
  import opened KeyTheorems

  function Rename(f: map<Id, Id>, id: Id): Id {
    if id in f then f[id] else id
  }

  function Renamed(f: map<Id, Id>, k: Key): Key {
    k.(id := Rename(f, k.id),
       rotatedFrom := if k.rotatedFrom.Some? then Some(Rename(f, k.rotatedFrom.value)) else None)
  }

  ghost predicate Bijection(f: map<Id, Id>, from: set<Id>, to: set<Id>) {
    && f.Keys == from
    && (forall i, j :: i in f && j in f && f[i] == f[j] ==> i == j)
    && (forall i :: i in f ==> f[i] in to)
    && (forall j :: j in to ==> exists i :: i in f && f[i] == j)
  }

  // Row for row the same, under a renaming of the ids.
  ghost predicate Correspond(from: map<Id, Key>, to: map<Id, Key>, f: map<Id, Id>) {
    && Bijection(f, from.Keys, to.Keys)
    && (forall i :: i in f ==> from[i].id == i && to[f[i]] == Renamed(f, from[i]))
    && (forall i :: i in f && from[i].rotatedFrom.Some? ==> from[i].rotatedFrom.value in f)
  }

  ghost predicate Sim(mem: Store, ad: Store, f: map<Id, Id>) {
    mem.InMemory? && ad.Adapter? && mem.Valid() && ad.Valid() && Correspond(mem.byId, ad.rows, f)
  }

  // A scope's active signing key under another algorithm, which storage does not allow beside
  // a new one.
  ghost predicate OtherAlgActive(s: Store, scopeId: Option<Id>, alg: Alg) {
    exists i :: i in s.Records() && ActiveSigning(s.Records()[i], scopeId) && s.Records()[i].alg != alg
  }

  // ---------- reads ----------

  lemma FindRefines(mem: Store, ad: Store, f: map<Id, Id>, kid: Text)
    requires Sim(mem, ad, f)
    ensures mem.FindByKid(kid).Some? <==> ad.FindByKid(kid).Some?
    ensures mem.FindByKid(kid).Some? ==> ad.FindByKid(kid).value == Renamed(f, mem.FindByKid(kid).value)
  {
    FoundByKid(mem, kid);
    FoundByKid(ad, kid);
    hide Store.FindByKid, Store.Valid, Renamed, Bijection;
    if mem.FindByKid(kid).Some? {
      var k := mem.FindByKid(kid).value;
      assert k.id in f by {
        SameKeys(mem.byId, ad.rows, f, k.id);
      }
      Images(mem.byId, ad.rows, f, k.id);
      RenamedKid(f, k);
      assert f[k.id] in ad.Records() && ad.Records()[f[k.id]].kid == kid;
    }
    if ad.FindByKid(kid).Some? {
      var k := ad.FindByKid(kid).value;
      var i := Preimage(mem.byId, ad.rows, f, k.id);
      RenamedKid(f, mem.byId[i]);
      assert i in mem.Records() && mem.Records()[i].kid == kid;
    }
  }

  lemma SameKeys(from: map<Id, Key>, to: map<Id, Key>, f: map<Id, Id>, id: Id)
    requires Correspond(from, to, f)
    ensures id in from <==> id in f
  {
  }

  lemma Preimage(from: map<Id, Key>, to: map<Id, Key>, f: map<Id, Id>, j: Id) returns (i: Id)
    requires Correspond(from, to, f) && j in to
    ensures i in from && i in f && f[i] == j && to[j] == Renamed(f, from[i])
  {
    i :| i in f && f[i] == j;
  }

  lemma RenamedKid(f: map<Id, Id>, k: Key)
    ensures Renamed(f, k).kid == k.kid && Renamed(f, k).role == k.role
    ensures Renamed(f, k).alg == k.alg && Renamed(f, k).scopeId == k.scopeId
  {
  }

  lemma ActivesRefine(mem: Store, ad: Store, f: map<Id, Id>, scopeId: Option<Id>, alg: Alg)
    requires Sim(mem, ad, f)
    ensures forall i :: i in mem.Actives(scopeId, alg) ==> i in f && f[i] in ad.Actives(scopeId, alg)
    ensures forall j :: j in ad.Actives(scopeId, alg) ==> exists i :: i in mem.Actives(scopeId, alg) && i in f && f[i] == j
  {
    hide Store.Valid, Renamed, Bijection;
    forall i | i in mem.Actives(scopeId, alg) ensures i in f && f[i] in ad.Actives(scopeId, alg) {
      SameKeys(mem.byId, ad.rows, f, i);
      Images(mem.byId, ad.rows, f, i);
      RenamedActive(f, mem.byId[i], scopeId, alg);
    }
    forall j | j in ad.Actives(scopeId, alg) ensures exists i :: i in mem.Actives(scopeId, alg) && i in f && f[i] == j {
      var i := Preimage(mem.byId, ad.rows, f, j);
      RenamedActive(f, mem.byId[i], scopeId, alg);
      assert i in mem.Actives(scopeId, alg);
    }
  }

  lemma RenamedActive(f: map<Id, Id>, k: Key, scopeId: Option<Id>, alg: Alg)
    ensures ActiveSigning(Renamed(f, k), scopeId) == ActiveSigning(k, scopeId) && Renamed(f, k).alg == k.alg
  {
  }

  lemma RootRefines(mem: Store, ad: Store, f: map<Id, Id>, req: Request)
    requires Sim(mem, ad, f)
    ensures RequireRoot(mem, req).Err? ==> RequireRoot(ad, req) == RequireRoot(mem, req)
    ensures RequireRoot(mem, req).Ok? ==> RequireRoot(ad, req) == Ok(Renamed(f, RequireRoot(mem, req).value))
  {
    hide Store.FindByKid, Store.Valid, Correspond, Renamed;
    FindRefines(mem, ad, f, req.rootKid);
    if mem.FindByKid(req.rootKid).Some? {
      RenamedKid(f, mem.FindByKid(req.rootKid).value);
    }
  }

  // ---------- writes ----------

  lemma PutRefines(mem: Store, ad: Store, f: map<Id, Id>, rec: Key, m: Minted)
    requires Sim(mem, ad, f) && Fresh(mem, m) && Fresh(ad, m)
    requires rec.id == m.id && rec.rotatedFrom == None
    ensures
      var x := mem.Put(rec, m.adapterId);
      var y := ad.Put(rec, m.adapterId);
      if x.Err? then y == Err(x.error)
      else if ActiveSigning(rec, rec.scopeId) && ScopeIsTaken(mem, rec.scopeId) then
        y == Err(UniqueConstraintViolation)
      else
        y.Ok? && Sim(x.value, y.value, f[m.id := m.adapterId]) && y.value.Resolve(m.id) == m.adapterId
        && y.value.idMap == ad.idMap[m.id := m.adapterId]
  {
    FindRefines(mem, ad, f, rec.kid);
    ScopeTaken(mem, ad, f, rec.scopeId);
    MemPutResult(mem, rec, m);
    AdPutResult(ad, rec, m);
    hide Store.Put, Store.Valid, Correspond, Store.FindByKid, ScopeIsTaken;
    if mem.Put(rec, m.adapterId).Ok? && ad.Put(rec, m.adapterId).Ok? {
      PutShape(mem, rec, m);
      PutShape(ad, rec, m);
      Extends(mem.byId, ad.rows, f, rec, m);
    }
  }

  lemma MemPutResult(s: Store, rec: Key, m: Minted)
    requires s.InMemory? && s.Valid() && Fresh(s, m) && rec.id == m.id
    ensures s.Put(rec, m.adapterId) ==
      if s.FindByKid(rec.kid).Some? then Err(UniqueConstraintViolation)
      else Ok(InMemory(s.byId[rec.id := rec], s.byKid[rec.kid := rec.id]))
  {
    FoundByKid(s, rec.kid);
    if rec.kid in s.byKid {
      assert s.byKid[rec.kid] in s.Records();
    }
  }

  lemma AdPutResult(s: Store, rec: Key, m: Minted)
    requires s.Adapter? && s.Valid() && Fresh(s, m) && rec.id == m.id
    ensures s.Put(rec, m.adapterId) ==
      if s.FindByKid(rec.kid).Some? then Err(UniqueConstraintViolation)
      else if ActiveSigning(rec, rec.scopeId) && ScopeIsTaken(s, rec.scopeId) then Err(UniqueConstraintViolation)
      else Ok(Adapter(s.rows[m.adapterId := rec.(id := m.adapterId)], s.idMap[rec.id := m.adapterId]))
  {
    FoundByKid(s, rec.kid);
    assert s.Records() == s.rows;
  }

  ghost predicate ScopeIsTaken(s: Store, scopeId: Option<Id>) {
    exists i :: i in s.Records() && ActiveSigning(s.Records()[i], scopeId)
  }

  lemma ScopeTaken(mem: Store, ad: Store, f: map<Id, Id>, scopeId: Option<Id>)
    requires Sim(mem, ad, f)
    ensures ScopeIsTaken(mem, scopeId) <==> ScopeIsTaken(ad, scopeId)
  {
    if ScopeIsTaken(mem, scopeId) {
      var i :| i in mem.byId && ActiveSigning(mem.byId[i], scopeId);
      assert f[i] in ad.Records() && ActiveSigning(ad.Records()[f[i]], scopeId);
    }
    if ScopeIsTaken(ad, scopeId) {
      var j :| j in ad.rows && ActiveSigning(ad.rows[j], scopeId);
      var i :| i in f && f[i] == j;
      assert i in mem.Records() && ActiveSigning(mem.Records()[i], scopeId);
    }
  }

  lemma Extends(from: map<Id, Key>, to: map<Id, Key>, f: map<Id, Id>, rec: Key, m: Minted)
    requires Correspond(from, to, f) && m.id !in from && m.adapterId !in to
    requires rec.id == m.id && rec.rotatedFrom == None
    ensures Correspond(from[m.id := rec], to[m.adapterId := rec.(id := m.adapterId)], f[m.id := m.adapterId])
  {
    hide Renamed;
    var g := f[m.id := m.adapterId];
    var from2, to2 := from[m.id := rec], to[m.adapterId := rec.(id := m.adapterId)];
    ExtendsBijection(from.Keys, to.Keys, f, m);
    assert from2.Keys == from.Keys + {m.id} && to2.Keys == to.Keys + {m.adapterId};
    hide Bijection;
    forall i | i in g ensures from2[i].id == i && to2[g[i]] == Renamed(g, from2[i]) {
      if i == m.id {
        RenamedNew(g, rec, m);
      } else {
        Images(from, to, f, i);
        RenamedStays(f, m, from[i]);
      }
    }
  }

  lemma ExtendsBijection(from: set<Id>, to: set<Id>, f: map<Id, Id>, m: Minted)
    requires Bijection(f, from, to) && m.id !in from && m.adapterId !in to
    ensures Bijection(f[m.id := m.adapterId], from + {m.id}, to + {m.adapterId})
  {
    var g := f[m.id := m.adapterId];
    forall j | j in to + {m.adapterId} ensures exists i :: i in g && g[i] == j {
      if j == m.adapterId {
        assert g[m.id] == j;
      } else {
        var i :| i in f && f[i] == j;
        assert g[i] == j;
      }
    }
  }

  lemma RenamedStays(f: map<Id, Id>, m: Minted, k: Key)
    requires k.id in f && m.id !in f && (k.rotatedFrom.Some? ==> k.rotatedFrom.value in f)
    ensures Renamed(f[m.id := m.adapterId], k) == Renamed(f, k)
  {
  }

  lemma RenamedNew(g: map<Id, Id>, rec: Key, m: Minted)
    requires m.id in g && g[m.id] == m.adapterId && rec.id == m.id && rec.rotatedFrom == None
    ensures Renamed(g, rec) == rec.(id := m.adapterId)
  {
  }

  lemma Changes(from: map<Id, Key>, to: map<Id, Key>, f: map<Id, Id>, id: Id, next: Key)
    requires Correspond(from, to, f) && id in f && next.id == id
    requires next.rotatedFrom.Some? ==> next.rotatedFrom.value in f
    ensures Correspond(from[id := next], to[f[id] := Renamed(f, next)], f)
  {
    hide Renamed;
    assert f[id] in to;
    var from2 := from[id := next];
    var to2 := to[f[id] := Renamed(f, next)];
    assert from2.Keys == from.Keys && to2.Keys == to.Keys;
    forall i | i in f ensures from2[i].id == i && to2[f[i]] == Renamed(f, from2[i]) {
      assert i != id ==> f[i] != f[id];
    }
  }

  // Changing corresponding records in corresponding ways.
  lemma UpdateRefines(mem: Store, ad: Store, f: map<Id, Id>, id: Id, next: Key, alias: Id, next2: Key)
    requires Sim(mem, ad, f) && id in f && ad.Resolve(alias) == f[id]
    requires next == mem.byId[id].(state := next.state, rotatedFrom := next.rotatedFrom, rotatedAt := next.rotatedAt,
                                   notAfter := next.notAfter)
    requires next.rotatedFrom.Some? ==> next.rotatedFrom.value in f
    requires next.state == Active ==> mem.byId[id].state == Active
    requires next2.(id := f[id]) == Renamed(f, next)
    ensures mem.Update(id, next).Ok? && ad.Update(alias, next2).Ok?
    ensures Sim(mem.Update(id, next).value, ad.Update(alias, next2).value, f)
    ensures ad.Update(alias, next2).value.idMap == ad.idMap
  {
    hide Store.Valid, Bijection;
    assert ad.rows[f[id]] == Renamed(f, mem.byId[id]) && f[id] in ad.rows by {
      Images(mem.byId, ad.rows, f, id);
    }
    UpdateShape(mem, id, next);
    UpdateShape(ad, alias, next2);
    hide Store.Update, Correspond;
    Changes(mem.byId, ad.rows, f, id, next);
  }

  lemma Images(from: map<Id, Key>, to: map<Id, Key>, f: map<Id, Id>, id: Id)
    requires Correspond(from, to, f) && id in f
    ensures f[id] in to && to[f[id]] == Renamed(f, from[id]) && id in from && from[id].id == id
  {
  }

  // ---------- the operations ----------

  // Issuing over the two stores gives the same result and corresponding stores, except that
  // storage refuses a second active signing key in a scope under another algorithm.
  lemma IssueRefines(mem: Store, ad: Store, f: map<Id, Id>, b: Registry, req: Request, notAfter: Option<Text>, m: Minted)
    requires Sim(mem, ad, f) && Fresh(mem, m) && Fresh(ad, m)
    ensures
      var x := IssueSigning(mem, b, req, notAfter, m);
      var y := IssueSigning(ad, b, req, notAfter, m);
      if x.Err? then y == Err(x.error)
      else if OtherAlgActive(mem, req.scopeId, req.alg) then y == Err(UniqueConstraintViolation)
      else
        y.Ok? && y.value.1 == x.value.1 && Sim(x.value.0, y.value.0, f[m.id := m.adapterId])
        && y.value.0.Resolve(m.id) == m.adapterId && y.value.0.idMap == ad.idMap[m.id := m.adapterId]
  {
    hide Sim, Fresh, Store.Put, RequireRoot, Attest, Store.Actives, ScopeIsTaken, OtherAlgActive, Renamed;
    NoActivesRefine(mem, ad, f, req.scopeId, req.alg);
    RootRefines(mem, ad, f, req);
    if RequireRoot(mem, req).Ok? {
      var root := RequireRoot(mem, req).value;
      AttestSame(f, b, root, req.rootPassphrase, m, req.alg, notAfter);
      var a := Attest(b, root, req.rootPassphrase, m, req.alg, notAfter);
      if a.Ok? {
        PutRefines(mem, ad, f, SigningKey(req, notAfter, m, a.value), m);
        TakenByOther(mem, req.scopeId, req.alg);
      }
    }
  }

  lemma NoActivesRefine(mem: Store, ad: Store, f: map<Id, Id>, scopeId: Option<Id>, alg: Alg)
    requires Sim(mem, ad, f)
    ensures mem.Actives(scopeId, alg) == {} <==> ad.Actives(scopeId, alg) == {}
  {
    ActivesRefine(mem, ad, f, scopeId, alg);
    if mem.Actives(scopeId, alg) != {} {
      var i :| i in mem.Actives(scopeId, alg);
      assert f[i] in ad.Actives(scopeId, alg);
    }
    if ad.Actives(scopeId, alg) != {} {
      var j :| j in ad.Actives(scopeId, alg);
    }
  }

  lemma AttestSame(f: map<Id, Id>, b: Registry, root: Key, passphrase: Text, m: Minted, alg: Alg, notAfter: Option<Text>)
    ensures Attest(b, Renamed(f, root), passphrase, m, alg, notAfter) == Attest(b, root, passphrase, m, alg, notAfter)
  {
  }

  lemma TakenByOther(s: Store, scopeId: Option<Id>, alg: Alg)
    ensures s.Actives(scopeId, alg) == {} ==>
      (OtherAlgActive(s, scopeId, alg) <==> ScopeIsTaken(s, scopeId))
  {
    if ScopeIsTaken(s, scopeId) {
      var i :| i in s.Records() && ActiveSigning(s.Records()[i], scopeId);
      assert s.Records()[i].alg == alg ==> i in s.Actives(scopeId, alg);
    }
  }

  // The storage rows are those of the in-memory store with one key demoted and none issued.
  ghost predicate OnlyDemoted(mem: Store, left: Store, f: map<Id, Id>, id: Id, retire: Retirement, now: Text) {
    && mem.InMemory? && id in mem.byId
    && var demoted := mem.Update(id, Demoted(mem.byId[id], now, retire));
    && demoted.Ok? && Sim(demoted.value, left, f)
  }

  // The same for a rotation: corresponding keys go out and come in, under corresponding ids,
  // and a rotation that fails in memory fails in storage and leaves corresponding rows behind.
  // Where only storage refuses, for the other algorithm's key, it leaves the outgoing key
  // demoted.
  lemma RotateRefines(mem: Store, ad: Store, f: map<Id, Id>, b: Registry, req: Request, retire: Retirement,
                      now: Text, m: Minted)
    requires Sim(mem, ad, f) && Fresh(mem, m) && Fresh(ad, m) && ad.idMap == map[]
    ensures
      var (s, x) := RotateSigning(mem, b, req, retire, now, m);
      var (t, y) := RotateSigning(ad, b, req, retire, now, m);
      if x.Err? then y == Err(x.error) && Sim(s, t, f)
      else if OtherAlgActive(mem, req.scopeId, req.alg) then
        && y == Err(UniqueConstraintViolation)
        && exists id :: id in mem.Actives(req.scopeId, req.alg) && OnlyDemoted(mem, t, f, id, retire, now)
      else
        && y.Ok? && Sim(s, t, f[m.id := m.adapterId])
        && y.value.outgoing == Renamed(f, x.value.outgoing)
        && y.value.incoming == x.value.incoming.(rotatedFrom := y.value.incoming.rotatedFrom)
        && y.value.incoming.rotatedFrom == Some(y.value.outgoing.id)
  {
    hide RotateFrom, Fresh, Renamed, OtherAlgActive, Correspond, Store.Valid;
    var xs := mem.Actives(req.scopeId, req.alg);
    var ys := ad.Actives(req.scopeId, req.alg);
    ActivesRefine(mem, ad, f, req.scopeId, req.alg);
    NoActivesRefine(mem, ad, f, req.scopeId, req.alg);
    if xs == {} {
    } else if i, j :| i in xs && j in xs && i != j {
      Apart(mem, ad, f, i, j);
      assert f[i] in ys && f[j] in ys && f[i] != f[j];
    } else {
      var id :| id in xs && RotateSigning(mem, b, req, retire, now, m) ==
        RotateFrom(mem, b, req, retire, now, m, mem.Records()[id]);
      forall i, j | i in ys && j in ys ensures i == j {
        var i0 :| i0 in xs && i0 in f && f[i0] == i;
        var j0 :| j0 in xs && j0 in f && f[j0] == j;
      }
      var id2 :| id2 in ys && RotateSigning(ad, b, req, retire, now, m) ==
        RotateFrom(ad, b, req, retire, now, m, ad.Records()[id2]);
      assert f[id] in ys;
      OutgoingRefines(mem, ad, f, req.scopeId, req.alg, id);
      RotateFromRefines(mem, ad, f, b, req, retire, now, m, mem.byId[id]);
    }
  }

  lemma Apart(mem: Store, ad: Store, f: map<Id, Id>, i: Id, j: Id)
    requires Sim(mem, ad, f) && i in f && j in f && i != j
    ensures f[i] != f[j]
  {
  }

  lemma OutgoingRefines(mem: Store, ad: Store, f: map<Id, Id>, scopeId: Option<Id>, alg: Alg, id: Id)
    requires Sim(mem, ad, f) && id in mem.Actives(scopeId, alg)
    ensures id in f && id in mem.byId && mem.Records()[id] == mem.byId[id] && mem.byId[id].id == id
    ensures mem.byId[id].alg == alg
    ensures f[id] in ad.Records() && ad.Records()[f[id]] == Renamed(f, mem.byId[id])
  {
  }

  lemma RotateFromRefines(mem: Store, ad: Store, f: map<Id, Id>, b: Registry, req: Request,
                          retire: Retirement, now: Text, m: Minted, outgoing: Key)
    requires Sim(mem, ad, f) && Fresh(mem, m) && Fresh(ad, m) && ad.idMap == map[]
    requires outgoing.id in f && mem.byId[outgoing.id] == outgoing && outgoing.alg == req.alg
    ensures
      var (s, x) := RotateFrom(mem, b, req, retire, now, m, outgoing);
      var (t, y) := RotateFrom(ad, b, req, retire, now, m, Renamed(f, outgoing));
      if x.Err? then y == Err(x.error) && Sim(s, t, f)
      else if OtherAlgActive(mem, req.scopeId, req.alg) then
        y == Err(UniqueConstraintViolation) && OnlyDemoted(mem, t, f, outgoing.id, retire, now)
      else
        && y.Ok? && Sim(s, t, f[m.id := m.adapterId])
        && y.value.outgoing == Renamed(f, x.value.outgoing)
        && y.value.incoming == x.value.incoming.(rotatedFrom := y.value.incoming.rotatedFrom)
        && y.value.incoming.rotatedFrom == Some(y.value.outgoing.id)
  {
    hide Store.Update, IssueSigning, Store.Valid, Bijection, OtherAlgActive;
    assert m.id !in f && m.adapterId !in ad.rows by {
      NewInBoth(mem, ad, f, m);
    }
    var retiring := Demoted(outgoing, now, retire);
    var out2 := Renamed(f, outgoing);
    var retiring2 := Demoted(out2, now, retire);
    UpdateRefines(mem, ad, f, outgoing.id, retiring, out2.id, retiring2);
    var s1 := mem.Update(outgoing.id, retiring).value;
    var t1 := ad.Update(out2.id, retiring2).value;
    DemotionKeepsFresh(mem, ad, f, outgoing, now, retire, m, req);
    IssueRefines(s1, t1, f, b, req, None, m);
    var x := IssueSigning(s1, b, req, None, m);
    if x.Ok? && !OtherAlgActive(mem, req.scopeId, req.alg) {
      var g := f[m.id := m.adapterId];
      LinkRefines(x.value.0, IssueSigning(t1, b, req, None, m).value.0, f, b, s1, req, m, outgoing.id);
    } else if x.Ok? {
      IssuedLinks(s1, b, req, m, outgoing.id);
      SameKeys(mem.byId, ad.rows, f, outgoing.id);
    }
  }

  lemma NewInBoth(mem: Store, ad: Store, f: map<Id, Id>, m: Minted)
    requires Sim(mem, ad, f) && Fresh(mem, m) && Fresh(ad, m)
    ensures m.id !in f && m.adapterId !in ad.rows
  {
  }

  // Linking the issued key in memory cannot fail.
  lemma IssuedLinks(s: Store, b: Registry, req: Request, m: Minted, outId: Id)
    requires s.Valid() && s.InMemory? && Fresh(s, m) && IssueSigning(s, b, req, None, m).Ok?
    ensures
      var (issued, rec) := IssueSigning(s, b, req, None, m).value;
      issued.Update(rec.id, rec.(rotatedFrom := Some(outId))).Ok?
  {
    IssueShape(s, b, req, None, m);
    hide IssueSigning;
  }

  lemma DemotionKeepsFresh(mem: Store, ad: Store, f: map<Id, Id>, outgoing: Key, now: Text,
                           retire: Retirement, m: Minted, req: Request)
    requires Sim(mem, ad, f) && Fresh(mem, m) && Fresh(ad, m) && ad.idMap == map[]
    requires outgoing.id in f && mem.byId[outgoing.id] == outgoing && outgoing.alg == req.alg
    requires mem.Update(outgoing.id, Demoted(outgoing, now, retire)).Ok?
    requires ad.Update(f[outgoing.id], Demoted(Renamed(f, outgoing), now, retire)).Ok?
    ensures
      var s1 := mem.Update(outgoing.id, Demoted(outgoing, now, retire)).value;
      var t1 := ad.Update(f[outgoing.id], Demoted(Renamed(f, outgoing), now, retire)).value;
      && Fresh(s1, m) && Fresh(t1, m)
      && (OtherAlgActive(s1, req.scopeId, req.alg) <==> OtherAlgActive(mem, req.scopeId, req.alg))
  {
    hide Store.Update, Store.Valid, Fresh, OtherAlgActive, Bijection;
    var retiring := Demoted(outgoing, now, retire);
    Images(mem.byId, ad.rows, f, outgoing.id);
    FreshAfterDemotion(mem, outgoing, retiring, m);
    FreshAfterDemotion(ad, Renamed(f, outgoing), Demoted(Renamed(f, outgoing), now, retire), m);
    OtherAfterDemotion(mem, outgoing, retiring, req.scopeId, req.alg);
  }

  lemma FreshAfterDemotion(s: Store, k: Key, next: Key, m: Minted)
    requires s.Valid() && Fresh(s, m) && (s.Adapter? ==> s.idMap == map[])
    requires k.id in s.Records() && s.Records()[k.id] == k
    requires next == k.(state := Retiring, notAfter := next.notAfter, rotatedAt := next.rotatedAt)
    requires s.Update(k.id, next).Ok?
    ensures Fresh(s.Update(k.id, next).value, m)
  {
    UpdateShape(s, k.id, next);
    hide Store.Update, Store.Valid;
  }

  lemma OtherAfterDemotion(s: Store, k: Key, next: Key, scopeId: Option<Id>, alg: Alg)
    requires s.Valid() && s.InMemory? && k.id in s.Records() && s.Records()[k.id] == k && k.alg == alg
    requires next == k.(state := Retiring, notAfter := next.notAfter, rotatedAt := next.rotatedAt)
    requires s.Update(k.id, next).Ok?
    ensures OtherAlgActive(s.Update(k.id, next).value, scopeId, alg) <==> OtherAlgActive(s, scopeId, alg)
  {
    UpdateShape(s, k.id, next);
    var t := s.Update(k.id, next).value;
    hide Store.Update, Store.Valid;
    if OtherAlgActive(s, scopeId, alg) {
      var i :| i in s.Records() && ActiveSigning(s.Records()[i], scopeId) && s.Records()[i].alg != alg;
      assert t.Records()[i] == s.Records()[i];
    }
  }

  lemma LinkRefines(s2: Store, t2: Store, f: map<Id, Id>, b: Registry, s1: Store, req: Request, m: Minted, outId: Id)
    requires Sim(s2, t2, f[m.id := m.adapterId]) && outId in f && t2.Resolve(m.id) == m.adapterId
    requires s1.Valid() && s1.InMemory? && Fresh(s1, m) && m.id !in f
    requires IssueSigning(s1, b, req, None, m).Ok? && IssueSigning(s1, b, req, None, m).value.0 == s2
    ensures
      var g := f[m.id := m.adapterId];
      var rec := IssueSigning(s1, b, req, None, m).value.1;
      var linked := rec.(rotatedFrom := Some(outId));
      var linked2 := rec.(rotatedFrom := Some(f[outId]));
      && s2.Update(rec.id, linked).Ok? && t2.Update(rec.id, linked2).Ok?
      && Sim(s2.Update(rec.id, linked).value, t2.Update(rec.id, linked2).value, g)
  {
    IssueShape(s1, b, req, None, m);
    var g := f[m.id := m.adapterId];
    var rec := IssueSigning(s1, b, req, None, m).value.1;
    hide IssueSigning;
    IssuedFields(s1, b, req, m, rec);
    UpdateRefines(s2, t2, g, m.id, rec.(rotatedFrom := Some(outId)), m.id, rec.(rotatedFrom := Some(f[outId])));
  }
}
