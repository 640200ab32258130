// Signing and root keys, and the two stores of key records: the in-process maps of
// licensing/key_hierarchy.go, and the adapter of licensing/scope_service.go that keeps the
// records in storage rows under ids of its own. A key pair is identified by its public key.
module Keys {
  import opened Base
  import opened Crypto

  // Identifiers are strings compared for equality.
  type Id = Text

  datatype Role = Root | Signing

  datatype KeyState = Active | Retiring

  // The private key of `public`, wrapped under a passphrase.
  datatype Wrapped = Wrapped(public: Text, passphrase: Text)

  datatype Attestation = Attestation(rootKid: Text, signature: Bytes)

  datatype Key = Key(
    id: Id,
    scopeId: Option<Id>,
    kid: Text,
    alg: Alg,
    role: Role,
    state: KeyState,
    public: Text,
    private: Option<Wrapped>,
    rotatedFrom: Option<Id>,
    rotatedAt: Option<Text>,
    notBefore: Text,
    notAfter: Option<Text>,
    attestation: Option<Attestation>)

  datatype KeyError =
    | MissingKeyPassphrase
    | UnsupportedAlgorithm
    | UniqueConstraintViolation
    | UnknownKid
    | TokenMalformed
    | AlgorithmMismatch
    | KeyDecryptionFailed
    | NotCanonical

  // A row is the active signing key of a scope.
  predicate ActiveSigning(k: Key, scopeId: Option<Id>) {
    k.role == Signing && k.state == Active && k.scopeId == scopeId
  }

  // InMemory is the pair of maps of InMemoryKeyStore; Adapter is the rows of the transaction
  // and the id map of storageKeyStore.
  datatype Store =
    | InMemory(byId: map<Id, Key>, byKid: map<Text, Id>)
    | Adapter(rows: map<Id, Key>, idMap: map<Id, Id>)
  {
    ghost function Records(): map<Id, Key> {
      if InMemory? then byId else rows
    }

    function Resolve(id: Id): Id {
      if Adapter? && id in idMap then idMap[id] else id
    }

    // In memory, the index is exact; in storage, kids are unique and aliases lead to rows.
    ghost predicate Valid() {
      && (forall i :: i in Records() ==> Records()[i].id == i)
      && (forall i, j :: i in Records() && j in Records() && Records()[i].kid == Records()[j].kid ==> i == j)
      && (InMemory? ==>
            && (forall i :: i in byId ==> byId[i].kid in byKid && byKid[byId[i].kid] == i)
            && (forall kid :: kid in byKid ==> byKid[kid] in byId && byId[byKid[kid]].kid == kid))
      && (Adapter? ==> forall i :: i in idMap ==> idMap[i] in rows)
    }

    ghost function FindByKid(kid: Text): Option<Key> {
      if i :| i in Records() && Records()[i].kid == kid then Some(Records()[i]) else None
    }

    ghost function Actives(scopeId: Option<Id>, alg: Alg): set<Id> {
      set i | i in Records() && ActiveSigning(Records()[i], scopeId) && Records()[i].alg == alg
    }

    ghost function Put(rec: Key, adapterId: Id): Result<Store, KeyError> {
      match this
      case InMemory(byId, byKid) =>
        if rec.kid in byKid && byKid[rec.kid] != rec.id then Err(UniqueConstraintViolation)
        else Ok(InMemory(byId[rec.id := rec], byKid[rec.kid := rec.id]))
      case Adapter(rows, idMap) =>
        if exists i :: i in rows && rows[i].kid == rec.kid then Err(UniqueConstraintViolation)
        else
          var created :- CreateKey(rows, rec, adapterId);
          Ok(Adapter(created, idMap[rec.id := adapterId]))
    }

    ghost function Update(id: Id, next: Key): Result<Store, KeyError> {
      match this
      case InMemory(byId, byKid) =>
        if id !in byId || id != next.id then Err(TokenMalformed)
        else Ok(InMemory(byId[id := next], byKid[next.kid := id]))
      case Adapter(rows, idMap) =>
        if Resolve(id) !in rows then Err(TokenMalformed)
        else
          var updated :- UpdateKey(rows, Resolve(id), next);
          Ok(Adapter(updated, idMap))
    }
  }

  // The storage adapters' insert: the kid is free, and an active signing key is the only one
  // of its scope, whatever the algorithms.
  ghost function CreateKey(rows: map<Id, Key>, rec: Key, adapterId: Id): Result<map<Id, Key>, KeyError> {
    if exists i :: i in rows && rows[i].kid == rec.kid then Err(UniqueConstraintViolation)
    else if ActiveSigning(rec, rec.scopeId) && exists i :: i in rows && ActiveSigning(rows[i], rec.scopeId)
      then Err(UniqueConstraintViolation)
    else Ok(rows[adapterId := rec.(id := adapterId)])
  }

  // Their update: only the patched columns move.
  ghost function UpdateKey(rows: map<Id, Key>, id: Id, next: Key): Result<map<Id, Key>, KeyError>
    requires id in rows
  {
    var cur := rows[id];
    if next.state == Active && cur.state != Active && cur.role == Signing
      && exists i :: i in rows && i != id && ActiveSigning(rows[i], cur.scopeId)
      then Err(UniqueConstraintViolation)
    else Ok(rows[id := cur.(state := next.state, rotatedFrom := next.rotatedFrom, rotatedAt := next.rotatedAt,
                            notAfter := next.notAfter, attestation := next.attestation)])
  }

  // The found record is the one with that kid.
  lemma FoundByKid(s: Store, kid: Text)
    requires s.Valid()
    ensures s.FindByKid(kid).Some? <==> exists i :: i in s.Records() && s.Records()[i].kid == kid
    ensures s.FindByKid(kid).Some? ==>
      var k := s.FindByKid(kid).value;
      k.kid == kid && k.id in s.Records() && s.Records()[k.id] == k
    ensures forall i :: i in s.Records() && s.Records()[i].kid == kid ==> s.FindByKid(kid) == Some(s.Records()[i])
  {
  }

  // ---------- the stores ----------

  datatype Filter = Filter(scopeId: Option<Option<Id>>, role: Option<Role>, state: Option<KeyState>, alg: Option<Alg>)

  predicate Passes(k: Key, f: Filter) {
    && (f.scopeId.Some? ==> k.scopeId == f.scopeId.value)
    && (f.role.Some? ==> k.role == f.role.value)
    && (f.state.Some? ==> k.state == f.state.value)
    && (f.alg.Some? ==> k.alg == f.alg.value)
  }

  function ActiveFilter(scopeId: Option<Id>, alg: Alg): Filter {
    Filter(Some(scopeId), Some(Signing), Some(Active), Some(alg))
  }

  // A listing holds each passing record once.
  ghost predicate Lists(out: seq<Key>, rows: map<Id, Key>, f: Filter) {
    && (forall k :: k in out <==> k.id in rows && rows[k.id] == k && Passes(k, f))
    && (forall i, j :: 0 <= i < j < |out| ==> out[i].id != out[j].id)
  }

  method ListRows(rows: map<Id, Key>, f: Filter) returns (out: seq<Key>)
    requires forall i :: i in rows ==> rows[i].id == i
    ensures Lists(out, rows, f)
  {
    out := [];
    var todo := rows.Keys;
    while todo != {}
      invariant todo <= rows.Keys
      invariant forall k :: k in out <==> k.id in rows.Keys - todo && rows[k.id] == k && Passes(k, f)
      invariant forall i, j :: 0 <= i < j < |out| ==> out[i].id != out[j].id
      decreases todo
    {
      var id :| id in todo;
      if Passes(rows[id], f) {
        assert forall i :: 0 <= i < |out| ==> out[i] in out;
        out := out + [rows[id]];
      }
      todo := todo - {id};
    }
  }

  class InMemoryKeyStore {
    var byId: map<Id, Key>
    var byKid: map<Text, Id>

    ghost function View(): Store
      reads this
    {
      InMemory(byId, byKid)
    }

    constructor ()
      ensures View() == InMemory(map[], map[]) && View().Valid()
    {
      byId, byKid := map[], map[];
    }

    method Put(rec: Key) returns (r: Result<(), KeyError>)
      modifies this
      ensures match old(View()).Put(rec, rec.id)
        case Ok(next) => r == Ok(()) && View() == next
        case Err(e) => r == Err(e) && View() == old(View())
    {
      if rec.kid in byKid && byKid[rec.kid] != rec.id {
        return Err(UniqueConstraintViolation);
      }
      byId := byId[rec.id := rec];
      byKid := byKid[rec.kid := rec.id];
      return Ok(());
    }

    method Get(id: Id) returns (r: Option<Key>)
      ensures r == if id in byId then Some(byId[id]) else None
    {
      return if id in byId then Some(byId[id]) else None;
    }

    method FindByKid(kid: Text) returns (r: Option<Key>)
      requires View().Valid()
      ensures r == View().FindByKid(kid)
    {
      FoundByKid(View(), kid);
      if kid !in byKid {
        return None;
      }
      assert byKid[kid] in View().Records() && View().Records()[byKid[kid]].kid == kid;
      return Some(byId[byKid[kid]]);
    }

    method List(f: Filter) returns (out: seq<Key>)
      requires View().Valid()
      ensures Lists(out, byId, f)
    {
      assert View().Records() == byId;
      out := ListRows(byId, f);
    }

    method Update(id: Id, next: Key) returns (r: Result<(), KeyError>)
      modifies this
      ensures match old(View()).Update(id, next)
        case Ok(s) => r == Ok(()) && View() == s
        case Err(e) => r == Err(e) && View() == old(View())
    {
      if id !in byId {
        return Err(TokenMalformed);
      }
      if id != next.id {
        return Err(TokenMalformed);
      }
      byId := byId[id := next];
      byKid := byKid[next.kid := id];
      return Ok(());
    }
  }

  class StorageKeyStore {
    var rows: map<Id, Key>
    var idMap: map<Id, Id>

    ghost function View(): Store
      reads this
    {
      Adapter(rows, idMap)
    }

    // newStorageKeyStore over the rows a transaction sees.
    constructor (rows: map<Id, Key>)
      ensures View() == Adapter(rows, map[])
    {
      this.rows, idMap := rows, map[];
    }

    method FindByKid(kid: Text) returns (r: Option<Key>)
      requires View().Valid()
      ensures r == View().FindByKid(kid)
      ensures r.Some? <==> exists i :: i in rows && rows[i].kid == kid
    {
      FoundByKid(View(), kid);
      var todo := rows.Keys;
      while todo != {}
        invariant todo <= rows.Keys
        invariant forall i :: i in rows && i !in todo ==> rows[i].kid != kid
        decreases todo
      {
        var id :| id in todo;
        if rows[id].kid == kid {
          assert id in View().Records() && View().Records()[id].kid == kid;
          return Some(rows[id]);
        }
        todo := todo - {id};
      }
      return None;
    }

    // The pages of the listing, joined.
    method List(f: Filter) returns (out: seq<Key>)
      requires View().Valid()
      ensures Lists(out, rows, f)
    {
      assert View().Records() == rows;
      out := ListRows(rows, f);
    }

    // The scan of the adapters' partial unique constraint.
    method HasActiveSigning(scopeId: Option<Id>, except: Option<Id>) returns (found: bool)
      ensures found <==> exists i :: i in rows && Some(i) != except && ActiveSigning(rows[i], scopeId)
    {
      var todo := rows.Keys;
      found := false;
      while todo != {}
        invariant todo <= rows.Keys
        invariant forall i :: i in rows && i !in todo && Some(i) != except ==> !ActiveSigning(rows[i], scopeId)
        decreases todo
      {
        var id :| id in todo;
        if Some(id) != except && ActiveSigning(rows[id], scopeId) {
          return true;
        }
        todo := todo - {id};
      }
    }

    // adapterId is the id the storage generates.
    method Put(rec: Key, adapterId: Id) returns (r: Result<(), KeyError>)
      requires View().Valid()
      modifies this
      ensures match old(View()).Put(rec, adapterId)
        case Ok(next) => r == Ok(()) && View() == next
        case Err(e) => r == Err(e) && View() == old(View())
    {
      var existing := FindByKid(rec.kid);
      if existing.Some? {
        return Err(UniqueConstraintViolation);
      }
      if rec.role == Signing && rec.state == Active {
        var taken := HasActiveSigning(rec.scopeId, None);
        if taken {
          return Err(UniqueConstraintViolation);
        }
      }
      assert CreateKey(rows, rec, adapterId) == Ok(rows[adapterId := rec.(id := adapterId)]);
      rows := rows[adapterId := rec.(id := adapterId)];
      idMap := idMap[rec.id := adapterId];
      return Ok(());
    }

    method Update(id: Id, next: Key) returns (r: Result<(), KeyError>)
      modifies this
      ensures match old(View()).Update(id, next)
        case Ok(s) => r == Ok(()) && View() == s
        case Err(e) => r == Err(e) && View() == old(View())
    {
      var realId := if id in idMap then idMap[id] else id;
      if realId !in rows {
        return Err(TokenMalformed);
      }
      var cur := rows[realId];
      if next.state == Active && cur.state != Active && cur.role == Signing {
        var taken := HasActiveSigning(cur.scopeId, Some(realId));
        if taken {
          return Err(UniqueConstraintViolation);
        }
      }
      rows := rows[realId := cur.(state := next.state, rotatedFrom := next.rotatedFrom,
                                  rotatedAt := next.rotatedAt, notAfter := next.notAfter,
                                  attestation := next.attestation)];
      return Ok(());
    }
  }
}
