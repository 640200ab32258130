// Runs of key operations from an empty store.
module KeyRuns {
  import opened Base
  import opened Crypto
  import opened Keys
  import opened KeyHierarchy
  import opened KeyTheorems

  // A rotation either runs inside its service transaction or directly on the hierarchy.
  datatype KeyOp =
    | GenerateOp(scopeId: Option<Id>, alg: Alg, passphrase: Text, notAfter: Option<Text>, m: Minted)
    | IssueOp(req: Request, notAfter: Option<Text>, m: Minted)
    | RotateOp(req: Request, retireAt: Option<Text>, now: Text, m: Minted)
    | BareRotateOp(req: Request, retire: Retirement, now: Text, m: Minted)

  // Every transaction starts with an empty id map.
  function Begin(s: Store): Store {
    if s.InMemory? then s else Adapter(s.rows, map[])
  }

  ghost function Step(s: Store, b: Registry, op: KeyOp): Store {
    match op
    case GenerateOp(scopeId, alg, passphrase, notAfter, m) =>
      (match GenerateRoot(Begin(s), b, scopeId, alg, passphrase, notAfter, m)
       case Ok(next) => next
       case Err(_) => s)
    case IssueOp(req, notAfter, m) =>
      (match IssueSigning(Begin(s), b, req, notAfter, m)
       case Ok((next, _)) => next
       case Err(_) => s)
    case RotateOp(req, retireAt, now, m) =>
      var (next, r) := RotateSigning(Begin(s), b, req, NotFlagged(retireAt), now, m);
      if r.Ok? then next else s
    case BareRotateOp(req, retire, now, m) =>
      RotateSigning(Begin(s), b, req, retire, now, m).0
  }

  ghost function Run(s: Store, b: Registry, ops: seq<KeyOp>): Store
    decreases |ops|
  {
    if ops == [] then s else Run(Step(s, b, ops[0]), b, ops[1..])
  }

  // Every generated id is new when it is generated.
  ghost predicate FreshRun(s: Store, b: Registry, ops: seq<KeyOp>)
    decreases |ops|
  {
    ops == [] || (Fresh(Begin(s), ops[0].m) && FreshRun(Step(s, b, ops[0]), b, ops[1..]))
  }

  // ---------- what every operation keeps ----------

  // Both are active signing keys of one scope and algorithm.
  predicate BothActive(a: Key, b: Key) {
    a.alg == b.alg && ActiveSigning(a, a.scopeId) && ActiveSigning(b, a.scopeId)
  }

  ghost predicate OneActive(rows: map<Id, Key>) {
    forall i, j :: i in rows && j in rows && BothActive(rows[i], rows[j]) ==> i == j
  }

  predicate SameMaterial(a: Key, b: Key) {
    && a.kid == b.kid && a.alg == b.alg && a.role == b.role && a.scopeId == b.scopeId
    && a.public == b.public && a.private == b.private && a.notBefore == b.notBefore
    && a.attestation == b.attestation
  }

  ghost predicate KeepsMaterial(before: map<Id, Key>, after: map<Id, Key>) {
    forall i :: i in before ==> i in after && SameMaterial(before[i], after[i])
  }

  ghost predicate Sound(before: Store, after: Store) {
    && after.Valid() && OneActive(after.Records()) && KeepsMaterial(before.Records(), after.Records())
    && (after.InMemory? <==> before.InMemory?)
  }

  // Replacing a record by one of the same material that is no more active.
  lemma UpdateIsSound(s: Store, id: Id, next: Key)
    requires s.Valid() && OneActive(s.Records()) && s.Resolve(id) in s.Records() && s.Update(id, next).Ok?
    requires var cur := s.Records()[s.Resolve(id)];
      && next.(id := cur.id) == cur.(state := next.state, rotatedFrom := next.rotatedFrom,
                                     rotatedAt := next.rotatedAt, notAfter := next.notAfter)
      && (next.state == Active ==> cur.state == Active)
    ensures Sound(s, s.Update(id, next).value)
  {
    UpdateShape(s, id, next);
    var at := s.Resolve(id);
    ReplaceIsSound(s.Records(), at, next.(id := at));
    hide Store.Update, Store.Valid, OneActive, KeepsMaterial;
  }

  lemma ReplaceIsSound(rows: map<Id, Key>, id: Id, k: Key)
    requires OneActive(rows) && id in rows && SameMaterial(rows[id], k)
    requires k.state == Active ==> rows[id].state == Active
    ensures OneActive(rows[id := k]) && KeepsMaterial(rows, rows[id := k])
  {
    var after := rows[id := k];
    forall i, j | i in after && j in after && BothActive(after[i], after[j]) ensures i == j {
      assert BothActive(rows[i], rows[j]);
    }
  }

  lemma AddIsSound(rows: map<Id, Key>, id: Id, k: Key)
    requires OneActive(rows) && id !in rows
    requires forall i :: i in rows ==> !BothActive(rows[i], k)
    ensures OneActive(rows[id := k]) && KeepsMaterial(rows, rows[id := k])
  {
    assert forall i :: i in rows ==> !BothActive(k, rows[i]);
  }

  lemma IssueIsSound(s: Store, b: Registry, req: Request, notAfter: Option<Text>, m: Minted)
    requires s.Valid() && OneActive(s.Records()) && Fresh(s, m) && IssueSigning(s, b, req, notAfter, m).Ok?
    ensures
      var (next, rec) := IssueSigning(s, b, req, notAfter, m).value;
      && Sound(s, next)
      && rec.id == m.id && next.Resolve(m.id) in next.Records()
      && next.Records()[next.Resolve(m.id)] == rec.(id := next.Resolve(m.id))
  {
    IssueShape(s, b, req, notAfter, m);
    var rec := IssueSigning(s, b, req, notAfter, m).value.1;
    hide IssueSigning, Store.Valid, Attest, RequireRoot;
    forall i | i in s.Records() ensures !BothActive(s.Records()[i], rec) {
      assert i !in s.Actives(req.scopeId, req.alg);
    }
    AddIsSound(s.Records(), Landed(s, m), rec.(id := Landed(s, m)));
    hide OneActive, KeepsMaterial;
  }

  lemma SoundTrans(a: Store, b: Store, c: Store)
    requires Sound(a, b) && Sound(b, c)
    ensures Sound(a, c)
  {
    hide Store.Valid, OneActive;
    forall i | i in a.Records() ensures i in c.Records() && SameMaterial(a.Records()[i], c.Records()[i]) {
      assert i in b.Records();
    }
  }

  // Wherever a rotation stops, what it left is sound.
  lemma RotateIsSound(s: Store, b: Registry, req: Request, retire: Retirement, now: Text, m: Minted)
    requires s.Valid() && OneActive(s.Records()) && Fresh(s, m) && (s.Adapter? ==> s.idMap == map[])
    ensures Sound(s, RotateSigning(s, b, req, retire, now, m).0)
  {
    var actives := s.Actives(req.scopeId, req.alg);
    if actives != {} && !exists i, j :: i in actives && j in actives && i != j {
      var id :| id in actives && RotateSigning(s, b, req, retire, now, m) ==
        RotateFrom(s, b, req, retire, now, m, s.Records()[id]);
      RotateFromIsSound(s, b, req, retire, now, m, s.Records()[id]);
    }
  }

  lemma RotateFromIsSound(s: Store, b: Registry, req: Request, retire: Retirement, now: Text, m: Minted,
                          outgoing: Key)
    requires s.Valid() && OneActive(s.Records()) && Fresh(s, m) && (s.Adapter? ==> s.idMap == map[])
    requires outgoing.id in s.Records() && s.Records()[outgoing.id] == outgoing && outgoing.role == Signing
    ensures Sound(s, RotateFrom(s, b, req, retire, now, m, outgoing).0)
  {
    hide Store.Update, IssueSigning, Store.Valid, OneActive, KeepsMaterial;
    var retiring := Demoted(outgoing, now, retire);
    Unchanged(s);
    if s.Update(outgoing.id, retiring).Ok? {
      UpdateIsSound(s, outgoing.id, retiring);
      UpdateShape(s, outgoing.id, retiring);
      var demoted := s.Update(outgoing.id, retiring).value;
      if IssueSigning(demoted, b, req, None, m).Ok? {
        IssueIsSound(demoted, b, req, None, m);
        var (issued, incoming) := IssueSigning(demoted, b, req, None, m).value;
        SoundTrans(s, demoted, issued);
        var linked := incoming.(rotatedFrom := Some(outgoing.id));
        if issued.Update(incoming.id, linked).Ok? {
          UpdateIsSound(issued, incoming.id, linked);
          SoundTrans(s, issued, issued.Update(incoming.id, linked).value);
        }
      }
    }
  }

  lemma Unchanged(s: Store)
    requires s.Valid() && OneActive(s.Records())
    ensures Sound(s, s)
  {
  }

  lemma GenerateIsSound(s: Store, b: Registry, scopeId: Option<Id>, alg: Alg, passphrase: Text,
                        notAfter: Option<Text>, m: Minted)
    requires s.Valid() && OneActive(s.Records()) && Fresh(s, m)
    requires GenerateRoot(s, b, scopeId, alg, passphrase, notAfter, m).Ok?
    ensures Sound(s, GenerateRoot(s, b, scopeId, alg, passphrase, notAfter, m).value)
  {
    var rec := RootKey(scopeId, alg, passphrase, notAfter, m);
    PutShape(s, rec, m);
    hide Store.Put, Store.Valid;
    AddIsSound(s.Records(), Landed(s, m), rec.(id := Landed(s, m)));
    hide OneActive, KeepsMaterial;
  }

  lemma BeginIsSound(s: Store)
    requires s.Valid() && OneActive(s.Records())
    ensures Sound(s, Begin(s)) && Begin(s).Records() == s.Records()
  {
  }

  lemma StepIsSound(s: Store, b: Registry, op: KeyOp)
    requires s.Valid() && OneActive(s.Records()) && Fresh(Begin(s), op.m)
    ensures Sound(s, Step(s, b, op))
  {
    BeginIsSound(s);
    Unchanged(s);
    hide Store.Valid, OneActive, KeepsMaterial, Fresh, GenerateRoot, IssueSigning, RotateSigning;
    var t := Begin(s);
    match op
    case GenerateOp(scopeId, alg, passphrase, notAfter, m) =>
      if GenerateRoot(t, b, scopeId, alg, passphrase, notAfter, m).Ok? {
        GenerateIsSound(t, b, scopeId, alg, passphrase, notAfter, m);
        SoundTrans(s, t, Step(s, b, op));
      }
    case IssueOp(req, notAfter, m) =>
      if IssueSigning(t, b, req, notAfter, m).Ok? {
        IssueIsSound(t, b, req, notAfter, m);
        SoundTrans(s, t, Step(s, b, op));
      }
    case RotateOp(req, retireAt, now, m) =>
      RotateIsSound(t, b, req, NotFlagged(retireAt), now, m);
      SoundTrans(s, t, RotateSigning(t, b, req, NotFlagged(retireAt), now, m).0);
    case BareRotateOp(req, retire, now, m) =>
      RotateIsSound(t, b, req, retire, now, m);
      SoundTrans(s, t, Step(s, b, op));
  }

  // In every run, failed and partial rotations included, each scope and algorithm has at most
  // one active signing key, and no record loses its kid, algorithm, role or key.
  lemma {:induction false} RunIsSound(s: Store, b: Registry, ops: seq<KeyOp>)
    requires s.Valid() && OneActive(s.Records()) && FreshRun(s, b, ops)
    ensures Sound(s, Run(s, b, ops))
    decreases |ops|
  {
    hide Store.Valid, OneActive, KeepsMaterial, Step, Fresh;
    if ops == [] {
      Unchanged(s);
    } else {
      StepIsSound(s, b, ops[0]);
      RunIsSound(Step(s, b, ops[0]), b, ops[1..]);
      SoundTrans(s, Step(s, b, ops[0]), Run(s, b, ops));
    }
  }

  // A signature checked against the key record of a kid.
  ghost predicate VerifiesUnder(s: Store, b: Registry, kid: Text, alg: Alg, message: Bytes, signature: Bytes) {
    && s.FindByKid(kid).Some?
    && s.FindByKid(kid).value.alg == alg
    && b.backend.Verify(alg, s.FindByKid(kid).value.public, message, signature)
  }

  // Whatever runs in between, a known kid keeps verifying exactly what it verified.
  lemma RunKeepsVerifying(s: Store, b: Registry, ops: seq<KeyOp>, kid: Text, alg: Alg, message: Bytes, signature: Bytes)
    requires s.Valid() && OneActive(s.Records()) && FreshRun(s, b, ops)
    requires s.FindByKid(kid).Some?
    ensures VerifiesUnder(s, b, kid, alg, message, signature)
      <==> VerifiesUnder(Run(s, b, ops), b, kid, alg, message, signature)
  {
    RunIsSound(s, b, ops);
    FoundByKid(s, kid);
    FoundByKid(Run(s, b, ops), kid);
    var k := s.FindByKid(kid).value;
    assert SameMaterial(k, Run(s, b, ops).Records()[k.id]);
  }

  // ---------- the rotation lineage ----------

  predicate SigningOf(k: Key, scopeId: Option<Id>, alg: Alg) {
    k.role == Signing && k.scopeId == scopeId && k.alg == alg
  }

  // The key at a place of a lineage: the first is active, the others retiring, and each was
  // rotated from the next.
  ghost predicate Linked(rows: map<Id, Key>, chain: seq<Id>, x: nat)
    requires x < |chain|
  {
    && chain[x] in rows
    && rows[chain[x]].state == (if x == 0 then Active else Retiring)
    && rows[chain[x]].rotatedFrom == if x + 1 < |chain| then Some(chain[x + 1]) else None
  }

  // The signing keys of a scope and algorithm, newest first.
  ghost predicate Lineage(rows: map<Id, Key>, scopeId: Option<Id>, alg: Alg, chain: seq<Id>) {
    && (forall i :: i in chain <==> i in rows && SigningOf(rows[i], scopeId, alg))
    && (forall x, y :: 0 <= x < y < |chain| ==> chain[x] != chain[y])
    && (forall x :: 0 <= x < |chain| ==> Linked(rows, chain, x))
  }

  // RotateSigningKey changes nothing, or puts exactly one new active key in front of a lineage
  // whose earlier keys are all retiring; other lineages stay as they were.
  lemma RotateExtendsLineage(rows: map<Id, Key>, b: Registry, req: Request, retireAt: Option<Text>, now: Text, m: Minted,
                             scopeId: Option<Id>, alg: Alg, chain: seq<Id>)
    requires Adapter(rows, map[]).Valid() && Fresh(Adapter(rows, map[]), m)
    requires Lineage(rows, scopeId, alg, chain)
    ensures
      var result := RotateSigningKey(rows, b, req, retireAt, now, m);
      if result.rotated.Err? then result.rows == rows
      else if scopeId == req.scopeId && alg == req.alg then
        chain != [] && Lineage(result.rows, scopeId, alg, [m.adapterId] + chain)
      else Lineage(result.rows, scopeId, alg, chain)
  {
    var s := Adapter(rows, map[]);
    hide RotateSigning, Attest, RequireRoot, Store.Valid;
    if RotateSigningKey(rows, b, req, retireAt, now, m).rotated.Ok? {
      var outgoing := RotateShape(s, b, req, NotFlagged(retireAt), now, m);
      var linked := RotateSigning(s, b, req, NotFlagged(retireAt), now, m).1.value.incoming;
      assert outgoing.id in s.Actives(req.scopeId, req.alg);
      LineageGrows(rows, outgoing.id, Demoted(outgoing, now, NotFlagged(retireAt)), m.adapterId, linked.(id := m.adapterId),
                   scopeId, alg, chain);
    }
  }

  lemma LineageGrows(rows: map<Id, Key>, outId: Id, retiring: Key, newId: Id, incoming: Key,
                     scopeId: Option<Id>, alg: Alg, chain: seq<Id>)
    requires Lineage(rows, scopeId, alg, chain)
    requires outId in rows && newId !in rows && rows[outId].role == Signing && rows[outId].state == Active
    requires retiring == rows[outId].(state := Retiring, rotatedAt := retiring.rotatedAt)
    requires incoming.role == Signing && incoming.state == Active && incoming.rotatedFrom == Some(outId)
    requires incoming.scopeId == rows[outId].scopeId && incoming.alg == rows[outId].alg
    ensures
      var after := rows[outId := retiring][newId := incoming];
      if scopeId == incoming.scopeId && alg == incoming.alg then
        chain != [] && Lineage(after, scopeId, alg, [newId] + chain)
      else Lineage(after, scopeId, alg, chain)
  {
    var after := rows[outId := retiring][newId := incoming];
    if scopeId == incoming.scopeId && alg == incoming.alg {
      assert SigningOf(rows[outId], scopeId, alg);
      assert outId in chain;
      var x :| 0 <= x < |chain| && chain[x] == outId;
      assert Linked(rows, chain, x);
      assert chain[0] == outId;
      var longer := [newId] + chain;
      forall y | 0 <= y < |longer| ensures Linked(after, longer, y) {
        if y > 0 {
          assert longer[y] == chain[y - 1] && Linked(rows, chain, y - 1);
          assert chain[y - 1] in chain;
        }
      }
      forall i ensures i in longer <==> i in after && SigningOf(after[i], scopeId, alg) {
        assert i in longer <==> i == newId || i in chain;
      }
      forall y, z | 0 <= y < z < |longer| ensures longer[y] != longer[z] {
        assert longer[z] == chain[z - 1] && chain[z - 1] in chain;
      }
    } else {
      forall y | 0 <= y < |chain| ensures Linked(after, chain, y) {
        assert Linked(rows, chain, y) && chain[y] in chain;
      }
    }
  }

  // A new record outside the lineage, or the first of it.
  lemma LineageAdds(rows: map<Id, Key>, id: Id, k: Key, scopeId: Option<Id>, alg: Alg, chain: seq<Id>)
    requires Lineage(rows, scopeId, alg, chain) && id !in rows
    ensures !SigningOf(k, scopeId, alg) ==> Lineage(rows[id := k], scopeId, alg, chain)
    ensures SigningOf(k, scopeId, alg) && chain == [] && k.state == Active && k.rotatedFrom == None
      ==> Lineage(rows[id := k], scopeId, alg, [id])
  {
    var after := rows[id := k];
    forall y | 0 <= y < |chain| ensures Linked(after, chain, y) {
      assert Linked(rows, chain, y);
    }
  }

  // Issuing starts a lineage.
  lemma IssueStartsLineage(s: Store, b: Registry, req: Request, notAfter: Option<Text>, m: Minted,
                           scopeId: Option<Id>, alg: Alg, chain: seq<Id>)
    requires s.Valid() && Fresh(s, m) && IssueSigning(s, b, req, notAfter, m).Ok?
    requires Lineage(s.Records(), scopeId, alg, chain)
    ensures
      var after := IssueSigning(s, b, req, notAfter, m).value.0.Records();
      if scopeId == req.scopeId && alg == req.alg then
        chain == [] && Lineage(after, scopeId, alg, [Landed(s, m)])
      else Lineage(after, scopeId, alg, chain)
  {
    IssueShape(s, b, req, notAfter, m);
    var rec := IssueSigning(s, b, req, notAfter, m).value.1;
    hide IssueSigning, Attest, RequireRoot, Store.Valid;
    LineageAdds(s.Records(), Landed(s, m), rec.(id := Landed(s, m)), scopeId, alg, chain);
    if chain != [] {
      assert chain[0] in chain && Linked(s.Records(), chain, 0);
      assert chain[0] in s.Actives(scopeId, alg);
    }
    hide Lineage;
  }

  lemma GenerateKeepsLineage(s: Store, b: Registry, op: KeyOp, scopeId: Option<Id>, alg: Alg, chain: seq<Id>)
    requires op.GenerateOp? && s.Valid() && Fresh(s, op.m)
    requires GenerateRoot(s, b, op.scopeId, op.alg, op.passphrase, op.notAfter, op.m).Ok?
    requires Lineage(s.Records(), scopeId, alg, chain)
    ensures Lineage(GenerateRoot(s, b, op.scopeId, op.alg, op.passphrase, op.notAfter, op.m).value.Records(),
                    scopeId, alg, chain)
  {
    var rec := RootKey(op.scopeId, op.alg, op.passphrase, op.notAfter, op.m);
    PutShape(s, rec, op.m);
    hide Store.Put, Store.Valid, Lineage;
    LineageAdds(s.Records(), Landed(s, op.m), rec.(id := Landed(s, op.m)), scopeId, alg, chain);
  }

  // A run of the services: every rotation in its transaction, on storage rows.
  ghost predicate ServiceRun(s: Store, ops: seq<KeyOp>) {
    s.Adapter? && forall i :: 0 <= i < |ops| ==> !ops[i].BareRotateOp?
  }

  lemma StepKeepsLineage(s: Store, b: Registry, op: KeyOp, scopeId: Option<Id>, alg: Alg, chain: seq<Id>)
    returns (next: seq<Id>)
    requires s.Valid() && s.Adapter? && !op.BareRotateOp? && Fresh(Begin(s), op.m)
    requires Lineage(s.Records(), scopeId, alg, chain)
    ensures Lineage(Step(s, b, op).Records(), scopeId, alg, next)
    ensures next == chain || next == [op.m.adapterId] + chain
  {
    var t := Begin(s);
    assert t.Valid() && t.Records() == s.Records();
    hide Store.Valid, Fresh, GenerateRoot, IssueSigning, RotateSigning, Lineage;
    next := chain;
    var mine := [op.m.adapterId] + chain;
    match op
    case GenerateOp(sc, a, passphrase, notAfter, m) =>
      if GenerateRoot(t, b, sc, a, passphrase, notAfter, m).Ok? {
        GenerateKeepsLineage(t, b, op, scopeId, alg, chain);
      }
    case IssueOp(req, notAfter, m) =>
      if IssueSigning(t, b, req, notAfter, m).Ok? {
        IssueStartsLineage(t, b, req, notAfter, m, scopeId, alg, chain);
        if scopeId == req.scopeId && alg == req.alg {
          assert mine == [m.adapterId];
          next := mine;
        }
      }
    case RotateOp(req, retireAt, now, m) =>
      RotateExtendsLineage(s.rows, b, req, retireAt, now, m, scopeId, alg, chain);
      if RotateSigning(t, b, req, NotFlagged(retireAt), now, m).1.Ok? && scopeId == req.scopeId && alg == req.alg {
        next := mine;
      }
  }

  // Every run of the services from no keys has one lineage per scope and algorithm: at most one
  // active signing key, whose rotated-from links list all earlier ones, all retiring.
  lemma {:induction false} RunHasLineage(s: Store, b: Registry, ops: seq<KeyOp>,
                                         scopeId: Option<Id>, alg: Alg, chain: seq<Id>) returns (last: seq<Id>)
    requires s.Valid() && OneActive(s.Records()) && FreshRun(s, b, ops) && ServiceRun(s, ops)
    requires Lineage(s.Records(), scopeId, alg, chain)
    ensures Lineage(Run(s, b, ops).Records(), scopeId, alg, last)
    ensures |last| >= |chain| && last[|last| - |chain|..] == chain
    decreases |ops|
  {
    hide Lineage, OneActive, Store.Valid, Step, Fresh, KeepsMaterial;
    last := chain;
    if ops != [] {
      var next := StepKeepsLineage(s, b, ops[0], scopeId, alg, chain);
      StepIsSound(s, b, ops[0]);
      last := RunHasLineage(Step(s, b, ops[0]), b, ops[1..], scopeId, alg, next);
      LastOf(last, next, chain);
    }
  }

  lemma LastOf(last: seq<Id>, next: seq<Id>, chain: seq<Id>)
    requires |last| >= |next| && last[|last| - |next|..] == next
    requires |next| >= |chain| && next[|next| - |chain|..] == chain
    ensures |last| >= |chain| && last[|last| - |chain|..] == chain
  {
    assert last[|last| - |next|..][|next| - |chain|..] == last[|last| - |chain|..];
  }

  // Following rotated-from links from a key, at most n of them.
  ghost function Ancestors(rows: map<Id, Key>, id: Id, n: nat): seq<Id>
    decreases n
  {
    if n == 0 || id !in rows then []
    else [id] + (if rows[id].rotatedFrom.Some? then Ancestors(rows, rows[id].rotatedFrom.value, n - 1) else [])
  }

  lemma {:induction false} LineageIsAncestors(rows: map<Id, Key>, scopeId: Option<Id>, alg: Alg, chain: seq<Id>,
                                              k: nat, n: nat)
    requires Lineage(rows, scopeId, alg, chain) && k < |chain| && n >= |chain| - k
    ensures Ancestors(rows, chain[k], n) == chain[k..]
    decreases |chain| - k
  {
    assert Linked(rows, chain, k);
    if k + 1 < |chain| {
      LineageIsAncestors(rows, scopeId, alg, chain, k + 1, n - 1);
    }
    assert chain[k..] == [chain[k]] + chain[k + 1..];
  }

  // From no keys, any run of the services leaves, for each scope and algorithm, a chain of
  // signing keys: all of them, newest first, the first active and the others retiring, exactly
  // what following rotated-from links from the active key lists.
  lemma ServicesKeepLineage(b: Registry, ops: seq<KeyOp>, scopeId: Option<Id>, alg: Alg) returns (chain: seq<Id>)
    requires FreshRun(Adapter(map[], map[]), b, ops) && ServiceRun(Adapter(map[], map[]), ops)
    ensures
      var rows := Run(Adapter(map[], map[]), b, ops).Records();
      && Lineage(rows, scopeId, alg, chain)
      && (chain != [] ==> Ancestors(rows, chain[0], |chain|) == chain)
  {
    var s := Adapter(map[], map[]);
    chain := RunHasLineage(s, b, ops, scopeId, alg, []);
    if chain != [] {
      LineageIsAncestors(Run(s, b, ops).Records(), scopeId, alg, chain, 0, |chain|);
    }
  }

  // Whatever retirement time the caller asks for, the rotation is the same.
  lemma RetirementIsIgnored(rows: map<Id, Key>, b: Registry, req: Request, retireAt: Option<Text>, other: Option<Text>,
                            now: Text, m: Minted)
    ensures RotateSigningKey(rows, b, req, retireAt, now, m) == RotateSigningKey(rows, b, req, other, now, m)
  {
    var s := Adapter(rows, map[]);
    var actives := s.Actives(req.scopeId, req.alg);
    hide RotateFrom;
    if actives != {} && !exists i, j :: i in actives && j in actives && i != j {
      var x :| x in actives && RotateSigning(s, b, req, NotFlagged(retireAt), now, m) ==
        RotateFrom(s, b, req, NotFlagged(retireAt), now, m, s.Records()[x]);
      var y :| y in actives && RotateSigning(s, b, req, NotFlagged(other), now, m) ==
        RotateFrom(s, b, req, NotFlagged(other), now, m, s.Records()[y]);
      RotateFromIgnores(s, b, req, retireAt, other, now, m, s.Records()[x]);
    }
  }

  lemma RotateFromIgnores(s: Store, b: Registry, req: Request, retireAt: Option<Text>, other: Option<Text>,
                          now: Text, m: Minted, outgoing: Key)
    ensures RotateFrom(s, b, req, NotFlagged(retireAt), now, m, outgoing)
      == RotateFrom(s, b, req, NotFlagged(other), now, m, outgoing)
  {
    assert Demoted(outgoing, now, NotFlagged(retireAt)) == Demoted(outgoing, now, NotFlagged(other));
    hide Demoted, IssueSigning, Store.Update;
  }

  // The incoming key a rotation reports carries the id the hierarchy generated; the stored row
  // is under the id storage assigned, and reports the outgoing key's stored row exactly.
  lemma ReportedIncomingId(rows: map<Id, Key>, b: Registry, req: Request, retireAt: Option<Text>, now: Text, m: Minted)
    requires Adapter(rows, map[]).Valid() && Fresh(Adapter(rows, map[]), m) && m.id != m.adapterId
    requires RotateSigningKey(rows, b, req, retireAt, now, m).rotated.Ok?
    ensures
      var result := RotateSigningKey(rows, b, req, retireAt, now, m);
      var reported := result.rotated.value;
      && reported.incoming.id !in result.rows
      && m.adapterId in result.rows && result.rows[m.adapterId] == reported.incoming.(id := m.adapterId)
      && reported.outgoing.id in result.rows && result.rows[reported.outgoing.id] == reported.outgoing
  {
    var s := Adapter(rows, map[]);
    hide RotateSigning, IssuedBy, Store.Valid;
    var outgoing := RotateShape(s, b, req, NotFlagged(retireAt), now, m);
    IssuedFields(s, b, req, m, RotateSigning(s, b, req, NotFlagged(retireAt), now, m).1.value.incoming.(rotatedFrom := None));
  }
}
