// Whole runs over the two key stores: with storage beneath it the hierarchy behaves as with
// the in-process maps, up to renaming ids, until storage first refuses a second algorithm.
module KeySimulation {
  import opened Base
  import opened Crypto
  import opened Keys
  import opened KeyHierarchy
  import opened KeyTheorems
  import opened KeyRuns
  import opened KeyRefinement

  // What a caller sees of an operation: its error, if any.
  ghost function Outcome(s: Store, b: Registry, op: KeyOp): Option<KeyError> {
    match op
    case GenerateOp(scopeId, alg, passphrase, notAfter, m) =>
      ErrorOf(GenerateRoot(Begin(s), b, scopeId, alg, passphrase, notAfter, m))
    case IssueOp(req, notAfter, m) => ErrorOf(IssueSigning(Begin(s), b, req, notAfter, m))
    case RotateOp(req, retireAt, now, m) => ErrorOf(RotateSigning(Begin(s), b, req, NotFlagged(retireAt), now, m).1)
    case BareRotateOp(req, retire, now, m) => ErrorOf(RotateSigning(Begin(s), b, req, retire, now, m).1)
  }

  function ErrorOf<T>(r: Result<T, KeyError>): Option<KeyError> {
    match r
    case Ok(_) => None
    case Err(e) => Some(e)
  }

  // The operation succeeds in memory, in a scope where another algorithm has an active key.
  ghost predicate Diverges(mem: Store, b: Registry, op: KeyOp) {
    && !op.GenerateOp?
    && OtherAlgActive(mem, op.req.scopeId, op.req.alg)
    && Outcome(mem, b, op).None?
  }

  ghost function Outcomes(s: Store, b: Registry, ops: seq<KeyOp>): seq<Option<KeyError>>
    decreases |ops|
  {
    if ops == [] then [] else [Outcome(s, b, ops[0])] + Outcomes(Step(s, b, ops[0]), b, ops[1..])
  }

  ghost predicate NeverDiverges(mem: Store, b: Registry, ops: seq<KeyOp>)
    decreases |ops|
  {
    ops == [] || (!Diverges(mem, b, ops[0]) && NeverDiverges(Step(mem, b, ops[0]), b, ops[1..]))
  }

  // A root key never stands in the way, nor is it refused.
  lemma GenerateRefines(mem: Store, ad: Store, f: map<Id, Id>, b: Registry, scopeId: Option<Id>, alg: Alg,
                        passphrase: Text, notAfter: Option<Text>, m: Minted)
    requires Sim(mem, ad, f) && Fresh(mem, m) && Fresh(ad, m)
    ensures
      var x := GenerateRoot(mem, b, scopeId, alg, passphrase, notAfter, m);
      var y := GenerateRoot(ad, b, scopeId, alg, passphrase, notAfter, m);
      if x.Err? then y == Err(x.error) else y.Ok? && Sim(x.value, y.value, f[m.id := m.adapterId])
  {
    hide Sim, Fresh, Store.Put, ScopeIsTaken;
    PutRefines(mem, ad, f, RootKey(scopeId, alg, passphrase, notAfter, m), m);
  }

  lemma BeginSim(mem: Store, ad: Store, f: map<Id, Id>)
    requires Sim(mem, ad, f)
    ensures Begin(mem) == mem && Sim(mem, Begin(ad), f) && Begin(ad).Adapter? && Begin(ad).idMap == map[]
  {
  }

  // One operation: the outcomes agree exactly when it does not diverge, and then so do the
  // stores.
  lemma StepRefines(mem: Store, ad: Store, f: map<Id, Id>, b: Registry, op: KeyOp) returns (g: map<Id, Id>)
    requires Sim(mem, ad, f) && Fresh(Begin(mem), op.m) && Fresh(Begin(ad), op.m)
    ensures Outcome(mem, b, op) == Outcome(ad, b, op) <==> !Diverges(mem, b, op)
    ensures !Diverges(mem, b, op) ==> Sim(Step(mem, b, op), Step(ad, b, op), g)
  {
    BeginSim(mem, ad, f);
    var t := Begin(ad);
    hide Sim, Fresh, GenerateRoot, IssueSigning, RotateSigning, OtherAlgActive, OnlyDemoted;
    g := if Outcome(mem, b, op).None? then f[op.m.id := op.m.adapterId] else f;
    match op
    case GenerateOp(scopeId, alg, passphrase, notAfter, m) =>
      GenerateRefines(mem, t, f, b, scopeId, alg, passphrase, notAfter, m);
    case IssueOp(req, notAfter, m) =>
      IssueRefines(mem, t, f, b, req, notAfter, m);
    case RotateOp(req, retireAt, now, m) =>
      RotateRefines(mem, t, f, b, req, NotFlagged(retireAt), now, m);
    case BareRotateOp(req, retire, now, m) =>
      RotateRefines(mem, t, f, b, req, retire, now, m);
  }

  // Two runs of the same operations: every outcome agrees if and only if no operation
  // diverges, and then the stores correspond at the end.
  lemma {:induction false} RunRefines(mem: Store, ad: Store, f: map<Id, Id>, b: Registry, ops: seq<KeyOp>)
    returns (g: map<Id, Id>)
    requires Sim(mem, ad, f) && FreshRun(mem, b, ops) && FreshRun(ad, b, ops)
    ensures Outcomes(mem, b, ops) == Outcomes(ad, b, ops) <==> NeverDiverges(mem, b, ops)
    ensures NeverDiverges(mem, b, ops) ==> Sim(Run(mem, b, ops), Run(ad, b, ops), g)
    decreases |ops|
  {
    hide Sim, Fresh, Step, Outcome, Diverges;
    g := f;
    if ops != [] {
      g := StepRefines(mem, ad, f, b, ops[0]);
      var s, t := Step(mem, b, ops[0]), Step(ad, b, ops[0]);
      assert Outcomes(mem, b, ops)[0] == Outcome(mem, b, ops[0]) && Outcomes(ad, b, ops)[0] == Outcome(ad, b, ops[0]);
      if !Diverges(mem, b, ops[0]) {
        g := RunRefines(s, t, g, b, ops[1..]);
        assert Outcomes(mem, b, ops)[1..] == Outcomes(s, b, ops[1..]);
        assert Outcomes(ad, b, ops)[1..] == Outcomes(t, b, ops[1..]);
      }
    }
  }

  // From two empty stores.
  lemma RunsAgree(b: Registry, ops: seq<KeyOp>) returns (g: map<Id, Id>)
    requires FreshRun(InMemory(map[], map[]), b, ops) && FreshRun(Adapter(map[], map[]), b, ops)
    ensures
      var mem, ad := InMemory(map[], map[]), Adapter(map[], map[]);
      && (Outcomes(mem, b, ops) == Outcomes(ad, b, ops) <==> NeverDiverges(mem, b, ops))
      && (NeverDiverges(mem, b, ops) ==> Sim(Run(mem, b, ops), Run(ad, b, ops), g))
  {
    g := RunRefines(InMemory(map[], map[]), Adapter(map[], map[]), map[], b, ops);
  }
}
