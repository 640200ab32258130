// Template inheritance (licensing/templates/resolve.go): a bounded walk over parents that may
// form a cycle, and a deep merge in which children win.
module Templates {
  import opened Base
  import opened JsonValue

  type Id = Text

  type Members = map<Text, Json>

  datatype Template = Template(id: Id, parentId: Option<Id>, entitlements: Members, meta: Members)

  // What loading a template by id gives.
  datatype Loaded = Found(t: Template) | Missing | LoadError

  type Loader = Id -> Loaded

  const MAX_DEPTH := 5

  // ---------- deep merge ----------

  // Two objects merge key by key; anything else is replaced.
  ghost function Merge(a: Json, b: Json): Json
    decreases b
  {
    if a.Obj? && b.Obj? then
      Obj(map k | k in a.members.Keys + b.members.Keys ::
        if k !in b.members then a.members[k]
        else if k !in a.members then b.members[k]
        else Merge(a.members[k], b.members[k]))
    else b
  }

  method DeepMerge(a: Json, b: Json) returns (r: Json)
    requires a.Obj? && b.Obj?
    ensures r == Merge(a, b)
    decreases b
  {
    var out := a.members;
    var todo := b.members.Keys;
    while todo != {}
      invariant todo <= b.members.Keys
      invariant out.Keys == a.members.Keys + (b.members.Keys - todo)
      invariant forall k :: k in out ==>
        (if k in todo || k !in b.members then k in a.members && out[k] == a.members[k]
         else out[k] == Merge(a, b).members[k])
      decreases todo
    {
      var k :| k in todo;
      var v := b.members[k];
      if k in out && out[k].Obj? && v.Obj? {
        var merged := DeepMerge(out[k], v);
        out := out[k := merged];
      } else {
        out := out[k := v];
      }
      todo := todo - {k};
    }
    assert out == Merge(a, b).members;
    return Obj(out);
  }

  // ---------- the walk ----------

  datatype Walked = Walked(chain: seq<Template>, truncated: bool)

  // The ancestors from a cursor on, nearest first, n of them already taken.
  function Walk(load: Loader, cursor: Option<Id>, visited: set<Id>, n: nat): Option<Walked>
    requires n <= MAX_DEPTH
    decreases MAX_DEPTH - n
  {
    if cursor.None? then Some(Walked([], false))
    else if n == MAX_DEPTH then Some(Walked([], true))
    else if cursor.value in visited then Some(Walked([], false))
    else
      match load(cursor.value)
      case LoadError => None
      case Missing => Some(Walked([], false))
      case Found(t) =>
        match Walk(load, t.parentId, visited + {cursor.value}, n + 1)
        case None => None
        case Some(w) => Some(Walked([t] + w.chain, w.truncated))
  }

  // Merging a chain, nearest first, from its far end up to the leaf.
  ghost function Fold(chain: seq<Json>): Json {
    if chain == [] then Obj(map[]) else Merge(Fold(chain[1..]), chain[0])
  }

  function EntitlementsOf(ts: seq<Template>): seq<Json> {
    seq(|ts|, i requires 0 <= i < |ts| => Obj(ts[i].entitlements))
  }

  function MetaOf(ts: seq<Template>): seq<Json> {
    seq(|ts|, i requires 0 <= i < |ts| => Obj(ts[i].meta))
  }

  datatype Resolved = Resolved(leaf: Template, entitlements: Json, meta: Json, depth: nat, truncated: bool)

  ghost function ResolveSpec(leaf: Template, load: Loader): Option<Resolved> {
    match Walk(load, leaf.parentId, {leaf.id}, 0)
    case None => None
    case Some(w) =>
      Some(Resolved(leaf, Fold(EntitlementsOf([leaf] + w.chain)), Fold(MetaOf([leaf] + w.chain)), |w.chain|, w.truncated))
  }

  method WalkParents(leaf: Template, load: Loader) returns (r: Option<Walked>)
    ensures r == Walk(load, leaf.parentId, {leaf.id}, 0)
  {
    var chain: seq<Template> := [];
    var visited := {leaf.id};
    var cursor := leaf.parentId;
    var truncated := false;
    ghost var whole := Walk(load, leaf.parentId, {leaf.id}, 0);
    WalkPrepend([], whole);
    while cursor.Some?
      invariant |chain| <= MAX_DEPTH && !truncated
      invariant whole == After(chain, Walk(load, cursor, visited, |chain|))
      decreases MAX_DEPTH - |chain|
    {
      if |chain| >= MAX_DEPTH {
        truncated := true;
        break;
      }
      if cursor.value in visited {
        break;
      }
      var node := load(cursor.value);
      if node.LoadError? {
        return None;
      }
      if node.Missing? {
        break;
      }
      var rest := Walk(load, node.t.parentId, visited + {cursor.value}, |chain| + 1);
      if rest.Some? {
        AppendAssoc(chain, [node.t], rest.value.chain);
      }
      visited := visited + {cursor.value};
      chain := chain + [node.t];
      cursor := node.t.parentId;
    }
    assert chain + [] == chain;
    return Some(Walked(chain, truncated));
  }

  function After(chain: seq<Template>, w: Option<Walked>): Option<Walked> {
    match w case None => None case Some(v) => Some(Walked(chain + v.chain, v.truncated))
  }

  lemma WalkPrepend(chain: seq<Template>, w: Option<Walked>)
    ensures chain == [] ==> After(chain, w) == w
  {
    if w.Some? && chain == [] {
      assert [] + w.value.chain == w.value.chain;
    }
  }

  method Resolve(leaf: Template, load: Loader) returns (r: Option<Resolved>)
    ensures r == ResolveSpec(leaf, load)
  {
    hide Merge, Walk;
    var walked := WalkParents(leaf, load);
    if walked.None? {
      return None;
    }
    var chain := walked.value.chain;
    var entitlements, meta := MergeChain([leaf] + chain);
    return Some(Resolved(leaf, entitlements, meta, |chain|, walked.value.truncated));
  }

  // The merging loop, from the root down to the leaf.
  method MergeChain(ts: seq<Template>) returns (entitlements: Json, meta: Json)
    ensures entitlements == Fold(EntitlementsOf(ts)) && meta == Fold(MetaOf(ts))
  {
    hide Merge;
    entitlements, meta := Obj(map[]), Obj(map[]);
    var i := |ts|;
    while i > 0
      invariant 0 <= i <= |ts|
      invariant entitlements.Obj? && meta.Obj?
      invariant entitlements == Fold(EntitlementsOf(ts)[i..]) && meta == Fold(MetaOf(ts)[i..])
    {
      i := i - 1;
      FoldStep(EntitlementsOf(ts), i);
      FoldStep(MetaOf(ts), i);
      MergesToObject(entitlements, Obj(ts[i].entitlements));
      MergesToObject(meta, Obj(ts[i].meta));
      entitlements := DeepMerge(entitlements, Obj(ts[i].entitlements));
      meta := DeepMerge(meta, Obj(ts[i].meta));
    }
  }

  lemma MergesToObject(a: Json, b: Json)
    requires b.Obj?
    ensures Merge(a, b).Obj?
  {
  }

  lemma FoldStep(chain: seq<Json>, i: nat)
    requires i < |chain|
    ensures Fold(chain[i..]) == Merge(Fold(chain[i + 1..]), chain[i])
  {
    assert chain[i..][1..] == chain[i + 1..];
  }
}
