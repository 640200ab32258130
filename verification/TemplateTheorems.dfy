// Laws of the deep merge and of the ancestor walk.
module TemplateTheorems {
  import opened Base
  import opened JsonValue
  import opened Templates

  // ---------- identity, idempotence, absorption ----------

  lemma MergeEmpty(v: Json)
    requires v.Obj?
    ensures Merge(Obj(map[]), v) == v && Merge(v, Obj(map[])) == v
  {
    assert Merge(Obj(map[]), v).members == v.members;
    assert Merge(v, Obj(map[])).members == v.members;
  }

  lemma {:induction false} MergeIdempotent(v: Json)
    ensures Merge(v, v) == v
    decreases v
  {
    if v.Obj? {
      forall k | k in v.members ensures Merge(v.members[k], v.members[k]) == v.members[k] {
        MergeIdempotent(v.members[k]);
      }
      assert Merge(v, v).members == v.members;
    }
  }

  // Applying the overriding side again changes nothing.
  lemma {:induction false} MergeAgain(a: Json, b: Json)
    ensures Merge(Merge(a, b), b) == Merge(a, b)
    decreases b
  {
    MergeIdempotent(b);
    if a.Obj? && b.Obj? {
      var m := Merge(a, b);
      forall k | k in b.members ensures Merge(m.members[k], b.members[k]) == m.members[k] {
        if k in a.members {
          MergeAgain(a.members[k], b.members[k]);
        } else {
          MergeIdempotent(b.members[k]);
        }
      }
      assert Merge(m, b).members == m.members;
    }
  }

  // ---------- associativity ----------

  // Every key path of an object is a key path of the other.
  ghost predicate AddsNothing(a: Json, c: Json)
    decreases c
  {
    a.Obj? && c.Obj? ==>
      forall k :: k in a.members ==> k in c.members && AddsNothing(a.members[k], c.members[k])
  }

  lemma {:induction false} MergeAddsNothing(a: Json, c: Json)
    ensures Merge(a, c) == c <==> AddsNothing(a, c)
    decreases c
  {
    if a.Obj? && c.Obj? {
      forall k | k in a.members && k in c.members
        ensures Merge(a.members[k], c.members[k]) == c.members[k] <==> AddsNothing(a.members[k], c.members[k])
      {
        MergeAddsNothing(a.members[k], c.members[k]);
      }
      if Merge(a, c) == c {
        forall k | k in a.members ensures k in c.members && AddsNothing(a.members[k], c.members[k]) {
          assert k in Merge(a, c).members;
          assert Merge(a, c).members[k] == c.members[k];
        }
      }
      if AddsNothing(a, c) {
        assert Merge(a, c).members == c.members;
      }
    }
  }

  // At every path where all three have a value and the middle one cuts an object off, the first
  // has no key path the third lacks.
  ghost predicate Associates(a: Json, b: Json, c: Json)
    decreases c
  {
    if !(a.Obj? && c.Obj?) then true
    else if !b.Obj? then AddsNothing(a, c)
    else
      forall k :: k in a.members && k in b.members && k in c.members ==>
        Associates(a.members[k], b.members[k], c.members[k])
  }

  // Grouping does not matter exactly then.
  lemma {:induction false} MergeAssociativeExactly(a: Json, b: Json, c: Json)
    ensures Merge(Merge(a, b), c) == Merge(a, Merge(b, c)) <==> Associates(a, b, c)
    decreases c
  {
    if a.Obj? && c.Obj? && !b.Obj? {
      MergeAddsNothing(a, c);
    } else if a.Obj? && b.Obj? && c.Obj? {
      forall k | k in a.members && k in b.members && k in c.members
        ensures Merge(Merge(a.members[k], b.members[k]), c.members[k])
                == Merge(a.members[k], Merge(b.members[k], c.members[k]))
          <==> Associates(a.members[k], b.members[k], c.members[k])
      {
        MergeAssociativeExactly(a.members[k], b.members[k], c.members[k]);
      }
      MembersAssociate(a, b, c);
    }
  }

  lemma MembersAssociate(a: Json, b: Json, c: Json)
    requires a.Obj? && b.Obj? && c.Obj?
    ensures Merge(Merge(a, b), c) == Merge(a, Merge(b, c)) <==>
      forall k :: k in a.members ==> MemberAssociates(a, b, c, k)
  {
    hide Merge;
    MemberSides(a, b, c, []);
    var l, r := Merge(Merge(a, b), c).members, Merge(a, Merge(b, c)).members;
    forall k
      ensures k in l <==> k in r
      ensures k in l ==> (l[k] == r[k] <==> MemberAssociates(a, b, c, k))
      ensures k in a.members ==> k in l
    {
      MemberSides(a, b, c, k);
    }
    hide MemberAssociates;
    assert l.Keys == r.Keys;
    SameMap(l, r);
  }

  lemma SameMap(l: map<Text, Json>, r: map<Text, Json>)
    requires l.Keys == r.Keys
    ensures l == r <==> forall k :: k in l ==> l[k] == r[k]
  {
  }

  // Grouping does not matter at a key all three have.
  ghost predicate MemberAssociates(a: Json, b: Json, c: Json, k: Text)
    requires a.Obj? && b.Obj? && c.Obj?
  {
    k in a.members && k in b.members && k in c.members ==>
      Merge(Merge(a.members[k], b.members[k]), c.members[k]) == Merge(a.members[k], Merge(b.members[k], c.members[k]))
  }

  lemma MemberSides(a: Json, b: Json, c: Json, k: Text)
    requires a.Obj? && b.Obj? && c.Obj?
    ensures
      var l, r := Merge(Merge(a, b), c), Merge(a, Merge(b, c));
      && l.Obj? && r.Obj?
      && (k in l.members <==> k in a.members || k in b.members || k in c.members)
      && (k in r.members <==> k in a.members || k in b.members || k in c.members)
      && (k in l.members ==> (l.members[k] == r.members[k] <==> MemberAssociates(a, b, c, k)))
  {
    hide Merge;
    MemberOf(a, b, k);
    MemberOf(b, c, k);
    MemberOf(Merge(a, b), c, k);
    MemberOf(a, Merge(b, c), k);
  }

  // One member of a merge.
  lemma MemberOf(a: Json, b: Json, k: Text)
    requires a.Obj? && b.Obj?
    ensures Merge(a, b).Obj?
    ensures k in Merge(a, b).members <==> k in a.members || k in b.members
    ensures k in Merge(a, b).members ==>
      Merge(a, b).members[k] ==
        if k !in b.members then a.members[k]
        else if k !in a.members then b.members[k]
        else Merge(a.members[k], b.members[k])
  {
  }

  // In particular when no path is an object in the first and third and something else in the
  // second.
  ghost predicate NoCut(a: Json, b: Json, c: Json)
    decreases c
  {
    if !(a.Obj? && c.Obj?) then true
    else b.Obj? && forall k :: k in a.members && k in b.members && k in c.members ==>
      NoCut(a.members[k], b.members[k], c.members[k])
  }

  lemma MergeAssociative(a: Json, b: Json, c: Json)
    requires NoCut(a, b, c)
    ensures Merge(Merge(a, b), c) == Merge(a, Merge(b, c))
  {
    NoCutAssociates(a, b, c);
    MergeAssociativeExactly(a, b, c);
  }

  lemma {:induction false} NoCutAssociates(a: Json, b: Json, c: Json)
    requires NoCut(a, b, c)
    ensures Associates(a, b, c)
    decreases c
  {
    if a.Obj? && b.Obj? && c.Obj? {
      forall k | k in a.members && k in b.members && k in c.members
        ensures Associates(a.members[k], b.members[k], c.members[k])
      {
        NoCutAssociates(a.members[k], b.members[k], c.members[k]);
      }
    }
  }

  // ---------- child wins ----------

  // The value at a path of keys.
  function At(v: Json, path: seq<Text>): Option<Json> {
    if path == [] then Some(v)
    else if v.Obj? && path[0] in v.members then At(v.members[path[0]], path[1..])
    else None
  }

  // A non-object stands on the way to the path.
  predicate Blocks(v: Json, path: seq<Text>) {
    path != [] && (!v.Obj? || (path[0] in v.members && Blocks(v.members[path[0]], path[1..])))
  }

  // At every path the child's value counts, merged into the parent's where both are there; a
  // parent's value shows where the child has none and nothing of the child's stands in the way.
  lemma {:induction false} ChildWins(parent: Json, child: Json, path: seq<Text>)
    ensures At(Merge(parent, child), path) ==
      if At(child, path).Some? then
        Some(if At(parent, path).Some? then Merge(At(parent, path).value, At(child, path).value)
             else At(child, path).value)
      else if Blocks(child, path) then None
      else At(parent, path)
    decreases |path|
  {
    if path != [] && parent.Obj? && child.Obj? {
      var k := path[0];
      if k in parent.members && k in child.members {
        assert At(parent, path) == At(parent.members[k], path[1..]);
        ChildWins(parent.members[k], child.members[k], path[1..]);
      }
    }
  }

  // The template of a chain, nearest first, that supplies a value at a path: it has it there,
  // and no nearer one has anything there or on the way.
  ghost predicate Supplies(chain: seq<Json>, i: nat, path: seq<Text>, v: Json)
    requires i < |chain|
  {
    At(chain[i], path) == Some(v) && forall j :: 0 <= j < i ==> Silent(chain[j], path)
  }

  ghost predicate Silent(v: Json, path: seq<Text>) {
    At(v, path).None? && !Blocks(v, path)
  }

  // A plain value in the resolved result is the one its nearest supplier has.
  lemma {:induction false} NearestWins(chain: seq<Json>, path: seq<Text>, v: Json)
    requires forall i :: 0 <= i < |chain| ==> chain[i].Obj?
    requires !v.Obj? && path != []
    ensures At(Fold(chain), path) == Some(v) <==> exists i :: 0 <= i < |chain| && Supplies(chain, i, path, v)
    decreases |chain|
  {
    if chain != [] {
      var rest := chain[1..];
      NearestWins(rest, path, v);
      FoldIsObject(rest);
      ChildWins(Fold(rest), chain[0], path);
      SuppliesRest(chain, path, v);
      if At(chain[0], path).Some? {
        var c := At(chain[0], path).value;
        assert At(Fold(chain), path) == Some(v) <==> c == v;
        assert c == v ==> Supplies(chain, 0, path, v);
      } else if !Blocks(chain[0], path) {
        assert Silent(chain[0], path);
      }
    }
  }

  lemma FoldIsObject(chain: seq<Json>)
    requires forall i :: 0 <= i < |chain| ==> chain[i].Obj?
    ensures Fold(chain).Obj?
  {
  }

  // A supplier is the first template, or a supplier of the rest behind a silent first.
  lemma SuppliesRest(chain: seq<Json>, path: seq<Text>, v: Json)
    requires chain != []
    ensures (exists i :: 0 <= i < |chain| && Supplies(chain, i, path, v)) <==>
      At(chain[0], path) == Some(v)
      || (Silent(chain[0], path) && exists i :: 0 <= i < |chain[1..]| && Supplies(chain[1..], i, path, v))
  {
    var rest := chain[1..];
    hide At, Blocks;
    if i :| 0 <= i < |chain| && Supplies(chain, i, path, v) {
      if i > 0 {
        assert Silent(chain[0], path);
        forall j | 0 <= j < i - 1 ensures Silent(rest[j], path) {
          assert rest[j] == chain[j + 1];
        }
        assert Supplies(rest, i - 1, path, v);
      }
    }
    if At(chain[0], path) == Some(v) {
      assert Supplies(chain, 0, path, v);
    }
    if Silent(chain[0], path) {
      if i :| 0 <= i < |rest| && Supplies(rest, i, path, v) {
        forall j | 0 <= j < i + 1 ensures Silent(chain[j], path) {
          assert j > 0 ==> chain[j] == rest[j - 1];
        }
        assert Supplies(chain, i + 1, path, v);
      }
    }
  }

  // ---------- the walk ----------

  // The cursor before the i-th ancestor of a walk.
  function CursorAt(cursor: Option<Id>, chain: seq<Template>, i: nat): Option<Id>
    requires i <= |chain|
  {
    if i == 0 then cursor else chain[i - 1].parentId
  }

  // A walk follows parents: each ancestor is what its child's parent id loads, no id is loaded
  // twice, none that was visited before.
  ghost predicate Follows(load: Loader, cursor: Option<Id>, visited: set<Id>, chain: seq<Template>) {
    && (forall i :: 0 <= i < |chain| ==>
          && CursorAt(cursor, chain, i).Some?
          && load(CursorAt(cursor, chain, i).value) == Found(chain[i])
          && CursorAt(cursor, chain, i).value !in visited)
    && (forall i, j :: 0 <= i < j < |chain| ==> CursorAt(cursor, chain, i) != CursorAt(cursor, chain, j))
  }

  // The ids a walk has loaded.
  function LoadedIds(cursor: Option<Id>, chain: seq<Template>): set<Id> {
    set i | 0 <= i < |chain| && CursorAt(cursor, chain, i).Some? :: CursorAt(cursor, chain, i).value
  }

  // On any parent graph, cyclic ones included: at most five ancestors, following parents, and
  // the walk ends only at a root, a template seen before, a missing one, or the cap.
  lemma {:induction false} WalkFollows(load: Loader, cursor: Option<Id>, visited: set<Id>, n: nat)
    requires n <= MAX_DEPTH && Walk(load, cursor, visited, n).Some?
    ensures
      var w := Walk(load, cursor, visited, n).value;
      var end := CursorAt(cursor, w.chain, |w.chain|);
      && n + |w.chain| <= MAX_DEPTH
      && Follows(load, cursor, visited, w.chain)
      && (w.truncated <==> end.Some? && n + |w.chain| == MAX_DEPTH)
      && (end.Some? && !w.truncated ==>
            end.value in visited + LoadedIds(cursor, w.chain) || load(end.value).Missing?)
    decreases MAX_DEPTH - n
  {
    hide Follows, LoadedIds;
    var w := Walk(load, cursor, visited, n).value;
    FollowsNothing(load, cursor, visited);
    if cursor.Some? && n < MAX_DEPTH && cursor.value !in visited && load(cursor.value).Found? {
      var t := load(cursor.value).t;
      var seen := visited + {cursor.value};
      WalkFollows(load, t.parentId, seen, n + 1);
      var rest := Walk(load, t.parentId, seen, n + 1).value.chain;
      assert w.chain == [t] + rest;
      ShiftCursors(cursor, t, rest);
      FollowsCons(load, cursor, visited, t, rest);
      LoadedGrows(cursor, t, rest);
      assert CursorAt(cursor, w.chain, |w.chain|) == CursorAt(t.parentId, rest, |rest|);
    }
  }

  lemma FollowsNothing(load: Loader, cursor: Option<Id>, visited: set<Id>)
    ensures Follows(load, cursor, visited, [])
  {
  }

  lemma FollowsCons(load: Loader, cursor: Option<Id>, visited: set<Id>, t: Template, rest: seq<Template>)
    requires cursor.Some? && cursor.value !in visited && load(cursor.value) == Found(t)
    requires Follows(load, t.parentId, visited + {cursor.value}, rest)
    ensures Follows(load, cursor, visited, [t] + rest)
  {
    var chain := [t] + rest;
    ShiftCursors(cursor, t, rest);
    forall i | 0 <= i < |chain|
      ensures CursorAt(cursor, chain, i).Some? && load(CursorAt(cursor, chain, i).value) == Found(chain[i])
      ensures CursorAt(cursor, chain, i).value !in visited
      ensures i > 0 ==> CursorAt(cursor, chain, i) != cursor
    {
      if i > 0 {
        assert CursorAt(cursor, chain, i) == CursorAt(t.parentId, rest, i - 1);
      }
    }
    forall i, j | 0 <= i < j < |chain| ensures CursorAt(cursor, chain, i) != CursorAt(cursor, chain, j) {
      assert CursorAt(cursor, chain, j) == CursorAt(t.parentId, rest, j - 1);
      assert i > 0 ==> CursorAt(cursor, chain, i) == CursorAt(t.parentId, rest, i - 1);
    }
  }

  lemma ShiftCursors(cursor: Option<Id>, t: Template, rest: seq<Template>)
    ensures forall i :: 0 < i <= |rest| + 1 ==>
      CursorAt(cursor, [t] + rest, i) == CursorAt(t.parentId, rest, i - 1)
  {
    forall i | 0 < i <= |rest| + 1 ensures CursorAt(cursor, [t] + rest, i) == CursorAt(t.parentId, rest, i - 1) {
      assert i > 1 ==> ([t] + rest)[i - 1] == rest[i - 2];
    }
  }

  lemma LoadedGrows(cursor: Option<Id>, t: Template, rest: seq<Template>)
    requires cursor.Some?
    ensures LoadedIds(t.parentId, rest) + {cursor.value} <= LoadedIds(cursor, [t] + rest)
  {
    var chain := [t] + rest;
    assert CursorAt(cursor, chain, 0).value in LoadedIds(cursor, chain);
    forall id | id in LoadedIds(t.parentId, rest) ensures id in LoadedIds(cursor, chain) {
      var i :| 0 <= i < |rest| && CursorAt(t.parentId, rest, i).Some? && CursorAt(t.parentId, rest, i).value == id;
      ShiftCursors(cursor, t, rest);
      assert CursorAt(cursor, chain, i + 1) == CursorAt(t.parentId, rest, i);
    }
  }

  // What resolving gives: a walk of at most five distinct ancestors, none of them the leaf, and
  // at every path the plain value of the nearest template that supplies one.
  lemma ResolvesNearest(leaf: Template, load: Loader, path: seq<Text>, v: Json)
    requires ResolveSpec(leaf, load).Some? && !v.Obj? && path != []
    ensures
      var r := ResolveSpec(leaf, load).value;
      var w := Walk(load, leaf.parentId, {leaf.id}, 0).value;
      var chain := [leaf] + w.chain;
      && r.depth == |w.chain| <= MAX_DEPTH && Follows(load, leaf.parentId, {leaf.id}, w.chain)
      && (At(r.entitlements, path) == Some(v) <==>
            exists i :: 0 <= i < |chain| && Supplies(EntitlementsOf(chain), i, path, v))
      && (At(r.meta, path) == Some(v) <==> exists i :: 0 <= i < |chain| && Supplies(MetaOf(chain), i, path, v))
  {
    hide Walk, Fold, Supplies, Follows;
    WalkFollows(load, leaf.parentId, {leaf.id}, 0);
    var chain := [leaf] + Walk(load, leaf.parentId, {leaf.id}, 0).value.chain;
    NearestWins(EntitlementsOf(chain), path, v);
    NearestWins(MetaOf(chain), path, v);
  }
}
