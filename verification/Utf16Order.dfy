// The key order of canonical JSON: lexicographic on UTF-16 code units.
module Utf16Order {
  import opened Base

  // `a < b` on two TypeScript strings.
  predicate Less(a: Text, b: Text) {
    if b == [] then false
    else if a == [] then true
    else a[0] < b[0] || (a[0] == b[0] && Less(a[1..], b[1..]))
  }

  lemma {:induction false} LessIrreflexive(a: Text)
    ensures !Less(a, a)
  {
    if a != [] {
      LessIrreflexive(a[1..]);
    }
  }

  lemma {:induction false} LessTransitive(a: Text, b: Text, c: Text)
    requires Less(a, b) && Less(b, c)
    ensures Less(a, c)
  {
    if a != [] && a[0] == b[0] == c[0] {
      LessTransitive(a[1..], b[1..], c[1..]);
    }
  }

  lemma {:induction false} LessTotal(a: Text, b: Text)
    ensures a == b || Less(a, b) || Less(b, a)
  {
    if a != [] && b != [] && a[0] == b[0] {
      LessTotal(a[1..], b[1..]);
      assert a[1..] == b[1..] ==> a == [a[0]] + a[1..] == [b[0]] + b[1..] == b;
    }
  }

  // The comparator of canonical-json.ts is a strict total order.
  lemma StrictTotalOrder(a: Text, b: Text, c: Text)
    ensures !Less(a, a)
    ensures Less(a, b) ==> !Less(b, a)
    ensures Less(a, b) && Less(b, c) ==> Less(a, c)
    ensures a != b <==> Less(a, b) || Less(b, a)
  {
    LessIrreflexive(a);
    LessTotal(a, b);
    if Less(a, b) && Less(b, a) {
      LessTransitive(a, b, a);
    }
    if Less(a, b) && Less(b, c) {
      LessTransitive(a, b, c);
    }
  }

  ghost predicate Ascending(ks: seq<Text>) {
    forall i, j :: 0 <= i < j < |ks| ==> Less(ks[i], ks[j])
  }

  // `ks` lists exactly the keys in `s`, ascending.
  ghost predicate Lists(ks: seq<Text>, s: set<Text>) {
    && Ascending(ks)
    && (forall k :: k in ks <==> k in s)
  }

  // One step of sorting: put `k` where it belongs.
  function Insert(k: Text, ks: seq<Text>): seq<Text> {
    if ks == [] then [k]
    else if Less(k, ks[0]) then [k] + ks
    else [ks[0]] + Insert(k, ks[1..])
  }

  lemma {:induction false} InsertElements(k: Text, ks: seq<Text>)
    ensures forall x :: x in Insert(k, ks) <==> x == k || x in ks
  {
    if ks != [] && !Less(k, ks[0]) {
      InsertElements(k, ks[1..]);
      assert ks == [ks[0]] + ks[1..];
    }
  }

  lemma {:induction false} InsertAscending(k: Text, ks: seq<Text>)
    requires Ascending(ks) && k !in ks
    ensures Ascending(Insert(k, ks))
  {
    if ks != [] {
      if Less(k, ks[0]) {
        forall j | 0 <= j < |ks| ensures Less(k, ks[j]) {
          if j > 0 {
            LessTransitive(k, ks[0], ks[j]);
          }
        }
      } else {
        LessTotal(k, ks[0]);
        InsertAscending(k, ks[1..]);
        InsertElements(k, ks[1..]);
        var rest := Insert(k, ks[1..]);
        forall j | 0 <= j < |rest| ensures Less(ks[0], rest[j]) {
          assert rest[j] in rest;
          if rest[j] != k {
            assert rest[j] in ks[1..];
          }
        }
      }
    }
  }

  // Sorting by insertion in any order; stands for the library sort, whose result is
  // determined by its input set (SortUnique below).
  function Sort(ks: seq<Text>): seq<Text> {
    if ks == [] then [] else Insert(ks[0], Sort(ks[1..]))
  }

  ghost predicate Distinct(ks: seq<Text>) {
    forall i, j :: 0 <= i < j < |ks| ==> ks[i] != ks[j]
  }

  lemma {:induction false} SortLists(ks: seq<Text>)
    requires Distinct(ks)
    ensures Lists(Sort(ks), set k | k in ks)
  {
    if ks != [] {
      SortLists(ks[1..]);
      InsertElements(ks[0], Sort(ks[1..]));
      assert ks[0] !in ks[1..];
      InsertAscending(ks[0], Sort(ks[1..]));
      assert ks == [ks[0]] + ks[1..];
    }
  }

  // However the keys were enumerated, sorting them gives one and the same sequence.
  lemma {:induction false} SortUnique(a: seq<Text>, b: seq<Text>, s: set<Text>)
    requires Lists(a, s) && Lists(b, s)
    ensures a == b
  {
    assert a != [] ==> a[0] in a;
    assert b != [] ==> b[0] in b;
    if a != [] {
      assert a[0] in b && b[0] in a;
      if a[0] != b[0] {
        LessTransitive(a[0], b[0], a[0]);
        LessIrreflexive(a[0]);
      }
      AscendingTail(a, s);
      AscendingTail(b, s);
      SortUnique(a[1..], b[1..], s - {a[0]});
      assert a == [a[0]] + a[1..] && b == [b[0]] + b[1..];
    }
  }

  lemma AscendingTail(a: seq<Text>, s: set<Text>)
    requires a != [] && Lists(a, s)
    ensures Lists(a[1..], s - {a[0]})
  {
    assert a == [a[0]] + a[1..];
    LessIrreflexive(a[0]);
    forall x | x in a[1..] ensures x != a[0] {
      var j :| 0 <= j < |a[1..]| && a[1..][j] == x;
      assert Less(a[0], a[j + 1]);
    }
  }

  lemma AscendingDistinct(ks: seq<Text>)
    requires Ascending(ks)
    ensures Distinct(ks)
  {
    forall i, j | 0 <= i < j < |ks| ensures ks[i] != ks[j] {
      LessIrreflexive(ks[i]);
    }
  }

  // The sorted listing of a finite set of keys.
  ghost function SortedKeys(s: set<Text>): (ks: seq<Text>)
    ensures Lists(ks, s)
  {
    if s == {} then []
    else
      var k :| k in s;
      var rest := SortedKeys(s - {k});
      InsertElements(k, rest);
      InsertAscending(k, rest);
      Insert(k, rest)
  }
}
