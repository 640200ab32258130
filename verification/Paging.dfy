// Keyset pagination (licensing/cursor.go): rows in (created_at DESC, id DESC) order, a cursor
// naming the last row seen, and pages of the rows strictly after it.
module Paging {
  import opened Base
  import opened Entities

  datatype Cursor = Cursor(createdAt: Instant, id: Id)

  datatype Page = Page(items: seq<Usage>, next: Option<Cursor>)

  // CompareDesc: negative when `a` sorts before `b`, positive when after.
  function CompareDesc(aCreatedAt: Instant, aId: Id, bCreatedAt: Instant, bId: Id): int {
    if aCreatedAt != bCreatedAt then (if aCreatedAt < bCreatedAt then 1 else -1)
    else if aId != bId then (if aId < bId then 1 else -1)
    else 0
  }

  // IsAfter: the row comes strictly after the cursor.
  predicate IsAfter(createdAt: Instant, id: Id, c: Cursor) {
    if createdAt != c.createdAt then createdAt < c.createdAt else id < c.id
  }

  predicate Precedes(a: Usage, b: Usage) {
    CompareDesc(a.createdAt, a.id, b.createdAt, b.id) < 0
  }

  function CursorOf(u: Usage): Cursor {
    Cursor(u.createdAt, u.id)
  }

  // The two comparisons describe one strict total order on rows with distinct ids.
  lemma OneOrder(a: Usage, b: Usage, c: Usage)
    ensures IsAfter(b.createdAt, b.id, CursorOf(a)) <==> Precedes(a, b)
    ensures !Precedes(a, a)
    ensures Precedes(a, b) && Precedes(b, c) ==> Precedes(a, c)
    ensures a.id != b.id ==> Precedes(a, b) || Precedes(b, a)
  {
  }

  ghost predicate Ordered(rows: seq<Usage>) {
    forall i, j :: 0 <= i < j < |rows| ==> Precedes(rows[i], rows[j])
  }

  ghost predicate DistinctIds(rows: seq<Usage>) {
    forall i, j :: 0 <= i < j < |rows| ==> rows[i].id != rows[j].id
  }

  function Insert(u: Usage, rows: seq<Usage>): seq<Usage> {
    if rows == [] then [u]
    else if Precedes(u, rows[0]) then [u] + rows
    else [rows[0]] + Insert(u, rows[1..])
  }

  // The rows of a table in listing order.
  function Sort(rows: seq<Usage>): (r: seq<Usage>)
    ensures |r| == |rows|
  {
    if rows == [] then [] else Insertion(rows[0], Sort(rows[1..]))
  }

  function Insertion(u: Usage, rows: seq<Usage>): (r: seq<Usage>)
    ensures |r| == |rows| + 1
  {
    InsertSize(u, rows);
    Insert(u, rows)
  }

  lemma {:induction false} InsertSize(u: Usage, rows: seq<Usage>)
    ensures |Insert(u, rows)| == |rows| + 1
  {
    if rows != [] && !Precedes(u, rows[0]) {
      InsertSize(u, rows[1..]);
    }
  }

  lemma {:induction false} InsertElements(u: Usage, rows: seq<Usage>)
    ensures forall x :: x in Insert(u, rows) <==> x == u || x in rows
  {
    if rows != [] && !Precedes(u, rows[0]) {
      InsertElements(u, rows[1..]);
      assert rows == [rows[0]] + rows[1..];
    }
  }

  lemma {:induction false} InsertOrdered(u: Usage, rows: seq<Usage>)
    requires Ordered(rows) && forall x :: x in rows ==> x.id != u.id
    ensures Ordered(Insert(u, rows))
  {
    if rows != [] && !Precedes(u, rows[0]) {
      assert rows[0] in rows;
      InsertOrdered(u, rows[1..]);
      InsertElements(u, rows[1..]);
      var rest := Insert(u, rows[1..]);
      forall j | 0 <= j < |rest| ensures Precedes(rows[0], rest[j]) {
        assert rest[j] in rest;
        if rest[j] != u {
          assert rest[j] in rows[1..];
        }
      }
    }
  }

  lemma {:induction false} SortElements(rows: seq<Usage>)
    ensures forall x :: x in Sort(rows) <==> x in rows
  {
    if rows != [] {
      SortElements(rows[1..]);
      InsertElements(rows[0], Sort(rows[1..]));
      assert rows == [rows[0]] + rows[1..];
    }
  }

  lemma {:induction false} SortOrdered(rows: seq<Usage>)
    requires DistinctIds(rows)
    ensures Ordered(Sort(rows))
  {
    if rows != [] {
      SortOrdered(rows[1..]);
      SortElements(rows[1..]);
      forall x | x in Sort(rows[1..]) ensures x.id != rows[0].id {
        var i :| 0 <= i < |rows[1..]| && rows[1..][i] == x;
        assert rows[i + 1] == x;
      }
      InsertOrdered(rows[0], Sort(rows[1..]));
    }
  }

  // However a table enumerates its rows, the listing is the same.
  lemma {:induction false} OrderedUnique(a: seq<Usage>, b: seq<Usage>)
    requires Ordered(a) && Ordered(b) && forall x :: x in a <==> x in b
    ensures a == b
  {
    assert a != [] ==> a[0] in b;
    assert b != [] ==> b[0] in a;
    if a != [] {
      if a[0] != b[0] {
        OneOrder(a[0], b[0], a[0]);
      }
      TailElements(a);
      TailElements(b);
      OrderedUnique(a[1..], b[1..]);
      assert a == [a[0]] + a[1..] && b == [b[0]] + b[1..];
    }
  }

  lemma TailElements(a: seq<Usage>)
    requires a != [] && Ordered(a)
    ensures forall x :: x in a[1..] <==> x in a && x != a[0]
  {
    assert a == [a[0]] + a[1..];
    forall x | x in a[1..] ensures x != a[0] {
      var j :| 0 <= j < |a[1..]| && a[1..][j] == x;
      assert Precedes(a[0], a[j + 1]);
    }
  }

  // Index of the first row after the cursor; the whole length when there is none.
  function FirstAfter(rows: seq<Usage>, c: Cursor): (i: nat)
    ensures i <= |rows|
  {
    if rows == [] || IsAfter(rows[0].createdAt, rows[0].id, c) then 0
    else 1 + FirstAfter(rows[1..], c)
  }

  // One page of a sorted listing, as the storage adapters cut it.
  function Paginate(rows: seq<Usage>, after: Option<Cursor>, limit: nat): Page
    requires limit > 0
  {
    var start := if after.Some? then FirstAfter(rows, after.value) else 0;
    var end := if start + limit < |rows| then start + limit else |rows|;
    var items := rows[start..end];
    Page(items, if end < |rows| && items != [] then Some(CursorOf(items[|items| - 1])) else None)
  }

  // ---------- walking pages ----------

  // With the rows up to and including `seen[|seen|-1]` behind the cursor, the next page is
  // the next `limit` rows, whether or not the seen rows are still listed.
  lemma {:induction false} FirstAfterSkips(seen: seq<Usage>, rest: seq<Usage>, c: Cursor)
    requires Ordered(seen + rest)
    requires forall x :: x in seen ==> !IsAfter(x.createdAt, x.id, c)
    requires forall x :: x in rest ==> IsAfter(x.createdAt, x.id, c)
    ensures FirstAfter(seen + rest, c) == |seen|
  {
    if seen == [] {
      assert seen + rest == rest;
      assert rest != [] ==> rest[0] in rest;
    } else {
      assert seen[0] in seen;
      assert (seen + rest)[1..] == seen[1..] + rest;
      FirstAfterSkips(seen[1..], rest, c);
    }
  }

  lemma AfterLast(rows: seq<Usage>, n: nat)
    requires Ordered(rows) && 0 < n <= |rows|
    ensures forall x :: x in rows[..n] ==> !IsAfter(x.createdAt, x.id, CursorOf(rows[n - 1]))
    ensures forall x :: x in rows[n..] ==> IsAfter(x.createdAt, x.id, CursorOf(rows[n - 1]))
  {
    forall x | x in rows[..n] ensures !IsAfter(x.createdAt, x.id, CursorOf(rows[n - 1])) {
      var i :| 0 <= i < n && rows[i] == x;
      OneOrder(rows[n - 1], x, rows[n - 1]);
    }
    forall x | x in rows[n..] ensures IsAfter(x.createdAt, x.id, CursorOf(rows[n - 1])) {
      var i :| 0 <= i < |rows[n..]| && rows[n..][i] == x;
      assert Precedes(rows[n - 1], rows[n + i]);
      OneOrder(rows[n - 1], x, x);
    }
  }

  // The cursor after the first `n` rows.
  function CursorAfter(rows: seq<Usage>, n: nat): Option<Cursor>
    requires n <= |rows|
  {
    if n == 0 then None else Some(CursorOf(rows[n - 1]))
  }

  function PageEnd(rows: seq<Usage>, n: nat, limit: nat): (end: nat)
    requires n <= |rows|
    ensures n <= end <= |rows|
  {
    if n + limit < |rows| then n + limit else |rows|
  }

  // Paging an unchanging listing from the cursor after `n` rows.
  lemma NextPage(rows: seq<Usage>, n: nat, limit: nat)
    requires Ordered(rows) && n <= |rows| && limit > 0
    ensures
      var end := PageEnd(rows, n, limit);
      Paginate(rows, CursorAfter(rows, n), limit) ==
        Page(rows[n..end], if end < |rows| then CursorAfter(rows, end) else None)
  {
    if n > 0 {
      assert rows == rows[..n] + rows[n..];
      AfterLast(rows, n);
      FirstAfterSkips(rows[..n], rows[n..], CursorOf(rows[n - 1]));
    }
  }

  // Paging the same way while the rows already seen leave the listing.
  lemma NextPageOfRest(rows: seq<Usage>, n: nat, limit: nat)
    requires Ordered(rows) && n <= |rows| && limit > 0
    ensures
      var end := PageEnd(rows, n, limit);
      Paginate(rows[n..], CursorAfter(rows, n), limit) ==
        Page(rows[n..end], if end < |rows| then CursorAfter(rows, end) else None)
  {
    hide Paginate, FirstAfter, CursorAfter, PageEnd;
    if n > 0 {
      AfterLast(rows, n);
      assert [] + rows[n..] == rows[n..];
      FirstAfterSkips([], rows[n..], CursorOf(rows[n - 1]));
    }
    PaginateFront(rows, n, limit);
  }

  lemma PaginateFront(rows: seq<Usage>, n: nat, limit: nat)
    requires n <= |rows| && limit > 0
    requires n > 0 ==> FirstAfter(rows[n..], CursorOf(rows[n - 1])) == 0
    ensures
      var end := PageEnd(rows, n, limit);
      Paginate(rows[n..], CursorAfter(rows, n), limit) ==
        Page(rows[n..end], if end < |rows| then CursorAfter(rows, end) else None)
  {
    hide FirstAfter, CursorOf;
    var end := PageEnd(rows, n, limit);
    var items := rows[n..][0..end - n];
    assert items == rows[n..end];
    if end > n {
      assert items[|items| - 1] == rows[end - 1];
    }
  }
}
