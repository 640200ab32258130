// The seat services as they run: inside a transaction over a copy of the tables, walking
// listings page by page and writing rows and audit entries as they go.
module UsageService {
  import opened Base
  import opened Entities
  import opened Seats
  import Paging
  import Lifecycle

  // The tables a transaction works on. `pageCap` is the adapter's cap on page sizes.
  class Tx {
    const pageCap: nat
    var licenses: map<Id, License>
    var usages: seq<Usage>
    var audit: seq<AuditRow>

    constructor (db: Db, pageCap: nat)
      requires Paging.DistinctIds(db.usages) && pageCap > 0
      ensures Valid() && State() == db
    {
      this.pageCap := pageCap;
      licenses := db.licenses;
      usages := db.usages;
      audit := db.audit;
    }

    ghost predicate Valid()
      reads this
    {
      pageCap > 0 && Paging.DistinctIds(usages)
    }

    function State(): Db
      reads this
    {
      Db(licenses, usages, audit)
    }

    function Limit(requested: nat): (limit: nat)
      requires pageCap > 0
      ensures requested > 0 ==> limit > 0
    {
      if requested < pageCap then requested else pageCap
    }

    // A page of the rows in use that match a filter.
    method ListUsages(licenseId: Option<Id>, fingerprint: Option<string>, cursor: Option<Paging.Cursor>, requested: nat)
      returns (page: Paging.Page)
      requires Valid() && requested > 0
      ensures page == Paging.Paginate(Paging.Sort(Listed(usages, licenseId, fingerprint)), cursor, Limit(requested))
    {
      page := Paging.Paginate(Paging.Sort(Listed(usages, licenseId, fingerprint)), cursor, Limit(requested));
    }

    // UpdateUsage(id, {status: revoked, revoked_at: now}) on a known id.
    method ReleaseUsage(id: Id, now: Instant)
      requires Valid()
      modifies this`usages
      ensures Valid() && usages == Release(old(usages), {id}, now)
    {
      usages := Release(usages, {id}, now);
    }

    method CreateUsage(usage: Usage) returns (created: bool)
      requires Valid() && usage.status.InUse? && forall i :: 0 <= i < |usages| ==> usages[i].id != usage.id
      modifies this`usages
      ensures Valid()
      ensures created <==> Listed(old(usages), Some(usage.licenseId), Some(usage.fingerprint)) == []
      ensures usages == if created then old(usages) + [usage] else old(usages)
    {
      // Partial unique constraint: one active row per license and fingerprint.
      if Listed(usages, Some(usage.licenseId), Some(usage.fingerprint)) != [] {
        return false;
      }
      usages := usages + [usage];
      return true;
    }

    method AppendAudit(licenseId: Id, event: Event, now: Instant)
      modifies this`audit
      ensures audit == old(audit) + [AuditRow(licenseId, event, now)]
    {
      audit := audit + [AuditRow(licenseId, event, now)];
    }

    // A lifecycle transition on a license read in this transaction.
    method Transit(licenseId: Id, t: Lifecycle.Transition, now: Instant) returns (r: Result<(), ServiceError>)
      requires Valid()
      modifies this`licenses, this`audit
      ensures Valid()
      ensures match Seats.Transit(old(State()), licenseId, t, now)
              case Ok(db) => r.Ok? && State() == db
              case Err(e) => r == Err(e)
    {
      if licenseId !in licenses {
        return Err(LicenseNotFound);
      }
      var prior := licenses[licenseId];
      var applied := Lifecycle.Apply(prior, t, now);
      if applied.Err? {
        return Err(applied.error);
      }
      if Lifecycle.Writes(prior, t, now) {
        licenses := licenses[licenseId := applied.value];
        AppendAudit(licenseId, Transitioned(SnapshotOf(prior), SnapshotOf(applied.value)), now);
      }
      return Ok(());
    }

    // findActiveUsage: the pages of a license's seats with one fingerprint.
    method FindActiveUsage(licenseId: Id, fingerprint: string) returns (found: Option<Usage>)
      requires Valid()
      ensures found == Existing(usages, licenseId, fingerprint)
    {
      hide Listed, Matches, Paging.Sort, Paging.Paginate, Existing;
      ghost var rows := Paging.Sort(Listed(usages, Some(licenseId), Some(fingerprint)));
      ListedOrdered(usages, Some(licenseId), Some(fingerprint));
      var cursor := None;
      ghost var n := 0;
      while true
        invariant n <= |rows| && cursor == Paging.CursorAfter(rows, n)
        invariant forall j :: 0 <= j < n ==> rows[j].fingerprint != fingerprint
        decreases |rows| - n
      {
        var page := ListUsages(Some(licenseId), Some(fingerprint), cursor, 100);
        Paging.NextPage(rows, n, Limit(100));
        for i := 0 to |page.items|
          invariant forall j :: 0 <= j < n + i ==> rows[j].fingerprint != fingerprint
        {
          if page.items[i].fingerprint == fingerprint {
            FirstMatch(usages, licenseId, fingerprint, n + i);
            return Some(page.items[i]);
          }
        }
        if page.next.None? {
          NoMatch(usages, licenseId, fingerprint);
          return None;
        }
        cursor := page.next;
        n := n + |page.items|;
      }
    }

    // countActiveUsages: exact for every page size.
    method CountActiveUsages(licenseId: Id) returns (count: nat)
      requires Valid()
      ensures count == |SeatsOf(usages, licenseId)|
    {
      hide Listed, Matches, Paging.Sort, Paging.Paginate;
      ghost var rows := Paging.Sort(SeatsOf(usages, licenseId));
      ListedOrdered(usages, Some(licenseId), None);
      count := 0;
      var cursor := None;
      while true
        invariant count <= |rows| && cursor == Paging.CursorAfter(rows, count)
        decreases |rows| - count
      {
        var page := ListUsages(Some(licenseId), None, cursor, 500);
        Paging.NextPage(rows, count, Limit(500));
        count := count + |page.items|;
        if page.next.None? {
          return;
        }
        cursor := page.next;
      }
    }

    // The loop of RotateLicenseKey: revoke every active seat while paging over the filter
    // that each revocation takes its row out of.
    method ReleaseAllSeats(licenseId: Id, now: Instant) returns (revoked: seq<Id>)
      requires Valid()
      modifies this`usages
      ensures Valid()
      ensures revoked == Ids(Paging.Sort(SeatsOf(old(usages), licenseId)))
      ensures usages == Release(old(usages), (set id | id in revoked), now)
    {
      ghost var before := usages;
      ghost var rows := Paging.Sort(SeatsOf(before, licenseId));
      ListingFacts(before, Some(licenseId), None);
      revoked := [];
      ReleasedNothing(before, now);
      var cursor := None;
      while true
        invariant Valid() && |revoked| <= |rows| && revoked == Ids(rows[..|revoked|])
        invariant usages == Release(before, (set id | id in revoked), now)
        invariant cursor == Paging.CursorAfter(rows, |revoked|)
        decreases |rows| - |revoked|
      {
        ghost var n := |revoked|;
        RestOfSeats(before, licenseId, n, now);
        var page := ListUsages(Some(licenseId), None, cursor, 500);
        Paging.NextPageOfRest(rows, n, Limit(500));
        assert page.items == rows[n..Paging.PageEnd(rows, n, Limit(500))];
        var more := ReleaseItems(page.items, before, revoked, now);
        IdsOfPrefix(rows, n, Paging.PageEnd(rows, n, Limit(500)));
        revoked := more;
        if page.next.None? {
          assert rows[..|revoked|] == rows;
          return;
        }
        cursor := page.next;
      }
    }

    // The inner loop over one page.
    method ReleaseItems(items: seq<Usage>, ghost before: seq<Usage>, done: seq<Id>, now: Instant) returns (revoked: seq<Id>)
      requires Valid() && usages == Release(before, (set id | id in done), now)
      modifies this`usages
      ensures Valid() && revoked == done + Ids(items)
      ensures usages == Release(before, (set id | id in revoked), now)
    {
      revoked := done;
      for i := 0 to |items|
        invariant Valid() && revoked == done + Ids(items[..i])
        invariant usages == Release(before, (set id | id in revoked), now)
      {
        var u := items[i];
        ReleaseUsage(u.id, now);
        ReleaseMore(before, revoked, u.id, now);
        revoked := revoked + [u.id];
        assert Ids(items[..i + 1]) == Ids(items[..i]) + [u.id];
      }
      assert items[..|items|] == items;
    }

    // The collecting loop of a sweep: it only reads.
    method CollectStale(licenseId: Option<Id>, cutoff: Instant) returns (stale: seq<Id>, scanned: nat)
      requires Valid()
      ensures stale == StaleSeats(State(), licenseId, cutoff)
      ensures scanned == |Listed(usages, licenseId, None)|
    {
      hide Listed, Matches, Paging.Sort, Paging.Paginate, Stale, Paging.Precedes;
      ghost var rows := Paging.Sort(Listed(usages, licenseId, None));
      ListedOrdered(usages, licenseId, None);
      assert rows[0..] == rows;
      stale := [];
      scanned := 0;
      var cursor := None;
      while true
        invariant scanned <= |rows| && cursor == Paging.CursorAfter(rows, scanned)
        invariant stale + Stale(rows[scanned..], cutoff) == Stale(rows, cutoff)
        decreases |rows| - scanned
      {
        ghost var n := scanned;
        var page := ListUsages(licenseId, None, cursor, 500);
        Paging.NextPage(rows, n, Limit(500));
        var found := ScanPage(page.items, cutoff);
        StaleSplit(rows[n..], |page.items|, cutoff);
        DropDrop(rows, n, |page.items|);
        assert rows[n..][..|page.items|] == page.items;
        AppendAssoc(stale, found, Stale(rows[n + |page.items|..], cutoff));
        stale := stale + found;
        scanned := scanned + |page.items|;
        if page.next.None? {
          assert rows[scanned..] == [];
          StaleNothing(cutoff);
          assert stale + [] == stale;
          return;
        }
        cursor := page.next;
      }
    }

    // The inner loop over one page.
    method ScanPage(items: seq<Usage>, cutoff: Instant) returns (stale: seq<Id>)
      ensures stale == Stale(items, cutoff)
    {
      stale := [];
      for i := 0 to |items|
        invariant stale + Stale(items[i..], cutoff) == Stale(items, cutoff)
      {
        StaleStep(items, i, cutoff);
        if items[i].lastSeenAt < cutoff {
          stale := stale + [items[i].id];
        }
      }
      assert items[|items|..] == [];
    }
  }

  // ---------- the store and its transactions ----------

  // WithTransaction hands out a copy and swaps it in only when the work succeeded.
  class Storage {
    const pageCap: nat
    var db: Db

    constructor (pageCap: nat)
      requires pageCap > 0
      ensures Valid() && db == Db(map[], [], [])
    {
      this.pageCap := pageCap;
      db := Db(map[], [], []);
    }

    ghost predicate Valid()
      reads this
    {
      pageCap > 0 && Paging.DistinctIds(db.usages)
    }

    method RegisterUsage(licenseId: Id, fingerprint: string, newId: Id, now: Instant)
      returns (r: Result<Registration, ServiceError>)
      requires Valid() && forall i :: 0 <= i < |db.usages| ==> db.usages[i].id != newId
      modifies this
      ensures Valid()
      ensures match Register(old(db), licenseId, fingerprint, newId, now)
              case Ok(done) => db == done.0 && r == Ok(done.1)
              case Err(e) => db == old(db) && r == Err(e)
    {
      var tx := new Tx(db, pageCap);
      if licenseId !in tx.licenses {
        return Err(LicenseNotFound);
      }
      var license := tx.licenses[licenseId];
      var unusable := AssertUsable(license);
      if unusable.Some? {
        return Err(unusable.value);
      }
      var existing := tx.FindActiveUsage(licenseId, fingerprint);
      if existing.Some? {
        return Ok(Registration(existing.value, false));
      }
      var activeCount := tx.CountActiveUsages(licenseId);
      if activeCount >= license.maxUsages {
        return Err(SeatLimitExceeded);
      }
      var usage := NewUsage(newId, licenseId, fingerprint, now);
      var created := tx.CreateUsage(usage);
      tx.AppendAudit(licenseId, UsageRegistered(newId), now);
      if license.status.Pending? {
        var activated := tx.Transit(licenseId, Lifecycle.Activate, now);
        if activated.Err? {
          return Err(activated.error);
        }
      }
      db := tx.State();
      return Ok(Registration(usage, true));
    }

    method RevokeUsage(usageId: Id, now: Instant) returns (r: Result<(), ServiceError>)
      requires Valid()
      modifies this
      ensures Valid()
      ensures match Seats.RevokeUsage(old(db), usageId, now)
              case Ok(next) => r.Ok? && db == next
              case Err(e) => r == Err(e) && db == old(db)
    {
      var tx := new Tx(db, pageCap);
      var usage := Row(tx.usages, usageId);
      if usage.None? {
        return Err(UsageNotFound);
      }
      if usage.value.status.Released? {
        return Ok(());
      }
      tx.ReleaseUsage(usageId, now);
      tx.AppendAudit(usage.value.licenseId, UsageRevoked(usage.value.fingerprint), now);
      db := tx.State();
      return Ok(());
    }

    method RotateLicenseKey(licenseId: Id, newKey: string, now: Instant) returns (r: Result<seq<Id>, ServiceError>)
      requires Valid()
      modifies this
      ensures Valid()
      ensures match RotateKey(old(db), licenseId, newKey, now)
              case Ok(done) => db == done.0 && r == Ok(done.1)
              case Err(e) => db == old(db) && r == Err(e)
    {
      var tx := new Tx(db, pageCap);
      if licenseId !in tx.licenses {
        return Err(LicenseNotFound);
      }
      var license := tx.licenses[licenseId];
      if license.status.Revoked? {
        return Err(LicenseRevoked);
      }
      if KeyTaken(tx.licenses, licenseId, newKey) {
        return Err(LicenseKeyConflict);
      }
      tx.licenses := tx.licenses[licenseId := license.(key := newKey)];
      var revoked := tx.ReleaseAllSeats(licenseId, now);
      tx.AppendAudit(licenseId, KeyRotated(|revoked|), now);
      db := tx.State();
      return Ok(revoked);
    }

    // Collect first, revoke after, each seat in a transaction of its own.
    // A non-positive duration is refused outright.
    method SweepInactiveUsages(licenseId: Option<Id>, inactiveFor: int, dryRun: bool, now: Instant)
      returns (ok: bool, stale: seq<Id>, revoked: seq<Id>)
      requires Valid()
      modifies this
      ensures Valid()
      ensures ok <==> inactiveFor > 0
      ensures !ok ==> db == old(db) && stale == revoked == []
      ensures ok ==> stale == StaleSeats(old(db), licenseId, now - inactiveFor)
      ensures ok && dryRun ==> db == old(db) && revoked == []
      ensures ok && !dryRun ==> db == SweepInactive(old(db), licenseId, now - inactiveFor, now) && revoked == stale
    {
      if inactiveFor <= 0 {
        return false, [], [];
      }
      var tx := new Tx(db, pageCap);
      var scanned: nat;
      ok, revoked := true, [];
      stale, scanned := tx.CollectStale(licenseId, now - inactiveFor);
      if dryRun {
        return;
      }
      StaleAreRows(db, licenseId, now - inactiveFor);
      revoked := RevokeStale(stale, now);
    }

    // The loop over the collected seats.
    method RevokeStale(stale: seq<Id>, now: Instant) returns (revoked: seq<Id>)
      requires Valid() && forall id :: id in stale ==> Row(db.usages, id).Some?
      modifies this
      ensures Valid() && revoked == stale
      ensures db == RevokeAll(old(db), stale, now)
    {
      hide Seats.RevokeUsage, Row;
      revoked := [];
      assert stale[0..] == stale;
      for i := 0 to |stale|
        invariant Valid() && revoked == stale[..i]
        invariant forall id :: id in stale ==> Row(db.usages, id).Some?
        invariant RevokeAll(db, stale[i..], now) == RevokeAll(old(db), stale, now)
      {
        ghost var before := db;
        assert stale[i] in stale;
        RevokeAllStep(before, stale, i, now);
        var r := RevokeUsage(stale[i], now);
        RevokeKeepsRows(before, stale[i], now);
        revoked := revoked + [stale[i]];
      }
      assert stale[..|stale|] == stale && stale[|stale|..] == [];
    }
  }

  // ---------- steps of the loops ----------

  lemma RevokeAllStep(db: Db, ids: seq<Id>, i: nat, now: Instant)
    requires i < |ids| && Row(db.usages, ids[i]).Some?
    ensures Seats.RevokeUsage(db, ids[i], now).Ok?
    ensures RevokeAll(db, ids[i..], now) == RevokeAll(Seats.RevokeUsage(db, ids[i], now).value, ids[i + 1..], now)
  {
    assert ids[i..][1..] == ids[i + 1..];
  }

  lemma ReleasedNothing(rows: seq<Usage>, now: Instant)
    ensures Release(rows, {}, now) == rows
  {
  }

  lemma ReleaseMore(rows: seq<Usage>, ids: seq<Id>, id: Id, now: Instant)
    ensures Release(Release(rows, (set x | x in ids), now), {id}, now) == Release(rows, (set x | x in ids + [id]), now)
  {
  }

  lemma IdsOfPrefix(rows: seq<Usage>, n: nat, end: nat)
    requires n <= end <= |rows|
    ensures Ids(rows[..n]) + Ids(rows[n..end]) == Ids(rows[..end])
  {
  }

  // Once the first `n` seats of the listing are released, the listing is the rest of it.
  lemma RestOfSeats(rows: seq<Usage>, licenseId: Id, n: nat, now: Instant)
    requires Paging.DistinctIds(rows)
    requires n <= |Paging.Sort(SeatsOf(rows, licenseId))|
    ensures
      var seats := Paging.Sort(SeatsOf(rows, licenseId));
      var left := Release(rows, (set id | id in Ids(seats[..n])), now);
      Paging.Sort(SeatsOf(left, licenseId)) == seats[n..]
  {
    var seats := Paging.Sort(SeatsOf(rows, licenseId));
    var gone := set id | id in Ids(seats[..n]);
    var left := Release(rows, gone, now);
    ListingFacts(rows, Some(licenseId), None);
    ListingFacts(left, Some(licenseId), None);
    var listed := Paging.Sort(SeatsOf(left, licenseId));
    forall u | u in listed ensures u in seats[n..] {
      LeftIsLater(rows, licenseId, n, now, u);
    }
    forall u | u in seats[n..] ensures u in listed {
      LaterIsLeft(rows, licenseId, n, now, u);
    }
    Paging.OrderedUnique(listed, seats[n..]);
  }

  lemma LeftIsLater(rows: seq<Usage>, licenseId: Id, n: nat, now: Instant, u: Usage)
    requires Paging.DistinctIds(rows)
    requires n <= |Paging.Sort(SeatsOf(rows, licenseId))|
    requires
      var gone := set id | id in Ids(Paging.Sort(SeatsOf(rows, licenseId))[..n]);
      u in Release(rows, gone, now) && Matches(u, Some(licenseId), None)
    ensures u in Paging.Sort(SeatsOf(rows, licenseId))[n..]
  {
    var seats := Paging.Sort(SeatsOf(rows, licenseId));
    var gone := set id | id in Ids(seats[..n]);
    var left := Release(rows, gone, now);
    var i :| 0 <= i < |left| && left[i] == u;
    assert rows[i] == u && u.id !in gone;
    ListingFacts(rows, Some(licenseId), None);
    assert u in seats;
    hide Release, SeatsOf, Paging.Sort, Matches, Paging.DistinctIds, Paging.Ordered;
    NotAmongFirst(seats, n, u);
  }

  lemma NotAmongFirst(seats: seq<Usage>, n: nat, u: Usage)
    requires n <= |seats| && u in seats && u.id !in Ids(seats[..n])
    ensures u in seats[n..]
  {
    var k :| 0 <= k < |seats| && seats[k] == u;
    assert forall j :: 0 <= j < n ==> Ids(seats[..n])[j] == seats[j].id && seats[j].id in Ids(seats[..n]);
    assert seats[n..][k - n] == u;
  }

  lemma LaterIsLeft(rows: seq<Usage>, licenseId: Id, n: nat, now: Instant, u: Usage)
    requires Paging.DistinctIds(rows)
    requires n <= |Paging.Sort(SeatsOf(rows, licenseId))|
    requires u in Paging.Sort(SeatsOf(rows, licenseId))[n..]
    ensures u in Paging.Sort(SeatsOf(Release(rows, (set id | id in Ids(Paging.Sort(SeatsOf(rows, licenseId))[..n])), now), licenseId))
  {
    var seats := Paging.Sort(SeatsOf(rows, licenseId));
    var gone := set id | id in Ids(seats[..n]);
    var left := Release(rows, gone, now);
    LaterIsNotGone(rows, licenseId, n, u);
    ListingFacts(left, Some(licenseId), None);
    var i :| 0 <= i < |rows| && rows[i] == u;
    assert left[i] == u;
  }

  // The seats of the rest of the listing have ids of their own.
  lemma LaterIsNotGone(rows: seq<Usage>, licenseId: Id, n: nat, u: Usage)
    requires Paging.DistinctIds(rows)
    requires n <= |Paging.Sort(SeatsOf(rows, licenseId))|
    requires u in Paging.Sort(SeatsOf(rows, licenseId))[n..]
    ensures u in rows && Matches(u, Some(licenseId), None)
    ensures u.id !in Ids(Paging.Sort(SeatsOf(rows, licenseId))[..n])
  {
    var seats := Paging.Sort(SeatsOf(rows, licenseId));
    ListingFacts(rows, Some(licenseId), None);
    assert seats == seats[..n] + seats[n..];
    assert u in seats;
    var k :| 0 <= k < |seats[n..]| && seats[n..][k] == u;
    forall j | 0 <= j < n ensures seats[j].id != u.id {
      DistinctPlaces(rows, seats, j, n + k);
    }
  }

  lemma StaleStep(rows: seq<Usage>, i: nat, cutoff: Instant)
    requires i < |rows|
    ensures Stale(rows[i..], cutoff) ==
      (if rows[i].lastSeenAt < cutoff then [rows[i].id] else []) + Stale(rows[i + 1..], cutoff)
  {
    DropDrop(rows, i, 1);
  }

  lemma StaleNothing(cutoff: Instant)
    ensures Stale([], cutoff) == []
  {
  }

  lemma {:induction false} StaleSplit(rows: seq<Usage>, n: nat, cutoff: Instant)
    requires n <= |rows|
    ensures Stale(rows, cutoff) == Stale(rows[..n], cutoff) + Stale(rows[n..], cutoff)
  {
    if n > 0 {
      StaleSplit(rows[1..], n - 1, cutoff);
      assert rows[1..][..n - 1] == rows[..n][1..];
      DropDrop(rows, 1, n - 1);
      var head := if rows[0].lastSeenAt < cutoff then [rows[0].id] else [];
      AppendAssoc(head, Stale(rows[1..][..n - 1], cutoff), Stale(rows[n..], cutoff));
    } else {
      assert rows[0..] == rows;
    }
  }

  // ---------- finding a seat ----------

  lemma ListedOrdered(rows: seq<Usage>, licenseId: Option<Id>, fingerprint: Option<string>)
    requires Paging.DistinctIds(rows)
    ensures Paging.Ordered(Paging.Sort(Listed(rows, licenseId, fingerprint)))
  {
    ListingFacts(rows, licenseId, fingerprint);
  }

  lemma FirstMatch(rows: seq<Usage>, licenseId: Id, fingerprint: string, k: nat)
    requires Paging.DistinctIds(rows)
    requires k < |Paging.Sort(Listed(rows, Some(licenseId), Some(fingerprint)))|
    requires
      var s := Paging.Sort(Listed(rows, Some(licenseId), Some(fingerprint)));
      forall j :: 0 <= j < k ==> s[j].fingerprint != fingerprint
    ensures Existing(rows, licenseId, fingerprint) == Some(Paging.Sort(Listed(rows, Some(licenseId), Some(fingerprint)))[k])
  {
    var s := Paging.Sort(Listed(rows, Some(licenseId), Some(fingerprint)));
    ListingFacts(rows, Some(licenseId), Some(fingerprint));
    assert s[0] in s;
  }

  lemma NoMatch(rows: seq<Usage>, licenseId: Id, fingerprint: string)
    requires Paging.DistinctIds(rows)
    requires
      var s := Paging.Sort(Listed(rows, Some(licenseId), Some(fingerprint)));
      forall j :: 0 <= j < |s| ==> s[j].fingerprint != fingerprint
    ensures Existing(rows, licenseId, fingerprint) == None
  {
    var s := Paging.Sort(Listed(rows, Some(licenseId), Some(fingerprint)));
    assert forall j :: 0 <= j < |s| ==> s[j] in s;
    ListingFacts(rows, Some(licenseId), Some(fingerprint));
  }

  lemma {:induction false} StaleIn(rows: seq<Usage>, cutoff: Instant)
    ensures forall id :: id in Stale(rows, cutoff) ==> exists i :: 0 <= i < |rows| && rows[i].id == id
  {
    if rows != [] {
      StaleIn(rows[1..], cutoff);
      forall id | id in Stale(rows, cutoff) ensures exists i :: 0 <= i < |rows| && rows[i].id == id {
        if id in Stale(rows[1..], cutoff) {
          var i :| 0 <= i < |rows[1..]| && rows[1..][i].id == id;
          assert rows[i + 1].id == id;
        } else {
          assert rows[0].id == id;
        }
      }
    }
  }

  lemma StaleAreRows(db: Db, licenseId: Option<Id>, cutoff: Instant)
    requires Paging.DistinctIds(db.usages)
    ensures forall id :: id in StaleSeats(db, licenseId, cutoff) ==> Row(db.usages, id).Some?
  {
    var rows := Paging.Sort(Listed(db.usages, licenseId, None));
    ListingFacts(db.usages, licenseId, None);
    StaleIn(rows, cutoff);
    forall id | id in StaleSeats(db, licenseId, cutoff) ensures Row(db.usages, id).Some? {
      var i :| 0 <= i < |rows| && rows[i].id == id;
      assert rows[i] in rows;
      RowFound(db.usages, rows[i]);
    }
  }

  lemma {:induction false} ReleaseKeepsRow(rows: seq<Usage>, ids: set<Id>, now: Instant, id: Id)
    ensures Row(Release(rows, ids, now), id).Some? <==> Row(rows, id).Some?
  {
    if rows != [] {
      ReleaseKeepsRow(rows[1..], ids, now, id);
      assert Release(rows, ids, now)[1..] == Release(rows[1..], ids, now);
    }
  }

  lemma RevokeKeepsRows(db: Db, usageId: Id, now: Instant)
    ensures var r := Seats.RevokeUsage(db, usageId, now);
      r.Ok? ==> forall id :: Row(db.usages, id).Some? ==> Row(r.value.usages, id).Some?
  {
    forall id ensures Row(Release(db.usages, {usageId}, now), id).Some? <==> Row(db.usages, id).Some? {
      ReleaseKeepsRow(db.usages, {usageId}, now, id);
    }
  }
}
