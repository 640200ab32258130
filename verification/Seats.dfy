// Seats on values: what registering, revoking, sweeping and key rotation make of the
// database (licensing/usage_service.go, licensing/license_service.go). An error leaves the
// database as it was, as the transaction around every service guarantees.
module Seats {
  import opened Base
  import opened Entities
  import Paging
  import Lifecycle

  // ---------- tables ----------

  predicate Matches(u: Usage, licenseId: Option<Id>, fingerprint: Option<string>) {
    && u.status.InUse?
    && (licenseId.Some? ==> u.licenseId == licenseId.value)
    && (fingerprint.Some? ==> u.fingerprint == fingerprint.value)
  }

  // The rows in use that a listing filter selects, in table order.
  function Listed(rows: seq<Usage>, licenseId: Option<Id>, fingerprint: Option<string>): seq<Usage> {
    if rows == [] then []
    else
      (if Matches(rows[0], licenseId, fingerprint) then [rows[0]] else []) +
      Listed(rows[1..], licenseId, fingerprint)
  }

  // The active seats of a license.
  function SeatsOf(rows: seq<Usage>, licenseId: Id): seq<Usage> {
    Listed(rows, Some(licenseId), None)
  }

  function Ids(rows: seq<Usage>): (ids: seq<Id>)
    ensures |ids| == |rows|
    ensures forall i :: 0 <= i < |ids| ==> ids[i] == rows[i].id
  {
    seq(|rows|, i requires 0 <= i < |rows| => rows[i].id)
  }

  function ReleaseRow(u: Usage, now: Instant): Usage {
    u.(status := Released, revokedAt := Some(now))
  }

  // UpdateUsage to revoked, on every row whose id is in `ids`.
  function Release(rows: seq<Usage>, ids: set<Id>, now: Instant): (r: seq<Usage>)
    ensures |r| == |rows|
    ensures forall i :: 0 <= i < |r| ==> r[i] == if rows[i].id in ids then ReleaseRow(rows[i], now) else rows[i]
  {
    seq(|rows|, i requires 0 <= i < |rows| => if rows[i].id in ids then ReleaseRow(rows[i], now) else rows[i])
  }

  function Row(rows: seq<Usage>, id: Id): Option<Usage> {
    if rows == [] then None
    else if rows[0].id == id then Some(rows[0])
    else Row(rows[1..], id)
  }

  function Append(db: Db, licenseId: Id, event: Event, now: Instant): Db {
    db.(audit := db.audit + [AuditRow(licenseId, event, now)])
  }

  // ---------- services ----------

  function AssertUsable(l: License): Option<ServiceError> {
    match l.status
    case Active => None
    case Pending => None
    case Grace => None
    case Suspended => Some(LicenseSuspended)
    case Revoked => Some(LicenseRevoked)
    case Expired => Some(LicenseExpired)
  }

  // findActiveUsage: the first row listed for the license and fingerprint.
  function Existing(rows: seq<Usage>, licenseId: Id, fingerprint: string): Option<Usage> {
    var found := Paging.Sort(Listed(rows, Some(licenseId), Some(fingerprint)));
    if found == [] then None else Some(found[0])
  }

  datatype Registration = Registration(usage: Usage, created: bool)

  function NewUsage(id: Id, licenseId: Id, fingerprint: string, now: Instant): Usage {
    Usage(id, licenseId, fingerprint, InUse, now, None, now, now)
  }

  function Register(db: Db, licenseId: Id, fingerprint: string, newId: Id, now: Instant): Result<(Db, Registration), ServiceError> {
    if licenseId !in db.licenses then Err(LicenseNotFound)
    else
      var l := db.licenses[licenseId];
      var unusable := AssertUsable(l);
      if unusable.Some? then Err(unusable.value)
      else
        var existing := Existing(db.usages, licenseId, fingerprint);
        if existing.Some? then Ok((db, Registration(existing.value, false)))
        else if |SeatsOf(db.usages, licenseId)| >= l.maxUsages then Err(SeatLimitExceeded)
        else
          var usage := NewUsage(newId, licenseId, fingerprint, now);
          var added := Append(db.(usages := db.usages + [usage]), licenseId, UsageRegistered(newId), now);
          if l.status.Pending? then
            var activated :- Transit(added, licenseId, Lifecycle.Activate, now);
            Ok((activated, Registration(usage, true)))
          else Ok((added, Registration(usage, true)))
  }

  function RevokeUsage(db: Db, usageId: Id, now: Instant): Result<Db, ServiceError> {
    match Row(db.usages, usageId)
    case None => Err(UsageNotFound)
    case Some(u) =>
      if u.status.Released? then Ok(db)
      else Ok(Append(db.(usages := Release(db.usages, {usageId}, now)), u.licenseId, UsageRevoked(u.fingerprint), now))
  }

  // The seats a sweep finds stale, in listing order: last seen before the cutoff.
  function Stale(rows: seq<Usage>, cutoff: Instant): seq<Id> {
    if rows == [] then []
    else (if rows[0].lastSeenAt < cutoff then [rows[0].id] else []) + Stale(rows[1..], cutoff)
  }

  // The transactions of a sweep, one per stale seat.
  function RevokeAll(db: Db, ids: seq<Id>, now: Instant): Db
    decreases ids
  {
    if ids == [] then db
    else
      var revoked := RevokeUsage(db, ids[0], now);
      if revoked.Err? then db else RevokeAll(revoked.value, ids[1..], now)
  }

  function StaleSeats(db: Db, licenseId: Option<Id>, cutoff: Instant): seq<Id> {
    Stale(Paging.Sort(Listed(db.usages, licenseId, None)), cutoff)
  }

  function SweepInactive(db: Db, licenseId: Option<Id>, cutoff: Instant, now: Instant): Db {
    RevokeAll(db, StaleSeats(db, licenseId, cutoff), now)
  }

  predicate KeyTaken(licenses: map<Id, License>, licenseId: Id, key: string) {
    exists id :: id in licenses && id != licenseId && licenses[id].key == key
  }

  // RotateLicenseKey: the new database and the seats revoked, in listing order.
  function RotateKey(db: Db, licenseId: Id, newKey: string, now: Instant): Result<(Db, seq<Id>), ServiceError> {
    if licenseId !in db.licenses then Err(LicenseNotFound)
    else if db.licenses[licenseId].status.Revoked? then Err(LicenseRevoked)
    else if KeyTaken(db.licenses, licenseId, newKey) then Err(LicenseKeyConflict)
    else
      var seats := Paging.Sort(SeatsOf(db.usages, licenseId));
      var ids := Ids(seats);
      var rotated := Db(
        db.licenses[licenseId := db.licenses[licenseId].(key := newKey)],
        Release(db.usages, (set id | id in ids), now),
        db.audit);
      Ok((Append(rotated, licenseId, KeyRotated(|ids|), now), ids))
  }

  // A lifecycle transition on a stored license, with its audit row.
  function Transit(db: Db, licenseId: Id, t: Lifecycle.Transition, now: Instant): Result<Db, ServiceError> {
    if licenseId !in db.licenses then Err(LicenseNotFound)
    else
      var prior := db.licenses[licenseId];
      var next :- Lifecycle.Apply(prior, t, now);
      if Lifecycle.Writes(prior, t, now)
      then Ok(Append(db.(licenses := db.licenses[licenseId := next]), licenseId, Transitioned(SnapshotOf(prior), SnapshotOf(next)), now))
      else Ok(db)
  }

  function CreateLicense(db: Db, l: License, now: Instant): Result<Db, ServiceError> {
    if KeyTaken(db.licenses, l.id, l.key) then Err(LicenseKeyConflict)
    else Ok(Append(db.(licenses := db.licenses[l.id := l]), l.id, LicenseCreated(l.status), now))
  }

  // What an administrator may patch without an audit row: limit and dates, never the status.
  datatype Patch = Patch(maxUsages: Option<int>, expiresAt: Option<Option<Instant>>, graceUntil: Option<Option<Instant>>)

  function PatchLicense(db: Db, licenseId: Id, p: Patch): Result<Db, ServiceError> {
    if licenseId !in db.licenses then Err(LicenseNotFound)
    else
      var l := db.licenses[licenseId];
      Ok(db.(licenses := db.licenses[licenseId := l.(
        maxUsages := if p.maxUsages.Some? then p.maxUsages.value else l.maxUsages,
        expiresAt := if p.expiresAt.Some? then p.expiresAt.value else l.expiresAt,
        graceUntil := if p.graceUntil.Some? then p.graceUntil.value else l.graceUntil)]))
  }

  function DeleteLicense(db: Db, licenseId: Id): Result<Db, ServiceError> {
    if licenseId !in db.licenses then Err(LicenseNotFound)
    else if SeatsOf(db.usages, licenseId) != [] then Err(UniqueConstraintViolation)
    else Ok(db.(licenses := db.licenses - {licenseId}))
  }

  // A heartbeat moves a seat's last-seen instant.
  function Heartbeat(db: Db, usageId: Id, now: Instant): (r: Db)
    ensures |r.usages| == |db.usages|
  {
    db.(usages := seq(|db.usages|, i requires 0 <= i < |db.usages| =>
      if db.usages[i].id == usageId then db.usages[i].(lastSeenAt := now) else db.usages[i]))
  }

  // ---------- facts about listings ----------

  lemma {:induction false} ListedElements(rows: seq<Usage>, licenseId: Option<Id>, fingerprint: Option<string>)
    ensures forall u :: u in Listed(rows, licenseId, fingerprint) <==> u in rows && Matches(u, licenseId, fingerprint)
  {
    if rows != [] {
      ListedElements(rows[1..], licenseId, fingerprint);
      assert rows == [rows[0]] + rows[1..];
    }
  }

  lemma {:induction false} ListedDistinct(rows: seq<Usage>, licenseId: Option<Id>, fingerprint: Option<string>)
    requires Paging.DistinctIds(rows)
    ensures Paging.DistinctIds(Listed(rows, licenseId, fingerprint))
  {
    if rows != [] {
      var rest := Listed(rows[1..], licenseId, fingerprint);
      ListedDistinct(rows[1..], licenseId, fingerprint);
      ListedElements(rows[1..], licenseId, fingerprint);
      forall i | 0 <= i < |rest| ensures rest[i].id != rows[0].id {
        assert rest[i] in rows[1..];
        var j :| 0 <= j < |rows[1..]| && rows[1..][j] == rest[i];
        assert rows[j + 1] == rest[i];
      }
    }
  }

  lemma {:induction false} ListedAppend(a: seq<Usage>, b: seq<Usage>, licenseId: Option<Id>, fingerprint: Option<string>)
    ensures Listed(a + b, licenseId, fingerprint) == Listed(a, licenseId, fingerprint) + Listed(b, licenseId, fingerprint)
  {
    hide Matches;
    if a == [] {
      assert a + b == b;
    } else {
      assert (a + b)[1..] == a[1..] + b && (a + b)[0] == a[0];
      ListedAppend(a[1..], b, licenseId, fingerprint);
      var head := if Matches(a[0], licenseId, fingerprint) then [a[0]] else [];
      AppendAssoc(head, Listed(a[1..], licenseId, fingerprint), Listed(b, licenseId, fingerprint));
    }
  }

  // What a page walk lists: ordered, with the elements the filter selects.
  lemma ListingFacts(rows: seq<Usage>, licenseId: Option<Id>, fingerprint: Option<string>)
    requires Paging.DistinctIds(rows)
    ensures var s := Paging.Sort(Listed(rows, licenseId, fingerprint));
      && Paging.Ordered(s)
      && (forall u :: u in s <==> u in rows && Matches(u, licenseId, fingerprint))
  {
    ListedElements(rows, licenseId, fingerprint);
    ListedDistinct(rows, licenseId, fingerprint);
    Paging.SortElements(Listed(rows, licenseId, fingerprint));
    Paging.SortOrdered(Listed(rows, licenseId, fingerprint));
  }

  lemma SameRow(rows: seq<Usage>, a: Usage, b: Usage)
    requires Paging.DistinctIds(rows) && a in rows && b in rows && a.id == b.id
    ensures a == b
  {
    var i :| 0 <= i < |rows| && rows[i] == a;
    var j :| 0 <= j < |rows| && rows[j] == b;
  }

  lemma DistinctPlaces(rows: seq<Usage>, seats: seq<Usage>, i: nat, j: nat)
    requires Paging.DistinctIds(rows) && Paging.Ordered(seats) && (forall u :: u in seats ==> u in rows)
    requires i < j < |seats|
    ensures seats[i].id != seats[j].id
  {
    Paging.OneOrder(seats[i], seats[j], seats[i]);
    assert Paging.Precedes(seats[i], seats[j]);
    assert seats[i] in rows && seats[j] in rows;
    var a :| 0 <= a < |rows| && rows[a] == seats[i];
    var b :| 0 <= b < |rows| && rows[b] == seats[j];
  }

  lemma {:induction false} RowFound(rows: seq<Usage>, u: Usage)
    requires Paging.DistinctIds(rows) && u in rows
    ensures Row(rows, u.id) == Some(u)
  {
    if rows[0] == u {
    } else {
      var i :| 0 <= i < |rows| && rows[i] == u;
      assert rows[1..][i - 1] == u;
      RowFound(rows[1..], u);
    }
  }

  lemma {:induction false} RowIn(rows: seq<Usage>, id: Id)
    ensures Row(rows, id).Some? ==> Row(rows, id).value in rows && Row(rows, id).value.id == id
  {
    if rows != [] && rows[0].id != id {
      RowIn(rows[1..], id);
    }
  }
}
