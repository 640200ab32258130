// What holds of seats, licenses and the audit log after every run of the services.
module SeatLedger {
  import opened Base
  import opened Entities
  import opened Seats
  import Paging
  import Lifecycle

  datatype Op =
    | Create(l: License)
    | RegisterSeat(licenseId: Id, fingerprint: string, newId: Id)
    | RevokeSeat(usageId: Id)
    | Sweep(scope: Option<Id>, inactiveFor: nat)
    | Rotate(licenseId: Id, newKey: string)
    | Beat(usageId: Id)
    | Move(licenseId: Id, t: Lifecycle.Transition)
    | Edit(licenseId: Id, p: Patch)
    | Delete(licenseId: Id)

  function Committed(db: Db, r: Result<Db, ServiceError>): Db {
    if r.Ok? then r.value else db
  }

  // One service call; an error leaves the database as it was.
  function Step(db: Db, op: Op, now: Instant): Db {
    match op
    case Create(l) => Committed(db, CreateLicense(db, l, now))
    case RegisterSeat(licenseId, fingerprint, newId) =>
      var r := Register(db, licenseId, fingerprint, newId, now);
      if r.Ok? then r.value.0 else db
    case RevokeSeat(usageId) => Committed(db, RevokeUsage(db, usageId, now))
    case Sweep(scope, inactiveFor) => SweepInactive(db, scope, now - inactiveFor, now)
    case Rotate(licenseId, newKey) =>
      var r := RotateKey(db, licenseId, newKey, now);
      if r.Ok? then r.value.0 else db
    case Beat(usageId) => Heartbeat(db, usageId, now)
    case Move(licenseId, t) => Committed(db, Transit(db, licenseId, t, now))
    case Edit(licenseId, p) => Committed(db, PatchLicense(db, licenseId, p))
    case Delete(licenseId) => Committed(db, DeleteLicense(db, licenseId))
  }

  // New identifiers are new: they name nothing in the database yet.
  ghost predicate FreshIds(db: Db, op: Op) {
    match op
    case Create(l) =>
      && l.id !in db.licenses
      && (forall i :: 0 <= i < |db.usages| ==> db.usages[i].licenseId != l.id)
      && (forall i :: 0 <= i < |db.audit| ==> db.audit[i].licenseId != l.id)
    case RegisterSeat(_, _, newId) => forall i :: 0 <= i < |db.usages| ==> db.usages[i].id != newId
    case _ => true
  }

  datatype Call = Call(op: Op, now: Instant)

  ghost predicate RunOk(db: Db, calls: seq<Call>)
    decreases calls
  {
    calls != [] ==> FreshIds(db, calls[0].op) && RunOk(Step(db, calls[0].op, calls[0].now), calls[1..])
  }

  function Run(db: Db, calls: seq<Call>): Db
    decreases calls
  {
    if calls == [] then db else Run(Step(db, calls[0].op, calls[0].now), calls[1..])
  }

  const EMPTY := Db(map[], [], [])

  // ---------- reading the ledger ----------

  // `usage.registered` and `usage.revoked` rows of a license, and the sum of usages_revoked
  // over its `license.key_rotated` rows.
  datatype Tally = Tally(registered: nat, revoked: nat, rotatedAway: nat)

  function TallyOf(audit: seq<AuditRow>, licenseId: Id): Tally {
    if audit == [] then Tally(0, 0, 0)
    else
      var t := TallyOf(audit[..|audit| - 1], licenseId);
      var row := audit[|audit| - 1];
      if row.licenseId != licenseId then t
      else
        match row.event
        case UsageRegistered(_) => t.(registered := t.registered + 1)
        case UsageRevoked(_) => t.(revoked := t.revoked + 1)
        case KeyRotated(n) => t.(rotatedAway := t.rotatedAway + n)
        case _ => t
  }

  ghost predicate BalancedFor(db: Db, licenseId: Id) {
    var t := TallyOf(db.audit, licenseId);
    |SeatsOf(db.usages, licenseId)| == t.registered - t.revoked - t.rotatedAway
  }

  ghost predicate Balanced(db: Db) {
    forall l :: BalancedFor(db, l)
  }

  // No two active seats of one license share a fingerprint.
  ghost predicate OneSeatPerDevice(rows: seq<Usage>) {
    forall i, j :: 0 <= i < j < |rows| && rows[i].status.InUse? && rows[j].status.InUse?
      ==> rows[i].licenseId != rows[j].licenseId || rows[i].fingerprint != rows[j].fingerprint
  }

  // The status the audit log last recorded for a license.
  function LastStatus(audit: seq<AuditRow>, licenseId: Id): Option<LicenseStatus> {
    if audit == [] then None
    else
      var row := audit[|audit| - 1];
      if row.licenseId == licenseId && row.event.LicenseCreated? then Some(row.event.status)
      else if row.licenseId == licenseId && row.event.Transitioned? then Some(row.event.next.status)
      else LastStatus(audit[..|audit| - 1], licenseId)
  }

  // Every lifecycle row starts from the status the row before it ended in; the first row is
  // the creation.
  ghost predicate Chained(audit: seq<AuditRow>) {
    forall i :: 0 <= i < |audit| ==>
      && (audit[i].event.LicenseCreated? ==> LastStatus(audit[..i], audit[i].licenseId) == None)
      && (audit[i].event.Transitioned? ==>
          LastStatus(audit[..i], audit[i].licenseId) == Some(audit[i].event.prior.status))
  }

  ghost predicate StatusRecorded(db: Db) {
    forall id :: id in db.licenses ==> LastStatus(db.audit, id) == Some(db.licenses[id].status)
  }

  ghost predicate Valid(db: Db) {
    && Paging.DistinctIds(db.usages)
    && Balanced(db)
    && OneSeatPerDevice(db.usages)
    && Chained(db.audit)
    && StatusRecorded(db)
  }

  // ---------- appending to the log ----------

  lemma LogGrows(audit: seq<AuditRow>, row: AuditRow, licenseId: Id)
    ensures (audit + [row])[..|audit|] == audit
    ensures TallyOf(audit + [row], licenseId) ==
      var t := TallyOf(audit, licenseId);
      if row.licenseId != licenseId then t
      else
        match row.event
        case UsageRegistered(_) => t.(registered := t.registered + 1)
        case UsageRevoked(_) => t.(revoked := t.revoked + 1)
        case KeyRotated(n) => t.(rotatedAway := t.rotatedAway + n)
        case _ => t
    ensures LastStatus(audit + [row], licenseId) ==
      if row.licenseId == licenseId && row.event.LicenseCreated? then Some(row.event.status)
      else if row.licenseId == licenseId && row.event.Transitioned? then Some(row.event.next.status)
      else LastStatus(audit, licenseId)
  {
    assert (audit + [row])[..|audit|] == audit;
  }

  lemma ChainGrows(audit: seq<AuditRow>, row: AuditRow)
    requires Chained(audit)
    requires row.event.LicenseCreated? ==> LastStatus(audit, row.licenseId) == None
    requires row.event.Transitioned? ==> LastStatus(audit, row.licenseId) == Some(row.event.prior.status)
    ensures Chained(audit + [row])
  {
    var all := audit + [row];
    forall i | 0 <= i < |all| ensures all[..i] == if i < |audit| then audit[..i] else audit {
    }
  }

  // A row that is not a lifecycle row leaves the recorded statuses as they are.
  lemma OtherRow(db: Db, licenses: map<Id, License>, usages: seq<Usage>, row: AuditRow)
    requires Chained(db.audit) && StatusRecorded(db)
    requires !row.event.LicenseCreated? && !row.event.Transitioned?
    requires forall id :: id in licenses ==> id in db.licenses && licenses[id].status == db.licenses[id].status
    ensures Chained(db.audit + [row])
    ensures StatusRecorded(Db(licenses, usages, db.audit + [row]))
  {
    ChainGrows(db.audit, row);
    forall id | id in licenses ensures LastStatus(db.audit + [row], id) == Some(licenses[id].status) {
      LogGrows(db.audit, row, id);
    }
  }

  lemma {:induction false} NoRowNoStatus(audit: seq<AuditRow>, licenseId: Id)
    requires forall i :: 0 <= i < |audit| ==> audit[i].licenseId != licenseId
    ensures LastStatus(audit, licenseId) == None
  {
    if audit != [] {
      NoRowNoStatus(audit[..|audit| - 1], licenseId);
    }
  }

  // ---------- releasing seats ----------

  function Unreleased(rows: seq<Usage>, ids: set<Id>): seq<Usage> {
    if rows == [] then []
    else (if rows[0].id in ids then [] else [rows[0]]) + Unreleased(rows[1..], ids)
  }

  // The seats left after a release are those whose id was not released.
  lemma {:induction false} ReleaseSeats(rows: seq<Usage>, ids: set<Id>, now: Instant, licenseId: Id)
    ensures SeatsOf(Release(rows, ids, now), licenseId) == Unreleased(SeatsOf(rows, licenseId), ids)
  {
    if rows != [] {
      ReleaseSeats(rows[1..], ids, now, licenseId);
      assert Release(rows, ids, now)[1..] == Release(rows[1..], ids, now);
      var head := if Matches(rows[0], Some(licenseId), None) then [rows[0]] else [];
      var rest := SeatsOf(rows[1..], licenseId);
      assert SeatsOf(rows, licenseId) == head + rest;
      if head == [] {
        assert head + rest == rest;
        assert [] + Unreleased(rest, ids) == Unreleased(rest, ids);
      } else {
        assert (head + rest)[1..] == rest;
      }
    }
  }

  lemma {:induction false} UnreleasedNone(rows: seq<Usage>, ids: set<Id>)
    requires forall i :: 0 <= i < |rows| ==> rows[i].id !in ids
    ensures Unreleased(rows, ids) == rows
  {
    if rows != [] {
      UnreleasedNone(rows[1..], ids);
      assert rows == [rows[0]] + rows[1..];
    }
  }

  lemma {:induction false} UnreleasedAll(rows: seq<Usage>, ids: set<Id>)
    requires forall i :: 0 <= i < |rows| ==> rows[i].id in ids
    ensures Unreleased(rows, ids) == []
  {
    if rows != [] {
      UnreleasedAll(rows[1..], ids);
    }
  }

  lemma {:induction false} UnreleasedOne(rows: seq<Usage>, id: Id)
    requires Paging.DistinctIds(rows)
    ensures |Unreleased(rows, {id})| == |rows| - (if exists i :: 0 <= i < |rows| && rows[i].id == id then 1 else 0)
  {
    if rows != [] {
      UnreleasedOne(rows[1..], id);
      if rows[0].id == id {
        UnreleasedNone(rows[1..], {id});
      } else if exists i :: 0 <= i < |rows| && rows[i].id == id {
        var i :| 0 <= i < |rows| && rows[i].id == id;
        assert rows[1..][i - 1].id == id;
      }
    }
  }

  // Releasing one row in use costs its license exactly one seat, and no other license any.
  lemma ReleaseOne(rows: seq<Usage>, u: Usage, now: Instant, licenseId: Id)
    requires Paging.DistinctIds(rows) && u in rows && u.status.InUse?
    ensures |SeatsOf(Release(rows, {u.id}, now), licenseId)| ==
      |SeatsOf(rows, licenseId)| - (if u.licenseId == licenseId then 1 else 0)
  {
    var seats := SeatsOf(rows, licenseId);
    ReleaseSeats(rows, {u.id}, now, licenseId);
    ListedDistinct(rows, Some(licenseId), None);
    ListedElements(rows, Some(licenseId), None);
    UnreleasedOne(seats, u.id);
    if u.licenseId == licenseId {
      assert u in seats;
      var i :| 0 <= i < |seats| && seats[i] == u;
    } else {
      forall i | 0 <= i < |seats| ensures seats[i].id != u.id {
        assert seats[i] in rows && seats[i] != u;
        var a :| 0 <= a < |rows| && rows[a] == seats[i];
        var b :| 0 <= b < |rows| && rows[b] == u;
      }
    }
  }

  lemma ReleaseKeeps(rows: seq<Usage>, ids: set<Id>, now: Instant)
    ensures Paging.DistinctIds(rows) ==> Paging.DistinctIds(Release(rows, ids, now))
    ensures OneSeatPerDevice(rows) ==> OneSeatPerDevice(Release(rows, ids, now))
  {
  }

  // ---------- each service keeps what holds ----------

  lemma SameSeats(db: Db, next: Db)
    requires next.usages == db.usages && Balanced(db)
    requires forall l :: TallyOf(next.audit, l) == TallyOf(db.audit, l)
    ensures Balanced(next)
  {
    forall l ensures BalancedFor(next, l) {
      assert BalancedFor(db, l);
    }
  }

  lemma CreateKeeps(db: Db, l: License, now: Instant)
    requires Valid(db) && FreshIds(db, Create(l))
    ensures Valid(Step(db, Create(l), now))
  {
    var next := Step(db, Create(l), now);
    if next != db {
      var row := AuditRow(l.id, LicenseCreated(l.status), now);
      forall id ensures TallyOf(next.audit, id) == TallyOf(db.audit, id) {
        LogGrows(db.audit, row, id);
      }
      SameSeats(db, next);
      NoRowNoStatus(db.audit, l.id);
      ChainGrows(db.audit, row);
      forall id | id in next.licenses ensures LastStatus(next.audit, id) == Some(next.licenses[id].status) {
        LogGrows(db.audit, row, id);
      }
    }
  }

  lemma TransitKeeps(db: Db, licenseId: Id, t: Lifecycle.Transition, now: Instant)
    requires Valid(db)
    ensures Valid(Committed(db, Transit(db, licenseId, t, now)))
  {
    var next := Committed(db, Transit(db, licenseId, t, now));
    if next != db {
      var row := next.audit[|db.audit|];
      assert next.audit == db.audit + [row];
      forall id ensures TallyOf(next.audit, id) == TallyOf(db.audit, id) {
        LogGrows(db.audit, row, id);
      }
      SameSeats(db, next);
      ChainGrows(db.audit, row);
      forall id | id in next.licenses ensures LastStatus(next.audit, id) == Some(next.licenses[id].status) {
        LogGrows(db.audit, row, id);
      }
    }
  }

  // A registration without the activation that may follow it.
  lemma AddSeatKeeps(db: Db, licenseId: Id, fingerprint: string, newId: Id, now: Instant)
    requires Valid(db) && (forall i :: 0 <= i < |db.usages| ==> db.usages[i].id != newId)
    requires Existing(db.usages, licenseId, fingerprint).None?
    ensures
      var usage := NewUsage(newId, licenseId, fingerprint, now);
      Valid(Append(db.(usages := db.usages + [usage]), licenseId, UsageRegistered(newId), now))
  {
    var usage := NewUsage(newId, licenseId, fingerprint, now);
    var row := AuditRow(licenseId, UsageRegistered(newId), now);
    var next := Append(db.(usages := db.usages + [usage]), licenseId, UsageRegistered(newId), now);
    forall l ensures BalancedFor(next, l) {
      assert BalancedFor(db, l);
      LogGrows(db.audit, row, l);
      ListedAppend(db.usages, [usage], Some(l), None);
      assert [usage][1..] == [];
    }
    ListingFacts(db.usages, Some(licenseId), Some(fingerprint));
    forall i | 0 <= i < |db.usages| && db.usages[i].status.InUse? && db.usages[i].licenseId == licenseId
      ensures db.usages[i].fingerprint != fingerprint
    {
      assert db.usages[i] in db.usages;
    }
    OtherRow(db, db.licenses, next.usages, row);
  }

  lemma RegisterKeeps(db: Db, licenseId: Id, fingerprint: string, newId: Id, now: Instant)
    requires Valid(db) && FreshIds(db, RegisterSeat(licenseId, fingerprint, newId))
    ensures Valid(Step(db, RegisterSeat(licenseId, fingerprint, newId), now))
  {
    hide Valid;
    var r := Register(db, licenseId, fingerprint, newId, now);
    if r.Ok? && r.value.1.created {
      AddSeatKeeps(db, licenseId, fingerprint, newId, now);
      var usage := NewUsage(newId, licenseId, fingerprint, now);
      var added := Append(db.(usages := db.usages + [usage]), licenseId, UsageRegistered(newId), now);
      TransitKeeps(added, licenseId, Lifecycle.Activate, now);
    }
  }

  lemma RevokeKeeps(db: Db, usageId: Id, now: Instant)
    requires Valid(db)
    ensures RevokeUsage(db, usageId, now).Ok? ==> Valid(RevokeUsage(db, usageId, now).value)
  {
    var r := RevokeUsage(db, usageId, now);
    RowIn(db.usages, usageId);
    if r.Ok? && r.value != db {
      var u := Row(db.usages, usageId).value;
      var next := r.value;
      var row := AuditRow(u.licenseId, UsageRevoked(u.fingerprint), now);
      forall l ensures BalancedFor(next, l) {
        assert BalancedFor(db, l);
        LogGrows(db.audit, row, l);
        ReleaseOne(db.usages, u, now, l);
      }
      ReleaseKeeps(db.usages, {usageId}, now);
      OtherRow(db, db.licenses, next.usages, row);
    }
  }

  lemma {:induction false} RevokeAllKeeps(db: Db, ids: seq<Id>, now: Instant)
    requires Valid(db)
    ensures Valid(RevokeAll(db, ids, now))
    decreases ids
  {
    if ids != [] {
      RevokeKeeps(db, ids[0], now);
      var r := RevokeUsage(db, ids[0], now);
      if r.Ok? {
        RevokeAllKeeps(r.value, ids[1..], now);
      }
    }
  }

  // The ids a rotation releases are those of the license's seats.
  lemma RotatedIds(rows: seq<Usage>, licenseId: Id)
    requires Paging.DistinctIds(rows)
    ensures
      var ids := Ids(Paging.Sort(SeatsOf(rows, licenseId)));
      && |ids| == |SeatsOf(rows, licenseId)|
      && (forall i, j :: 0 <= i < j < |ids| ==> ids[i] != ids[j])
      && (forall u :: u in rows ==> (u.id in ids <==> Matches(u, Some(licenseId), None)))
  {
    ListingFacts(rows, Some(licenseId), None);
    var seats := Paging.Sort(SeatsOf(rows, licenseId));
    var ids := Ids(seats);
    forall i, j | 0 <= i < j < |ids| ensures ids[i] != ids[j] {
      DistinctPlaces(rows, seats, i, j);
    }
    forall u | u in rows ensures u.id in ids <==> Matches(u, Some(licenseId), None) {
      if Matches(u, Some(licenseId), None) {
        assert u in seats;
        var i :| 0 <= i < |seats| && seats[i] == u;
        assert ids[i] == u.id;
      }
      if u.id in ids {
        var i :| 0 <= i < |ids| && ids[i] == u.id;
        assert seats[i] in seats;
        SameRow(rows, seats[i], u);
      }
    }
  }

  // A rotation leaves its license without seats and every other license as it was.
  lemma RotateSeats(rows: seq<Usage>, licenseId: Id, now: Instant, l: Id)
    requires Paging.DistinctIds(rows)
    ensures
      var ids := Ids(Paging.Sort(SeatsOf(rows, licenseId)));
      SeatsOf(Release(rows, (set id | id in ids), now), l) == if l == licenseId then [] else SeatsOf(rows, l)
  {
    var ids := Ids(Paging.Sort(SeatsOf(rows, licenseId)));
    var released := set id | id in ids;
    var seats := SeatsOf(rows, l);
    RotatedIds(rows, licenseId);
    ReleaseSeats(rows, released, now, l);
    ListedElements(rows, Some(l), None);
    forall i | 0 <= i < |seats| ensures seats[i] in rows && (seats[i].id in released <==> l == licenseId) {
      assert seats[i] in seats;
    }
    if l == licenseId {
      UnreleasedAll(seats, released);
    } else {
      UnreleasedNone(seats, released);
    }
  }

  // A rotation revokes every seat active at its start exactly once, and touches no other row.
  lemma RotationIsExact(db: Db, licenseId: Id, newKey: string, now: Instant)
    requires Paging.DistinctIds(db.usages) && RotateKey(db, licenseId, newKey, now).Ok?
    ensures
      var (next, ids) := RotateKey(db, licenseId, newKey, now).value;
      && (forall i, j :: 0 <= i < j < |ids| ==> ids[i] != ids[j])
      && (forall u :: u in db.usages ==> (u.id in ids <==> u.licenseId == licenseId && u.status.InUse?))
      && |next.usages| == |db.usages|
      && (forall i :: 0 <= i < |db.usages| ==>
            next.usages[i] == if db.usages[i].id in ids then ReleaseRow(db.usages[i], now) else db.usages[i])
      && SeatsOf(next.usages, licenseId) == []
  {
    RotatedIds(db.usages, licenseId);
    RotateSeats(db.usages, licenseId, now, licenseId);
  }

  lemma RotateKeeps(db: Db, licenseId: Id, newKey: string, now: Instant)
    requires Valid(db)
    ensures Valid(Step(db, Rotate(licenseId, newKey), now))
  {
    var r := RotateKey(db, licenseId, newKey, now);
    if r.Ok? {
      var next := r.value.0;
      var ids := r.value.1;
      var row := AuditRow(licenseId, KeyRotated(|ids|), now);
      RotatedIds(db.usages, licenseId);
      forall l ensures BalancedFor(next, l) {
        assert BalancedFor(db, l);
        LogGrows(db.audit, row, l);
        RotateSeats(db.usages, licenseId, now, l);
      }
      ReleaseKeeps(db.usages, (set id | id in ids), now);
      OtherRow(db, next.licenses, next.usages, row);
    }
  }

  lemma {:induction false} BeatSeats(rows: seq<Usage>, beaten: seq<Usage>, licenseId: Id)
    requires |rows| == |beaten|
    requires forall i :: 0 <= i < |rows| ==>
      beaten[i].status == rows[i].status && beaten[i].licenseId == rows[i].licenseId && beaten[i].fingerprint == rows[i].fingerprint
    ensures |SeatsOf(beaten, licenseId)| == |SeatsOf(rows, licenseId)|
  {
    if rows != [] {
      BeatSeats(rows[1..], beaten[1..], licenseId);
    }
  }

  lemma BeatKeeps(db: Db, usageId: Id, now: Instant)
    requires Valid(db)
    ensures Valid(Step(db, Beat(usageId), now))
  {
    var next := Step(db, Beat(usageId), now);
    forall l ensures BalancedFor(next, l) {
      assert BalancedFor(db, l);
      BeatSeats(db.usages, next.usages, l);
    }
  }

  lemma EditKeeps(db: Db, licenseId: Id, p: Patch)
    requires Valid(db)
    ensures Valid(Committed(db, PatchLicense(db, licenseId, p)))
    ensures Valid(Committed(db, DeleteLicense(db, licenseId)))
  {
    SameSeats(db, Committed(db, PatchLicense(db, licenseId, p)));
    SameSeats(db, Committed(db, DeleteLicense(db, licenseId)));
  }

  lemma StepKeepsValid(db: Db, op: Op, now: Instant)
    requires Valid(db) && FreshIds(db, op)
    ensures Valid(Step(db, op, now))
  {
    hide Valid;
    match op
    case Create(l) => CreateKeeps(db, l, now);
    case RegisterSeat(licenseId, fingerprint, newId) => RegisterKeeps(db, licenseId, fingerprint, newId, now);
    case RevokeSeat(usageId) => RevokeKeeps(db, usageId, now);
    case Sweep(scope, inactiveFor) => RevokeAllKeeps(db, StaleSeats(db, scope, now - inactiveFor), now);
    case Rotate(licenseId, newKey) => RotateKeeps(db, licenseId, newKey, now);
    case Beat(usageId) => BeatKeeps(db, usageId, now);
    case Move(licenseId, t) => TransitKeeps(db, licenseId, t, now);
    case Edit(licenseId, p) => EditKeeps(db, licenseId, p);
    case Delete(licenseId) => EditKeeps(db, licenseId, Patch(None, None, None));
  }

  // In every run: active seats = registered - revoked - rotated away, one seat per device,
  // and the lifecycle rows of each license chain from its creation to its stored status.
  lemma {:induction false} RunKeepsValid(db: Db, calls: seq<Call>)
    requires Valid(db) && RunOk(db, calls)
    ensures Valid(Run(db, calls))
    decreases calls
  {
    if calls != [] {
      StepKeepsValid(db, calls[0].op, calls[0].now);
      RunKeepsValid(Step(db, calls[0].op, calls[0].now), calls[1..]);
    }
  }

  lemma LedgerBalances(calls: seq<Call>)
    requires RunOk(EMPTY, calls)
    ensures Valid(Run(EMPTY, calls))
  {
    RunKeepsValid(EMPTY, calls);
  }

  // ---------- the seat limit ----------

  ghost function SeatCount(db: Db, licenseId: Id): nat {
    |SeatsOf(db.usages, licenseId)|
  }

  // A license with seats has no more of them than its limit.
  ghost predicate WithinLimit(db: Db, licenseId: Id) {
    licenseId in db.licenses && SeatCount(db, licenseId) > 0 ==>
      SeatCount(db, licenseId) <= db.licenses[licenseId].maxUsages
  }

  lemma RevokeNeverAdds(db: Db, usageId: Id, now: Instant, licenseId: Id)
    requires Paging.DistinctIds(db.usages)
    ensures var r := RevokeUsage(db, usageId, now);
      r.Ok? ==>
        && SeatCount(r.value, licenseId) <= SeatCount(db, licenseId)
        && r.value.licenses == db.licenses
        && Paging.DistinctIds(r.value.usages)
  {
    RowIn(db.usages, usageId);
    var r := RevokeUsage(db, usageId, now);
    if r.Ok? && r.value != db {
      ReleaseOne(db.usages, Row(db.usages, usageId).value, now, licenseId);
      ReleaseKeeps(db.usages, {usageId}, now);
    }
  }

  lemma {:induction false} RevokeAllNeverAdds(db: Db, ids: seq<Id>, now: Instant, licenseId: Id)
    requires Paging.DistinctIds(db.usages)
    ensures SeatCount(RevokeAll(db, ids, now), licenseId) <= SeatCount(db, licenseId)
    ensures RevokeAll(db, ids, now).licenses == db.licenses
    decreases ids
  {
    if ids != [] {
      var r := RevokeUsage(db, ids[0], now);
      RevokeNeverAdds(db, ids[0], now, licenseId);
      if r.Ok? {
        RevokeAllNeverAdds(r.value, ids[1..], now, licenseId);
      }
    }
  }

  lemma RegisterCount(db: Db, licenseId: Id, fingerprint: string, newId: Id, now: Instant, l: Id)
    ensures var r := Register(db, licenseId, fingerprint, newId, now);
      r.Ok? && r.value.1.created ==>
        && SeatCount(r.value.0, l) == SeatCount(db, l) + (if l == licenseId then 1 else 0)
        && (l == licenseId ==> SeatCount(r.value.0, l) <= db.licenses[l].maxUsages)
        && r.value.0.licenses.Keys == db.licenses.Keys
        && (forall id :: id in db.licenses ==> r.value.0.licenses[id].maxUsages == db.licenses[id].maxUsages)
  {
    var r := Register(db, licenseId, fingerprint, newId, now);
    if r.Ok? && r.value.1.created {
      var usage := NewUsage(newId, licenseId, fingerprint, now);
      assert r.value.0.usages == db.usages + [usage];
      ListedAppend(db.usages, [usage], Some(l), None);
      assert [usage][1..] == [];
    }
  }

  // No call ever takes a license above its limit: the count grows only while it is below.
  lemma GrowsOnlyBelowLimit(db: Db, op: Op, now: Instant, l: Id)
    requires Valid(db) && FreshIds(db, op)
    ensures var next := Step(db, op, now);
      SeatCount(next, l) > SeatCount(db, l) ==>
        l in next.licenses && SeatCount(next, l) == SeatCount(db, l) + 1 <= next.licenses[l].maxUsages
  {
    match op
    case RegisterSeat(licenseId, fingerprint, newId) =>
      RegisterCount(db, licenseId, fingerprint, newId, now, l);
    case RevokeSeat(usageId) => RevokeNeverAdds(db, usageId, now, l);
    case Sweep(scope, inactiveFor) => RevokeAllNeverAdds(db, StaleSeats(db, scope, now - inactiveFor), now, l);
    case Rotate(licenseId, newKey) => RotateSeats(db.usages, licenseId, now, l);
    case Beat(usageId) => BeatSeats(db.usages, Step(db, op, now).usages, l);
    case _ =>
  }

  // An edit that lowers a license's limit below the seats it has.
  ghost predicate Lowers(db: Db, op: Op, l: Id) {
    op.Edit? && op.licenseId == l && op.p.maxUsages.Some? && op.p.maxUsages.value < SeatCount(db, l)
  }

  lemma {:induction false} NoSeatsListed(rows: seq<Usage>, l: Id)
    requires forall i :: 0 <= i < |rows| ==> rows[i].licenseId != l
    ensures SeatsOf(rows, l) == []
  {
    if rows != [] {
      NoSeatsListed(rows[1..], l);
    }
  }

  // A step keeps a license within its limit exactly when it does not lower the limit below
  // the seats in use.
  lemma StepKeepsLimit(db: Db, op: Op, now: Instant, l: Id)
    requires Valid(db) && FreshIds(db, op) && WithinLimit(db, l)
    ensures Lowers(db, op, l) && l in db.licenses && SeatCount(db, l) > 0 ==> !WithinLimit(Step(db, op, now), l)
    ensures !Lowers(db, op, l) ==> WithinLimit(Step(db, op, now), l)
  {
    var next := Step(db, op, now);
    GrowsOnlyBelowLimit(db, op, now, l);
    match op
    case Create(c) =>
      if c.id == l {
        NoSeatsListed(db.usages, l);
      }
    case RegisterSeat(licenseId, fingerprint, newId) => RegisterCount(db, licenseId, fingerprint, newId, now, l);
    case RevokeSeat(usageId) => RevokeNeverAdds(db, usageId, now, l);
    case Sweep(scope, inactiveFor) => RevokeAllNeverAdds(db, StaleSeats(db, scope, now - inactiveFor), now, l);
    case _ =>
  }

  ghost predicate NeverLowered(db: Db, calls: seq<Call>, l: Id)
    decreases calls
  {
    calls != [] ==> !Lowers(db, calls[0].op, l) && NeverLowered(Step(db, calls[0].op, calls[0].now), calls[1..], l)
  }

  lemma {:induction false} RunKeepsLimit(db: Db, calls: seq<Call>, l: Id)
    requires Valid(db) && RunOk(db, calls) && NeverLowered(db, calls, l) && WithinLimit(db, l)
    ensures WithinLimit(Run(db, calls), l)
    decreases calls
  {
    if calls != [] {
      StepKeepsValid(db, calls[0].op, calls[0].now);
      StepKeepsLimit(db, calls[0].op, calls[0].now, l);
      RunKeepsLimit(Step(db, calls[0].op, calls[0].now), calls[1..], l);
    }
  }

  // ---------- revoked licenses ----------

  // A revoked license stays revoked through every call but its deletion, and takes no seats.
  lemma RevokedStays(db: Db, op: Op, now: Instant, l: Id)
    requires Valid(db) && FreshIds(db, op) && l in db.licenses && db.licenses[l].status.Revoked?
    requires op != Delete(l)
    ensures l in Step(db, op, now).licenses && Step(db, op, now).licenses[l].status.Revoked?
    ensures SeatCount(Step(db, op, now), l) <= SeatCount(db, l)
  {
    match op
    case RegisterSeat(licenseId, fingerprint, newId) => RegisterCount(db, licenseId, fingerprint, newId, now, l);
    case RevokeSeat(usageId) => RevokeNeverAdds(db, usageId, now, l);
    case Sweep(scope, inactiveFor) => RevokeAllNeverAdds(db, StaleSeats(db, scope, now - inactiveFor), now, l);
    case Rotate(licenseId, newKey) => RotateSeats(db.usages, licenseId, now, l);
    case Beat(usageId) => BeatSeats(db.usages, Step(db, op, now).usages, l);
    case _ =>
  }
}
