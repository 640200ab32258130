// The rows the licensing services work on, and the database they live in. Identifiers and
// instants are modelled by their order alone.
module Entities {
  import opened Base

  type Id = int
  type Instant = int

  datatype LicenseStatus = Pending | Active | Suspended | Grace | Expired | Revoked

  datatype License = License(
    id: Id,
    key: string,
    status: LicenseStatus,
    maxUsages: int,
    activatedAt: Option<Instant>,
    expiresAt: Option<Instant>,
    graceUntil: Option<Instant>)

  datatype UsageStatus = InUse | Released

  // A seat: one device registered against a license.
  datatype Usage = Usage(
    id: Id,
    licenseId: Id,
    fingerprint: string,
    status: UsageStatus,
    registeredAt: Instant,
    revokedAt: Option<Instant>,
    lastSeenAt: Instant,
    createdAt: Instant)

  // What an audit row records of a license before and after a transition.
  datatype Snapshot = Snapshot(
    status: LicenseStatus,
    activatedAt: Option<Instant>,
    expiresAt: Option<Instant>,
    graceUntil: Option<Instant>)

  datatype Event =
    | LicenseCreated(status: LicenseStatus)
    | Transitioned(prior: Snapshot, next: Snapshot)
    | KeyRotated(usagesRevoked: nat)
    | UsageRegistered(usageId: Id)
    | UsageRevoked(fingerprint: string)

  datatype AuditRow = AuditRow(licenseId: Id, event: Event, occurredAt: Instant)

  // Rows of a table come in no particular order; listings sort them.
  datatype Db = Db(licenses: map<Id, License>, usages: seq<Usage>, audit: seq<AuditRow>)

  datatype ServiceError =
    | LicenseNotFound
    | LicenseRevoked
    | LicenseSuspended
    | LicenseExpired
    | SeatLimitExceeded
    | UsageNotFound
    | LicenseKeyConflict
    | UniqueConstraintViolation
    | IllegalTransition(from: LicenseStatus, to: LicenseStatus)

  function SnapshotOf(l: License): Snapshot {
    Snapshot(l.status, l.activatedAt, l.expiresAt, l.graceUntil)
  }
}
