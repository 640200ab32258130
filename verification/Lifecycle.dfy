// The license lifecycle of licensing/lifecycle.go: transitions on one license, and what time
// alone implies.
module Lifecycle {
  import opened Base
  import opened Entities

  // EffectiveStatus: the status a reader sees at an instant, nothing being written.
  function EffectiveStatus(l: License, now: Instant): LicenseStatus {
    if l.status.Revoked? || l.status.Suspended? || l.status.Pending? || l.status.Expired? then l.status
    else if l.expiresAt.Some? && now >= l.expiresAt.value then
      if l.graceUntil.Some? && now < l.graceUntil.value then Grace else Expired
    else l.status
  }

  datatype Transition =
    | Activate
    | Suspend
    | Resume
    | Revoke
    | Expire
    | Renew(expiresAt: Option<Instant>, graceUntil: Option<Option<Instant>>)
    | Tick

  // The license after a transition, the same one when nothing is to be done, or the error.
  function Apply(l: License, t: Transition, now: Instant): Result<License, ServiceError> {
    match t
    case Activate =>
      if l.status.Revoked? then Err(LicenseRevoked)
      else if l.status.Active? then Ok(l)
      else if !l.status.Pending? then Err(IllegalTransition(l.status, Active))
      else Ok(l.(status := Active, activatedAt := Some(now)))
    case Suspend =>
      if l.status.Revoked? then Err(LicenseRevoked)
      else if l.status.Suspended? then Ok(l)
      else Ok(l.(status := Suspended))
    case Resume =>
      if l.status.Revoked? then Err(LicenseRevoked)
      else if !l.status.Suspended? then Err(IllegalTransition(l.status, Active))
      else Ok(l.(status := Active))
    case Revoke => Ok(l.(status := Revoked))
    case Expire =>
      if l.status.Revoked? then Err(LicenseRevoked)
      else if l.status.Expired? then Ok(l)
      else if l.status.Suspended? || l.status.Pending? then Err(IllegalTransition(l.status, Expired))
      else Ok(l.(status := Expired))
    case Renew(expiresAt, graceUntil) =>
      if l.status.Revoked? then Err(LicenseRevoked)
      else if l.status.Suspended? then Err(IllegalTransition(l.status, Active))
      else Ok(l.(status := Active, expiresAt := expiresAt,
                 graceUntil := if graceUntil.Some? then graceUntil.value else l.graceUntil))
    case Tick =>
      var target := EffectiveStatus(l, now);
      if target.Grace? || target.Expired? then Ok(l.(status := target)) else Ok(l)
  }

  // Whether a successful transition writes the license and an audit row.
  predicate Writes(l: License, t: Transition, now: Instant) {
    match t
    case Activate => !l.status.Active?
    case Suspend => !l.status.Suspended?
    case Resume => true
    case Revoke => !l.status.Revoked?
    case Expire => !l.status.Expired?
    case Renew(_, _) => true
    case Tick => EffectiveStatus(l, now) != l.status
  }

  // ---------- sweeps are invisible ----------

  // The license after a sequence of ticks.
  function Ticks(l: License, times: seq<Instant>): License
    decreases times
  {
    if times == [] then l
    else
      var ticked := Apply(l, Tick, times[0]);
      if ticked.Ok? then Ticks(ticked.value, times[1..]) else l
  }

  lemma TickIsInvisible(l: License, now: Instant, later: Instant)
    requires now <= later
    ensures Apply(l, Tick, now).Ok?
    ensures EffectiveStatus(Apply(l, Tick, now).value, later) == EffectiveStatus(l, later)
  {
  }

  // However often and in whatever order sweeps ran before, a reader sees the same status.
  lemma {:induction false} SweepsAreInvisible(l: License, times: seq<Instant>, later: Instant)
    requires forall i :: 0 <= i < |times| ==> times[i] <= later
    ensures EffectiveStatus(Ticks(l, times), later) == EffectiveStatus(l, later)
    decreases times
  {
    if times != [] {
      TickIsInvisible(l, times[0], later);
      SweepsAreInvisible(Apply(l, Tick, times[0]).value, times[1..], later);
    }
  }

  // A sweep at a later instant than the reader's would show, so the bound on times matters.
  lemma LaterSweepIsVisible()
    ensures
      var l := License(0, "k", Active, 1, None, Some(10), None);
      EffectiveStatus(Ticks(l, [10]), 5) == Expired && EffectiveStatus(l, 5) == Active
  {
    var l := License(0, "k", Active, 1, None, Some(10), None);
    assert [10][1..] == [];
    assert Ticks(l, [10]) == Ticks(l.(status := Expired), []);
  }

  // Nothing leaves the revoked status, and revoked licenses are never written.
  lemma RevokedIsAbsorbing(l: License, t: Transition, now: Instant)
    requires l.status.Revoked?
    ensures Apply(l, t, now).Ok? ==> Apply(l, t, now).value == l && !Writes(l, t, now)
    ensures EffectiveStatus(l, now).Revoked?
  {
  }

  // A transition that writes nothing leaves the license as it was.
  lemma NoWriteNoChange(l: License, t: Transition, now: Instant)
    requires Apply(l, t, now).Ok? && !Writes(l, t, now)
    ensures Apply(l, t, now).value == l
  {
  }

  // ---------- the documented edges ----------

  // The states each transition is documented to start from, its no-ops included.
  predicate Documented(s: LicenseStatus, t: Transition) {
    match t
    case Activate => s.Pending? || s.Active?
    case Suspend => s.Active? || s.Suspended?
    case Resume => s.Suspended?
    case Revoke => true
    case Expire => s.Active? || s.Grace? || s.Expired?
    case Renew(_, _) => s.Expired? || s.Active? || s.Grace?
    case Tick => true
  }

  // Every transition accepts its documented states. Beyond them only two accept anything:
  // Suspend a pending, grace or expired license, and Renew a pending one.
  lemma AcceptsExactly(l: License, t: Transition, now: Instant)
    ensures Apply(l, t, now).Ok? <==>
      || Documented(l.status, t)
      || (t.Suspend? && (l.status.Pending? || l.status.Grace? || l.status.Expired?))
      || (t.Renew? && l.status.Pending?)
    ensures Apply(l, Suspend, now).Ok? <==> !l.status.Revoked?
    ensures t.Renew? ==> (Apply(l, t, now).Ok? <==> !l.status.Revoked? && !l.status.Suspended?)
  {
  }

  // So two of the undocumented steps bypass activation: a pending license that is renewed, or
  // suspended and resumed, is active with no instant of activation, and Activate then leaves
  // it so.
  lemma PendingBypassesActivation(l: License, renewal: Transition, now: Instant)
    requires l.status.Pending? && renewal.Renew?
    ensures !Documented(l.status, Suspend) && !Documented(l.status, renewal)
    ensures
      var renewed := Apply(l, renewal, now).value;
      && renewed.status.Active? && renewed.activatedAt == l.activatedAt
      && Apply(renewed, Activate, now) == Ok(renewed)
    ensures
      var resumed := Apply(Apply(l, Suspend, now).value, Resume, now).value;
      && resumed == l.(status := Active)
      && Apply(resumed, Activate, now) == Ok(resumed)
  {
  }

  // And an expired license that is suspended and resumed is stored as active; a reader sees
  // the expiry again exactly when its end date says so.
  lemma ExpiredRevives(l: License, now: Instant, later: Instant)
    requires l.status.Expired?
    ensures
      var revived := Apply(Apply(l, Suspend, now).value, Resume, now).value;
      && revived == l.(status := Active)
      && (EffectiveStatus(revived, later).Active? <==> l.expiresAt.None? || later < l.expiresAt.value)
  {
  }
}
