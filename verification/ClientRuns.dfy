// Runs of one device's client under a clock that never goes back.
module ClientRuns {
  import opened Base
  import opened Client
  import opened Validate

  // Activation stores a token the issuer handed out.
  datatype ClientOp =
    | Activate(now: int, token: Text)
    | RefreshOp(now: int, reply: Reply<Text>, healthy: bool)
    | GuardOp(now: int, later: int, fingerprint: Text, reply: Reply<Text>, healthy: bool)
    | HeartbeatOp(now: int, beat: Reply<()>)

  function EndOf(op: ClientOp): int {
    if op.GuardOp? then op.later else op.now
  }

  ghost function Step(c: Config, s: Stored, op: ClientOp): Stored {
    match op
    case Activate(_, token) => Stored(token, None)
    case RefreshOp(now, reply, healthy) => EasyRefresh(c, s, now, reply, healthy).0
    case GuardOp(now, later, fingerprint, reply, healthy) => GuardResult(c, fingerprint, s, now, later, reply, healthy).0
    case HeartbeatOp(_, beat) => HeartbeatResult(s, beat).0
  }

  ghost function Run(c: Config, s: Stored, ops: seq<ClientOp>): Stored
    decreases |ops|
  {
    if ops == [] then s else Run(c, Step(c, s, ops[0]), ops[1..])
  }

  // Operations in time order, none before `from`.
  predicate Timely(ops: seq<ClientOp>, from: int)
    decreases |ops|
  {
    ops == [] || (from <= ops[0].now <= EndOf(ops[0]) && Timely(ops[1..], EndOf(ops[0])))
  }

  function TimeAfter(ops: seq<ClientOp>, from: int): int
    decreases |ops|
  {
    if ops == [] then from else TimeAfter(ops[1..], EndOf(ops[0]))
  }

  // ---------- the invariant ----------

  // A grace marker stands only beside a token whose online deadline had passed when it was set.
  ghost predicate Marked(c: Config, s: Stored, now: int) {
    s.graceStart.Some? ==>
      && s.token != []
      && Peek(c.verify.trust.codecs, s.token).Ok?
      && var p := Peek(c.verify.trust.codecs, s.token).value;
      && p.forceOnlineAfter.Some? && p.forceOnlineAfter.value <= s.graceStart.value <= now
  }

  lemma RefreshKeepsMarked(c: Config, s: Stored, now: int, reply: Reply<Text>, healthy: bool, before: int)
    requires Marked(c, s, before) && before <= now
    ensures Marked(c, EasyRefresh(c, s, now, reply, healthy).0, now)
  {
    hide Peek, ShouldRefresh;
  }

  lemma StepKeepsMarked(c: Config, s: Stored, op: ClientOp, before: int)
    requires Marked(c, s, before) && before <= op.now <= EndOf(op)
    ensures Marked(c, Step(c, s, op), EndOf(op))
  {
    hide Peek, Checked;
    match op
    case RefreshOp(now, reply, healthy) => RefreshKeepsMarked(c, s, now, reply, healthy, before);
    case GuardOp(now, later, fingerprint, reply, healthy) =>
      RefreshKeepsMarked(c, s, now, reply, healthy, before);
      hide EasyRefresh;
    case _ =>
  }

  lemma {:induction false} RunKeepsMarked(c: Config, s: Stored, ops: seq<ClientOp>, from: int)
    requires Marked(c, s, from) && Timely(ops, from)
    ensures Marked(c, Run(c, s, ops), TimeAfter(ops, from))
    decreases |ops|
  {
    hide Marked, Step;
    if ops != [] {
      StepKeepsMarked(c, s, ops[0], from);
      RunKeepsMarked(c, Step(c, s, ops[0]), ops[1..], EndOf(ops[0]));
    }
  }

  // ---------- the marker between two issuer replies ----------

  // The operations in which the issuer is heard from: an activation, a refresh that is
  // answered, a heartbeat answered or turned away for good.
  predicate IssuerHeard(op: ClientOp) {
    match op
    case Activate(_, _) => true
    case RefreshOp(_, reply, _) => reply.Answered?
    case GuardOp(_, _, _, reply, _) => reply.Answered?
    case HeartbeatOp(_, beat) => beat.Answered? || beat.e == LicenseRevoked || beat.e == LicenseSuspended
  }

  // Until the issuer is heard from, a marker once set does not move, and the token stays.
  lemma StepKeepsMarker(c: Config, s: Stored, op: ClientOp)
    requires !IssuerHeard(op)
    ensures Step(c, s, op).token == s.token
    ensures s.graceStart.Some? ==> Step(c, s, op) == s
    ensures s.graceStart.None? && Step(c, s, op).graceStart.Some? ==> Step(c, s, op).graceStart.value == op.now
  {
    hide Peek, Checked, ShouldRefresh;
  }

  lemma {:induction false} RunKeepsMarker(c: Config, s: Stored, ops: seq<ClientOp>)
    requires s.graceStart.Some? && forall i :: 0 <= i < |ops| ==> !IssuerHeard(ops[i])
    ensures Run(c, s, ops) == s
    decreases |ops|
  {
    hide Step;
    if ops != [] {
      StepKeepsMarker(c, s, ops[0]);
      RunKeepsMarker(c, s, ops[1..]);
    }
  }

  // The state before the n-th operation.
  ghost function StateAt(c: Config, s: Stored, ops: seq<ClientOp>, n: nat): Stored
    requires n <= |ops|
  {
    if n == 0 then s else Step(c, StateAt(c, s, ops, n - 1), ops[n - 1])
  }

  // An operation sets the marker.
  ghost predicate Sets(c: Config, s: Stored, ops: seq<ClientOp>, n: nat)
    requires n < |ops|
  {
    StateAt(c, s, ops, n + 1).graceStart.Some? && StateAt(c, s, ops, n + 1).graceStart != StateAt(c, s, ops, n).graceStart
  }

  // Between two markers the issuer is heard from.
  lemma SetOnce(c: Config, s: Stored, ops: seq<ClientOp>, i: nat, j: nat) returns (k: nat)
    requires i < j < |ops| && Sets(c, s, ops, i) && Sets(c, s, ops, j)
    ensures i < k <= j && IssuerHeard(ops[k])
  {
    hide Step, IssuerHeard;
    if k0 :| i < k0 <= j && IssuerHeard(ops[k0]) {
      k := k0;
    } else {
      StaysSet(c, s, ops, i + 1, j);
      StepKeepsMarker(c, StateAt(c, s, ops, j), ops[j]);
      assert false;
    }
  }

  lemma {:induction false} StaysSet(c: Config, s: Stored, ops: seq<ClientOp>, m: nat, n: nat)
    requires m <= n <= |ops| && StateAt(c, s, ops, m).graceStart.Some?
    requires forall k :: m <= k < n ==> !IssuerHeard(ops[k])
    ensures StateAt(c, s, ops, n) == StateAt(c, s, ops, m)
    decreases n - m
  {
    hide Step;
    if m < n {
      StepKeepsMarker(c, StateAt(c, s, ops, m), ops[m]);
      StaysSet(c, s, ops, m + 1, n);
    }
  }

  // ---------- when grace is given ----------

  // With a positive window, a refresh gives grace exactly inside it: the outcome's start is the
  // stored marker, or now when it is just being set.
  lemma GraceInWindow(c: Config, s: Stored, now: int, before: int, reply: Reply<Text>, healthy: bool)
    requires c.window > 0 && Marked(c, s, before) && before <= now
    ensures
      var (next, r) := EasyRefresh(c, s, now, reply, healthy);
      r.Ok? && InGrace(r.value) ==>
        && r.value.start <= now < r.value.start + c.window
        && next == Stored(s.token, Some(r.value.start))
        && (r.value.GraceContinued? <==> s.graceStart == Some(r.value.start))
        && (r.value.GraceEntered? ==> s.graceStart.None? && r.value.start == now)
  {
    hide Peek, ShouldRefresh;
  }

  // Once the window has passed, every refresh and guard fails with GraceExpired and leaves the
  // store alone, whatever the issuer would have answered: a refresh no longer asks it.
  lemma ExpiredForGood(c: Config, s: Stored, now: int, before: int, reply: Reply<Text>, healthy: bool,
                       fingerprint: Text, later: int)
    requires c.window > 0 && Marked(c, s, before) && before <= now
    requires s.graceStart.Some? && now >= s.graceStart.value + c.window
    ensures EasyRefresh(c, s, now, reply, healthy) == (s, Err(GraceExpired))
    ensures GuardResult(c, fingerprint, s, now, later, reply, healthy) == (s, Err(GraceExpired))
  {
    hide Peek, Checked;
  }

  // So refreshing and guarding alone never leave that state again.
  lemma {:induction false} ExpiredRun(c: Config, s: Stored, ops: seq<ClientOp>, from: int)
    requires c.window > 0 && Marked(c, s, from) && Timely(ops, from)
    requires s.graceStart.Some? && from >= s.graceStart.value + c.window
    requires forall i :: 0 <= i < |ops| ==> ops[i].RefreshOp? || ops[i].GuardOp?
    ensures Run(c, s, ops) == s
    decreases |ops|
  {
    hide EasyRefresh, GuardResult;
    if ops != [] {
      var op := ops[0];
      assert op.RefreshOp? || op.GuardOp?;
      if op.RefreshOp? {
        ExpiredForGood(c, s, op.now, from, op.reply, op.healthy, [], op.now);
      } else {
        ExpiredForGood(c, s, op.now, from, op.reply, op.healthy, op.fingerprint, op.later);
      }
      hide Marked;
      assert Step(c, s, op) == s;
      MarkedLater(c, s, from, EndOf(op));
      ExpiredRun(c, s, ops[1..], EndOf(op));
    }
  }

  lemma MarkedLater(c: Config, s: Stored, before: int, now: int)
    requires Marked(c, s, before) && before <= now
    ensures Marked(c, s, now)
  {
    hide Peek;
  }

  // With no window at all, no marker is ever set.
  lemma NoWindowNoMarker(c: Config, s: Stored, op: ClientOp)
    requires c.window == 0 && s.graceStart.None?
    ensures Step(c, s, op).graceStart.None?
  {
    hide Peek, Checked, ShouldRefresh;
  }

  // ---------- guard ----------

  // Guard succeeds only before the online deadline of the token it leaves stored.
  lemma GuardBeforeDeadline(c: Config, fingerprint: Text, s: Stored, now: int, later: int, reply: Reply<Text>, healthy: bool)
    requires GuardResult(c, fingerprint, s, now, later, reply, healthy).1.Ok?
    ensures
      var next := GuardResult(c, fingerprint, s, now, later, reply, healthy).0;
      && Peek(c.verify.trust.codecs, next.token).Ok?
      && var p := Peek(c.verify.trust.codecs, next.token).value;
      p.forceOnlineAfter.Some? ==> later < p.forceOnlineAfter.value
  {
    hide EasyRefresh;
    var next := GuardResult(c, fingerprint, s, now, later, reply, healthy).0;
    PeekAgrees(next.token, c.verify.(fingerprint := fingerprint), later);
    CheckedDeadline(next.token, c.verify.(fingerprint := fingerprint), later);
  }

  lemma CheckedDeadline(token: Text, o: Options, now: int)
    requires Checked(token, o, now).Ok?
    ensures
      var d := Checked(token, o, now).value.claims.forceOnlineAfter;
      d.Some? ==> now < d.value
  {
  }

  // Hence in no run does Guard hand out a license while a grace marker stands: the marker says
  // the deadline has passed. The handle is in grace only when the token's status says so.
  lemma GuardNeverInGrace(c: Config, s: Stored, ops: seq<ClientOp>, from: int, fingerprint: Text, now: int, later: int,
                          reply: Reply<Text>, healthy: bool)
    requires Marked(c, s, from) && Timely(ops, from) && TimeAfter(ops, from) <= now <= later
    ensures
      var r := GuardResult(c, fingerprint, Run(c, s, ops), now, later, reply, healthy);
      r.1.Ok? ==>
        && r.0.graceStart.None?
        && r.1.value.graceStartedAt == 0
        && (r.1.value.isInGrace <==> r.1.value.accepted.claims.status == GRACE)
  {
    RunKeepsMarked(c, s, ops, from);
    var t := Run(c, s, ops);
    var r := GuardResult(c, fingerprint, t, now, later, reply, healthy);
    if r.1.Ok? {
      RefreshKeepsMarked(c, t, now, reply, healthy, TimeAfter(ops, from));
      GuardBeforeDeadline(c, fingerprint, t, now, later, reply, healthy);
      hide Peek, Checked, EasyRefresh, Run;
    }
  }
}
