// Runs of validation and pruning on one replay ledger.
module Replay {
  import opened Base
  import opened Validate

  datatype LedgerOp = Check(token: Text, now: int) | Prune(now: int)

  type Entries = map<Text, int>

  ghost function StepEntries(o: Options, entries: Entries, op: LedgerOp): Entries {
    match op
    case Check(token, now) => WithLedger(token, o, now, entries).1
    case Prune(now) => Pruned(entries, now)
  }

  // The ledger before the n-th operation of a run.
  ghost function Before(o: Options, ops: seq<LedgerOp>, n: nat): Entries
    requires n <= |ops|
  {
    if n == 0 then map[] else StepEntries(o, Before(o, ops, n - 1), ops[n - 1])
  }

  // What the n-th operation accepted, if it is a validation and it did.
  ghost function AcceptedAt(o: Options, ops: seq<LedgerOp>, n: nat): Option<Accepted>
    requires n < |ops|
  {
    match ops[n]
    case Prune(_) => None
    case Check(token, now) =>
      match WithLedger(token, o, now, Before(o, ops, n)).0
      case Ok(a) => Some(a)
      case Err(_) => None
  }

  ghost predicate Timely(ops: seq<LedgerOp>) {
    forall i, j :: 0 <= i < j < |ops| ==> ops[i].now <= ops[j].now
  }

  // An entry that is gone was pruned, at or after its due time.
  lemma {:induction false} GoneWasPruned(o: Options, ops: seq<LedgerOp>, m: nat, j: nat, jti: Text) returns (k: nat)
    requires m <= j <= |ops|
    requires jti in Before(o, ops, m) && jti !in Before(o, ops, j)
    ensures m <= k < j && ops[k].Prune? && Before(o, ops, m)[jti] <= ops[k].now
    decreases j - m
  {
    var now := Before(o, ops, m);
    var next := Before(o, ops, m + 1);
    if jti in next {
      KeptEntry(o, now, ops[m], jti);
      k := GoneWasPruned(o, ops, m + 1, j, jti);
    } else {
      k := m;
    }
  }

  lemma KeptEntry(o: Options, entries: Entries, op: LedgerOp, jti: Text)
    requires jti in entries && jti in StepEntries(o, entries, op)
    ensures StepEntries(o, entries, op)[jti] == entries[jti]
  {
    hide Checked;
  }

  // A second acceptance of a jti needs a prune in between, no earlier than the first token's
  // due time and no later than the second's: of one token, at the very instant it falls due.
  lemma SecondAcceptance(o: Options, ops: seq<LedgerOp>, i: nat, j: nat) returns (k: nat)
    requires i < j < |ops| && Timely(ops)
    requires AcceptedAt(o, ops, i).Some? && AcceptedAt(o, ops, j).Some?
    requires AcceptedAt(o, ops, i).value.claims.jti == AcceptedAt(o, ops, j).value.claims.jti
    ensures i < k < j && ops[k].Prune?
    ensures AcceptedAt(o, ops, i).value.claims.exp + Skew(o) <= ops[k].now <= ops[j].now
    ensures ops[j].now <= AcceptedAt(o, ops, j).value.claims.exp + Skew(o)
  {
    hide Checked, AcceptedAt, Before, Skew;
    Recorded(o, ops, i);
    NotRecorded(o, ops, j);
    k := GoneWasPruned(o, ops, i + 1, j, AcceptedAt(o, ops, i).value.claims.jti);
    InTime(o, ops[j].token, ops[j].now);
  }

  lemma Recorded(o: Options, ops: seq<LedgerOp>, i: nat)
    requires i < |ops| && AcceptedAt(o, ops, i).Some?
    ensures
      var c := AcceptedAt(o, ops, i).value.claims;
      c.jti in Before(o, ops, i + 1) && Before(o, ops, i + 1)[c.jti] == c.exp + Skew(o)
  {
    hide Checked;
    assert Before(o, ops, i + 1) == StepEntries(o, Before(o, ops, i), ops[i]);
  }

  lemma NotRecorded(o: Options, ops: seq<LedgerOp>, j: nat)
    requires j < |ops| && AcceptedAt(o, ops, j).Some?
    ensures AcceptedAt(o, ops, j).value.claims.jti !in Before(o, ops, j)
    ensures ops[j].Check? && Checked(ops[j].token, o, ops[j].now) == Ok(AcceptedAt(o, ops, j).value)
  {
    hide Checked;
  }

  lemma InTime(o: Options, token: Text, now: int)
    requires Checked(token, o, now).Ok?
    ensures now <= Checked(token, o, now).value.claims.exp + Skew(o)
  {
  }

  // ---------- exactly when ----------

  ghost predicate AcceptedJti(o: Options, ops: seq<LedgerOp>, i: nat, jti: Text)
    requires i < |ops|
  {
    AcceptedAt(o, ops, i).Some? && AcceptedAt(o, ops, i).value.claims.jti == jti
  }

  // Between two operations a prune runs no earlier than an instant.
  ghost predicate PrunedBetween(ops: seq<LedgerOp>, i: nat, j: nat, due: int)
    requires j <= |ops|
  {
    exists k :: i < k < j && ops[k].Prune? && due <= ops[k].now
  }

  // An entry was recorded by an acceptance, and no prune since then was due to remove it.
  lemma {:induction false} Recorder(o: Options, ops: seq<LedgerOp>, n: nat, jti: Text) returns (i: nat)
    requires n <= |ops| && jti in Before(o, ops, n)
    ensures i < n && AcceptedJti(o, ops, i, jti)
    ensures Before(o, ops, n)[jti] == AcceptedAt(o, ops, i).value.claims.exp + Skew(o)
    ensures !PrunedBetween(ops, i, n, Before(o, ops, n)[jti])
    decreases n
  {
    hide Checked, Skew, AcceptedAt;
    var entries := Before(o, ops, n - 1);
    if jti in entries {
      KeptEntry(o, entries, ops[n - 1], jti);
      i := Recorder(o, ops, n - 1, jti);
      KeptUnpruned(o, entries, ops[n - 1], jti);
    } else {
      i := n - 1;
      NewEntry(o, ops, i, jti);
    }
  }

  lemma KeptUnpruned(o: Options, entries: Entries, op: LedgerOp, jti: Text)
    requires jti in entries && jti in StepEntries(o, entries, op)
    ensures op.Prune? ==> op.now < entries[jti]
  {
    hide Checked;
  }

  lemma NewEntry(o: Options, ops: seq<LedgerOp>, i: nat, jti: Text)
    requires i < |ops| && jti !in Before(o, ops, i) && jti in Before(o, ops, i + 1)
    ensures AcceptedJti(o, ops, i, jti)
    ensures Before(o, ops, i + 1)[jti] == AcceptedAt(o, ops, i).value.claims.exp + Skew(o)
  {
    hide Checked, Skew;
    assert Before(o, ops, i + 1) == StepEntries(o, Before(o, ops, i), ops[i]);
  }

  // In any run, a token whose checks pass is accepted if and only if every earlier acceptance of
  // its jti has been followed by a prune at or after what it recorded fell due.
  lemma AcceptedExactly(o: Options, ops: seq<LedgerOp>, j: nat)
    requires j < |ops| && ops[j].Check? && Checked(ops[j].token, o, ops[j].now).Ok?
    ensures
      var jti := Checked(ops[j].token, o, ops[j].now).value.claims.jti;
      AcceptedAt(o, ops, j).Some? <==>
        forall i :: 0 <= i < j && AcceptedJti(o, ops, i, jti) ==>
          PrunedBetween(ops, i, j, AcceptedAt(o, ops, i).value.claims.exp + Skew(o))
  {
    hide Checked, AcceptedAt, Skew, Before;
    var jti := Checked(ops[j].token, o, ops[j].now).value.claims.jti;
    AcceptedUnlessHeld(o, ops, j);
    if jti in Before(o, ops, j) {
      var i := Recorder(o, ops, j, jti);
    } else {
      forall i | 0 <= i < j && AcceptedJti(o, ops, i, jti)
        ensures PrunedBetween(ops, i, j, AcceptedAt(o, ops, i).value.claims.exp + Skew(o))
      {
        Recorded(o, ops, i);
        var k := GoneWasPruned(o, ops, i + 1, j, jti);
      }
    }
  }

  lemma AcceptedUnlessHeld(o: Options, ops: seq<LedgerOp>, j: nat)
    requires j < |ops| && ops[j].Check? && Checked(ops[j].token, o, ops[j].now).Ok?
    ensures AcceptedAt(o, ops, j).Some? <==>
      Checked(ops[j].token, o, ops[j].now).value.claims.jti !in Before(o, ops, j)
  {
    hide Checked;
  }

  // So the token last accepted at one operation is accepted anew at another, its checks
  // passing, if and only if a prune ran in between at the very instant it falls due.
  lemma AcceptedAnewExactly(o: Options, ops: seq<LedgerOp>, i: nat, j: nat)
    requires i < j < |ops| && Timely(ops) && ops[j].Check? && Checked(ops[j].token, o, ops[j].now).Ok?
    requires AcceptedAt(o, ops, i) == Some(Checked(ops[j].token, o, ops[j].now).value)
    requires forall n :: i < n < j ==> !AcceptedJti(o, ops, n, AcceptedAt(o, ops, i).value.claims.jti)
    ensures AcceptedAt(o, ops, j).Some? <==>
      exists k :: i < k < j && ops[k].Prune? && ops[k].now == AcceptedAt(o, ops, i).value.claims.exp + Skew(o)
  {
    hide Checked, AcceptedAt, Skew;
    var c := AcceptedAt(o, ops, i).value.claims;
    InTime(o, ops[j].token, ops[j].now);
    AcceptedExactly(o, ops, j);
    if PrunedBetween(ops, i, j, c.exp + Skew(o)) {
      var k :| i < k < j && ops[k].Prune? && c.exp + Skew(o) <= ops[k].now;
      assert ops[k].now <= ops[j].now;
      forall n | 0 <= n < j && AcceptedJti(o, ops, n, c.jti)
        ensures PrunedBetween(ops, n, j, AcceptedAt(o, ops, n).value.claims.exp + Skew(o))
      {
        if n < i {
          Again(o, ops, n, i);
        }
      }
    }
  }

  // An earlier acceptance already pruned stays so.
  lemma Again(o: Options, ops: seq<LedgerOp>, n: nat, i: nat)
    requires n < i < |ops| && AcceptedAt(o, ops, n).Some? && AcceptedAt(o, ops, i).Some?
    requires AcceptedAt(o, ops, n).value.claims.jti == AcceptedAt(o, ops, i).value.claims.jti
    ensures PrunedBetween(ops, n, i, AcceptedAt(o, ops, n).value.claims.exp + Skew(o))
  {
    hide Checked, AcceptedAt, Skew;
    Recorded(o, ops, n);
    NotRecorded(o, ops, i);
    var k := GoneWasPruned(o, ops, n + 1, i, AcceptedAt(o, ops, n).value.claims.jti);
  }

  // So with no validation at the instant of an earlier prune, a token is accepted at most once.
  lemma AtMostOnce(o: Options, ops: seq<LedgerOp>, i: nat, j: nat)
    requires i < j < |ops| && Timely(ops)
    requires forall k :: 0 <= k < j && ops[k].Prune? ==> ops[k].now != ops[j].now
    requires AcceptedAt(o, ops, i).Some? && AcceptedAt(o, ops, j).Some?
    requires AcceptedAt(o, ops, i).value.claims.jti == AcceptedAt(o, ops, j).value.claims.jti
    ensures AcceptedAt(o, ops, i).value.claims.exp != AcceptedAt(o, ops, j).value.claims.exp
  {
    if AcceptedAt(o, ops, i).value.claims.exp == AcceptedAt(o, ops, j).value.claims.exp {
      var k := SecondAcceptance(o, ops, i, j);
    }
  }

  // The proviso is needed: any token still valid at the last instant of its skew is accepted,
  // pruned and accepted again within that instant.
  lemma ReplayedAtPrune(o: Options, token: Text, now: int)
    requires Checked(token, o, now).Ok? && now == Checked(token, o, now).value.claims.exp + Skew(o)
    ensures
      var ops := [Check(token, now), Prune(now), Check(token, now)];
      && Timely(ops)
      && AcceptedAt(o, ops, 0) == AcceptedAt(o, ops, 2) == Some(Checked(token, o, now).value)
  {
    hide Checked;
    var ops := [Check(token, now), Prune(now), Check(token, now)];
    var jti := Checked(token, o, now).value.claims.jti;
    assert Before(o, ops, 1) == map[jti := now];
    assert jti !in Before(o, ops, 2);
  }
}
