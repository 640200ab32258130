// How far the limiter's bound reaches: where the idle time is too short to fill a bucket, a
// key that is never evicted can be let through more often than capacity plus refill allow.
module TokenBucketLimits {
  import opened Base
  import opened TokenBucket
  import opened TokenBucketTheorems

  // ---------- counting by decisions ----------

  function CountAllowed(calls: seq<Call>, decisions: seq<Decision>, key: string): nat
    requires |calls| == |decisions|
  {
    if calls == [] then 0
    else (if calls[0].key == key && decisions[0].Allowed? then 1 else 0) + CountAllowed(calls[1..], decisions[1..], key)
  }

  lemma {:induction false} AllowedCountIs(c: Config, st: State, calls: seq<Call>, key: string)
    ensures |Run(c, st, calls).1| == |calls|
    ensures AllowedCount(c, st, calls, key) == CountAllowed(calls, Run(c, st, calls).1, key)
    decreases calls
  {
    hide Take;
    if calls != [] {
      var (next, d) := Take(c, st, calls[0].key, calls[0].now);
      AllowedCountIs(c, next, calls[1..], key);
      assert Run(c, st, calls).1[1..] == Run(c, next, calls[1..]).1;
    }
  }

  // A key's own calls never evict it.
  lemma {:induction false} OwnCallsNeverEvict(c: Config, st: State, calls: seq<Call>, key: string)
    requires forall i :: 0 <= i < |calls| ==> calls[i].key == key
    ensures NeverEvicted(c, st, calls, key)
    decreases calls
  {
    hide Take, Sweep;
    if calls != [] {
      OwnCallsNeverEvict(c, Take(c, st, key, calls[0].now).0, calls[1..], key);
    }
  }

  // ---------- one caller alone ----------

  const KEY := "k"

  function Lone(tokens: real, lastTick: int, lastSweep: int): State {
    State([Bucket(KEY, tokens, lastTick)], Some(lastSweep))
  }

  // The next call finds no bucket: there is none yet, or the call sweeps it.
  predicate Ready(c: Config, st: State, now: int) {
    || st == INITIAL
    || (&& |st.lru| == 1 && st.lru[0].key == KEY && now - st.lru[0].lastTick > c.IdleTTL()
        && st.lastSweep.Some? && now - st.lastSweep.value >= c.IdleTTL())
  }

  lemma TakeFresh(c: Config, st: State, now: int)
    requires Ready(c, st, now) && c.Capacity() >= 1.0
    ensures Take(c, st, KEY, now) == (Lone(c.Capacity() - 1.0, now, now), Allowed)
  {
    assert DropStale([], now - c.IdleTTL()) == [];
    if st != INITIAL {
      assert st.lru[..0] == [];
      assert DropStale(st.lru, now - c.IdleTTL()) == [];
    }
    assert Sweep(c, st, now) == State([], Some(now));
    var full := Bucket(KEY, c.Capacity(), now);
    assert Touch(c, [], KEY, now) == [full] + [];
    assert [full] + [] == [full] && [full][1..] == [];
    var spent := Bucket(KEY, c.Capacity() - 1.0, now);
    assert Spend(c, [full]) == ([spent] + [], Allowed);
    assert [spent] + [] == [spent];
    assert TakeUnswept(c, [], KEY, now) == ([spent], Allowed);
  }

  lemma TouchLone(c: Config, b: Bucket, now: int)
    requires b.key == KEY
    ensures Touch(c, [b], KEY, now) == [Refilled(c, b, now)]
  {
    hide Refilled;
    assert [b][0].key == KEY;
    assert Without([b], 0) == [];
  }

  lemma SpendLone(c: Config, b: Bucket)
    ensures Spend(c, [b]) ==
      if b.tokens >= 1.0 then ([b.(tokens := b.tokens - 1.0)], Allowed) else ([b], Denied(RetryAfter(c, b.tokens)))
  {
    assert [b][1..] == [];
    var spent := b.(tokens := b.tokens - 1.0);
    assert [spent] + [] == [spent];
  }

  lemma TakeLone(c: Config, tokens: real, t: int, s: int, now: int)
    requires t <= now <= t + c.IdleTTL() && s <= t && 0.0 <= tokens <= c.Capacity()
    ensures
      var level := Min(c.Capacity(), tokens + Accrued(c, now - t));
      var (next, d) := Take(c, Lone(tokens, t, s), KEY, now);
      && (d.Allowed? <==> level >= 1.0)
      && next == Lone(if level >= 1.0 then level - 1.0 else level, now, if now - s < c.IdleTTL() then s else now)
  {
    hide Accrued, Touch, Spend;
    var b := Bucket(KEY, tokens, t);
    assert Sweep(c, Lone(tokens, t, s), now).lru == [b];
    AccruedMonotone(c, 0, 0);
    TouchLone(c, b, now);
    SpendLone(c, Refilled(c, b, now));
  }

  // ---------- runs in sequence ----------

  lemma {:induction false} RunAppends(c: Config, st: State, first: seq<Call>, rest: seq<Call>, key: string)
    ensures Run(c, st, first + rest).0 == Run(c, Run(c, st, first).0, rest).0
    ensures AllowedCount(c, st, first + rest, key)
      == AllowedCount(c, st, first, key) + AllowedCount(c, Run(c, st, first).0, rest, key)
    decreases first
  {
    hide Take;
    if first == [] {
      assert first + rest == rest;
    } else {
      assert (first + rest)[1..] == first[1..] + rest;
      RunAppends(c, Take(c, st, first[0].key, first[0].now).0, first[1..], rest, key);
    }
  }

  lemma RunOne(c: Config, st: State, call: Call)
    requires call.key == KEY
    ensures
      var (next, d) := Take(c, st, KEY, call.now);
      && Run(c, st, [call]).0 == next
      && AllowedCount(c, st, [call], KEY) == if d.Allowed? then 1 else 0
  {
    hide Take;
    var next := Take(c, st, KEY, call.now).0;
    assert [call][1..] == [];
    assert Run(c, next, []).0 == next && AllowedCount(c, next, [], KEY) == 0;
  }

  function Burst(n: nat, now: int): seq<Call> {
    seq(n, _ => Call(KEY, now))
  }

  // As many calls at once as there are whole tokens.
  lemma {:induction false} BurstRuns(c: Config, tokens: real, now: int, n: nat)
    requires n as real <= tokens <= c.Capacity()
    ensures Run(c, Lone(tokens, now, now), Burst(n, now)).0 == Lone(tokens - n as real, now, now)
    ensures AllowedCount(c, Lone(tokens, now, now), Burst(n, now), KEY) == n
    decreases n
  {
    hide Take, Accrued;
    if n > 0 {
      assert Burst(n, now) == [Call(KEY, now)] + Burst(n - 1, now);
      AccruedMonotone(c, 0, 0);
      TakeLone(c, tokens, now, now, now);
      RunOne(c, Lone(tokens, now, now), Call(KEY, now));
      RunAppends(c, Lone(tokens, now, now), [Call(KEY, now)], Burst(n - 1, now), KEY);
      BurstRuns(c, tokens - 1.0, now, n - 1);
      hide Run, AllowedCount;
    }
  }

  // ---------- the smallest case ----------

  // One token, a tenth of a token a second, one second of idle time: of two calls two seconds
  // apart the sweep lets both through, where the unswept limiter denies the second and the
  // bound is 1.2 calls.
  lemma ShortIdleIsVisible()
    ensures
      var c := Config(1.0, 0.1, 0, SECOND);
      var calls := [Call(KEY, 0), Call(KEY, 2 * SECOND)];
      && !IdleFills(c) && Nondecreasing(0, calls) && NeverEvicted(c, INITIAL, calls, KEY)
      && Run(c, INITIAL, calls).1 == [Allowed, Allowed]
      && RunUnswept(c, [], calls).1 == [Allowed, Denied(8)]
      && AllowedCount(c, INITIAL, calls, KEY) == 2
      && c.Capacity() + Seconds(2 * SECOND) * c.Refill() == 1.2
  {
    hide Run, RunUnswept, AllowedCount, NeverEvicted, Take, TakeUnswept;
    var c := Config(1.0, 0.1, 0, SECOND);
    var first, second := Call(KEY, 0), Call(KEY, 2 * SECOND);
    var calls := [first, second];
    SmallestSwept(c);
    SmallestUnswept(c);
    TwoRuns(c, first, second);
    OwnCallsNeverEvict(c, INITIAL, calls, KEY);
    AllowedCountIs(c, INITIAL, calls, KEY);
    BothCounted(first, second);
  }

  lemma BothCounted(first: Call, second: Call)
    requires first.key == KEY && second.key == KEY
    ensures CountAllowed([first, second], [Allowed, Allowed], KEY) == 2
  {
    assert [first, second][1..] == [second] && [Allowed, Allowed][1..] == [Allowed];
    assert CountAllowed([second], [Allowed], KEY) == 1;
  }

  lemma SmallestSwept(c: Config)
    requires c == Config(1.0, 0.1, 0, SECOND)
    ensures Take(c, INITIAL, KEY, 0) == (Lone(0.0, 0, 0), Allowed)
    ensures Take(c, Lone(0.0, 0, 0), KEY, 2 * SECOND).1 == Allowed
  {
    hide Take;
    TakeFresh(c, INITIAL, 0);
    TakeFresh(c, Lone(0.0, 0, 0), 2 * SECOND);
  }

  lemma SmallestUnswept(c: Config)
    requires c == Config(1.0, 0.1, 0, SECOND)
    ensures TakeUnswept(c, [], KEY, 0) == ([Bucket(KEY, 0.0, 0)], Allowed)
    ensures TakeUnswept(c, [Bucket(KEY, 0.0, 0)], KEY, 2 * SECOND).1 == Denied(8)
  {
    var full, empty, later := Bucket(KEY, 1.0, 0), Bucket(KEY, 0.0, 0), Bucket(KEY, 0.2, 2 * SECOND);
    assert Touch(c, [], KEY, 0) == [full] + [];
    assert [full] + [] == [full];
    SpendLone(c, full);
    TouchLone(c, empty, 2 * SECOND);
    assert Accrued(c, 2 * SECOND) == 0.2;
    assert Refilled(c, empty, 2 * SECOND) == later;
    SpendLone(c, later);
    assert Wait(c, 0.2) == 8.0;
    hide Touch, Spend, Refilled;
  }

  lemma TwoRuns(c: Config, first: Call, second: Call)
    ensures
      var (st, d) := Take(c, INITIAL, first.key, first.now);
      Run(c, INITIAL, [first, second]).1 == [d, Take(c, st, second.key, second.now).1]
    ensures
      var (lru, d) := TakeUnswept(c, [], first.key, first.now);
      RunUnswept(c, [], [first, second]).1 == [d, TakeUnswept(c, lru, second.key, second.now).1]
  {
    hide Take, TakeUnswept;
    var calls := [first, second];
    assert calls[1..] == [second] && [second][1..] == [];
    var (st, d) := Take(c, INITIAL, first.key, first.now);
    assert Run(c, st, [second]).1 == [Take(c, st, second.key, second.now).1];
    var (lru, e) := TakeUnswept(c, [], first.key, first.now);
    assert RunUnswept(c, lru, [second]).1 == [TakeUnswept(c, lru, second.key, second.now).1];
  }

  // ---------- a cycle: empty a full bucket, wait until it is swept ----------

  function Whole(c: Config): (n: nat)
    ensures n as real <= c.Capacity() < n as real + 1.0
  {
    c.Capacity().Floor
  }

  // What a burst leaves of a full bucket.
  function Left(c: Config): real {
    c.Capacity() - Whole(c) as real
  }

  // The nanoseconds until that is a token again.
  function Top(c: Config): int {
    Ceiling(Wait(c, Left(c)) * SECOND as real)
  }

  lemma TopIsLeast(c: Config)
    ensures Top(c) >= 1
    ensures Accrued(c, Top(c)) >= 1.0 - Left(c) > Accrued(c, Top(c) - 1)
  {
    LeastWait(c, Left(c));
  }

  lemma LeastWait(c: Config, tokens: real)
    requires tokens < 1.0
    ensures
      var ns := Ceiling(Wait(c, tokens) * SECOND as real);
      ns >= 1 && Accrued(c, ns) >= 1.0 - tokens > Accrued(c, ns - 1)
  {
    var wait := Wait(c, tokens);
    QuotientTimes(1.0 - tokens, c.Refill());
    var ns := Ceiling(wait * SECOND as real);
    InSeconds(wait, ns);
    AccruedReaches(c, ns, wait, 1.0 - tokens);
    AccruedReaches(c, ns - 1, wait, 1.0 - tokens);
    hide Wait, Ceiling, Seconds, Accrued;
  }

  lemma InSeconds(wait: real, ns: int)
    requires wait > 0.0 && ns == Ceiling(wait * SECOND as real)
    ensures ns >= 1 && Seconds(ns - 1) < wait <= Seconds(ns)
  {
    assert (ns - 1) as real < wait * SECOND as real <= ns as real;
  }

  // The bucket fills to that token before it can be swept, and the token is taken too.
  predicate Topped(c: Config) {
    Top(c) <= c.IdleTTL()
  }

  function Cycle(c: Config, now: int): seq<Call> {
    Burst(Whole(c), now) + if Topped(c) then [Call(KEY, now + Top(c))] else []
  }

  function Last(c: Config): int {
    if Topped(c) then Top(c) else 0
  }

  function PerCycle(c: Config): nat {
    Whole(c) + if Topped(c) then 1 else 0
  }

  // From the last call of a cycle until its bucket is swept.
  function Period(c: Config): (p: int)
    ensures p > Last(c)
  {
    Last(c) + c.IdleTTL() + 1
  }

  lemma BurstFromReady(c: Config, st: State, now: int)
    requires Ready(c, st, now) && c.Capacity() >= 1.0
    ensures Run(c, st, Burst(Whole(c), now)).0 == Lone(Left(c), now, now)
    ensures AllowedCount(c, st, Burst(Whole(c), now), KEY) == Whole(c)
  {
    hide Take, Ready;
    var n := Whole(c);
    assert Burst(n, now) == [Call(KEY, now)] + Burst(n - 1, now);
    TakeFresh(c, st, now);
    RunOne(c, st, Call(KEY, now));
    RunAppends(c, st, [Call(KEY, now)], Burst(n - 1, now), KEY);
    BurstRuns(c, c.Capacity() - 1.0, now, n - 1);
    hide Run, AllowedCount;
  }

  lemma CycleRuns(c: Config, st: State, now: int)
    requires Ready(c, st, now) && c.Capacity() >= 1.0
    ensures AllowedCount(c, st, Cycle(c, now), KEY) == PerCycle(c)
    ensures Ready(c, Run(c, st, Cycle(c, now)).0, now + Period(c))
  {
    hide Take, Accrued, Burst;
    var burst := Burst(Whole(c), now);
    BurstFromReady(c, st, now);
    TopIsLeast(c);
    if Topped(c) {
      var call := Call(KEY, now + Top(c));
      TakeLone(c, Left(c), now, now, call.now);
      RunOne(c, Lone(Left(c), now, now), call);
      RunAppends(c, st, burst, [call], KEY);
      hide Run, AllowedCount;
    } else {
      assert Cycle(c, now) == burst;
      hide Run, AllowedCount;
    }
  }

  function Cycles(c: Config, now: int, n: nat): seq<Call>
    decreases n
  {
    if n == 0 then [] else Cycle(c, now) + Cycles(c, now + Period(c), n - 1)
  }

  lemma {:induction false} CyclesRun(c: Config, st: State, now: int, n: nat)
    requires Ready(c, st, now) && c.Capacity() >= 1.0
    ensures AllowedCount(c, st, Cycles(c, now, n), KEY) == n * PerCycle(c)
    decreases n
  {
    hide Ready, Cycle, PerCycle, Period, AllowedCount, Run;
    if n > 0 {
      CycleRuns(c, st, now);
      CyclesRun(c, Run(c, st, Cycle(c, now)).0, now + Period(c), n - 1);
      RunAppends(c, st, Cycle(c, now), Cycles(c, now + Period(c), n - 1), KEY);
      OneMore(n, PerCycle(c));
    } else {
      NoCalls(c, st);
    }
  }

  lemma NoCalls(c: Config, st: State)
    ensures AllowedCount(c, st, [], KEY) == 0
  {
  }

  lemma OneMore(n: nat, x: int)
    requires n > 0
    ensures n * x == x + (n - 1) * x
  {
  }

  // Calls of the key alone, between two instants.
  predicate Within(calls: seq<Call>, from: int, to: int) {
    forall i :: 0 <= i < |calls| ==> calls[i].key == KEY && from <= calls[i].now <= to
  }

  lemma AppendTimed(first: seq<Call>, rest: seq<Call>, from: int, mid: int, to: int)
    requires Nondecreasing(from, first) && Within(first, from, mid)
    requires Nondecreasing(mid, rest) && Within(rest, mid, to) && from <= mid <= to
    ensures Nondecreasing(from, first + rest) && Within(first + rest, from, to)
  {
  }

  lemma CycleTimed(c: Config, now: int)
    ensures Nondecreasing(now, Cycle(c, now)) && Within(Cycle(c, now), now, now + Period(c))
  {
    TopIsLeast(c);
    hide Top, Whole;
  }

  lemma {:induction false} CyclesTimed(c: Config, now: int, n: nat)
    ensures Nondecreasing(now, Cycles(c, now, n)) && Within(Cycles(c, now, n), now, now + n * Period(c))
    ensures n * Period(c) >= 0
    decreases n
  {
    hide Period, Cycle;
    if n > 0 {
      CycleTimed(c, now);
      CyclesTimed(c, now + Period(c), n - 1);
      OneMore(n, Period(c));
      assert Period(c) > 0 by {
        PeriodPositive(c);
      }
      AppendTimed(Cycle(c, now), Cycles(c, now + Period(c), n - 1), now, now + Period(c), now + n * Period(c));
      hide Nondecreasing, Within;
    }
  }

  lemma PeriodPositive(c: Config)
    ensures Period(c) > 0
  {
    TopIsLeast(c);
  }

  // ---------- the bound exceeded ----------

  // A cycle lets through more than accrues in its time.
  lemma CycleGains(c: Config)
    requires c.Capacity() >= 1.0 && Accrued(c, c.IdleTTL() + 2) <= c.Capacity()
    ensures PerCycle(c) as real > Accrued(c, Period(c))
  {
    hide Accrued, Top;
    var ttl := c.IdleTTL();
    TopIsLeast(c);
    AccruedAdds(c, ttl + 1, 1);
    AccruedAdds(c, ttl, 1);
    AccruedMonotone(c, 1, ttl);
    if Topped(c) {
      AccruedAdds(c, Top(c) - 1, 1);
      AccruedAdds(c, Top(c), ttl + 1);
    } else {
      AccruedMonotone(c, ttl, Top(c) - 1);
    }
  }

  lemma AccruedTimes(c: Config, ns: int, n: nat)
    ensures Accrued(c, n * ns) == n as real * Accrued(c, ns)
  {
    assert (n * ns) as real == n as real * ns as real;
    assert Seconds(n * ns) == n as real * Seconds(ns);
  }

  lemma EnoughCycles(gain: real, needed: real) returns (n: nat)
    requires gain > 0.0 && needed > 0.0
    ensures n as real * gain > needed
  {
    var q := needed / gain;
    QuotientTimes(needed, gain);
    n := q.Floor + 1;
    ScaledOrder(q, n as real, gain);
  }

  // With a whole token of capacity and an idle time two nanoseconds short of filling a bucket,
  // or shorter, some run of a key that is never evicted exceeds the bound.
  lemma ShortIdleBreaksThroughput(c: Config) returns (calls: seq<Call>, end: int)
    requires c.Capacity() >= 1.0 && Accrued(c, c.IdleTTL() + 2) <= c.Capacity()
    ensures Nondecreasing(0, calls) && NeverEvicted(c, INITIAL, calls, KEY)
    ensures forall i :: 0 <= i < |calls| ==> calls[i].key == KEY
    ensures 0 <= end && forall i :: 0 <= i < |calls| ==> calls[i].now <= end
    ensures AllowedCount(c, INITIAL, calls, KEY) as real > c.Capacity() + Seconds(end) * c.Refill()
  {
    hide AllowedCount, NeverEvicted, Nondecreasing, Cycles, Period, PerCycle, Accrued;
    CycleGains(c);
    var n := EnoughCycles(PerCycle(c) as real - Accrued(c, Period(c)), c.Capacity());
    calls, end := Cycles(c, 0, n), n * Period(c);
    CyclesRun(c, INITIAL, 0, n);
    CyclesTimed(c, 0, n);
    OwnCallsNeverEvict(c, INITIAL, calls, KEY);
    AccruedTimes(c, Period(c), n);
    Spread(n, PerCycle(c), Accrued(c, Period(c)));
    AccruedMeans(c, end);
    hide Seconds, Config.Capacity, Config.Refill;
  }

  lemma AccruedMeans(c: Config, ns: int)
    ensures Accrued(c, ns) == Seconds(ns) * c.Refill()
  {
  }

  lemma Spread(n: nat, calls: nat, accrued: real)
    ensures n as real * (calls as real - accrued) == (n * calls) as real - n as real * accrued
  {
    assert (n * calls) as real == n as real * calls as real;
  }

  // Below one token of capacity nothing is ever allowed.
  lemma {:induction false} NoWholeToken(c: Config, st: State, t: int, calls: seq<Call>, key: string)
    requires c.Capacity() < 1.0 && Inv(c, st.lru, t) && Nondecreasing(t, calls)
    ensures AllowedCount(c, st, calls, key) == 0
    decreases calls
  {
    hide Take, Level, Sweep, Inv;
    if calls != [] {
      var k, now := calls[0].key, calls[0].now;
      InvLater(c, st.lru, t, now);
      TakeOutcome(c, st, t, k, now);
      SweepKeeps(c, st, now);
      LevelGrows(c, Sweep(c, st, now).lru, k, now, now);
      TakeKeepsInv(c, st, t, k, now);
      NoWholeToken(c, Take(c, st, k, now).0, now, calls[1..], key);
    }
  }

  // The other way round, to within that nanosecond: where a sweep drops only full buckets (an
  // idle time that fills one is enough), or no token is ever whole, the bound holds in every
  // interval for every key that is not evicted.
  lemma ThroughputUnevicted(c: Config, st: State, start: int, calls: seq<Call>, key: string, end: int)
    requires SweepsOnlyFull(c) || c.Capacity() < 1.0
    requires Inv(c, st.lru, start) && Nondecreasing(start, calls) && NeverEvicted(c, st, calls, key)
    requires start <= end && forall i :: 0 <= i < |calls| ==> calls[i].now <= end
    ensures AllowedCount(c, st, calls, key) as real <= c.Capacity() + Seconds(end - start) * c.Refill()
  {
    hide AllowedCount, NeverEvicted, NeverDroppedEarly, SweepsOnlyFull;
    if c.Capacity() < 1.0 {
      NoWholeToken(c, st, start, calls, key);
      AccruedMonotone(c, 0, end - start);
    } else {
      UnevictedNeverDroppedEarly(c, st, start, calls, key);
      Throughput(c, st, start, calls, key, end);
    }
  }

  // ---------- the sweep shows ----------

  lemma TouchIgnoresIdle(c: Config, idle: int, lru: seq<Bucket>, key: string, now: int)
    ensures Touch(c.(idleTTL := idle), lru, key, now) == Touch(c, lru, key, now)
  {
    hide IndexOf;
    if HasKey(lru, key) {
      assert Refilled(c.(idleTTL := idle), lru[IndexOf(lru, key)], now) == Refilled(c, lru[IndexOf(lru, key)], now);
    }
  }

  lemma TakeIgnoresIdle(c: Config, idle: int, lru: seq<Bucket>, key: string, now: int)
    ensures TakeUnswept(c.(idleTTL := idle), lru, key, now) == TakeUnswept(c, lru, key, now)
  {
    TouchIgnoresIdle(c, idle, lru, key, now);
    hide Touch;
  }

  lemma {:induction false} UnsweptIgnoresIdle(c: Config, idle: int, lru: seq<Bucket>, calls: seq<Call>)
    ensures RunUnswept(c.(idleTTL := idle), lru, calls) == RunUnswept(c, lru, calls)
    decreases calls
  {
    hide TakeUnswept;
    if calls != [] {
      TakeIgnoresIdle(c, idle, lru, calls[0].key, calls[0].now);
      UnsweptIgnoresIdle(c, idle, TakeUnswept(c, lru, calls[0].key, calls[0].now).0, calls[1..]);
    }
  }

  // An idle time that fills a bucket exists for every capacity and refill rate.
  lemma LongIdle(c: Config) returns (idle: int)
    ensures idle > 0 && IdleFills(c.(idleTTL := idle))
  {
    var tokens := 1.0 - c.Capacity();
    LeastWait(c, tokens);
    idle := Ceiling(Wait(c, tokens) * SECOND as real);
  }

  // So under the same condition the sweep is visible: some run of calls from an empty limiter
  // is decided otherwise than without it.
  lemma ShortIdleShows(c: Config) returns (calls: seq<Call>)
    requires c.Capacity() >= 1.0 && Accrued(c, c.IdleTTL() + 2) <= c.Capacity()
    ensures Nondecreasing(0, calls) && Run(c, INITIAL, calls).1 != RunUnswept(c, [], calls).1
  {
    hide AllowedCount, NeverEvicted, Run, RunUnswept, Nondecreasing;
    var end;
    calls, end := ShortIdleBreaksThroughput(c);
    UnsweptWithin(c, calls, end);
    AllowedCountIs(c, INITIAL, calls, KEY);
    hide Config.Capacity, Config.Refill, Config.IdleTTL;
  }

  // Without the sweep the bound holds.
  lemma UnsweptWithin(c: Config, calls: seq<Call>, end: int)
    requires Nondecreasing(0, calls) && 0 <= end
    requires forall i :: 0 <= i < |calls| ==> calls[i].key == KEY && calls[i].now <= end
    ensures |RunUnswept(c, [], calls).1| == |calls|
    ensures CountAllowed(calls, RunUnswept(c, [], calls).1, KEY) as real <= c.Capacity() + Seconds(end) * c.Refill()
  {
    hide AllowedCount, NeverEvicted, Run, RunUnswept, IdleFills, SweepsOnlyFull, Nondecreasing, CountAllowed;
    var idle := LongIdle(c);
    var long := c.(idleTTL := idle);
    IdleFillsSweepsOnlyFull(long);
    OwnCallsNeverEvict(long, INITIAL, calls, KEY);
    ThroughputUnevicted(long, INITIAL, 0, calls, KEY, end);
    SweepIsInvisibleFromStart(long, 0, calls);
    UnsweptIgnoresIdle(c, idle, [], calls);
    AllowedCountIs(long, INITIAL, calls, KEY);
  }
}
