// What the limiter guarantees over whole runs.
module TokenBucketTheorems {
  import opened Base
  import opened TokenBucket

  // A bucket that would be full at `now`, last touched before it.
  ghost predicate Full(c: Config, b: Bucket, now: int) {
    b.lastTick < now && b.tokens + Accrued(c, now - b.lastTick) >= c.Capacity()
  }

  ghost predicate AllFull(c: Config, bs: seq<Bucket>, now: int) {
    forall i :: 0 <= i < |bs| ==> Full(c, bs[i], now)
  }

  // The idle time is long enough to fill any bucket.
  ghost predicate IdleFills(c: Config) {
    Accrued(c, c.IdleTTL()) >= c.Capacity()
  }

  // So is the least age at which a sweep drops a bucket, a nanosecond more.
  ghost predicate SweepsOnlyFull(c: Config) {
    Accrued(c, c.IdleTTL() + 1) >= c.Capacity()
  }

  lemma IdleFillsSweepsOnlyFull(c: Config)
    requires IdleFills(c)
    ensures SweepsOnlyFull(c)
  {
    AccruedMonotone(c, c.IdleTTL(), c.IdleTTL() + 1);
  }

  lemma ScaledOrder(x: real, y: real, r: real)
    requires x <= y && r > 0.0
    ensures x * r <= y * r
    ensures x < y ==> x * r < y * r
  {
    var d := y - x;
    assert y * r == x * r + d * r;
  }

  lemma QuotientTimes(x: real, r: real)
    requires r > 0.0
    ensures (x / r) * r == x
    ensures x > 0.0 ==> x / r > 0.0
  {
  }

  // What accrues reaches an amount when the time reaches the wait for it.
  lemma AccruedReaches(c: Config, ns: int, wait: real, amount: real)
    requires amount == wait * c.Refill()
    ensures Accrued(c, ns) >= amount <==> Seconds(ns) >= wait
  {
    ScaledReaches(Seconds(ns), wait, c.Refill());
  }

  lemma ScaledReaches(x: real, y: real, r: real)
    requires r > 0.0
    ensures x * r >= y * r <==> x >= y
  {
    if x >= y {
      ScaledOrder(y, x, r);
    } else {
      ScaledOrder(x, y, r);
    }
  }

  // The same in the configuration's own terms: IdleTTL >= capacity / refill rate.
  lemma IdleFillsMeans(c: Config)
    ensures IdleFills(c) <==> Seconds(c.IdleTTL()) >= c.Capacity() / c.Refill()
  {
    QuotientTimes(c.Capacity(), c.Refill());
    AccruedReaches(c, c.IdleTTL(), c.Capacity() / c.Refill(), c.Capacity());
    hide Accrued, Config.Capacity, Config.Refill, Config.IdleTTL, Seconds;
  }

  lemma FullLater(c: Config, b: Bucket, t: int, now: int)
    requires Full(c, b, t) && t <= now
    ensures Full(c, b, now)
  {
    AccruedMonotone(c, t - b.lastTick, now - b.lastTick);
  }

  lemma AllFullLater(c: Config, bs: seq<Bucket>, t: int, now: int)
    requires AllFull(c, bs, t) && t <= now
    ensures AllFull(c, bs, now)
  {
    forall i | 0 <= i < |bs| ensures Full(c, bs[i], now) {
      FullLater(c, bs[i], t, now);
    }
  }

  // ---------- the sweep is invisible ----------

  // The unswept list is the swept one followed by buckets that are full again.
  ghost predicate Simulates(c: Config, swept: seq<Bucket>, stale: seq<Bucket>, unswept: seq<Bucket>, now: int) {
    unswept == swept + stale && AllFull(c, stale, now) && Inv(c, unswept, now)
  }

  lemma SweptBucketsAreFull(c: Config, lru: seq<Bucket>, now: int, i: nat)
    requires SweepsOnlyFull(c) && Inv(c, lru, now) && i < |lru| && lru[i].lastTick < now - c.IdleTTL()
    ensures Full(c, lru[i], now)
  {
    assert Sane(c, lru[i], now);
    AccruedMonotone(c, c.IdleTTL() + 1, now - lru[i].lastTick);
  }

  lemma SweepSimulates(c: Config, st: State, stale: seq<Bucket>, unswept: seq<Bucket>, t: int, now: int)
    returns (rest: seq<Bucket>)
    requires IdleFills(c) && Simulates(c, st.lru, stale, unswept, t) && t <= now
    ensures Simulates(c, Sweep(c, st, now).lru, rest, unswept, now)
  {
    IdleFillsSweepsOnlyFull(c);
    InvLater(c, unswept, t, now);
    AllFullLater(c, stale, t, now);
    hide Full, IdleFills, SweepsOnlyFull, Inv;
    var kept := Sweep(c, st, now).lru;
    if kept == st.lru {
      rest := stale;
    } else {
      InvOfPrefix(c, st.lru, stale, now);
      SweepRemoves(c, st, now);
      hide Sweep;
      rest := unswept[|kept|..];
      PrefixRest(kept, st.lru, stale, unswept);
      forall i | 0 <= i < |rest| ensures Full(c, rest[i], now) {
        assert rest[i] == unswept[|kept| + i];
        if |kept| + i < |st.lru| {
          SweptBucketsAreFull(c, unswept, now, |kept| + i);
        } else {
          assert rest[i] == stale[|kept| + i - |st.lru|];
        }
      }
    }
  }

  lemma InvOfPrefix(c: Config, lru: seq<Bucket>, more: seq<Bucket>, now: int)
    requires Inv(c, lru + more, now)
    ensures Inv(c, lru, now)
  {
    hide Sane;
    var all := lru + more;
    assert forall i :: 0 <= i < |lru| ==> lru[i] == all[i];
  }

  lemma SweepRemoves(c: Config, st: State, now: int)
    requires Inv(c, st.lru, now) && Sweep(c, st, now).lru != st.lru
    ensures Sweep(c, st, now).lru <= st.lru
    ensures forall i :: |Sweep(c, st, now).lru| <= i < |st.lru| ==> st.lru[i].lastTick < now - c.IdleTTL()
  {
    SweepIsExact(st.lru, now - c.IdleTTL());
  }

  lemma PrefixRest(a: seq<Bucket>, b: seq<Bucket>, more: seq<Bucket>, all: seq<Bucket>)
    requires a <= b && all == b + more
    ensures |a| <= |all| && all == a + all[|a|..]
    ensures forall i :: 0 <= i < |b| ==> all[i] == b[i]
  {
    assert all[..|a|] == b[..|a|] == a;
  }

  lemma IndexOfFirst(lru: seq<Bucket>, key: string, i: nat)
    requires i < |lru| && lru[i].key == key && (forall j :: 0 <= j < i ==> lru[j].key != key)
    ensures HasKey(lru, key) && IndexOf(lru, key) == i
  {
    assert lru[i].key == key;
    var k := IndexOf(lru, key);
    assert k <= i;
  }

  // Touching a key gives the same front bucket and the same recent part either way.
  lemma TouchSimulates(c: Config, swept: seq<Bucket>, stale: seq<Bucket>, unswept: seq<Bucket>, key: string, now: int)
    returns (rest: seq<Bucket>)
    requires Simulates(c, swept, stale, unswept, now)
    ensures Touch(c, unswept, key, now) == Touch(c, swept, key, now) + rest
    ensures AllFull(c, rest, now)
  {
    if HasKey(swept, key) {
      RecentTouched(c, swept, stale, unswept, key, now);
      rest := stale;
    } else if HasKey(stale, key) {
      rest := StaleTouched(c, swept, stale, unswept, key, now);
    } else {
      rest := NewTouched(c, swept, stale, unswept, key, now);
    }
  }

  lemma RecentTouched(c: Config, swept: seq<Bucket>, stale: seq<Bucket>, unswept: seq<Bucket>, key: string, now: int)
    requires unswept == swept + stale && HasKey(swept, key)
    ensures Touch(c, unswept, key, now) == Touch(c, swept, key, now) + stale
  {
    hide Refilled;
    var i := IndexOf(swept, key);
    assert forall j :: 0 <= j <= i ==> unswept[j] == swept[j];
    IndexOfFirst(unswept, key, i);
    assert Without(unswept, i) == Without(swept, i) + stale;
  }

  lemma NewTouched(c: Config, swept: seq<Bucket>, stale: seq<Bucket>, unswept: seq<Bucket>, key: string, now: int)
    returns (rest: seq<Bucket>)
    requires Simulates(c, swept, stale, unswept, now) && !HasKey(swept, key) && !HasKey(stale, key)
    ensures Touch(c, unswept, key, now) == Touch(c, swept, key, now) + rest
    ensures AllFull(c, rest, now)
  {
    hide Full;
    NoKeyInEither(swept, stale, unswept, key);
    if |unswept| < c.MaxKeys() {
      rest := stale;
    } else if stale == [] {
      assert swept == unswept;
      rest := [];
    } else {
      rest := stale[..|stale| - 1];
      assert unswept[..|unswept| - 1] == swept + rest;
    }
  }

  lemma NoKeyInEither(swept: seq<Bucket>, stale: seq<Bucket>, unswept: seq<Bucket>, key: string)
    requires unswept == swept + stale && !HasKey(swept, key) && !HasKey(stale, key)
    ensures !HasKey(unswept, key)
  {
    forall j | 0 <= j < |unswept| ensures unswept[j].key != key {
      if j < |swept| {
        assert unswept[j] == swept[j];
      } else {
        assert unswept[j] == stale[j - |swept|];
      }
    }
  }

  // A stale bucket refills to exactly the new bucket that replaces a swept one.
  lemma StaleTouched(c: Config, swept: seq<Bucket>, stale: seq<Bucket>, unswept: seq<Bucket>, key: string, now: int)
    returns (rest: seq<Bucket>)
    requires Simulates(c, swept, stale, unswept, now) && !HasKey(swept, key) && HasKey(stale, key)
    ensures Touch(c, unswept, key, now) == Touch(c, swept, key, now) + rest
    ensures AllFull(c, rest, now)
  {
    hide Refilled, Full, IndexOf;
    var k := IndexOf(stale, key);
    StaleFound(swept, stale, unswept, key);
    assert Full(c, stale[k], now);
    rest := Without(stale, k);
    StaleRefilled(c, stale[k], now);
    assert Without(unswept, |swept| + k) == swept + rest;
  }

  lemma StaleRefilled(c: Config, b: Bucket, now: int)
    requires Full(c, b, now)
    ensures Refilled(c, b, now) == Bucket(b.key, c.Capacity(), now)
  {
  }

  lemma StaleFound(swept: seq<Bucket>, stale: seq<Bucket>, unswept: seq<Bucket>, key: string)
    requires unswept == swept + stale && !HasKey(swept, key) && HasKey(stale, key)
    ensures HasKey(unswept, key) && IndexOf(unswept, key) == |swept| + IndexOf(stale, key)
    ensures unswept[|swept| + IndexOf(stale, key)] == stale[IndexOf(stale, key)]
  {
    var k := IndexOf(stale, key);
    forall j | 0 <= j < |swept| + k ensures unswept[j].key != key {
      if j < |swept| {
        assert unswept[j] == swept[j];
      } else {
        assert unswept[j] == stale[j - |swept|];
      }
    }
    IndexOfFirst(unswept, key, |swept| + k);
  }

  lemma SpendSimulates(c: Config, swept: seq<Bucket>, rest: seq<Bucket>)
    requires swept != []
    ensures Spend(c, swept + rest).0 == Spend(c, swept).0 + rest
    ensures Spend(c, swept + rest).1 == Spend(c, swept).1
  {
    assert (swept + rest)[0] == swept[0];
    assert (swept + rest)[1..] == swept[1..] + rest;
  }

  lemma TakeSimulates(c: Config, st: State, stale: seq<Bucket>, unswept: seq<Bucket>, t: int, key: string, now: int)
    returns (rest: seq<Bucket>)
    requires IdleFills(c) && Simulates(c, st.lru, stale, unswept, t) && t <= now
    ensures Take(c, st, key, now).1 == TakeUnswept(c, unswept, key, now).1
    ensures Simulates(c, Take(c, st, key, now).0.lru, rest, TakeUnswept(c, unswept, key, now).0, now)
  {
    var more := SweepSimulates(c, st, stale, unswept, t, now);
    var kept := Sweep(c, st, now).lru;
    rest := TouchSimulates(c, kept, more, unswept, key, now);
    SpendSimulates(c, Touch(c, kept, key, now), rest);
    TouchKeeps(c, unswept, key, now);
    SpendKeeps(c, Touch(c, unswept, key, now), now);
  }

  // Whenever the idle time fills a bucket, the limiter that sweeps decides every call of
  // every run as the limiter that never sweeps, evictions at the key cap included.
  lemma {:induction false} SweepIsInvisible(c: Config, st: State, stale: seq<Bucket>, unswept: seq<Bucket>, t: int, calls: seq<Call>)
    requires IdleFills(c) && Simulates(c, st.lru, stale, unswept, t) && Nondecreasing(t, calls)
    ensures Run(c, st, calls).1 == RunUnswept(c, unswept, calls).1
    decreases calls
  {
    if calls != [] {
      var key, now := calls[0].key, calls[0].now;
      var rest := TakeSimulates(c, st, stale, unswept, t, key, now);
      SweepIsInvisible(c, Take(c, st, key, now).0, rest, TakeUnswept(c, unswept, key, now).0, now, calls[1..]);
    }
  }

  lemma SweepIsInvisibleFromStart(c: Config, t: int, calls: seq<Call>)
    requires IdleFills(c) && Nondecreasing(t, calls)
    ensures Run(c, INITIAL, calls).1 == RunUnswept(c, [], calls).1
  {
    SweepIsInvisible(c, INITIAL, [], [], t, calls);
  }

  // ---------- the default idle time ----------

  // Ten refill windows in nanoseconds, whole seconds of them, before any wrapping.
  function DefaultNanos(c: Config): int {
    (10.0 * c.Capacity() / c.Refill()).Floor * SECOND
  }

  // That product, having wrapped around so many times, is positive and still a window long.
  predicate LongAfterLaps(nanos: int, laps: nat, window: real) {
    var rest := nanos - laps * TWO_TO_THE_64;
    0 <= rest <= MAX_INT64 && Seconds(rest) >= window
  }

  lemma TenWindows(capacity: real, r: real)
    requires capacity > 0.0 && r > 0.0
    ensures 10.0 * capacity / r == 10.0 * (capacity / r) && capacity / r > 0.0
  {
    QuotientTimes(capacity, r);
  }

  // The default idle time fills a bucket exactly when its nanoseconds fit an int64, or wrap
  // around, at most four times, to a remainder that is positive and long enough all the same.
  lemma DefaultIdleFills(c: Config)
    requires c.idleTTL <= 0
    ensures
      var window := c.Capacity() / c.Refill();
      var nanos := DefaultNanos(c);
      IdleFills(c) <==>
        || nanos <= MAX_INT64
        || LongAfterLaps(nanos, 1, window) || LongAfterLaps(nanos, 2, window)
        || LongAfterLaps(nanos, 3, window) || LongAfterLaps(nanos, 4, window)
  {
    IdleFillsMeans(c);
    TenWindows(c.Capacity(), c.Refill());
    DefaultAgainst(c.Capacity() / c.Refill());
  }

  // The default for ten windows, against one.
  lemma DefaultAgainst(window: real)
    requires window > 0.0
    ensures
      var nanos := (10.0 * window).Floor * SECOND;
      Seconds(DefaultTTL(10.0 * window)) >= window <==>
        || nanos <= MAX_INT64
        || LongAfterLaps(nanos, 1, window) || LongAfterLaps(nanos, 2, window)
        || LongAfterLaps(nanos, 3, window) || LongAfterLaps(nanos, 4, window)
  {
    var seconds := (10.0 * window).Floor;
    assert seconds as real <= 10.0 * window < seconds as real + 1.0;
    var nanos := seconds * SECOND;
    assert Seconds(nanos) == seconds as real;
    if MAX_INT64 < nanos && seconds <= MAX_INT64 {
      var laps := nanos / TWO_TO_THE_64;
    }
  }

  // A bucket of a billion tokens outlasts the default, which wraps to below zero; one of 2.1
  // billion does not, its default having wrapped to a large positive number.
  lemma DefaultIdleWraps()
    ensures
      var c := Config(1_000_000_000.0, 1.0, 0, 0);
      c.IdleTTL() == FIVE_MINUTES && !IdleFills(c)
    ensures
      var c := Config(2_100_000_000.0, 1.0, 0, 0);
      c.IdleTTL() == 21_000_000_000 * SECOND - TWO_TO_THE_64 && IdleFills(c)
  {
    var c := Config(1_000_000_000.0, 1.0, 0, 0);
    assert 10.0 * c.Capacity() / c.Refill() == 10_000_000_000.0;
    assert Wrap64(10_000_000_000 * SECOND) < 0;
    IdleFillsMeans(c);
    var d := Config(2_100_000_000.0, 1.0, 0, 0);
    assert 10.0 * d.Capacity() / d.Refill() == 21_000_000_000.0;
    assert Wrap64(21_000_000_000 * SECOND) == 21_000_000_000 * SECOND - TWO_TO_THE_64;
    IdleFillsMeans(d);
  }

  // ---------- throughput ----------

  // Tokens a caller with this key could spend at `now`.
  ghost function Level(c: Config, lru: seq<Bucket>, key: string, now: int): real {
    if HasKey(lru, key) then
      var b := lru[IndexOf(lru, key)];
      Min(c.Capacity(), b.tokens + Accrued(c, now - b.lastTick))
    else c.Capacity()
  }

  // The key that this call evicts to make room, if any.
  ghost predicate EvictsKey(c: Config, st: State, call: Call, key: string) {
    var lru := Sweep(c, st, call.now).lru;
    Evicts(c, lru, call.key) && lru != [] && lru[|lru| - 1].key == key
  }

  // Whether this call drops the bucket of `key`, by the sweep or to make room.
  ghost predicate DropsKey(c: Config, st: State, call: Call, key: string) {
    HasKey(st.lru, key) && (!HasKey(Sweep(c, st, call.now).lru, key) || EvictsKey(c, st, call, key))
  }

  // The tokens a dropped bucket lacks: the key's next bucket starts full.
  ghost function Gift(c: Config, st: State, call: Call, key: string): real {
    if DropsKey(c, st, call, key) then c.Capacity() - Level(c, st.lru, key, call.now) else 0.0
  }

  ghost function Gifts(c: Config, st: State, calls: seq<Call>, key: string): real
    decreases calls
  {
    if calls == [] then 0.0
    else Gift(c, st, calls[0], key) + Gifts(c, Take(c, st, calls[0].key, calls[0].now).0, calls[1..], key)
  }

  // No call of the run drops the key's bucket while a token is missing from it.
  ghost predicate NeverDroppedEarly(c: Config, st: State, calls: seq<Call>, key: string)
    decreases calls
  {
    calls != [] ==>
      && (DropsKey(c, st, calls[0], key) ==> Level(c, st.lru, key, calls[0].now) == c.Capacity())
      && NeverDroppedEarly(c, Take(c, st, calls[0].key, calls[0].now).0, calls[1..], key)
  }

  ghost predicate NeverEvicted(c: Config, st: State, calls: seq<Call>, key: string)
    decreases calls
  {
    calls != [] ==>
      && !EvictsKey(c, st, calls[0], key)
      && NeverEvicted(c, Take(c, st, calls[0].key, calls[0].now).0, calls[1..], key)
  }

  // How many calls of `key` a run allows.
  ghost function AllowedCount(c: Config, st: State, calls: seq<Call>, key: string): nat
    decreases calls
  {
    if calls == [] then 0
    else
      var (next, d) := Take(c, st, calls[0].key, calls[0].now);
      (if calls[0].key == key && d.Allowed? then 1 else 0) + AllowedCount(c, next, calls[1..], key)
  }

  // The level in a list found anywhere: keys are distinct.
  lemma LevelAt(c: Config, lru: seq<Bucket>, i: nat, now: int)
    requires DistinctKeys(lru) && i < |lru|
    ensures Level(c, lru, lru[i].key, now) == Min(c.Capacity(), lru[i].tokens + Accrued(c, now - lru[i].lastTick))
  {
    IndexOfFirst(lru, lru[i].key, i);
  }

  lemma LevelOfFront(c: Config, lru: seq<Bucket>, now: int, later: int)
    requires Inv(c, lru, now) && lru != []
    ensures Level(c, lru, lru[0].key, later) == Min(c.Capacity(), lru[0].tokens + Accrued(c, later - lru[0].lastTick))
  {
    LevelAt(c, lru, 0, later);
  }

  lemma LevelJustTouched(c: Config, lru: seq<Bucket>, now: int)
    requires Inv(c, lru, now) && lru != [] && lru[0].lastTick == now
    ensures Level(c, lru, lru[0].key, now) == lru[0].tokens
  {
    LevelAt(c, lru, 0, now);
    AccruedMonotone(c, 0, 0);
    assert Sane(c, lru[0], now);
  }

  // A prefix of the list leaves a key's level as it is, or at capacity when it lost the key.
  lemma LevelOfPrefix(c: Config, lru: seq<Bucket>, n: nat, key: string, now: int)
    requires DistinctKeys(lru) && n <= |lru|
    ensures HasKey(lru[..n], key) ==> Level(c, lru[..n], key, now) == Level(c, lru, key, now)
    ensures !HasKey(lru[..n], key) ==> Level(c, lru[..n], key, now) == c.Capacity()
  {
    if HasKey(lru[..n], key) {
      var i := IndexOf(lru[..n], key);
      assert forall j :: 0 <= j <= i ==> lru[..n][j] == lru[j];
      IndexOfFirst(lru, key, i);
    }
  }

  lemma SweepLevel(c: Config, st: State, key: string, now: int)
    requires Inv(c, st.lru, now)
    ensures Level(c, Sweep(c, st, now).lru, key, now) >= Level(c, st.lru, key, now)
    ensures HasKey(Sweep(c, st, now).lru, key) || !HasKey(st.lru, key) ==>
      Level(c, Sweep(c, st, now).lru, key, now) == Level(c, st.lru, key, now)
    ensures SweepsOnlyFull(c) ==> Level(c, Sweep(c, st, now).lru, key, now) == Level(c, st.lru, key, now)
  {
    var kept := Sweep(c, st, now).lru;
    if kept != st.lru {
      SweepIsExact(st.lru, now - c.IdleTTL());
      assert kept == st.lru[..|kept|];
      LevelOfPrefix(c, st.lru, |kept|, key, now);
      if !HasKey(kept, key) && HasKey(st.lru, key) {
        var i := IndexOf(st.lru, key);
        assert forall j :: 0 <= j < |kept| ==> kept[j].key != key;
        if SweepsOnlyFull(c) {
          SweptBucketsAreFull(c, st.lru, now, i);
        }
      }
    }
  }

  // Touching `touched` at `now`: its bucket then holds its level; other keys keep theirs,
  // or gain by being evicted.
  lemma TouchLevel(c: Config, lru: seq<Bucket>, touched: string, key: string, now: int, later: int)
    requires Inv(c, lru, now) && now <= later
    ensures Touch(c, lru, touched, now)[0].tokens == Level(c, lru, touched, now)
    ensures key != touched ==> Level(c, Touch(c, lru, touched, now), key, later) >= Level(c, lru, key, later)
    ensures key != touched && !(Evicts(c, lru, touched) && lru[|lru| - 1].key == key) ==>
      Level(c, Touch(c, lru, touched, now), key, later) == Level(c, lru, key, later)
  {
    var r := Touch(c, lru, touched, now);
    if HasKey(lru, touched) {
      var i := IndexOf(lru, touched);
      assert Sane(c, lru[i], now);
      RefilledSane(c, lru[i], now, now);
    }
    TouchKeeps(c, lru, touched, now);
    if key != touched {
      TouchLevelOfOther(c, lru, touched, key, now, later);
    }
  }

  lemma TouchLevelOfOther(c: Config, lru: seq<Bucket>, touched: string, key: string, now: int, later: int)
    requires Inv(c, lru, now) && now <= later && key != touched
    ensures Level(c, Touch(c, lru, touched, now), key, later) >= Level(c, lru, key, later)
    ensures !(Evicts(c, lru, touched) && lru[|lru| - 1].key == key) ==>
      Level(c, Touch(c, lru, touched, now), key, later) == Level(c, lru, key, later)
  {
    hide Touch, Accrued, Refilled;
    var r := Touch(c, lru, touched, now);
    TouchKeeps(c, lru, touched, now);
    if HasKey(r, key) {
      var j := IndexOf(r, key);
      var k := TouchedFrom(c, lru, touched, now, j);
      LevelAt(c, r, j, later);
      LevelAt(c, lru, k, later);
    } else if HasKey(lru, key) {
      TouchedTo(c, lru, touched, now, IndexOf(lru, key));
    }
  }

  // Behind the front, a touched list holds buckets of the old one, unchanged.
  lemma TouchedFrom(c: Config, lru: seq<Bucket>, touched: string, now: int, j: nat) returns (k: nat)
    requires 1 <= j < |Touch(c, lru, touched, now)| || (j == 0 && Touch(c, lru, touched, now)[0].key != touched)
    ensures k < |lru| && lru[k] == Touch(c, lru, touched, now)[j]
  {
    hide Refilled;
    k := if HasKey(lru, touched) && j > IndexOf(lru, touched) then j else j - 1;
  }

  lemma TouchedTo(c: Config, lru: seq<Bucket>, touched: string, now: int, k: nat)
    requires k < |lru| && lru[k].key != touched
    ensures HasKey(Touch(c, lru, touched, now), lru[k].key) || (Evicts(c, lru, touched) && k == |lru| - 1)
  {
    hide Refilled;
    var r := Touch(c, lru, touched, now);
    if HasKey(lru, touched) {
      var i := IndexOf(lru, touched);
      assert r[if k < i then k + 1 else k] == lru[k];
    } else if k < |lru| - 1 || |lru| < c.MaxKeys() {
      assert r[k + 1] == lru[k];
    }
  }

  lemma SpendShape(c: Config, lru: seq<Bucket>)
    requires lru != []
    ensures
      var (r, d) := Spend(c, lru);
      && |r| == |lru| && (forall j :: 1 <= j < |r| ==> r[j] == lru[j])
      && r[0] == lru[0].(tokens := lru[0].tokens - (if d.Allowed? then 1.0 else 0.0))
  {
  }

  lemma SpendLevel(c: Config, lru: seq<Bucket>, key: string, now: int)
    requires lru != [] && Inv(c, lru, now)
    ensures key != lru[0].key ==> Level(c, Spend(c, lru).0, key, now) == Level(c, lru, key, now)
    ensures lru[0].lastTick == now ==>
      Level(c, Spend(c, lru).0, lru[0].key, now) ==
        lru[0].tokens - (if Spend(c, lru).1.Allowed? then 1.0 else 0.0)
  {
    hide Spend, Level, Sane, TickOrdered, IndexOf;
    var r := Spend(c, lru).0;
    SpendKeeps(c, lru, now);
    SpendShape(c, lru);
    if lru[0].lastTick == now {
      LevelJustTouched(c, r, now);
    }
    if key != lru[0].key {
      if HasKey(lru, key) {
        var i :| 0 <= i < |lru| && lru[i].key == key;
        LevelAt(c, lru, i, now);
        LevelAt(c, r, i, now);
      } else {
        assert forall j :: 0 <= j < |r| ==> r[j].key == lru[j].key;
        LevelWithout(c, lru, key, now);
        LevelWithout(c, r, key, now);
      }
    }
  }

  lemma LevelGrows(c: Config, lru: seq<Bucket>, key: string, t: int, now: int)
    requires Inv(c, lru, t) && t <= now
    ensures Level(c, lru, key, t) <= Level(c, lru, key, now) <= Level(c, lru, key, t) + Accrued(c, now - t)
    ensures 0.0 <= Level(c, lru, key, t) <= c.Capacity()
  {
    AccruedMonotone(c, 0, now - t);
    if HasKey(lru, key) {
      var b := lru[IndexOf(lru, key)];
      assert Sane(c, b, t);
      AccruedAdds(c, t - b.lastTick, now - t);
      AccruedMonotone(c, 0, t - b.lastTick);
    }
  }

  // Before the call is decided, sweeping and touching add no more than the gift.
  lemma TouchedLevel(c: Config, st: State, call: Call, key: string)
    requires Inv(c, st.lru, call.now)
    ensures
      var touched := Touch(c, Sweep(c, st, call.now).lru, call.key, call.now);
      Level(c, touched, key, call.now) <= Level(c, st.lru, key, call.now) + Gift(c, st, call, key)
  {
    hide Accrued, Sweep, Touch, Level, Inv;
    var now := call.now;
    var kept := Sweep(c, st, now).lru;
    SweepLevel(c, st, key, now);
    SweepKeeps(c, st, now);
    TouchLevel(c, kept, call.key, key, now, now);
    TouchKeeps(c, kept, call.key, now);
    var touched := Touch(c, kept, call.key, now);
    LevelJustTouched(c, touched, now);
    LevelGrows(c, touched, key, now, now);
    LevelWithout(c, st.lru, key, now);
  }

  // One call: an allowed take costs one token, and only time and a dropped bucket add any.
  lemma TakeLevel(c: Config, st: State, t: int, call: Call, key: string)
    requires Inv(c, st.lru, t) && t <= call.now
    ensures
      var (next, d) := Take(c, st, call.key, call.now);
      (if call.key == key && d.Allowed? then 1.0 else 0.0) + Level(c, next.lru, key, call.now)
        <= Level(c, st.lru, key, t) + Accrued(c, call.now - t) + Gift(c, st, call, key)
  {
    hide Accrued, Gift, Level, Sweep;
    var now := call.now;
    InvLater(c, st.lru, t, now);
    LevelGrows(c, st.lru, key, t, now);
    SweepKeeps(c, st, now);
    var kept := Sweep(c, st, now).lru;
    TouchKeeps(c, kept, call.key, now);
    var touched := Touch(c, kept, call.key, now);
    TouchedLevel(c, st, call, key);
    LevelJustTouched(c, touched, now);
    SpendLevel(c, touched, key, now);
  }

  lemma SweepKeeps(c: Config, st: State, now: int)
    requires Inv(c, st.lru, now)
    ensures Inv(c, Sweep(c, st, now).lru, now)
  {
    DropStaleKeeps(c, st.lru, now - c.IdleTTL(), now);
  }

  // With no assumption at all, a run lets a key through at most as often as its level, what
  // accrues, and what dropping its buckets gives it allow.
  lemma {:induction false} AllowedWithinLevel(c: Config, st: State, t: int, calls: seq<Call>, key: string, end: int)
    requires Inv(c, st.lru, t) && Nondecreasing(t, calls)
    requires t <= end && forall i :: 0 <= i < |calls| ==> calls[i].now <= end
    ensures AllowedCount(c, st, calls, key) as real
      <= Level(c, st.lru, key, t) + Accrued(c, end - t) + Gifts(c, st, calls, key)
    decreases calls
  {
    hide Accrued, Level, Take, Gift, Inv;
    if calls == [] {
      LevelGrows(c, st.lru, key, t, end);
      AccruedMonotone(c, 0, end - t);
    } else {
      var now := calls[0].now;
      var next := Take(c, st, calls[0].key, now).0;
      var paid := if calls[0].key == key && Take(c, st, calls[0].key, now).1.Allowed? then 1 else 0;
      TakeLevel(c, st, t, calls[0], key);
      TakeKeepsInv(c, st, t, calls[0].key, now);
      AllowedWithinLevel(c, next, now, calls[1..], key, end);
      AccruedAdds(c, now - t, end - now);
      assert AllowedCount(c, st, calls, key) == paid + AllowedCount(c, next, calls[1..], key);
      hide AllowedCount, Gifts;
    }
  }

  lemma {:induction false} NoGifts(c: Config, st: State, calls: seq<Call>, key: string)
    requires NeverDroppedEarly(c, st, calls, key)
    ensures Gifts(c, st, calls, key) == 0.0
    decreases calls
  {
    hide Take, Level, DropsKey;
    if calls != [] {
      NoGifts(c, Take(c, st, calls[0].key, calls[0].now).0, calls[1..], key);
    }
  }

  // In any interval a key whose bucket is never dropped before it is full gets at most
  // capacity plus refill times length.
  lemma Throughput(c: Config, st: State, start: int, calls: seq<Call>, key: string, end: int)
    requires Inv(c, st.lru, start) && Nondecreasing(start, calls) && NeverDroppedEarly(c, st, calls, key)
    requires start <= end && forall i :: 0 <= i < |calls| ==> calls[i].now <= end
    ensures AllowedCount(c, st, calls, key) as real <= c.Capacity() + Seconds(end - start) * c.Refill()
  {
    hide AllowedCount, NeverDroppedEarly, Level;
    AllowedWithinLevel(c, st, start, calls, key, end);
    NoGifts(c, st, calls, key);
    LevelGrows(c, st.lru, key, start, start);
  }

  // A sweep that drops only full buckets leaves eviction as the one way to lose tokens.
  lemma {:induction false} UnevictedNeverDroppedEarly(c: Config, st: State, t: int, calls: seq<Call>, key: string)
    requires SweepsOnlyFull(c) && Inv(c, st.lru, t) && Nondecreasing(t, calls) && NeverEvicted(c, st, calls, key)
    ensures NeverDroppedEarly(c, st, calls, key)
    decreases calls
  {
    hide SweepsOnlyFull, Take, Level, EvictsKey, Sweep;
    if calls != [] {
      var now := calls[0].now;
      InvLater(c, st.lru, t, now);
      SweepLevel(c, st, key, now);
      LevelWithout(c, Sweep(c, st, now).lru, key, now);
      TakeKeepsInv(c, st, t, calls[0].key, now);
      UnevictedNeverDroppedEarly(c, Take(c, st, calls[0].key, now).0, now, calls[1..], key);
    }
  }

  lemma LevelWithout(c: Config, lru: seq<Bucket>, key: string, now: int)
    ensures !HasKey(lru, key) ==> Level(c, lru, key, now) == c.Capacity()
  {
  }

  // ---------- Retry-After ----------

  lemma {:induction false} OthersKeepLevel(c: Config, st: State, t: int, calls: seq<Call>, key: string, later: int)
    requires Inv(c, st.lru, t) && Nondecreasing(t, calls)
    requires forall i :: 0 <= i < |calls| ==> calls[i].key != key && calls[i].now <= later
    requires t <= later
    ensures Level(c, Run(c, st, calls).0.lru, key, later) >= Level(c, st.lru, key, later)
    decreases calls
  {
    if calls != [] {
      var now := calls[0].now;
      TakeKeepsInv(c, st, t, calls[0].key, now);
      OtherKeepsLevel(c, st, t, calls[0], key, later);
      OthersKeepLevel(c, Take(c, st, calls[0].key, now).0, now, calls[1..], key, later);
    }
  }

  lemma OtherKeepsLevel(c: Config, st: State, t: int, call: Call, key: string, later: int)
    requires Inv(c, st.lru, t) && t <= call.now <= later && call.key != key
    ensures Level(c, Take(c, st, call.key, call.now).0.lru, key, later) >= Level(c, st.lru, key, later)
  {
    var now := call.now;
    InvLater(c, st.lru, t, now);
    InvLater(c, st.lru, t, later);
    DropStaleKeeps(c, st.lru, now - c.IdleTTL(), now);
    var kept := Sweep(c, st, now).lru;
    assert kept == st.lru[..|kept|];
    LevelOfPrefix(c, st.lru, |kept|, key, later);
    LevelGrows(c, st.lru, key, later, later);
    TouchLevel(c, kept, call.key, key, now, later);
    TouchKeeps(c, kept, call.key, now);
    SpendLevelLater(c, Touch(c, kept, call.key, now), key, now, later);
  }

  lemma SpendLevelLater(c: Config, lru: seq<Bucket>, key: string, now: int, later: int)
    requires lru != [] && Inv(c, lru, now) && now <= later && key != lru[0].key
    ensures Level(c, Spend(c, lru).0, key, later) == Level(c, lru, key, later)
  {
    InvLater(c, lru, now, later);
    SpendLevel(c, lru, key, later);
  }

  // What one take does to its own key: it is allowed exactly when the level is a token, and
  // the level, less that token, is what its bucket then holds.
  lemma TakeOutcome(c: Config, st: State, t: int, key: string, now: int)
    requires Inv(c, st.lru, t) && t <= now
    ensures
      var (next, d) := Take(c, st, key, now);
      var level := Level(c, Sweep(c, st, now).lru, key, now);
      && (d.Allowed? <==> level >= 1.0)
      && (d.Denied? ==> d.retryAfter == RetryAfter(c, level))
      && next.lru != []
      && next.lru[0] == Bucket(key, if d.Allowed? then level - 1.0 else level, now)
  {
    hide Level, RetryAfter;
    InvLater(c, st.lru, t, now);
    DropStaleKeeps(c, st.lru, now - c.IdleTTL(), now);
    var kept := Sweep(c, st, now).lru;
    TouchLevel(c, kept, key, key, now, now);
    TouchKeeps(c, kept, key, now);
  }

  // Nanoseconds enough for one token, by the advice given.
  lemma WaitEnough(c: Config, tokens: real, ns: int)
    requires tokens < 1.0 && Wait(c, tokens) <= MAX_RETRY_AFTER as real
    requires ns >= RetryAfter(c, tokens) * SECOND
    ensures tokens + Accrued(c, ns) >= 1.0
  {
    var r := RetryAfter(c, tokens);
    var w := Wait(c, tokens);
    assert w * c.Refill() == 1.0 - tokens;
    assert r as real >= w;
    assert Seconds(ns) >= r as real;
    assert (Seconds(ns) - w) * c.Refill() >= 0.0;
  }

  lemma WaitNeeded(c: Config, tokens: real, ns: int)
    requires tokens < 1.0 && RetryAfter(c, tokens) >= 2
    requires ns <= (RetryAfter(c, tokens) - 1) * SECOND
    ensures tokens + Accrued(c, ns) < 1.0
  {
    var r := RetryAfter(c, tokens);
    var w := Wait(c, tokens);
    assert w * c.Refill() == 1.0 - tokens;
    assert (r - 1) as real < w;
    assert Seconds(ns) <= (r - 1) as real;
    assert (w - Seconds(ns)) * c.Refill() > 0.0;
  }

  // A caller denied with an uncapped Retry-After of R seconds who waits at least R seconds,
  // whatever other callers do meanwhile, is allowed.
  lemma {:induction false} RetryAfterIsEnough(c: Config, st: State, t: int, key: string, now: int, others: seq<Call>, later: int)
    requires c.Capacity() >= 1.0 && Inv(c, st.lru, t) && t <= now
    requires Take(c, st, key, now).1.Denied?
    requires Wait(c, Level(c, Sweep(c, st, now).lru, key, now)) <= MAX_RETRY_AFTER as real
    requires later >= now + Take(c, st, key, now).1.retryAfter * SECOND
    requires Nondecreasing(now, others) && (forall i :: 0 <= i < |others| ==> others[i].key != key && others[i].now <= later)
    ensures Take(c, Run(c, Take(c, st, key, now).0, others).0, key, later).1.Allowed?
  {
    hide Take, Run, Sweep, Wait, RetryAfter, Accrued, Level, Inv;
    var (next, d) := Take(c, st, key, now);
    TakeOutcome(c, st, t, key, now);
    var b := next.lru[0];
    TakeKeepsInv(c, st, t, key, now);
    WaitEnough(c, b.tokens, later - now);
    LevelOfFront(c, next.lru, now, later);
    assert Level(c, next.lru, key, later) >= 1.0;
    assert now <= later by {
      if others != [] {
        assert others[0].now <= later;
      }
      assert d.retryAfter >= 1 by { RetryAfterPositive(c, b.tokens); }
    }
    OthersKeepLevel(c, next, now, others, key, later);
    RunKeepsInv(c, next, now, others);
    AllowedAtLevel(c, Run(c, next, others).0, if others == [] then now else others[|others| - 1].now, key, later);
  }

  lemma RetryAfterPositive(c: Config, tokens: real)
    ensures 1 <= RetryAfter(c, tokens) <= MAX_RETRY_AFTER
  {
  }

  lemma AllowedAtLevel(c: Config, st: State, t: int, key: string, now: int)
    requires Inv(c, st.lru, t) && t <= now && Level(c, st.lru, key, now) >= 1.0
    ensures Take(c, st, key, now).1.Allowed?
  {
    hide Take, Level, Sweep;
    InvLater(c, st.lru, t, now);
    SweepLevel(c, st, key, now);
    TakeOutcome(c, st, t, key, now);
  }

  // And R is no longer than needed: a caller who waits at least a second less is denied again,
  // unless it waits beyond the idle time and its bucket is swept.
  lemma RetryAfterIsLeast(c: Config, st: State, t: int, key: string, now: int, later: int)
    requires c.Capacity() >= 1.0 && Inv(c, st.lru, t) && t <= now
    requires st.lastSweep.Some? ==> st.lastSweep.value <= t
    requires Take(c, st, key, now).1.Denied? && Take(c, st, key, now).1.retryAfter >= 2
    requires now <= later <= now + (Take(c, st, key, now).1.retryAfter - 1) * SECOND
    ensures Take(c, Take(c, st, key, now).0, key, later).1.Denied? <==> later - now <= c.IdleTTL()
  {
    hide Take, Sweep, Wait, RetryAfter, Accrued, Level, Inv;
    var (next, d) := Take(c, st, key, now);
    TakeOutcome(c, st, t, key, now);
    var b := next.lru[0];
    TakeKeepsInv(c, st, t, key, now);
    WaitNeeded(c, b.tokens, later - now);
    LevelOfFront(c, next.lru, now, later);
    InvLater(c, next.lru, now, later);
    SweepTime(c, st, key, now);
    SweepsFront(c, next, now, later);
    SweepLevel(c, next, key, later);
    LevelWithout(c, Sweep(c, next, later).lru, key, later);
    TakeOutcome(c, next, now, key, later);
  }

  lemma SweepTime(c: Config, st: State, key: string, now: int)
    requires st.lastSweep.Some? ==> st.lastSweep.value <= now
    ensures Take(c, st, key, now).0.lastSweep.Some? && Take(c, st, key, now).0.lastSweep.value <= now
  {
  }

  // A bucket just used stays through the idle time and is swept after it.
  lemma SweepsFront(c: Config, st: State, now: int, later: int)
    requires st.lru != [] && Inv(c, st.lru, now) && st.lru[0].lastTick == now <= later
    requires st.lastSweep.Some? && st.lastSweep.value <= now
    ensures HasKey(Sweep(c, st, later).lru, st.lru[0].key) <==> later - now <= c.IdleTTL()
  {
    var kept := Sweep(c, st, later).lru;
    SweepIsExact(st.lru, later - c.IdleTTL());
    if later - now <= c.IdleTTL() {
      assert kept[0].key == st.lru[0].key;
    }
  }
}
