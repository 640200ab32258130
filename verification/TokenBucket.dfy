// The token-bucket limiter of licensing/http/rate_limiter.go on values: what one take
// decides and what it leaves behind. Instants and durations are whole nanoseconds.
module TokenBucket {
  import opened Base

  const SECOND := 1_000_000_000
  const MAX_RETRY_AFTER := 3600
  const FIVE_MINUTES := 300 * SECOND
  const MAX_INT64 := 0x7fff_ffff_ffff_ffff
  const TWO_TO_THE_64 := 0x1_0000_0000_0000_0000

  // Zero or negative settings select the defaults, as in RateLimitConfig.
  datatype Config = Config(capacity: real, refillRate: real, maxKeys: int, idleTTL: int) {
    function Capacity(): (c: real)
      ensures c > 0.0
    {
      if capacity > 0.0 then capacity else 30.0
    }

    function Refill(): (r: real)
      ensures r > 0.0
    {
      if refillRate > 0.0 then refillRate else 10.0
    }

    function MaxKeys(): (n: nat)
      ensures n > 0
    {
      if maxKeys > 0 then maxKeys else 10_000
    }

    function IdleTTL(): (ttl: int)
      ensures ttl > 0
    {
      if idleTTL > 0 then idleTTL else DefaultTTL(10.0 * Capacity() / Refill())
    }
  }

  // An int64 product wraps around.
  function Wrap64(n: int): (w: int)
    ensures -MAX_INT64 - 1 <= w <= MAX_INT64
  {
    var m := n % TWO_TO_THE_64;
    if m > MAX_INT64 then m - TWO_TO_THE_64 else m
  }

  // Ten refill windows in whole seconds, at least five minutes. A window beyond int64
  // converts to the least int64, whose product with a second wraps to zero.
  function DefaultTTL(windows: real): (ttl: int)
    requires windows > 0.0
    ensures ttl >= FIVE_MINUTES
  {
    var seconds := windows.Floor;
    var ttl := if seconds > MAX_INT64 then 0 else Wrap64(seconds * SECOND);
    if ttl < FIVE_MINUTES then FIVE_MINUTES else ttl
  }

  function Seconds(ns: int): real {
    ns as real / SECOND as real
  }

  // Tokens added over `ns` nanoseconds.
  function Accrued(c: Config, ns: int): real {
    Seconds(ns) * c.Refill()
  }

  datatype Bucket = Bucket(key: string, tokens: real, lastTick: int)

  // Buckets from most to least recently used, and the instant of the last sweep.
  datatype State = State(lru: seq<Bucket>, lastSweep: Option<int>)

  datatype Decision = Allowed | Denied(retryAfter: int)

  function Min(a: real, b: real): real {
    if a <= b then a else b
  }

  predicate HasKey(lru: seq<Bucket>, key: string) {
    exists i :: 0 <= i < |lru| && lru[i].key == key
  }

  function IndexOf(lru: seq<Bucket>, key: string): (i: nat)
    requires HasKey(lru, key)
    ensures i < |lru| && lru[i].key == key
    ensures forall j :: 0 <= j < i ==> lru[j].key != key
  {
    if lru[0].key == key then 0 else 1 + IndexOf(lru[1..], key)
  }

  function Without(lru: seq<Bucket>, i: nat): seq<Bucket>
    requires i < |lru|
  {
    lru[..i] + lru[i + 1..]
  }

  // maybeSweepLocked: drop from the back while the last tick is before the cutoff.
  function DropStale(lru: seq<Bucket>, cutoff: int): seq<Bucket> {
    if lru == [] || lru[|lru| - 1].lastTick >= cutoff then lru
    else DropStale(lru[..|lru| - 1], cutoff)
  }

  function Sweep(c: Config, st: State, now: int): State {
    if st.lastSweep.Some? && now - st.lastSweep.value < c.IdleTTL() then st
    else State(DropStale(st.lru, now - c.IdleTTL()), Some(now))
  }

  function Refilled(c: Config, b: Bucket, now: int): Bucket {
    if now - b.lastTick > 0
    then b.(tokens := Min(c.Capacity(), b.tokens + Accrued(c, now - b.lastTick)), lastTick := now)
    else b
  }

  // Whether touching `key` makes room by evicting the least recently used bucket.
  predicate Evicts(c: Config, lru: seq<Bucket>, key: string) {
    !HasKey(lru, key) && |lru| >= c.MaxKeys()
  }

  // The bucket of `key`, brought up to `now` and moved to the front.
  function Touch(c: Config, lru: seq<Bucket>, key: string, now: int): (r: seq<Bucket>)
    ensures r != [] && r[0].key == key
  {
    if HasKey(lru, key) then
      var i := IndexOf(lru, key);
      [Refilled(c, lru[i], now)] + Without(lru, i)
    else
      var room := if |lru| >= c.MaxKeys() then lru[..|lru| - 1] else lru;
      [Bucket(key, c.Capacity(), now)] + room
  }

  function Ceiling(x: real): int {
    -((-x).Floor)
  }

  // Seconds until a bucket holding `tokens` holds one token.
  function Wait(c: Config, tokens: real): real {
    (1.0 - tokens) / c.Refill()
  }

  function RetryAfter(c: Config, tokens: real): int {
    var r := Ceiling(Wait(c, tokens));
    if r < 1 then 1 else if r > MAX_RETRY_AFTER then MAX_RETRY_AFTER else r
  }

  // Take one token from the front bucket, or say how long to wait.
  function Spend(c: Config, lru: seq<Bucket>): (r: (seq<Bucket>, Decision))
    requires lru != []
  {
    if lru[0].tokens >= 1.0
    then ([lru[0].(tokens := lru[0].tokens - 1.0)] + lru[1..], Allowed)
    else (lru, Denied(RetryAfter(c, lru[0].tokens)))
  }

  // take without the sweep, and take.
  function TakeUnswept(c: Config, lru: seq<Bucket>, key: string, now: int): (seq<Bucket>, Decision) {
    Spend(c, Touch(c, lru, key, now))
  }

  function Take(c: Config, st: State, key: string, now: int): (State, Decision) {
    var swept := Sweep(c, st, now);
    var (lru, d) := TakeUnswept(c, swept.lru, key, now);
    (State(lru, swept.lastSweep), d)
  }

  datatype Call = Call(key: string, now: int)

  const INITIAL := State([], None)

  // The states a run goes through, and its decisions.
  function Run(c: Config, st: State, calls: seq<Call>): (State, seq<Decision>)
    decreases calls
  {
    if calls == [] then (st, [])
    else
      var (next, d) := Take(c, st, calls[0].key, calls[0].now);
      var (last, ds) := Run(c, next, calls[1..]);
      (last, [d] + ds)
  }

  function RunUnswept(c: Config, lru: seq<Bucket>, calls: seq<Call>): (seq<Bucket>, seq<Decision>)
    decreases calls
  {
    if calls == [] then (lru, [])
    else
      var (next, d) := TakeUnswept(c, lru, calls[0].key, calls[0].now);
      var (last, ds) := RunUnswept(c, next, calls[1..]);
      (last, [d] + ds)
  }

  // A clock that never goes back, starting no earlier than `from`.
  ghost predicate Nondecreasing(from: int, calls: seq<Call>) {
    && (forall i :: 0 <= i < |calls| ==> from <= calls[i].now)
    && (forall i, j :: 0 <= i < j < |calls| ==> calls[i].now <= calls[j].now)
  }

  // ---------- arithmetic of accrual ----------

  lemma AccruedAdds(c: Config, a: int, b: int)
    ensures Accrued(c, a + b) == Accrued(c, a) + Accrued(c, b)
  {
    assert Seconds(a + b) == Seconds(a) + Seconds(b);
  }

  lemma AccruedMonotone(c: Config, a: int, b: int)
    requires a <= b
    ensures Accrued(c, a) <= Accrued(c, b)
    ensures Accrued(c, 0) == 0.0
  {
    AccruedAdds(c, a, b - a);
    assert Seconds(b - a) >= 0.0;
    assert Accrued(c, b - a) >= 0.0;
  }

  // ---------- what every take keeps ----------

  ghost predicate DistinctKeys(lru: seq<Bucket>) {
    forall i, j :: 0 <= i < j < |lru| ==> lru[i].key != lru[j].key
  }

  // Most recently used first also means latest tick first.
  ghost predicate TickOrdered(lru: seq<Bucket>) {
    forall i, j :: 0 <= i < j < |lru| ==> lru[i].lastTick >= lru[j].lastTick
  }

  ghost predicate Sane(c: Config, b: Bucket, now: int) {
    0.0 <= b.tokens <= c.Capacity() && b.lastTick <= now
  }

  ghost predicate Inv(c: Config, lru: seq<Bucket>, now: int) {
    && DistinctKeys(lru)
    && TickOrdered(lru)
    && |lru| <= c.MaxKeys()
    && forall i :: 0 <= i < |lru| ==> Sane(c, lru[i], now)
  }

  lemma RefilledSane(c: Config, b: Bucket, t: int, now: int)
    requires Sane(c, b, t) && t <= now
    ensures Sane(c, Refilled(c, b, now), now)
    ensures Refilled(c, b, now).lastTick == now
    ensures Refilled(c, b, now).tokens == Min(c.Capacity(), b.tokens + Accrued(c, now - b.lastTick))
  {
    AccruedMonotone(c, 0, now - b.lastTick);
  }

  lemma InvLater(c: Config, lru: seq<Bucket>, t: int, now: int)
    requires Inv(c, lru, t) && t <= now
    ensures Inv(c, lru, now)
  {
    forall i | 0 <= i < |lru| ensures Sane(c, lru[i], now) {
      assert Sane(c, lru[i], t);
    }
  }

  lemma PrependKeeps(c: Config, b: Bucket, rest: seq<Bucket>, now: int)
    requires Inv(c, rest, now) && Sane(c, b, now) && b.lastTick == now
    requires !HasKey(rest, b.key) && |rest| < c.MaxKeys()
    ensures Inv(c, [b] + rest, now)
  {
    var r := [b] + rest;
    forall j | 1 <= j < |r| ensures r[j] == rest[j - 1] && r[j].key != b.key && Sane(c, r[j], now) {
      assert Sane(c, rest[j - 1], now);
    }
  }

  lemma WithoutKeeps(c: Config, lru: seq<Bucket>, i: nat, now: int)
    requires Inv(c, lru, now) && i < |lru|
    ensures Inv(c, Without(lru, i), now)
    ensures !HasKey(Without(lru, i), lru[i].key)
  {
    var r := Without(lru, i);
    forall j | 0 <= j < |r| ensures r[j] == lru[if j < i then j else j + 1] && Sane(c, r[j], now) {
      assert Sane(c, lru[if j < i then j else j + 1], now);
    }
  }

  lemma TouchKeeps(c: Config, lru: seq<Bucket>, key: string, now: int)
    requires Inv(c, lru, now)
    ensures Inv(c, Touch(c, lru, key, now), now)
    ensures Touch(c, lru, key, now)[0].lastTick == now
  {
    if HasKey(lru, key) {
      var i := IndexOf(lru, key);
      assert Sane(c, lru[i], now);
      RefilledSane(c, lru[i], now, now);
      WithoutKeeps(c, lru, i, now);
      PrependKeeps(c, Refilled(c, lru[i], now), Without(lru, i), now);
    } else {
      var room := if |lru| >= c.MaxKeys() then lru[..|lru| - 1] else lru;
      assert forall j :: 0 <= j < |room| ==> room[j] == lru[j];
      PrependKeeps(c, Bucket(key, c.Capacity(), now), room, now);
    }
  }

  lemma SpendKeeps(c: Config, lru: seq<Bucket>, now: int)
    requires lru != [] && Inv(c, lru, now)
    ensures Inv(c, Spend(c, lru).0, now)
  {
    var r := Spend(c, lru).0;
    assert Sane(c, lru[0], now);
    forall j | 0 <= j < |r| ensures r[j].key == lru[j].key && r[j].lastTick == lru[j].lastTick && Sane(c, r[j], now) {
    }
  }

  lemma {:induction false} DropStaleKeeps(c: Config, lru: seq<Bucket>, cutoff: int, now: int)
    requires Inv(c, lru, now)
    ensures Inv(c, DropStale(lru, cutoff), now)
    ensures DropStale(lru, cutoff) <= lru
    decreases lru
  {
    if lru != [] && lru[|lru| - 1].lastTick < cutoff {
      DropStaleKeeps(c, lru[..|lru| - 1], cutoff, now);
    }
  }

  // Under a clock that does not go back every take keeps the invariant: distinct keys, no
  // more than MaxKeys of them, the list ordered by last tick, tokens within capacity.
  lemma TakeKeepsInv(c: Config, st: State, t: int, key: string, now: int)
    requires Inv(c, st.lru, t) && t <= now
    ensures Inv(c, Take(c, st, key, now).0.lru, now)
    ensures Inv(c, TakeUnswept(c, st.lru, key, now).0, now)
  {
    InvLater(c, st.lru, t, now);
    DropStaleKeeps(c, st.lru, now - c.IdleTTL(), now);
    var swept := Sweep(c, st, now).lru;
    TouchKeeps(c, swept, key, now);
    SpendKeeps(c, Touch(c, swept, key, now), now);
    TouchKeeps(c, st.lru, key, now);
    SpendKeeps(c, Touch(c, st.lru, key, now), now);
  }

  // So in every run from an empty limiter.
  lemma {:induction false} RunKeepsInv(c: Config, st: State, t: int, calls: seq<Call>)
    requires Inv(c, st.lru, t) && Nondecreasing(t, calls)
    ensures Inv(c, Run(c, st, calls).0.lru, if calls == [] then t else calls[|calls| - 1].now)
    decreases calls
  {
    if calls != [] {
      var next := Take(c, st, calls[0].key, calls[0].now).0;
      TakeKeepsInv(c, st, t, calls[0].key, calls[0].now);
      RunKeepsInv(c, next, calls[0].now, calls[1..]);
    }
  }

  // A sweep removes exactly the stale buckets, although it stops at the first fresh one.
  lemma {:induction false} SweepIsExact(lru: seq<Bucket>, cutoff: int)
    requires TickOrdered(lru)
    ensures DropStale(lru, cutoff) <= lru
    ensures forall i :: 0 <= i < |lru| ==> (i < |DropStale(lru, cutoff)| <==> lru[i].lastTick >= cutoff)
    decreases lru
  {
    if lru != [] && lru[|lru| - 1].lastTick < cutoff {
      SweepIsExact(lru[..|lru| - 1], cutoff);
    }
  }
}
