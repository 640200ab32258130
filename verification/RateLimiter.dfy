// The limiter of licensing/http/rate_limiter.go as it runs: buckets on the heap, shared by a
// map and a recency list, both updated in place.
module RateLimiter {
  import opened Base
  import opened TokenBucket

  class Entry {
    const key: string
    var tokens: real
    var lastTick: int

    constructor (key: string, tokens: real, lastTick: int)
      ensures Is(Bucket(key, tokens, lastTick))
    {
      this.key := key;
      this.tokens := tokens;
      this.lastTick := lastTick;
    }

    ghost predicate Is(b: Bucket)
      reads this
    {
      key == b.key && tokens == b.tokens && lastTick == b.lastTick
    }
  }

  // Map and list hold the same entries, each once.
  ghost predicate Linked(buckets: map<string, Entry>, lru: seq<Entry>) {
    && |buckets| == |lru|
    && (forall k :: k in buckets ==> buckets[k] in lru && buckets[k].key == k)
    && (forall i :: 0 <= i < |lru| ==> lru[i].key in buckets && buckets[lru[i].key] == lru[i])
    && (forall i, j :: 0 <= i < j < |lru| ==> lru[i] != lru[j])
  }

  lemma WithoutKeySize<V>(m: map<string, V>, k: string)
    requires k in m
    ensures |m - {k}| == |m| - 1
  {
    assert (m - {k}).Keys == m.Keys - {k};
  }

  lemma NotLast<T>(s: seq<T>, x: T)
    requires s != [] && x in s && x != s[|s| - 1]
    ensures x in s[..|s| - 1]
  {
    var i :| 0 <= i < |s| && s[i] == x;
    assert s[..|s| - 1][i] == x;
  }

  lemma LinkedWithoutBack(buckets: map<string, Entry>, lru: seq<Entry>)
    requires Linked(buckets, lru) && lru != []
    ensures Linked(buckets - {lru[|lru| - 1].key}, lru[..|lru| - 1])
  {
    var back := lru[|lru| - 1];
    var rest, fewer := lru[..|lru| - 1], buckets - {back.key};
    WithoutKeySize(buckets, back.key);
    forall k | k in fewer ensures fewer[k] in rest && fewer[k].key == k {
      NotLast(lru, buckets[k]);
    }
    forall i | 0 <= i < |rest| ensures rest[i].key in fewer && fewer[rest[i].key] == rest[i] {
      assert rest[i] == lru[i];
    }
  }

  lemma LinkedWithFront(buckets: map<string, Entry>, lru: seq<Entry>, b: Entry)
    requires Linked(buckets, lru) && b.key !in buckets
    ensures Linked(buckets[b.key := b], [b] + lru)
  {
    var r := [b] + lru;
    assert forall i :: 1 <= i < |r| ==> r[i] == lru[i - 1];
    assert forall x :: x in lru ==> x in r;
  }

  lemma LinkedMoved(buckets: map<string, Entry>, lru: seq<Entry>, i: nat)
    requires Linked(buckets, lru) && i < |lru|
    ensures Linked(buckets, [lru[i]] + (lru[..i] + lru[i + 1..]))
  {
    MovedToFront(lru, i);
  }

  class Limiter {
    const cfg: Config
    var buckets: map<string, Entry>
    var lru: seq<Entry>
    var lastSweep: Option<int>

    // The list as values, most recently used first.
    ghost var view: seq<Bucket>

    constructor (cfg: Config)
      ensures Valid() && this.cfg == cfg && Abstract() == INITIAL
    {
      this.cfg := cfg;
      buckets := map[];
      lru := [];
      lastSweep := None;
      view := [];
    }

    ghost predicate Valid()
      reads this, lru
    {
      && Linked(buckets, lru)
      && |view| == |lru|
      && (forall i :: 0 <= i < |lru| ==> lru[i].Is(view[i]))
    }

    ghost function Abstract(): State
      reads this
    {
      State(view, lastSweep)
    }

    lemma KeyListed(key: string)
      requires Valid()
      ensures key in buckets <==> HasKey(view, key)
    {
      if key in buckets {
        var i :| 0 <= i < |lru| && lru[i] == buckets[key];
        assert lru[i].Is(view[i]);
      }
      if HasKey(view, key) {
        var i :| 0 <= i < |view| && view[i].key == key;
        assert lru[i].Is(view[i]);
      }
    }

    lemma SizeLinked()
      requires Valid()
      ensures |buckets| == |view|
    {
    }

    lemma KeyLinked(key: string)
      requires Valid() && key in buckets
      ensures buckets[key] in lru && buckets[key].key == key
    {
    }

    // The place of an entry is where its key is first found.
    lemma Position(i: nat)
      requires Valid() && i < |lru|
      ensures HasKey(view, lru[i].key) && IndexOf(view, lru[i].key) == i
    {
      assert lru[i].Is(view[i]);
      var k := IndexOf(view, lru[i].key);
      assert lru[k].Is(view[k]);
    }

    method Take(key: string, now: int) returns (d: Decision)
      requires Valid()
      modifies this, lru
      ensures Valid()
      ensures (Abstract(), d) == TokenBucket.Take(cfg, old(Abstract()), key, now)
      ensures fresh(set b | b in lru && b !in old(lru))
    {
      hide Touch, Sweep, RetryAfter, Accrued, Linked;
      MaybeSweep(now);
      var b: Entry;
      if key !in buckets {
        b := Insert(key, now);
      } else {
        KeyLinked(key);
        b := buckets[key];
        Refresh(b, now);
      }
      if b.tokens >= 1.0 {
        Charge(b);
        return Allowed;
      }
      return Denied(RetryAfter(cfg, b.tokens));
    }

    // b.tokens--
    method Charge(b: Entry)
      requires Valid() && lru != [] && lru[0] == b
      modifies this`view, b`tokens
      ensures Valid()
      ensures view == [old(view)[0].(tokens := old(view)[0].tokens - 1.0)] + old(view)[1..]
    {
      b.tokens := b.tokens - 1.0;
      view := [view[0].(tokens := view[0].tokens - 1.0)] + view[1..];
    }

    // A new bucket starts full; the key cap is enforced before inserting.
    method Insert(key: string, now: int) returns (b: Entry)
      requires Valid() && key !in buckets
      modifies this`lru, this`buckets, this`view
      ensures Valid() && fresh(b) && lru != [] && lru[0] == b && b.Is(view[0])
      ensures forall x :: x in lru ==> x == b || x in old(lru)
      ensures view == Touch(cfg, old(view), key, now)
    {
      hide Linked, HasKey, IndexOf, Refilled;
      KeyListed(key);
      SizeLinked();
      if |buckets| >= cfg.MaxKeys() {
        EvictLRU();
      }
      b := new Entry(key, cfg.Capacity(), now);
      PushFront(b, Bucket(key, cfg.Capacity(), now));
    }

    // A known bucket gains what has accrued and moves to the front.
    method Refresh(b: Entry, now: int)
      requires Valid() && b in lru
      modifies this`lru, this`view, b
      ensures Valid() && lru != [] && lru[0] == b && b.Is(view[0])
      ensures forall x :: x in lru <==> x in old(lru)
      ensures view == Touch(cfg, old(view), b.key, now)
    {
      hide Linked, Refilled, HasKey, IndexOf;
      var i :| 0 <= i < |lru| && lru[i] == b;
      ghost var before := view;
      Position(i);
      Refill(b, i, now);
      MovedToFront(lru, i);
      MoveToFront(i);
      assert Without(before[i := Refilled(cfg, before[i], now)], i) == Without(before, i);
    }

    method Refill(b: Entry, ghost i: nat, now: int)
      requires Valid() && i < |lru| && lru[i] == b
      modifies this`view, b
      ensures Valid()
      ensures view == old(view)[i := Refilled(cfg, old(view)[i], now)]
    {
      hide Accrued;
      view := view[i := Refilled(cfg, view[i], now)];
      var elapsed := now - b.lastTick;
      if elapsed > 0 {
        b.tokens := TokenBucket.Min(cfg.Capacity(), b.tokens + Accrued(cfg, elapsed));
        b.lastTick := now;
      }
    }

    method PushFront(b: Entry, ghost value: Bucket)
      requires Valid() && b.key !in buckets && b.Is(value)
      modifies this`lru, this`buckets, this`view
      ensures Valid() && lru == [b] + old(lru) && view == [value] + old(view)
    {
      hide Linked;
      LinkedWithFront(buckets, lru, b);
      lru := [b] + lru;
      buckets := buckets[b.key := b];
      view := [value] + view;
    }

    method MoveToFront(i: nat)
      requires Valid() && i < |lru|
      modifies this`lru, this`view
      ensures Valid() && lru == [old(lru)[i]] + (old(lru)[..i] + old(lru)[i + 1..])
      ensures view == [old(view)[i]] + Without(old(view), i)
    {
      hide Linked;
      LinkedMoved(buckets, lru, i);
      MovedToFront(lru, i);
      MovedToFront(view, i);
      view := [view[i]] + Without(view, i);
      lru := [lru[i]] + (lru[..i] + lru[i + 1..]);
    }

    method EvictLRU()
      requires Valid()
      modifies this`lru, this`buckets, this`view
      ensures Valid() && buckets.Keys <= old(buckets).Keys
      ensures lru == if old(lru) == [] then [] else old(lru)[..|old(lru)| - 1]
      ensures view == if old(lru) == [] then [] else old(view)[..|old(view)| - 1]
    {
      if lru == [] {
        return;
      }
      RemoveBack();
    }

    // lru.Remove(back) and delete(buckets, back.key).
    method RemoveBack()
      requires Valid() && lru != []
      modifies this`lru, this`buckets, this`view
      ensures Valid() && buckets.Keys <= old(buckets).Keys
      ensures lru == old(lru)[..|old(lru)| - 1] && view == old(view)[..|old(view)| - 1]
    {
      hide Linked;
      var back := lru[|lru| - 1];
      LinkedWithoutBack(buckets, lru);
      lru := lru[..|lru| - 1];
      view := view[..|view| - 1];
      buckets := buckets - {back.key};
    }

    method MaybeSweep(now: int)
      requires Valid()
      modifies this`lru, this`buckets, this`view, this`lastSweep
      ensures Valid() && lru <= old(lru)
      ensures Abstract() == Sweep(cfg, old(Abstract()), now)
    {
      hide Linked;
      var ttl := cfg.IdleTTL();
      if lastSweep.Some? && now - lastSweep.value < ttl {
        return;
      }
      lastSweep := Some(now);
      var cutoff := now - ttl;
      while true
        invariant Valid() && lru <= old(lru) && lastSweep == Some(now)
        invariant DropStale(view, cutoff) == DropStale(old(view), cutoff)
        decreases |lru|
      {
        if lru == [] {
          return;
        }
        var b := lru[|lru| - 1];
        if !(b.lastTick < cutoff) {
          return;
        }
        RemoveBack();
      }
    }
  }

  // Moving one element to the front keeps the elements, each at a place known.
  lemma MovedToFront<T>(s: seq<T>, i: nat)
    requires i < |s|
    ensures
      var r := [s[i]] + (s[..i] + s[i + 1..]);
      && |r| == |s|
      && (forall j :: 0 <= j < |r| ==> r[j] == s[if j == 0 then i else if j <= i then j - 1 else j])
      && (forall x :: x in r <==> x in s)
  {
    assert s == s[..i] + [s[i]] + s[i + 1..];
  }
}
