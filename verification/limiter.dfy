/** The in-memory rate limiter: one bucket per key, in a bounded least-recently-used cache. */
module Limiter {
  import opened TokenBucket
  import opened LruCaches
  import opened Throttles

  /** One call of Allow. */
  datatype Call = Call(key: string, policy: Policy, time: Time)

  /** The bucket that an unbounded store would use for the key. */
  function BucketFor(store: map<string, Bucket>, c: Call): Bucket {
    if c.key in store then store[c.key] else Full(c.policy)
  }

  /** The new contents, the answer, and the key that was pushed out. */
  datatype Outcome = Outcome(cache: Lru<Bucket>, allowed: bool, gone: Option<(string, Bucket)>)

  /** What one call of Allow does to the cache. */
  function AllowStep(l: Lru<Bucket>, size: nat, c: Call): Outcome
    requires l.Valid(size) && size >= 1
  {
    var (ok, b) := Take(BucketFor(l.entries, c), c.time);
    if c.key in l.entries then
      Outcome(Lru(Touch(l, c.key).order, l.entries[c.key := b]), ok, None)
    else
      var (added, gone) := Add(l, size, c.key, b);
      Outcome(added, ok, gone)
  }

  /** The eviction hook complains only about a bucket with spent tokens. */
  predicate LosesTokens(gone: Option<(string, Bucket)>, t: Time) {
    gone.Some? && !gone.value.1.FullAt(t)
  }

  lemma AllowStepKeepsValid(l: Lru<Bucket>, size: nat, c: Call)
    requires l.Valid(size) && size >= 1
    ensures AllowStep(l, size, c).cache.Valid(size)
    ensures c.key in AllowStep(l, size, c).cache.entries
  {
    if c.key in l.entries {
      TouchKeepsValid(l, size, c.key);
    } else {
      AddKeepsValid(l, size, c.key, Take(Full(c.policy), c.time).1);
    }
  }

  class InMemoryLimiter {
    // The cache: its size, its recency order, and the bucket of each key.
    const size: nat
    var order: seq<string>
    var buckets: map<string, Bucket>

    const warnEvict: Throttle
    var warnings: seq<string>  // The keys that the eviction warning has named.

    ghost predicate Valid()
      reads this
    {
      size >= 1 && Contents().Valid(size)
    }

    function Contents(): Lru<Bucket>
      reads this
    {
      Lru(order, buckets)
    }

    constructor (size: nat)
      requires size >= 1
      ensures Valid() && fresh(warnEvict)
      ensures this.size == size && Contents() == Lru([], map[]) && warnings == []
      ensures warnEvict.every == EVICTION_WARN_INTERVAL && warnEvict.nextRun == 0
    {
      this.size := size;
      order, buckets := [], map[];
      warnEvict := new Throttle(EVICTION_WARN_INTERVAL);
      warnings := [];
    }

    /** The warning state after the hook has seen a key go. */
    ghost function Warned(gone: Option<(string, Bucket)>, now: Time): (Time, seq<string>)
      reads this, warnEvict
    {
      if LosesTokens(gone, now) then
        var (ran, next) := Throttled(warnEvict.every, warnEvict.nextRun, now);
        (next, if ran then warnings + [gone.value.0] else warnings)
      else
        (warnEvict.nextRun, warnings)
    }

    method OnEvict(key: string, limiter: Bucket, now: Time)
      modifies this`warnings, warnEvict
      ensures (warnEvict.nextRun, warnings) == old(Warned(Some((key, limiter)), now))
      ensures limiter.LevelAt(now) != limiter.capacity && now >= old(warnEvict.nextRun) ==>
        warnings == old(warnings) + [key] && warnEvict.nextRun == now + warnEvict.every
      ensures limiter.LevelAt(now) == limiter.capacity || now < old(warnEvict.nextRun) ==>
        warnings == old(warnings) && warnEvict.nextRun == old(warnEvict.nextRun)
    {
      if limiter.LevelAt(now) == limiter.capacity {
        return;
      }
      var ran := warnEvict.Call(now);
      if ran {
        warnings := warnings + [key];
      }
    }

    /** The cache lookup: a hit moves the key to the front. */
    method Get(key: string) returns (found: bool)
      requires Valid()
      modifies this`order
      ensures Valid() && (found <==> key in buckets)
      ensures Contents() == if found then Touch(old(Contents()), key) else old(Contents())
    {
      found := key in buckets;
      if found {
        TouchKeepsValid(Contents(), size, key);
        order := [key] + Without(order, key);
      }
    }

    /** Looks at a key that is there; otherwise adds the candidate, which may push out the oldest key. */
    method PeekOrAdd(key: string, candidate: Bucket) returns (existing: bool, gone: Option<(string, Bucket)>)
      requires Valid()
      modifies this`order, this`buckets
      ensures Valid() && key in buckets && (existing <==> key in old(buckets))
      ensures (Contents(), gone)
           == if existing then (old(Contents()), None) else Add(old(Contents()), size, key, candidate)
    {
      existing, gone := key in buckets, None;
      if existing {
        return;
      }
      AddKeepsValid(Contents(), size, key, candidate);
      ghost var before := Contents();
      order, buckets := [key] + order, buckets[key := candidate];
      if |order| > size {
        var oldest := order[|order| - 1];
        ElementsOf(before.order, oldest);
        gone := Some((oldest, buckets[oldest]));
        order, buckets := order[..|order| - 1], buckets - {oldest};
        assert order == Add(before, size, key, candidate).0.order;
      }
    }

    method Allow(key: string, p: Policy, now: Time) returns (allowed: bool)
      requires Valid()
      modifies this, warnEvict
      ensures Valid()
      ensures var o := AllowStep(old(Contents()), size, Call(key, p, now));
        && Contents() == o.cache && allowed == o.allowed
        && (warnEvict.nextRun, warnings) == old(Warned(o.gone, now))
    {
      var found := Get(key);
      if !found {
        var existing, gone := PeekOrAdd(key, Full(p));
        if gone.Some? {
          OnEvict(gone.value.0, gone.value.1, now);
        }
      }
      var (ok, drawn) := Take(buckets[key], now);
      allowed := ok;
      buckets := buckets[key := drawn];
    }
  }
}
