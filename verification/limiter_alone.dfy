/** The steps of one call of Allow, with no other call between them, are the one step of Limiter. */
module LimiterAlone {
  import opened TokenBucket
  import opened LruCaches
  import opened Limiter
  import opened ConcurrentLimiter

  /** Each key has a bucket at an address of its own. */
  ghost predicate Separate(cache: Lru<Address>, heap: seq<Bucket>) {
    && (forall k | k in cache.entries :: cache.entries[k] < |heap|)
    && (forall k, k' | k in cache.entries && k' in cache.entries && k != k' :: cache.entries[k] != cache.entries[k'])
  }

  /** The cache with the buckets themselves in it. */
  ghost function View(cache: Lru<Address>, heap: seq<Bucket>): Lru<Bucket>
    requires Separate(cache, heap)
  {
    Lru(cache.order, map k | k in cache.entries :: heap[cache.entries[k]])
  }

  /** One call after another thread's last step and before the next one's first. */
  ghost function CallAlone(s: System, t: Thread, key: string, now: Time, size: nat, policyOf: string -> Policy): System
    requires size >= 1 && s.cache.Valid(size)
  {
    StepKeepsCache(s, Enter(t, key), size, policyOf);
    var entered := Step(s, Enter(t, key), size, policyOf);
    StepKeepsCache(entered, Get(t), size, policyOf);
    var got := Step(entered, Get(t), size, policyOf);
    StepKeepsCache(got, PeekOrAdd(t), size, policyOf);
    var holding := Step(got, PeekOrAdd(t), size, policyOf);
    StepKeepsCache(holding, ReadClock(t, now), size, policyOf);
    Step(Step(holding, ReadClock(t, now), size, policyOf), AllowN(t), size, policyOf)
  }

  lemma HoldAlone(s: System, t: Thread, key: string, size: nat, policyOf: string -> Policy) returns (holding: System)
    requires size >= 1 && s.cache.Valid(size) && t !in s.threads && Separate(s.cache, s.heap)
    ensures holding.cache.Valid(size)
    ensures forall now :: CallAlone(s, t, key, now, size, policyOf)
                       == Step(Step(holding, ReadClock(t, now), size, policyOf), AllowN(t), size, policyOf)
    ensures var hit := key in s.cache.entries;
      holding == System(if hit then Touch(s.cache, key) else Add(s.cache, size, key, |s.heap|).0,
                        if hit then s.heap else s.heap + [Full(policyOf(key))],
                        s.threads[t := Holding(key, if hit then s.cache.entries[key] else |s.heap|)], s.clock, s.history)
  {
    StepKeepsCache(s, Enter(t, key), size, policyOf);
    var entered := Step(s, Enter(t, key), size, policyOf);
    StepKeepsCache(entered, Get(t), size, policyOf);
    var got := Step(entered, Get(t), size, policyOf);
    StepKeepsCache(got, PeekOrAdd(t), size, policyOf);
    holding := Step(got, PeekOrAdd(t), size, policyOf);
    var bucket := if key in s.cache.entries then s.cache.entries[key] else |s.heap|;
    assert holding.threads == s.threads[t := Holding(key, bucket)];
  }

  lemma DrawAlone(holding: System, t: Thread, key: string, id: Address, now: Time, size: nat, policyOf: string -> Policy)
    requires size >= 1 && holding.cache.Valid(size) && t in holding.threads && holding.threads[t] == Holding(key, id)
    requires id < |holding.heap| && (holding.clock.Some? ==> holding.clock.value <= now)
    ensures var (ok, b) := Take(holding.heap[id], now);
      Step(Step(holding, ReadClock(t, now), size, policyOf), AllowN(t), size, policyOf)
      == System(holding.cache, holding.heap[id := b], holding.threads - {t}, Some(now),
                Drew(holding.history, Call(key, policyOf(key), now), ok))
  {
    StepRead(holding, t, now, size, policyOf);
    var timed := Step(holding, ReadClock(t, now), size, policyOf);
    assert timed.threads - {t} == holding.threads - {t};
    StepDraw(timed, t, size, policyOf);
  }

  lemma HitView(cache: Lru<Address>, heap: seq<Bucket>, key: string, b: Bucket)
    requires Separate(cache, heap) && key in cache.entries
    ensures var heap' := heap[cache.entries[key] := b];
      && Separate(Touch(cache, key), heap')
      && View(Touch(cache, key), heap')
         == Lru(Touch(View(cache, heap), key).order, View(cache, heap).entries[key := b])
  {
  }

  lemma ViewOfAdded(entries: map<string, Address>, heap: seq<Bucket>, order: seq<string>, key: string, b: Bucket,
                    lost: set<string>)
    requires Separate(Lru(order, entries), heap) && key !in entries && key !in lost
    ensures var added := Lru(order, entries[key := |heap|] - lost);
      Separate(added, heap + [b])
      && View(added, heap + [b]).entries == View(Lru(order, entries), heap).entries[key := b] - lost
  {
  }

  lemma MissView(cache: Lru<Address>, heap: seq<Bucket>, size: nat, key: string, b: Bucket)
    requires Separate(cache, heap) && cache.Valid(size) && key !in cache.entries && size >= 1
    ensures var added := Add(cache, size, key, |heap|).0;
      Separate(added, heap + [b]) && View(cache, heap).Valid(size)
      && View(added, heap + [b]) == Add(View(cache, heap), size, key, b).0
  {
    assert View(cache, heap).entries.Keys == cache.entries.Keys;
    var n := |cache.order| - 1;
    if n + 1 < size {
      ViewOfAdded(cache.entries, heap, [key] + cache.order, key, b, {});
      assert cache.entries[key := |heap|] - {} == cache.entries[key := |heap|];
    } else {
      ElementsOf(cache.order, cache.order[n]);
      ViewOfAdded(cache.entries, heap, [key] + cache.order[..n], key, b, {cache.order[n]});
    }
  }

  lemma StepKeepsSeparate(s: System, e: Event, size: nat, policyOf: string -> Policy)
    requires size >= 1 && s.cache.Valid(size) && Separate(s.cache, s.heap)
    ensures Separate(Step(s, e, size, policyOf).cache, Step(s, e, size, policyOf).heap)
  {
  }

  /** Two keys never share a bucket, whatever is evicted and however the calls interleave. */
  lemma {:induction false} SeparateThroughout(x: Execution, size: nat, policyOf: string -> Policy)
    requires size >= 1
    ensures var s := StateOf(x, size, policyOf); Separate(s.cache, s.heap)
  {
    if x.After? {
      SeparateThroughout(x.before, size, policyOf);
      StateAfter(x.before, x.event, size, policyOf);
      StepKeepsSeparate(StateOf(x.before, size, policyOf), x.event, size, policyOf);
    }
  }

  lemma HitIsAllowStep(cache: Lru<Address>, heap: seq<Bucket>, size: nat, c: Call)
    requires size >= 1 && cache.Valid(size) && Separate(cache, heap) && c.key in cache.entries
    ensures View(cache, heap).Valid(size)
    ensures var id, o := cache.entries[c.key], AllowStep(View(cache, heap), size, c);
      var (ok, b) := Take(heap[id], c.time);
      && Separate(Touch(cache, c.key), heap[id := b])
      && View(Touch(cache, c.key), heap[id := b]) == o.cache && o.allowed == ok
  {
    assert View(cache, heap).entries.Keys == cache.entries.Keys;
    HitView(cache, heap, c.key, Take(heap[cache.entries[c.key]], c.time).1);
  }

  lemma MissIsAllowStep(cache: Lru<Address>, heap: seq<Bucket>, size: nat, c: Call)
    requires size >= 1 && cache.Valid(size) && Separate(cache, heap) && c.key !in cache.entries
    ensures View(cache, heap).Valid(size)
    ensures var added, o := Add(cache, size, c.key, |heap|).0, AllowStep(View(cache, heap), size, c);
      var (ok, b) := Take(Full(c.policy), c.time);
      && Separate(added, heap + [b]) && View(added, heap + [b]) == o.cache && o.allowed == ok
  {
    assert View(cache, heap).entries.Keys == cache.entries.Keys;
    MissView(cache, heap, size, c.key, Take(Full(c.policy), c.time).1);
  }

  /** With nothing in between, the small steps do to the cache, and answer, what AllowStep says. */
  lemma AloneIsAllowStep(s: System, t: Thread, key: string, now: Time, size: nat, policyOf: string -> Policy)
    requires size >= 1 && s.cache.Valid(size) && t !in s.threads && Separate(s.cache, s.heap)
    requires s.clock.Some? ==> s.clock.value <= now
    ensures View(s.cache, s.heap).Valid(size)
    ensures var next, call := CallAlone(s, t, key, now, size, policyOf), Call(key, policyOf(key), now);
      var o := AllowStep(View(s.cache, s.heap), size, call);
      && Separate(next.cache, next.heap) && View(next.cache, next.heap) == o.cache
      && next.history == Drew(s.history, call, o.allowed) && next.threads == s.threads && next.clock == Some(now)
  {
    var holding := HoldAlone(s, t, key, size, policyOf);
    var id := holding.threads[t].bucket;
    DrawAlone(holding, t, key, id, now, size, policyOf);
    assert holding.threads - {t} == s.threads;
    var call := Call(key, policyOf(key), now);
    if key in s.cache.entries {
      HitIsAllowStep(s.cache, s.heap, size, call);
    } else {
      assert holding.heap[id := Take(holding.heap[id], now).1] == s.heap + [Take(Full(policyOf(key)), now).1];
      MissIsAllowStep(s.cache, s.heap, size, call);
    }
  }
}
