/** Evictions that do no harm to concurrent calls: those that the eviction hook passes over in silence, of a key that
    no call is drawing from. However many keys there are, with no other evictions concurrent calls linearise. */
module ConcurrentHarmless {
  import opened TokenBucket
  import opened LruCaches
  import opened Limiter
  import opened LimiterRefinement
  import opened ConcurrentLimiter
  import ConcurrentBounds

  ghost predicate FullNow(b: Bucket, clock: Option<Time>) {
    clock.Some? ==> b.FullAt(clock.value)
  }

  /** The key has spent no token that is not back by now, and nobody is about to draw from its bucket. */
  ghost predicate Idle(s: System, key: string)
    requires key in s.cache.entries
  {
    && s.cache.entries[key] < |s.heap| && FullNow(s.heap[s.cache.entries[key]], s.clock)
    && forall t | t in s.threads :: !Holds(s.threads[t], key)
  }

  /** What the event pushes out of the cache, if anything, is idle. */
  ghost predicate PushesOutIdle(s: System, e: Event, size: nat, policyOf: string -> Policy)
    requires size >= 1 && s.cache.Valid(size)
  {
    forall key | key in s.cache.entries :: key in Step(s, e, size, policyOf).cache.entries || Idle(s, key)
  }

  ghost predicate HarmlessEvictions(x: Execution, size: nat, policyOf: string -> Policy)
    requires size >= 1
  {
    x.After? ==>
      HarmlessEvictions(x.before, size, policyOf)
      && PushesOutIdle(StateOf(x.before, size, policyOf), x.event, size, policyOf)
  }

  // ---- The invariant ----

  /** The bucket is the store's; or it is new, and the store's is as good as new for every draw to come: for the
      readings already made of the calls that hold it, and from now on. */
  ghost predicate Stands(b: Bucket, key: string, store: map<string, Bucket>, threads: map<Thread, Pc>,
                         clock: Option<Time>, p: Policy) {
    || (key in store && b == store[key])
    || (b == Full(p) && (key in store ==> AsNew(store[key], key, threads, clock)))
  }

  /** Full now, and at every reading that waits to be drawn on. */
  ghost predicate AsNew(k: Bucket, key: string, threads: map<Thread, Pc>, clock: Option<Time>) {
    && clock.Some? && k.FullAt(clock.value)
    && forall t | t in threads && threads[t].Timed? && threads[t].key == key :: k.FullAt(threads[t].time)
  }

  ghost predicate StoreFits(store: map<string, Bucket>, policyOf: string -> Policy) {
    forall k | k in store :: store[k].Valid() && store[k].Follows(policyOf(k))
  }

  ghost predicate Separate(entries: map<string, Address>, heap: seq<Bucket>) {
    && (forall k | k in entries :: entries[k] < |heap|)
    && (forall k, k' | k in entries && k' in entries && k != k' :: entries[k] != entries[k'])
  }

  ghost predicate AllStand(s: System, store: map<string, Bucket>, policyOf: string -> Policy)
    requires Separate(s.cache.entries, s.heap)
  {
    && (forall k | k in s.cache.entries ::
          Stands(s.heap[s.cache.entries[k]], k, store, s.threads, s.clock, policyOf(k)))
    && (forall k | k in store && k !in s.cache.entries :: s.clock.Some? && store[k].FullAt(s.clock.value))
  }

  ghost predicate Threads(s: System) {
    forall t | t in s.threads ::
      && HoldsInstalled(s.threads[t], s.cache.entries)
      && (s.threads[t].Timed? ==> s.clock.Some? && s.threads[t].time <= s.clock.value)
  }

  ghost predicate Inv(s: System, policyOf: string -> Policy) {
    var store := StoreAfter(s.history.Calls());
    && Separate(s.cache.entries, s.heap) && Threads(s) && StoreFits(store, policyOf) && AllStand(s, store, policyOf)
    && s.history.Linear() && Policed(s.history.Calls(), policyOf) && (s.history.Drew? ==> s.clock.Some?)
  }

  // ---- Step by step ----

  /** A draw from a new bucket, and from one that is as good as new, come to the same. */
  lemma NewForOld(k: Bucket, p: Policy, t: Time)
    requires k.Valid() && k.Follows(p) && k.FullAt(t)
    ensures Take(k, t) == Take(Full(p), t)
  {
    FullBucket(p, t);
  }

  lemma StandingDraws(b: Bucket, key: string, store: map<string, Bucket>, threads: map<Thread, Pc>,
                      clock: Option<Time>, p: Policy, t: Thread)
    requires Stands(b, key, store, threads, clock, p)
    requires key in store ==> store[key].Valid() && store[key].Follows(p)
    requires t in threads && threads[t].Timed? && threads[t].key == key
    ensures Take(b, threads[t].time) == Take(BucketFor(store, Call(key, p, threads[t].time)), threads[t].time)
    ensures Take(b, threads[t].time).1.Valid() && Take(b, threads[t].time).1.Follows(p)
  {
    FullBucket(p, threads[t].time);
    if key in store && b != store[key] {
      NewForOld(store[key], p, threads[t].time);
    }
  }

  /** Every reading that still waits was there before, or was made at `now`. */
  ghost predicate Waits(threads: map<Thread, Pc>, threads': map<Thread, Pc>, now: Option<Time>) {
    forall t | t in threads' && threads'[t].Timed? ::
      (t in threads && threads[t] == threads'[t]) || now == Some(threads'[t].time)
  }

  ghost predicate Later(clock: Option<Time>, clock': Option<Time>) {
    clock' == clock || (clock'.Some? && (clock.Some? ==> clock.value <= clock'.value))
  }

  /** Later readings take nothing away. */
  lemma StandsLater(b: Bucket, key: string, store: map<string, Bucket>, threads: map<Thread, Pc>,
                    threads': map<Thread, Pc>, clock: Option<Time>, clock': Option<Time>, p: Policy)
    requires Stands(b, key, store, threads, clock, p) && (key in store ==> store[key].Valid())
    requires Waits(threads, threads', clock') && Later(clock, clock')
    ensures Stands(b, key, store, threads', clock', p)
  {
    if key in store && b != store[key] {
      RefillIsMonotone(store[key], clock.value, clock'.value);
    }
  }

  lemma FullLater(k: Bucket, clock: Option<Time>, clock': Option<Time>)
    requires k.Valid() && clock.Some? && k.FullAt(clock.value) && Later(clock, clock')
    ensures clock'.Some? && k.FullAt(clock'.value)
  {
    RefillIsMonotone(k, clock.value, clock'.value);
  }

  /** A step that leaves buckets, keys and history alone. */
  lemma AllStandLater(s: System, next: System, store: map<string, Bucket>, policyOf: string -> Policy)
    requires Separate(s.cache.entries, s.heap) && StoreFits(store, policyOf) && AllStand(s, store, policyOf)
    requires next.cache.entries == s.cache.entries && next.heap == s.heap
    requires Waits(s.threads, next.threads, next.clock) && Later(s.clock, next.clock)
    ensures AllStand(next, store, policyOf)
  {
    forall k | k in next.cache.entries
      ensures Stands(next.heap[next.cache.entries[k]], k, store, next.threads, next.clock, policyOf(k))
    {
      StandsLater(s.heap[s.cache.entries[k]], k, store, s.threads, next.threads, s.clock, next.clock, policyOf(k));
    }
    forall k | k in store && k !in next.cache.entries
      ensures next.clock.Some? && store[k].FullAt(next.clock.value)
    {
      FullLater(store[k], s.clock, next.clock);
    }
  }

  lemma LookUpKeepsInv(s: System, e: Event, size: nat, policyOf: string -> Policy)
    requires size >= 1 && s.cache.Valid(size) && Inv(s, policyOf) && Enabled(s, e) && !e.AllowN?
    requires e.PeekOrAdd? ==> s.threads[e.thread].key in s.cache.entries
    ensures Inv(Step(s, e, size, policyOf), policyOf)
  {
    AllStandLater(s, Step(s, e, size, policyOf), StoreAfter(s.history.Calls()), policyOf);
  }

  // A draw.

  lemma DrawStands(s: System, next: System, t: Thread, store: map<string, Bucket>, policyOf: string -> Policy)
    requires Separate(s.cache.entries, s.heap) && StoreFits(store, policyOf) && AllStand(s, store, policyOf)
    requires t in s.threads && s.threads[t].Timed? && HoldsInstalled(s.threads[t], s.cache.entries)
    requires var Timed(key, id, now) := s.threads[t];
      && next.cache == s.cache && next.clock == s.clock && next.threads == s.threads - {t}
      && next.heap == s.heap[id := Take(s.heap[id], now).1]
    ensures var c := Call(s.threads[t].key, policyOf(s.threads[t].key), s.threads[t].time);
      var store' := store[c.key := Take(BucketFor(store, c), c.time).1];
      && Take(s.heap[s.threads[t].bucket], c.time) == Take(BucketFor(store, c), c.time)
      && StoreFits(store', policyOf) && Separate(next.cache.entries, next.heap) && AllStand(next, store', policyOf)
  {
    var Timed(key, id, now) := s.threads[t];
    var c := Call(key, policyOf(key), now);
    StandingDraws(s.heap[id], key, store, s.threads, s.clock, policyOf(key), t);
    var store' := store[key := Take(BucketFor(store, c), now).1];
    forall k | k in next.cache.entries
      ensures Stands(next.heap[next.cache.entries[k]], k, store', next.threads, next.clock, policyOf(k))
    {
      if k != key {
        StandsLater(s.heap[s.cache.entries[k]], k, store, s.threads, next.threads, s.clock, next.clock, policyOf(k));
        SameStanding(s.heap[s.cache.entries[k]], k, store, store', next.threads, next.clock, policyOf(k));
      }
    }
  }

  lemma SameStanding(b: Bucket, k: string, store: map<string, Bucket>, store': map<string, Bucket>,
                     threads: map<Thread, Pc>, clock: Option<Time>, p: Policy)
    requires Stands(b, k, store, threads, clock, p)
    requires (k in store <==> k in store') && (k in store ==> store'[k] == store[k])
    ensures Stands(b, k, store', threads, clock, p)
  {
  }

  lemma DrawKeepsInv(s: System, t: Thread, size: nat, policyOf: string -> Policy)
    requires size >= 1 && s.cache.Valid(size) && Inv(s, policyOf) && Enabled(s, AllowN(t))
    ensures Inv(Step(s, AllowN(t), size, policyOf), policyOf)
  {
    StepDraw(s, t, size, policyOf);
    DrawStands(s, Step(s, AllowN(t), size, policyOf), t, StoreAfter(s.history.Calls()), policyOf);
  }

  // An insertion, with what it pushes out.

  /** A key that goes while it is idle is full in the store. */
  lemma IdleIsFull(s: System, k: string, store: map<string, Bucket>, policyOf: string -> Policy)
    requires Separate(s.cache.entries, s.heap) && AllStand(s, store, policyOf)
    requires k in s.cache.entries && Idle(s, k) && k in store && s.clock.Some?
    ensures store[k].FullAt(s.clock.value)
  {
    assert Stands(s.heap[s.cache.entries[k]], k, store, s.threads, s.clock, policyOf(k));
  }

  /** A key that comes back finds the store's bucket as good as new. */
  lemma NewStands(s: System, key: string, store: map<string, Bucket>, threads: map<Thread, Pc>, policyOf: string -> Policy)
    requires Separate(s.cache.entries, s.heap) && AllStand(s, store, policyOf) && Threads(s)
    requires key !in s.cache.entries && Waits(s.threads, threads, None)
    ensures Stands(Full(policyOf(key)), key, store, threads, s.clock, policyOf(key))
  {
    forall t | t in threads && threads[t].Timed?
      ensures threads[t].key != key
    {
      assert HoldsInstalled(s.threads[t], s.cache.entries);
    }
  }

  lemma InsertStands(s: System, next: System, t: Thread, key: string, gone: set<string>, store: map<string, Bucket>,
                     policyOf: string -> Policy)
    requires Separate(s.cache.entries, s.heap) && StoreFits(store, policyOf) && AllStand(s, store, policyOf) && Threads(s)
    requires key !in s.cache.entries && (store != map[] ==> s.clock.Some?)
    requires forall k | k in gone :: k in s.cache.entries && Idle(s, k)
    requires next.cache.entries == s.cache.entries[key := |s.heap|] - gone && next.clock == s.clock
    requires next.heap == s.heap + [Full(policyOf(key))] && next.threads == s.threads[t := Holding(key, |s.heap|)]
    ensures Separate(next.cache.entries, next.heap) && AllStand(next, store, policyOf)
  {
    forall k | k in next.cache.entries
      ensures Stands(next.heap[next.cache.entries[k]], k, store, next.threads, next.clock, policyOf(k))
    {
      if k == key {
        NewStands(s, key, store, next.threads, policyOf);
      } else {
        StandsLater(s.heap[s.cache.entries[k]], k, store, s.threads, next.threads, s.clock, next.clock, policyOf(k));
      }
    }
    forall k | k in store && k !in next.cache.entries
      ensures next.clock.Some? && store[k].FullAt(next.clock.value)
    {
      if k in gone {
        IdleIsFull(s, k, store, policyOf);
      }
    }
  }

  lemma InsertKeepsThreads(s: System, next: System, t: Thread, key: string, gone: set<string>)
    requires Threads(s) && key !in s.cache.entries && key !in gone
    requires forall k | k in gone :: k in s.cache.entries && Idle(s, k)
    requires next.cache.entries == s.cache.entries[key := |s.heap|] - gone && next.clock == s.clock
    requires next.threads == s.threads[t := Holding(key, |s.heap|)]
    ensures Threads(next)
  {
    forall t' | t' in next.threads && t' != t
      ensures HoldsInstalled(next.threads[t'], next.cache.entries)
    {
      assert HoldsInstalled(s.threads[t'], s.cache.entries);
    }
  }

  lemma InsertKeepsInv(s: System, t: Thread, size: nat, policyOf: string -> Policy)
    requires size >= 1 && s.cache.Valid(size) && Inv(s, policyOf) && Enabled(s, PeekOrAdd(t))
    requires s.threads[t].key !in s.cache.entries && PushesOutIdle(s, PeekOrAdd(t), size, policyOf)
    ensures Inv(Step(s, PeekOrAdd(t), size, policyOf), policyOf)
  {
    var key := s.threads[t].key;
    StepAdd(s, t, key, size, policyOf);
    AddKeepsValid(s.cache, size, key, |s.heap|);
    var next, gone := Step(s, PeekOrAdd(t), size, policyOf), Add(s.cache, size, key, |s.heap|).1;
    var out := if gone.None? then {} else {gone.value.0};
    var store := StoreAfter(s.history.Calls());
    InsertStands(s, next, t, key, out, store, policyOf);
    InsertKeepsThreads(s, next, t, key, out);
  }

  lemma StepKeepsInv(s: System, e: Event, size: nat, policyOf: string -> Policy)
    requires size >= 1 && s.cache.Valid(size) && Inv(s, policyOf) && PushesOutIdle(s, e, size, policyOf)
    ensures Inv(Step(s, e, size, policyOf), policyOf)
  {
    if !Enabled(s, e) {
    } else if e.AllowN? {
      DrawKeepsInv(s, e.thread, size, policyOf);
    } else if e.PeekOrAdd? && s.threads[e.thread].key !in s.cache.entries {
      InsertKeepsInv(s, e.thread, size, policyOf);
    } else {
      LookUpKeepsInv(s, e, size, policyOf);
    }
  }

  lemma {:induction false} InvThroughout(x: Execution, size: nat, policyOf: string -> Policy)
    requires size >= 1 && HarmlessEvictions(x, size, policyOf)
    ensures Inv(StateOf(x, size, policyOf), policyOf)
  {
    if x.After? {
      InvThroughout(x.before, size, policyOf);
      StateAfter(x.before, x.event, size, policyOf);
      StepKeepsInv(StateOf(x.before, size, policyOf), x.event, size, policyOf);
    }
  }

  /** Whatever the number of keys, as long as every key that is pushed out is one that the eviction hook finds full and
      that no call is drawing from, concurrent calls get the answers of a sequential limiter with room for every key,
      serving them in AllowN order. */
  lemma HarmlessEvictionsLinearise(x: Execution, size: nat, policyOf: string -> Policy)
    requires size >= 1 && HarmlessEvictions(x, size, policyOf)
    ensures StateOf(x, size, policyOf).history.Linear()
    ensures Policed(StateOf(x, size, policyOf).history.Calls(), policyOf)
  {
    InvThroughout(x, size, policyOf);
  }

  /** With room for every key there are no others. */
  lemma {:induction false} RoomMeansHarmless(x: Execution, size: nat, policyOf: string -> Policy)
    requires size >= 1 && |KeysEntered(x)| <= size
    ensures HarmlessEvictions(x, size, policyOf)
  {
    if x.After? {
      var keys := KeysEntered(x);
      SubsetSize(KeysEntered(x.before), keys);
      RoomMeansHarmless(x.before, size, policyOf);
      ConcurrentLimiter.InvThroughout(x.before, keys, size, policyOf);
      ConcurrentLimiter.StepKeepsInv(StateOf(x.before, size, policyOf), x.event, keys, size, policyOf);
    }
  }

  /** So they stay within the admission bound of a key whose draws come in clock order. */
  lemma HarmlessEvictionsKeepBound(x: Execution, size: nat, key: string, a: Time, b: Time, policyOf: string -> Policy)
    requires size >= 1 && HarmlessEvictions(x, size, policyOf) && Interval(policyOf(key)) >= 1 && a <= b
    requires ConcurrentBounds.InClockOrder(StateOf(x, size, policyOf).history.Calls(), key)
    ensures StateOf(x, size, policyOf).history.GrantedIn(key, a, b)
         <= policyOf(key).count + (b - a) / Interval(policyOf(key))
  {
    HarmlessEvictionsLinearise(x, size, policyOf);
    ConcurrentBounds.LinearBound(StateOf(x, size, policyOf).history, key, a, b, policyOf);
  }
}
