/** When evictions do no harm, in terms that can be watched from outside: no call takes as long as D, and no stretch of
    time shorter than the longest Per plus D sees more keys looked up than the cache can hold. */
module ConcurrentSparse {
  import opened TokenBucket
  import opened LruCaches
  import opened LimiterRefinement
  import opened ConcurrentLimiter
  import opened ConcurrentHarmless

  // ---- What can be watched ----

  /** The clock is read before anything else happens. */
  predicate Clocked(x: Execution) {
    x.After? ==> if x.before.Init? then x.event.Tick? else Clocked(x.before)
  }

  function Now(s: System): Time {
    if s.clock.Some? then s.clock.value else 0
  }

  /** The event brings its key to the front of the cache. */
  predicate Fronts(s: System, e: Event) {
    && Enabled(s, e)
    && ((e.Get? && s.threads[e.thread].key in s.cache.entries)
        || (e.PeekOrAdd? && s.threads[e.thread].key !in s.cache.entries))
  }

  function NextLooked(s: System, e: Event, looked: map<string, Time>): map<string, Time> {
    if Fronts(s, e) then looked[s.threads[e.thread].key := Now(s)] else looked
  }

  /** When each key was last brought to the front of the cache. */
  ghost function Looked(x: Execution, size: nat, policyOf: string -> Policy): map<string, Time>
    requires size >= 1
  {
    if x.Init? then map[]
    else NextLooked(StateOf(x.before, size, policyOf), x.event, Looked(x.before, size, policyOf))
  }

  function NextBegan(s: System, e: Event, began: map<Thread, Time>): map<Thread, Time> {
    if e.Get? && Enabled(s, e) then began[e.thread := Now(s)] else began
  }

  /** When each call made its Get. */
  ghost function Began(x: Execution, size: nat, policyOf: string -> Policy): map<Thread, Time>
    requires size >= 1
  {
    if x.Init? then map[]
    else NextBegan(StateOf(x.before, size, policyOf), x.event, Began(x.before, size, policyOf))
  }

  /** No call is under way for as long as d. */
  ghost predicate PromptNow(s: System, began: map<Thread, Time>, d: Time) {
    forall t | t in s.threads && !s.threads[t].Entered? :: t in began && Now(s) - began[t] < d
  }

  function LookedSince(looked: map<string, Time>, now: Time, w: Time): set<string> {
    set k | k in looked && now - looked[k] < w
  }

  /** At all times: calls are prompt, and few keys have been looked up within the last span plus d. */
  ghost predicate Sparse(x: Execution, size: nat, span: Time, d: Time, policyOf: string -> Policy)
    requires size >= 1
  {
    x.After? ==>
      && Sparse(x.before, size, span, d, policyOf)
      && PromptNow(StateOf(x, size, policyOf), Began(x, size, policyOf), d)
      && |LookedSince(Looked(x, size, policyOf), Now(StateOf(x, size, policyOf)), span + d)| <= size
  }

  /** No policy looks back further than the span. */
  ghost predicate Spanned(span: Time, policyOf: string -> Policy) {
    span >= 0 && forall key :: policyOf(key).per <= span
  }

  // ---- The recency order, in time ----

  ghost predicate NoLater(order: seq<string>, looked: map<string, Time>, t: Time) {
    forall k | k in order :: k in looked && looked[k] <= t
  }

  ghost predicate Aged(order: seq<string>, looked: map<string, Time>) {
    order == [] || (order[0] in looked && NoLater(order[1..], looked, looked[order[0]]) && Aged(order[1..], looked))
  }

  lemma {:induction false} WithoutStaysAged(order: seq<string>, key: string, looked: map<string, Time>)
    requires Aged(order, looked)
    ensures Aged(Without(order, key), looked)
  {
    if order != [] {
      WithoutStaysAged(order[1..], key, looked);
      WithoutIsPart(order[1..], key);
      if order[0] != key {
        assert Without(order, key)[1..] == Without(order[1..], key);
      }
    }
  }

  lemma {:induction false} ButLastStaysAged(order: seq<string>, looked: map<string, Time>)
    requires Aged(order, looked) && order != []
    ensures Aged(order[..|order| - 1], looked)
  {
    if |order| > 1 {
      ButLastStaysAged(order[1..], looked);
      var front := order[..|order| - 1];
      assert front[1..] == order[1..][..|order| - 2];
      forall k | k in front[1..]
        ensures k in looked && looked[k] <= looked[order[0]]
      {
        assert k in order[1..];
      }
    }
  }

  lemma {:induction false} LastIsOldest(order: seq<string>, looked: map<string, Time>)
    requires Aged(order, looked) && order != []
    ensures forall k | k in order :: k in looked && looked[k] >= looked[order[|order| - 1]]
  {
    if |order| > 1 {
      LastIsOldest(order[1..], looked);
      assert order[1..][|order| - 2] == order[|order| - 1];
      assert order[|order| - 1] in order[1..];
      forall k | k in order
        ensures k in looked && looked[k] >= looked[order[|order| - 1]]
      {
        assert k == order[0] || k in order[1..];
      }
    }
  }

  /** Keys that are not in the order may be looked up. */
  lemma {:induction false} AgedElsewhere(order: seq<string>, key: string, now: Time, looked: map<string, Time>)
    requires Aged(order, looked) && key !in order
    ensures Aged(order, looked[key := now])
  {
    if order != [] {
      AgedElsewhere(order[1..], key, now, looked);
    }
  }

  /** A key that is brought to the front now is the youngest. */
  lemma FrontIsYoungest(order: seq<string>, key: string, now: Time, looked: map<string, Time>)
    requires Aged(order, looked) && key !in order && forall k | k in looked :: looked[k] <= now
    ensures Aged([key] + order, looked[key := now])
  {
    AgedElsewhere(order, key, now, looked);
    assert ([key] + order)[1..] == order;
    AgedKeys(order, looked);
  }

  lemma {:induction false} AgedKeys(order: seq<string>, looked: map<string, Time>)
    requires Aged(order, looked)
    ensures forall k | k in order :: k in looked
  {
    if order != [] {
      AgedKeys(order[1..], looked);
      forall k | k in order
        ensures k in looked
      {
        assert k == order[0] || k in order[1..];
      }
    }
  }

  // ---- The invariant ----

  /** New, or not drawn from later than d after its key was looked up. */
  ghost predicate Recent(b: Bucket, looked: Time, d: Time, p: Policy) {
    b.Valid() && b.Follows(p) && (b == Full(p) || b.last <= looked + d)
  }

  /** The call began no later than its key was last looked up, if the key is there. */
  ghost predicate Follows(pc: Pc, began: Time, entries: map<string, Address>, looked: map<string, Time>) {
    pc.key in entries ==> pc.key in looked && began <= looked[pc.key]
  }

  ghost predicate ThreadsWatched(s: System, looked: map<string, Time>, began: map<Thread, Time>) {
    forall t | t in s.threads && !s.threads[t].Entered? ::
      t in began && began[t] <= Now(s) && Follows(s.threads[t], began[t], s.cache.entries, looked)
  }

  ghost predicate BucketsWatched(s: System, looked: map<string, Time>, d: Time, policyOf: string -> Policy) {
    forall k | k in s.cache.entries ::
      k in looked && s.cache.entries[k] < |s.heap| && Recent(s.heap[s.cache.entries[k]], looked[k], d, policyOf(k))
  }

  ghost predicate Watched(s: System, looked: map<string, Time>, began: map<Thread, Time>, d: Time,
                          policyOf: string -> Policy) {
    && s.clock.Some? && Aged(s.cache.order, looked) && (forall k | k in looked :: looked[k] <= Now(s))
    && ThreadsWatched(s, looked, began) && BucketsWatched(s, looked, d, policyOf)
  }

  lemma PlainStepWatches(s: System, e: Event, looked: map<string, Time>, began: map<Thread, Time>, d: Time, size: nat,
                         policyOf: string -> Policy)
    requires size >= 1 && s.cache.Valid(size) && Watched(s, looked, began, d, policyOf) && Enabled(s, e)
    requires e.Enter? || e.ReadClock? || e.Tick? || (e.PeekOrAdd? && s.threads[e.thread].key in s.cache.entries)
             || (e.Get? && s.threads[e.thread].key !in s.cache.entries)
    ensures Watched(Step(s, e, size, policyOf), NextLooked(s, e, looked), NextBegan(s, e, began), d, policyOf)
  {
  }

  lemma HitWatches(s: System, t: Thread, looked: map<string, Time>, began: map<Thread, Time>, d: Time, size: nat,
                   policyOf: string -> Policy)
    requires size >= 1 && s.cache.Valid(size) && Watched(s, looked, began, d, policyOf) && Enabled(s, Get(t))
    requires s.threads[t].key in s.cache.entries
    ensures Watched(Step(s, Get(t), size, policyOf), NextLooked(s, Get(t), looked), NextBegan(s, Get(t), began), d, policyOf)
  {
    var key := s.threads[t].key;
    StepGet(s, t, key, size, policyOf);
    WithoutStaysAged(s.cache.order, key, looked);
    WithoutIsPart(s.cache.order, key);
    FrontIsYoungest(Without(s.cache.order, key), key, Now(s), looked);
  }

  lemma DrawWatches(s: System, t: Thread, looked: map<string, Time>, began: map<Thread, Time>, d: Time, size: nat,
                    policyOf: string -> Policy)
    requires size >= 1 && s.cache.Valid(size) && Watched(s, looked, began, d, policyOf) && Enabled(s, AllowN(t))
    requires Threads(s) && Separate(s.cache.entries, s.heap) && PromptNow(s, began, d)
    ensures Watched(Step(s, AllowN(t), size, policyOf), looked, began, d, policyOf)
  {
    var Timed(key, id, now) := s.threads[t];
    StepDraw(s, t, size, policyOf);
    TakeKeepsValid(s.heap[id], now);
    assert HoldsInstalled(s.threads[t], s.cache.entries);
  }

  lemma AddedOrderIsAged(l: Lru<Address>, size: nat, key: string, id: Address, looked: map<string, Time>, now: Time)
    requires size >= 1 && l.Valid(size) && key !in l.entries && Aged(l.order, looked)
    requires forall k | k in looked :: looked[k] <= now
    ensures Aged(Add(l, size, key, id).0.order, looked[key := now])
  {
    ElementsOf(l.order, key);
    if |l.order| < size {
      FrontIsYoungest(l.order, key, now, looked);
    } else {
      ButLastStaysAged(l.order, looked);
      FrontIsYoungest(l.order[..|l.order| - 1], key, now, looked);
    }
  }

  lemma AddedStaysWatched(s: System, next: System, t: Thread, key: string, gone: set<string>, looked: map<string, Time>,
                          began: map<Thread, Time>, d: Time, policyOf: string -> Policy)
    requires s.clock.Some? && (forall k | k in looked :: looked[k] <= Now(s))
    requires ThreadsWatched(s, looked, began) && BucketsWatched(s, looked, d, policyOf)
    requires t in s.threads && s.threads[t] == Missed(key) && key !in s.cache.entries && key !in gone
    requires next.cache.entries == s.cache.entries[key := |s.heap|] - gone && next.clock == s.clock
    requires next.heap == s.heap + [Full(policyOf(key))] && next.threads == s.threads[t := Holding(key, |s.heap|)]
    ensures ThreadsWatched(next, looked[key := Now(s)], began)
    ensures BucketsWatched(next, looked[key := Now(s)], d, policyOf)
  {
    FullBucket(policyOf(key), 0);
  }

  /** The cache after an insertion, and what it pushes out: nothing, or the key at the back of a full cache. */
  lemma AddStep(s: System, t: Thread, size: nat, policyOf: string -> Policy) returns (out: set<string>)
    requires size >= 1 && s.cache.Valid(size) && Enabled(s, PeekOrAdd(t)) && s.threads[t].key !in s.cache.entries
    ensures var key, next := s.threads[t].key, Step(s, PeekOrAdd(t), size, policyOf);
      && next.cache == Add(s.cache, size, key, |s.heap|).0 && next.clock == s.clock && key !in out
      && next.cache.entries == s.cache.entries[key := |s.heap|] - out
      && next.heap == s.heap + [Full(policyOf(key))] && next.threads == s.threads[t := Holding(key, |s.heap|)]
    ensures out == {} || (|s.cache.order| == size && out == {s.cache.order[size - 1]})
  {
    var key := s.threads[t].key;
    StepAdd(s, t, key, size, policyOf);
    AddKeepsValid(s.cache, size, key, |s.heap|);
    var gone := Add(s.cache, size, key, |s.heap|).1;
    out := if gone.None? then {} else {gone.value.0};
  }

  lemma AddWatches(s: System, t: Thread, looked: map<string, Time>, began: map<Thread, Time>, d: Time, size: nat,
                   policyOf: string -> Policy)
    requires size >= 1 && s.cache.Valid(size) && Watched(s, looked, began, d, policyOf) && Enabled(s, PeekOrAdd(t))
    requires s.threads[t].key !in s.cache.entries
    ensures Watched(Step(s, PeekOrAdd(t), size, policyOf), NextLooked(s, PeekOrAdd(t), looked), began, d, policyOf)
  {
    var next, key := Step(s, PeekOrAdd(t), size, policyOf), s.threads[t].key;
    var out := AddStep(s, t, size, policyOf);
    AddedOrderIsAged(s.cache, size, key, |s.heap|, looked, Now(s));
    AddedStaysWatched(s, next, t, key, out, looked, began, d, policyOf);
  }

  // ---- What is pushed out is idle ----

  /** The key at the back has not been looked up for the span plus d. */
  lemma OldestIsOld(l: Lru<Address>, size: nat, key: string, looked: map<string, Time>, now: Time, w: Time)
    requires l.Valid(size) && key !in l.entries && |l.order| == size && size >= 1 && Aged(l.order, looked)
    requires |LookedSince(looked[key := now], now, w)| <= size && w > 0
    ensures now - looked[l.order[size - 1]] >= w
  {
    var oldest := l.order[size - 1];
    LastIsOldest(l.order, looked);
    ElementsOf(l.order, key);
    if now - looked[oldest] < w {
      forall k | k in Elements(l.order) + {key}
        ensures k in LookedSince(looked[key := now], now, w)
      {
        ElementsOf(l.order, k);
      }
      DistinctSize(l.order);
      SubsetSize(Elements(l.order) + {key}, LookedSince(looked[key := now], now, w));
    }
  }

  lemma OldIsIdle(s: System, key: string, looked: map<string, Time>, began: map<Thread, Time>, span: Time, d: Time,
                  policyOf: string -> Policy)
    requires Watched(s, looked, began, d, policyOf) && PromptNow(s, began, d) && Spanned(span, policyOf)
    requires key in s.cache.entries && Now(s) - looked[key] >= span + d
    ensures Idle(s, key)
  {
    var b := s.heap[s.cache.entries[key]];
    IntervalFits(policyOf(key));
    FullBucket(policyOf(key), Now(s));
    RefillIsMonotone(b, Now(s), Now(s));
    forall t | t in s.threads
      ensures !Holds(s.threads[t], key)
    {
    }
  }

  lemma AddPushesOutIdle(s: System, t: Thread, looked: map<string, Time>, began: map<Thread, Time>, span: Time, d: Time,
                         size: nat, policyOf: string -> Policy)
    requires size >= 1 && s.cache.Valid(size) && Watched(s, looked, began, d, policyOf) && PromptNow(s, began, d)
    requires Spanned(span, policyOf) && d >= 1 && Enabled(s, PeekOrAdd(t)) && s.threads[t].key !in s.cache.entries
    requires |LookedSince(NextLooked(s, PeekOrAdd(t), looked), Now(s), span + d)| <= size
    ensures PushesOutIdle(s, PeekOrAdd(t), size, policyOf)
  {
    var out := AddStep(s, t, size, policyOf);
    if out != {} {
      OldestIsOld(s.cache, size, s.threads[t].key, looked, Now(s), span + d);
      ElementsOf(s.cache.order, s.cache.order[size - 1]);
      OldIsIdle(s, s.cache.order[size - 1], looked, began, span, d, policyOf);
    }
  }

  lemma OtherPushesOutNothing(s: System, e: Event, size: nat, policyOf: string -> Policy)
    requires size >= 1 && s.cache.Valid(size)
    requires !(e.PeekOrAdd? && Enabled(s, e) && s.threads[e.thread].key !in s.cache.entries)
    ensures PushesOutIdle(s, e, size, policyOf)
  {
  }

  lemma StepWatches(s: System, e: Event, looked: map<string, Time>, began: map<Thread, Time>, d: Time, size: nat,
                    policyOf: string -> Policy)
    requires size >= 1 && s.cache.Valid(size) && Watched(s, looked, began, d, policyOf)
    requires Threads(s) && Separate(s.cache.entries, s.heap) && PromptNow(s, began, d)
    ensures Watched(Step(s, e, size, policyOf), NextLooked(s, e, looked), NextBegan(s, e, began), d, policyOf)
  {
    if !Enabled(s, e) {
    } else if e.AllowN? {
      DrawWatches(s, e.thread, looked, began, d, size, policyOf);
    } else if e.PeekOrAdd? && s.threads[e.thread].key !in s.cache.entries {
      AddWatches(s, e.thread, looked, began, d, size, policyOf);
    } else if e.Get? && s.threads[e.thread].key in s.cache.entries {
      HitWatches(s, e.thread, looked, began, d, size, policyOf);
    } else {
      PlainStepWatches(s, e, looked, began, d, size, policyOf);
    }
  }

  lemma FirstTickWatches(x: Execution, d: Time, size: nat, policyOf: string -> Policy)
    requires size >= 1 && x.After? && x.before.Init? && x.event.Tick?
    ensures Watched(StateOf(x, size, policyOf), Looked(x, size, policyOf), Began(x, size, policyOf), d, policyOf)
    ensures PushesOutIdle(StateOf(x.before, size, policyOf), x.event, size, policyOf)
  {
    StateAfter(x.before, x.event, size, policyOf);
  }

  /** If no call takes as long as d and no stretch of time shorter than the longest Per plus d sees more keys looked up
      than the cache can hold, every eviction is harmless: so concurrent calls linearise. */
  lemma {:induction false} SparseMeansHarmless(x: Execution, size: nat, span: Time, d: Time, policyOf: string -> Policy)
    requires size >= 1 && d >= 1 && Clocked(x) && Spanned(span, policyOf) && Sparse(x, size, span, d, policyOf)
    ensures HarmlessEvictions(x, size, policyOf)
    ensures x.After? ==>
      Watched(StateOf(x, size, policyOf), Looked(x, size, policyOf), Began(x, size, policyOf), d, policyOf)
  {
    if x.After? && x.before.Init? {
      FirstTickWatches(x, d, size, policyOf);
    } else if x.After? {
      SparseMeansHarmless(x.before, size, span, d, policyOf);
      LaterStep(x, size, span, d, policyOf);
    }
  }

  lemma LaterStep(x: Execution, size: nat, span: Time, d: Time, policyOf: string -> Policy)
    requires size >= 1 && d >= 1 && x.After? && x.before.After? && Spanned(span, policyOf)
    requires Sparse(x, size, span, d, policyOf) && HarmlessEvictions(x.before, size, policyOf)
    requires var y := x.before;
      Watched(StateOf(y, size, policyOf), Looked(y, size, policyOf), Began(y, size, policyOf), d, policyOf)
    ensures PushesOutIdle(StateOf(x.before, size, policyOf), x.event, size, policyOf)
    ensures Watched(StateOf(x, size, policyOf), Looked(x, size, policyOf), Began(x, size, policyOf), d, policyOf)
  {
    var s, e := StateOf(x.before, size, policyOf), x.event;
    StateAfter(x.before, e, size, policyOf);
    ConcurrentHarmless.InvThroughout(x.before, size, policyOf);
    StepWatches(s, e, Looked(x.before, size, policyOf), Began(x.before, size, policyOf), d, size, policyOf);
    if e.PeekOrAdd? && Enabled(s, e) && s.threads[e.thread].key !in s.cache.entries {
      AddPushesOutIdle(s, e.thread, Looked(x.before, size, policyOf), Began(x.before, size, policyOf), span, d, size, policyOf);
    } else {
      OtherPushesOutNothing(s, e, size, policyOf);
    }
  }

  /** In terms of answers. */
  lemma SparseCallsLinearise(x: Execution, size: nat, span: Time, d: Time, policyOf: string -> Policy)
    requires size >= 1 && d >= 1 && Clocked(x) && Spanned(span, policyOf) && Sparse(x, size, span, d, policyOf)
    ensures StateOf(x, size, policyOf).history.Linear()
  {
    SparseMeansHarmless(x, size, span, d, policyOf);
    HarmlessEvictionsLinearise(x, size, policyOf);
  }
}
