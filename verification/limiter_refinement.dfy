/** The bounded limiter answers like an unbounded one, as long as no stretch of time shorter than the
    longest refill sees more keys than the cache can hold. One step is one whole call of Allow. */
module LimiterRefinement {
  import opened TokenBucket
  import opened LruCaches
  import opened Limiter

  /** The calls of a run, oldest first; calls are numbered from 1. */
  datatype Run = Start | Then(before: Run, call: Call) {
    function Length(): nat {
      if Start? then 0 else before.Length() + 1
    }

    function At(i: nat): Call
      requires 1 <= i <= Length()
    {
      if i == Length() then call else before.At(i)
    }

    /** The number of the last call on a key, or 0. */
    function LastUse(key: string): (i: nat)
      ensures i <= Length()
    {
      if Start? then 0 else if call.key == key then Length() else before.LastUse(key)
    }

    /** The keys called from call i on. */
    function KeysSince(i: nat): set<string> {
      if Length() < i || Start? then {} else before.KeysSince(i) + {call.key}
    }

    /** The clock never goes back, and each key always comes with the same policy. */
    ghost predicate WellFormed(policyOf: string -> Policy) {
      Then? ==>
        && before.WellFormed(policyOf)
        && call.policy == policyOf(call.key)
        && (before.Then? ==> before.call.time <= call.time)
    }

    /** No policy of the run looks back further than the span. */
    ghost predicate Spans(span: Time) {
      span >= 0 && (Then? ==> before.Spans(span) && call.policy.per <= span)
    }

    ghost predicate FitsSince(i: nat, size: nat, span: Time)
      requires Then? && 1 <= i <= Length()
    {
      call.time - At(i).time < span ==> |KeysSince(i)| <= size
    }

    /** At most `size` distinct keys are called within any stretch of time shorter than the span. */
    ghost predicate Sparse(size: nat, span: Time) {
      Then? ==>
        && before.Sparse(size, span)
        && forall i :: 1 <= i <= Length() ==> FitsSince(i, size, span)
    }
  }

  /** The contents of the cache after a run. */
  ghost function CacheAfter(size: nat, run: Run): (l: Lru<Bucket>)
    requires size >= 1
    ensures l.Valid(size)
  {
    if run.Start? then Lru([], map[])
    else
      AllowStepKeepsValid(CacheAfter(size, run.before), size, run.call);
      AllowStep(CacheAfter(size, run.before), size, run.call).cache
  }

  /** What the last call of a run does to the bounded limiter. */
  ghost function LastOutcome(size: nat, run: Run): Outcome
    requires size >= 1 && run.Then?
  {
    AllowStep(CacheAfter(size, run.before), size, run.call)
  }

  /** A limiter with room for every key. */
  ghost function StoreAfter(run: Run): map<string, Bucket> {
    if run.Start? then map[]
    else
      var store := StoreAfter(run.before);
      store[run.call.key := Take(BucketFor(store, run.call), run.call.time).1]
  }

  /** Whether the limiter with room for every key grants the last call of a run. */
  ghost predicate Granted(run: Run)
    requires run.Then?
  {
    Take(BucketFor(StoreAfter(run.before), run.call), run.call.time).0
  }

  /** Every call comes with the policy of its key. */
  ghost predicate Policed(run: Run, policyOf: string -> Policy) {
    run.Then? ==> Policed(run.before, policyOf) && run.call.policy == policyOf(run.call.key)
  }

  lemma {:induction false} TimeAt(run: Run, i: nat, policyOf: string -> Policy)
    requires 1 <= i <= run.Length() && run.WellFormed(policyOf)
    ensures run.At(i).time <= run.call.time
  {
    if i < run.Length() {
      TimeAt(run.before, i, policyOf);
    }
  }

  lemma {:induction false} PolicyAt(run: Run, i: nat, span: Time, policyOf: string -> Policy)
    requires 1 <= i <= run.Length() && run.WellFormed(policyOf) && run.Spans(span)
    ensures run.At(i).policy == policyOf(run.At(i).key) && run.At(i).policy.per <= span
  {
    if i < run.Length() {
      PolicyAt(run.before, i, span, policyOf);
    }
  }

  lemma {:induction false} LastUseIsUse(run: Run, key: string)
    requires run.LastUse(key) >= 1
    ensures run.At(run.LastUse(key)).key == key
  {
    if run.call.key != key {
      LastUseIsUse(run.before, key);
    }
  }

  /** A stored bucket is sound, keeps the policy of its key, and has not been touched since its key was called. */
  lemma {:induction false} StoredBucket(run: Run, key: string, policyOf: string -> Policy)
    requires run.WellFormed(policyOf)
    ensures key in StoreAfter(run) <==> run.LastUse(key) >= 1
    ensures key in StoreAfter(run) ==>
      var b := StoreAfter(run)[key];
      b.Valid() && b.Follows(policyOf(key)) && b.last <= run.At(run.LastUse(key)).time
  {
    if run.Then? {
      StoredBucket(run.before, key, policyOf);
      var c := run.call;
      if c.key == key {
        FullBucket(c.policy, c.time);
        TakeKeepsValid(BucketFor(StoreAfter(run.before), c), c.time);
        if key in StoreAfter(run.before) {
          TimeAt(run, run.before.LastUse(key), policyOf);
        }
      }
    }
  }

  /** The bucket that the last call of a run draws from. */
  lemma LastBucket(run: Run, policyOf: string -> Policy)
    requires run.Then? && run.WellFormed(policyOf)
    ensures var c, store := run.call, StoreAfter(run.before); var k := BucketFor(store, c);
      && k.Valid() && k.Follows(c.policy)
      && (if c.key in store then k.last <= c.time else k.FullAt(c.time))
  {
    var c := run.call;
    FullBucket(c.policy, c.time);
    StoredBucket(run.before, c.key, policyOf);
    if c.key in StoreAfter(run.before) {
      TimeAt(run, run.before.LastUse(c.key), policyOf);
    }
  }

  /** The cache holds the buckets of the store, most recently called first, and what it lost was full. */
  ghost predicate Refines(l: Lru<Bucket>, run: Run) {
    var store := StoreAfter(run);
    && Ranked(l.order, k => run.LastUse(k))
    && (forall k | k in l.entries :: k in store && l.entries[k] == store[k])
    && (forall k | k in store && k !in l.entries :: run.Then? && store[k].FullAt(run.call.time))
  }

  ghost predicate StepRefines(o: Outcome, run: Run)
    requires run.Then?
  {
    Refines(o.cache, run) && o.allowed == Granted(run) && !LosesTokens(o.gone, run.call.time)
  }

  lemma {:induction false} UsedSince(run: Run, key: string, i: nat)
    requires 1 <= i <= run.LastUse(key)
    ensures key in run.KeysSince(i)
  {
    if run.call.key != key {
      UsedSince(run.before, key, i);
    }
  }

  lemma {:induction false} CalledSince(order: seq<string>, run: Run, i: nat)
    requires i >= 1 && forall k | k in order :: run.LastUse(k) >= i
    ensures Elements(order) <= run.KeysSince(i)
  {
    if order != [] {
      UsedSince(run, order[0], i);
      CalledSince(order[1..], run, i);
    }
  }

  /** All keys in the cache have been called since the oldest one was. */
  lemma OldestRanksLast(order: seq<string>, run: Run)
    requires order != [] && Ranked(order, k => run.LastUse(k))
    ensures forall k | k in order :: run.LastUse(k) >= run.LastUse(order[|order| - 1])
  {
    forall k | k in order
      ensures run.LastUse(k) >= run.LastUse(order[|order| - 1])
    {
      var at :| 0 <= at < |order| && order[at] == k;
    }
  }

  lemma {:induction false} SubsetSize(a: set<string>, b: set<string>)
    requires a <= b
    ensures |a| <= |b|
  {
    if a != {} {
      var x :| x in a;
      SubsetSize(a - {x}, b - {x});
    }
  }

  /** A new key and the keys of the cache have all been called since the oldest of them was. */
  lemma CalledSinceOldest(order: seq<string>, run: Run)
    requires run.Then? && order != [] && Distinct(order) && run.call.key !in Elements(order)
    requires Ranked(order, k => run.before.LastUse(k)) && run.before.LastUse(order[|order| - 1]) >= 1
    ensures |run.KeysSince(run.before.LastUse(order[|order| - 1]))| > |order|
  {
    var i := run.before.LastUse(order[|order| - 1]);
    assert Elements(order) <= run.before.KeysSince(i) by {
      OldestRanksLast(order, run.before);
      CalledSince(order, run.before, i);
    }
    DistinctSize(order);
    SubsetSize(Elements(order) + {run.call.key}, run.KeysSince(i));
  }

  /** The called key becomes the most recent one and the others keep their rank. */
  lemma RankAfter(rest: seq<string>, run: Run)
    requires run.Then? && Ranked(rest, k => run.before.LastUse(k)) && run.call.key !in rest
    ensures Ranked([run.call.key] + rest, k => run.LastUse(k))
  {
    forall i | 0 <= i < |rest|
      ensures run.LastUse(rest[i]) == run.before.LastUse(rest[i])
    {
      assert rest[i] in rest;
    }
  }

  /** A full bucket that the cache no longer holds is still full at the next call. */
  lemma LeftOutStaysFull(l: Lru<Bucket>, run: Run, policyOf: string -> Policy)
    requires run.Then? && run.WellFormed(policyOf) && Refines(l, run.before)
    ensures forall k | k in StoreAfter(run.before) && k !in l.entries ::
      StoreAfter(run.before)[k].FullAt(run.call.time)
  {
    forall k | k in StoreAfter(run.before) && k !in l.entries
      ensures StoreAfter(run.before)[k].FullAt(run.call.time)
    {
      StoredBucket(run.before, k, policyOf);
      RefillIsMonotone(StoreAfter(run.before)[k], run.before.call.time, run.call.time);
    }
  }

  lemma TouchRefines(l: Lru<Bucket>, size: nat, run: Run, policyOf: string -> Policy)
    requires run.Then? && run.WellFormed(policyOf) && size >= 1 && l.Valid(size)
    requires Refines(l, run.before) && run.call.key in l.entries
    ensures StepRefines(AllowStep(l, size, run.call), run)
  {
    WithoutKeepsOrder(l.order, run.call.key, k => run.before.LastUse(k));
    RankAfter(Without(l.order, run.call.key), run);
    LeftOutStaysFull(l, run, policyOf);
  }

  /** A key that the cache does not hold draws from a full bucket in both limiters. */
  lemma NewKeyAgrees(l: Lru<Bucket>, run: Run, policyOf: string -> Policy)
    requires run.Then? && run.WellFormed(policyOf) && Refines(l, run.before)
    requires run.call.key !in l.entries
    ensures Take(BucketFor(StoreAfter(run.before), run.call), run.call.time)
         == Take(Full(run.call.policy), run.call.time)
  {
    LeftOutStaysFull(l, run, policyOf);
    LastBucket(run, policyOf);
    FullBucket(run.call.policy, run.call.time);
  }

  /** A key called for the last time at least the span ago has its tokens back. */
  lemma IdleBucketIsFull(run: Run, key: string, span: Time, t: Time, policyOf: string -> Policy)
    requires run.WellFormed(policyOf) && run.Spans(span) && run.LastUse(key) >= 1
    requires t >= run.At(run.LastUse(key)).time + span
    ensures key in StoreAfter(run) && StoreAfter(run)[key].FullAt(t)
  {
    StoredBucket(run, key, policyOf);
    PolicyAt(run, run.LastUse(key), span, policyOf);
    LastUseIsUse(run, key);
    IntervalFits(policyOf(key));
    RefillIsMonotone(StoreAfter(run)[key], run.At(run.LastUse(key)).time, t);
  }

  /** What the cache pushes out for a new key is full. */
  lemma EvictedIsFull(l: Lru<Bucket>, size: nat, run: Run, span: Time, policyOf: string -> Policy)
    requires size >= 1 && run.Then? && run.WellFormed(policyOf) && run.Sparse(size, span) && run.Spans(span)
    requires l.Valid(size) && Refines(l, run.before) && run.call.key !in l.entries && |l.order| == size
    ensures l.order[size - 1] in l.entries && l.entries[l.order[size - 1]].FullAt(run.call.time)
  {
    var oldest := l.order[size - 1];
    ElementsOf(l.order, oldest);
    StoredBucket(run.before, oldest, policyOf);
    CalledSinceOldest(l.order, run);
    var i := run.before.LastUse(oldest);
    assert run.FitsSince(i, size, span);
    IdleBucketIsFull(run.before, oldest, span, run.call.time, policyOf);
  }

  /** What one call with a key that the cache does not hold does. */
  lemma NewKeyStep(l: Lru<Bucket>, size: nat, c: Call)
    requires size >= 1 && l.Valid(size) && c.key !in l.entries
    ensures var o := AllowStep(l, size, c);
      var (kept, lost) := if |l.order| == size then (l.order[..size - 1], {l.order[size - 1]}) else (l.order, {});
      && o.cache == Lru([c.key] + kept, l.entries[c.key := Take(Full(c.policy), c.time).1] - lost)
      && o.allowed == Take(Full(c.policy), c.time).0
      && (o.gone.None? <==> |l.order| < size)
      && (o.gone.Some? ==> o.gone.value.0 == l.order[size - 1] && o.gone.value.0 in l.entries
                           && o.gone.value.1 == l.entries[o.gone.value.0])
  {
    AddKeepsValid(l, size, c.key, Take(Full(c.policy), c.time).1);
  }

  /** Refinement after a new key, whatever the cache has lost for it, if that was full. */
  lemma RefinesWithNewKey(l: Lru<Bucket>, run: Run, kept: seq<string>, lost: set<string>, policyOf: string -> Policy)
    requires run.Then? && run.WellFormed(policyOf) && Refines(l, run.before)
    requires run.call.key !in l.entries && run.call.key !in kept
    requires Ranked(kept, k => run.before.LastUse(k))
    requires forall k | k in lost :: k in l.entries && l.entries[k].FullAt(run.call.time)
    ensures var c := run.call;
      Refines(Lru([c.key] + kept, l.entries[c.key := Take(Full(c.policy), c.time).1] - lost), run)
  {
    NewKeyAgrees(l, run, policyOf);
    LeftOutStaysFull(l, run, policyOf);
    RankAfter(kept, run);
  }

  lemma HarmlessAddRefines(l: Lru<Bucket>, size: nat, run: Run, policyOf: string -> Policy)
    requires size >= 1 && run.Then? && run.WellFormed(policyOf) && l.Valid(size) && run.call.key !in l.entries
    requires Refines(l, run.before) && !LosesTokens(AllowStep(l, size, run.call).gone, run.call.time)
    ensures StepRefines(AllowStep(l, size, run.call), run)
  {
    NewKeyAgrees(l, run, policyOf);
    ElementsOf(l.order, run.call.key);
    NewKeyStep(l, size, run.call);
    if |l.order| < size {
      RefinesWithNewKey(l, run, l.order, {}, policyOf);
    } else {
      RefinesWithNewKey(l, run, l.order[..size - 1], {l.order[size - 1]}, policyOf);
    }
  }

  lemma AddRefines(l: Lru<Bucket>, size: nat, run: Run, span: Time, policyOf: string -> Policy)
    requires size >= 1 && run.Then? && run.WellFormed(policyOf) && run.Sparse(size, span) && run.Spans(span)
    requires l.Valid(size) && run.call.key !in l.entries && Refines(l, run.before)
    ensures StepRefines(AllowStep(l, size, run.call), run)
  {
    NewKeyStep(l, size, run.call);
    if |l.order| == size {
      EvictedIsFull(l, size, run, span, policyOf);
    }
    HarmlessAddRefines(l, size, run, policyOf);
  }

  /** The simulation that holds throughout a sparse run. */
  lemma {:induction false} RefinesThroughout(size: nat, run: Run, span: Time, policyOf: string -> Policy)
    requires size >= 1 && run.WellFormed(policyOf) && run.Sparse(size, span) && run.Spans(span)
    ensures Refines(CacheAfter(size, run), run)
    ensures run.Then? ==> StepRefines(LastOutcome(size, run), run)
  {
    if run.Then? {
      RefinesThroughout(size, run.before, span, policyOf);
      var l := CacheAfter(size, run.before);
      if run.call.key in l.entries {
        TouchRefines(l, size, run, policyOf);
      } else {
        AddRefines(l, size, run, span, policyOf);
      }
    }
  }

  /** Every call of the run gets the answer of the unbounded limiter, and no eviction loses a spent token. */
  ghost predicate SameAnswers(size: nat, run: Run)
    requires size >= 1
  {
    run.Then? ==>
      && SameAnswers(size, run.before)
      && LastOutcome(size, run).allowed == Granted(run)
      && !LosesTokens(LastOutcome(size, run).gone, run.call.time)
  }

  lemma {:induction false} BoundedEqualsUnbounded(size: nat, run: Run, span: Time, policyOf: string -> Policy)
    requires size >= 1 && run.WellFormed(policyOf) && run.Sparse(size, span) && run.Spans(span)
    ensures SameAnswers(size, run)
  {
    if run.Then? {
      RefinesThroughout(size, run, span, policyOf);
      BoundedEqualsUnbounded(size, run.before, span, policyOf);
    }
  }

  /** No eviction of the run loses a spent token. */
  ghost predicate NeverLoses(size: nat, run: Run)
    requires size >= 1
  {
    run.Then? ==> NeverLoses(size, run.before) && !LosesTokens(LastOutcome(size, run).gone, run.call.time)
  }

  lemma {:induction false} RefinesWithoutLoss(size: nat, run: Run, policyOf: string -> Policy)
    requires size >= 1 && run.WellFormed(policyOf) && NeverLoses(size, run)
    ensures Refines(CacheAfter(size, run), run)
    ensures run.Then? ==> StepRefines(LastOutcome(size, run), run)
  {
    if run.Then? {
      RefinesWithoutLoss(size, run.before, policyOf);
      var l := CacheAfter(size, run.before);
      if run.call.key in l.entries {
        TouchRefines(l, size, run, policyOf);
      } else {
        HarmlessAddRefines(l, size, run, policyOf);
      }
    }
  }

  /** What the eviction hook looks for is all that can go wrong: a run without it, however many keys it uses and however
      fast, gets the answers of the unbounded limiter. */
  lemma {:induction false} NoLossMeansSameAnswers(size: nat, run: Run, policyOf: string -> Policy)
    requires size >= 1 && run.WellFormed(policyOf) && NeverLoses(size, run)
    ensures SameAnswers(size, run)
  {
    if run.Then? {
      RefinesWithoutLoss(size, run, policyOf);
      NoLossMeansSameAnswers(size, run.before, policyOf);
    }
  }

  lemma {:induction false} KeysGrow(run: Run, i: nat)
    requires i >= 1
    ensures run.KeysSince(i) <= run.KeysSince(1)
  {
    if run.Then? {
      KeysGrow(run.before, i);
    }
  }

  /** A run that uses at most `size` keys in all is sparse for every span. */
  lemma {:induction false} FewKeysAreSparse(run: Run, size: nat, span: Time)
    requires |run.KeysSince(1)| <= size
    ensures run.Sparse(size, span)
  {
    if run.Then? {
      SubsetSize(run.before.KeysSince(1), run.KeysSince(1));
      FewKeysAreSparse(run.before, size, span);
      forall i | 1 <= i <= run.Length()
        ensures run.FitsSince(i, size, span)
      {
        KeysGrow(run, i);
        SubsetSize(run.KeysSince(i), run.KeysSince(1));
      }
    }
  }

  lemma {:induction false} KeysAreStored(run: Run)
    ensures run.KeysSince(1) == StoreAfter(run).Keys
  {
    if run.Then? {
      KeysAreStored(run.before);
    }
  }

  lemma {:induction false} NothingEvictedYet(run: Run, size: nat)
    requires size >= 1 && |run.KeysSince(1)| <= size
    ensures CacheAfter(size, run).entries == StoreAfter(run)
    ensures run.Then? ==> LastOutcome(size, run).allowed == Granted(run) && LastOutcome(size, run).gone.None?
  {
    if run.Then? {
      SubsetSize(run.before.KeysSince(1), run.KeysSince(1));
      NothingEvictedYet(run.before, size);
      var l := CacheAfter(size, run.before);
      if run.call.key !in l.entries {
        KeysAreStored(run.before);
        SubsetSize(l.entries.Keys + {run.call.key}, run.KeysSince(1));
        assert |l.entries.Keys + {run.call.key}| == |l.entries| + 1;
        AddKeepsValid(l, size, run.call.key, Take(Full(run.call.policy), run.call.time).1);
      }
    }
  }

  /** With no more keys than the cache holds, bounded and unbounded limiter answer alike, whatever the clock does. */
  lemma {:induction false} FewKeysAnswerAlike(run: Run, size: nat)
    requires size >= 1 && |run.KeysSince(1)| <= size
    ensures SameAnswers(size, run)
  {
    if run.Then? {
      SubsetSize(run.before.KeysSince(1), run.KeysSince(1));
      FewKeysAnswerAlike(run.before, size);
      NothingEvictedYet(run, size);
    }
  }
}
