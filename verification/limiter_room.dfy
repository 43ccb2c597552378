/** What room the bounded limiter needs to answer like the unbounded one on every run: exactly one place for every key,
    unless no policy ever refuses. One step is one whole call of Allow. */
module LimiterRoom {
  import opened Arithmetic
  import opened TokenBucket
  import opened LruCaches
  import opened Limiter
  import opened LimiterRefinement

  // ---- Policies that refuse nothing need no room ----

  /** No policy has an interval to wait for, so that every draw is granted. */
  ghost predicate RefusesNothing(policyOf: string -> Policy) {
    forall key :: Interval(policyOf(key)) == 0
  }

  ghost predicate Unlimited(b: Bucket) {
    b.Valid() && b.interval == 0
  }

  lemma UnlimitedTake(b: Bucket, t: Time)
    requires Unlimited(b)
    ensures Take(b, t).0 && Unlimited(Take(b, t).1)
  {
  }

  lemma {:induction false} UnlimitedStore(run: Run, policyOf: string -> Policy)
    requires Policed(run, policyOf) && RefusesNothing(policyOf)
    ensures forall key | key in StoreAfter(run) :: Unlimited(StoreAfter(run)[key])
    ensures run.Then? ==> Granted(run)
  {
    if run.Then? {
      UnlimitedStore(run.before, policyOf);
      FullBucket(run.call.policy, run.call.time);
      UnlimitedTake(BucketFor(StoreAfter(run.before), run.call), run.call.time);
    }
  }

  lemma UnlimitedIsFull(b: Bucket, p: Policy, t: Time)
    requires Unlimited(b) && b.Follows(p)
    ensures b.FullAt(t)
  {
    TimesIsProduct(p.count, 0);
  }

  ghost predicate AllUnlimitedIn(l: Lru<Bucket>, policyOf: string -> Policy) {
    forall key | key in l.entries :: Unlimited(l.entries[key]) && l.entries[key].Follows(policyOf(key))
  }

  lemma UnlimitedStep(l: Lru<Bucket>, size: nat, c: Call, policyOf: string -> Policy)
    requires size >= 1 && l.Valid(size) && AllUnlimitedIn(l, policyOf)
    requires c.policy == policyOf(c.key) && RefusesNothing(policyOf)
    ensures var o := AllowStep(l, size, c);
      AllUnlimitedIn(o.cache, policyOf) && o.allowed && !LosesTokens(o.gone, c.time)
  {
    FullBucket(c.policy, c.time);
    var b := BucketFor(l.entries, c);
    UnlimitedTake(b, c.time);
    if c.key !in l.entries {
      AddKeepsValid(l, size, c.key, Take(b, c.time).1);
      var gone := Add(l, size, c.key, Take(b, c.time).1).1;
      if gone.Some? {
        UnlimitedIsFull(gone.value.1, policyOf(gone.value.0), c.time);
      }
    }
  }

  lemma {:induction false} UnlimitedAnswers(size: nat, run: Run, policyOf: string -> Policy)
    requires size >= 1 && Policed(run, policyOf) && RefusesNothing(policyOf)
    ensures AllUnlimitedIn(CacheAfter(size, run), policyOf) && SameAnswers(size, run)
  {
    if run.Then? {
      UnlimitedAnswers(size, run.before, policyOf);
      UnlimitedStep(CacheAfter(size, run.before), size, run.call, policyOf);
      UnlimitedStore(run, policyOf);
    }
  }

  // ---- One key too many makes the bounded limiter forget ----

  /** The one bucket of a key at time 0 after n grants at time 0. */
  ghost predicate Down(b: Bucket, p: Policy, n: nat) {
    b.Valid() && b.Follows(p) && b.last == 0 && b.level == Capacity(p) - Times(n, Interval(p))
  }

  lemma FullIsUp(p: Policy)
    ensures Down(Full(p), p, 0)
  {
    FullBucket(p, 0);
  }

  lemma DownByOne(b: Bucket, p: Policy, n: nat)
    requires Down(b, p, n) && n < p.count
    ensures Take(b, 0).0 && Down(Take(b, 0).1, p, n + 1)
  {
    TimesMonotone(n + 1, p.count, Interval(p));
  }

  lemma NothingLeft(b: Bucket, p: Policy)
    requires Down(b, p, p.count) && Interval(p) >= 1
    ensures !Take(b, 0).0
  {
  }

  function Other(key: string, j: nat): string {
    key + seq(j, _ => '+')
  }

  /** The keys 1 to j besides the first, the last one in front. */
  function Others(key: string, j: nat): seq<string> {
    if j == 0 then [] else [Other(key, j)] + Others(key, j - 1)
  }

  lemma {:induction false} OthersAreOthers(key: string, j: nat)
    ensures |Others(key, j)| == j && forall k | k in Others(key, j) :: |key| < |k| <= |key| + j
  {
    if j > 0 {
      OthersAreOthers(key, j - 1);
    }
  }

  /** n calls on the key at time 0. */
  ghost function Calls(key: string, p: Policy, n: nat): Run {
    if n == 0 then Start else Then(Calls(key, p, n - 1), Call(key, p, 0))
  }

  /** Then one call at time 0 on each of j others. */
  ghost function Crowd(key: string, j: nat, policyOf: string -> Policy): Run {
    if j == 0 then Calls(key, policyOf(key), policyOf(key).count)
    else Then(Crowd(key, j - 1, policyOf), Call(Other(key, j), policyOf(Other(key, j)), 0))
  }

  lemma {:induction false} CallsAreOnKey(key: string, n: nat, policyOf: string -> Policy)
    requires n >= 1
    ensures var run := Calls(key, policyOf(key), n);
      run.WellFormed(policyOf) && run.KeysSince(1) == {key} && run.call.time == 0
  {
    if n > 1 {
      CallsAreOnKey(key, n - 1, policyOf);
    } else {
      assert Calls(key, policyOf(key), 0) == Start;
    }
  }

  lemma {:induction false} CallsDrain(key: string, p: Policy, n: nat)
    requires n <= p.count
    ensures var store := StoreAfter(Calls(key, p, n));
      if n == 0 then store == map[] else key in store && Down(store[key], p, n)
  {
    if n > 0 {
      CallsDrain(key, p, n - 1);
      FullIsUp(p);
      DownByOne(BucketFor(StoreAfter(Calls(key, p, n - 1)), Call(key, p, 0)), p, n - 1);
    }
  }

  lemma {:induction false} CrowdLeavesDrained(key: string, j: nat, policyOf: string -> Policy)
    ensures var run := Crowd(key, j, policyOf);
      && run.Then? && run.WellFormed(policyOf) && run.call.time == 0
      && key in StoreAfter(run) && Down(StoreAfter(run)[key], policyOf(key), policyOf(key).count)
  {
    if j == 0 {
      CallsAreOnKey(key, policyOf(key).count, policyOf);
      CallsDrain(key, policyOf(key), policyOf(key).count);
    } else {
      CrowdLeavesDrained(key, j - 1, policyOf);
    }
  }

  /** The recency order after one more call. */
  function NextOrder(order: seq<string>, size: nat, key: string): seq<string> {
    if key in order then [key] + Without(order, key)
    else if |order| < size || order == [] then [key] + order
    else [key] + order[..|order| - 1]
  }

  ghost function OrderOf(size: nat, run: Run): seq<string> {
    if run.Start? then [] else NextOrder(OrderOf(size, run.before), size, run.call.key)
  }

  lemma StepOrder(l: Lru<Bucket>, size: nat, c: Call)
    requires size >= 1 && l.Valid(size)
    ensures AllowStep(l, size, c).cache.order == NextOrder(l.order, size, c.key)
  {
    ElementsOf(l.order, c.key);
  }

  lemma {:induction false} OrderIsOrder(size: nat, run: Run)
    requires size >= 1
    ensures CacheAfter(size, run).order == OrderOf(size, run)
  {
    if run.Then? {
      OrderIsOrder(size, run.before);
      StepOrder(CacheAfter(size, run.before), size, run.call);
    }
  }

  lemma {:induction false} CallsOrder(key: string, p: Policy, n: nat, size: nat)
    requires n >= 1
    ensures OrderOf(size, Calls(key, p, n)) == [key]
  {
    if n > 1 {
      CallsOrder(key, p, n - 1, size);
      assert Without([key], key) == Without([], key);
    } else {
      assert OrderOf(size, Calls(key, p, 0)) == [];
    }
  }

  lemma OneMoreOther(key: string, j: nat, size: nat)
    requires j < size
    ensures NextOrder(Others(key, j) + [key], size, Other(key, j + 1))
         == if j + 1 < size then Others(key, j + 1) + [key] else Others(key, j + 1)
  {
    OthersAreOthers(key, j);
    var order := Others(key, j) + [key];
    assert Other(key, j + 1) !in order;
    assert order[..j] == Others(key, j);
    assert Others(key, j + 1) == [Other(key, j + 1)] + Others(key, j);
  }

  lemma CrowdOrderStep(key: string, j: nat, size: nat, policyOf: string -> Policy)
    requires j < size && OrderOf(size, Crowd(key, j, policyOf)) == Others(key, j) + [key]
    ensures OrderOf(size, Crowd(key, j + 1, policyOf))
         == if j + 1 < size then Others(key, j + 1) + [key] else Others(key, j + 1)
  {
    OneMoreOther(key, j, size);
  }

  lemma {:induction false} CrowdPushesOut(key: string, j: nat, size: nat, policyOf: string -> Policy)
    requires size >= 1 && j <= size
    ensures OrderOf(size, Crowd(key, j, policyOf)) == if j < size then Others(key, j) + [key] else Others(key, j)
  {
    if j == 0 {
      CallsOrder(key, policyOf(key), policyOf(key).count, size);
      assert Others(key, 0) + [key] == [key];
    } else {
      CrowdPushesOut(key, j - 1, size, policyOf);
      CrowdOrderStep(key, j - 1, size, policyOf);
    }
  }

  lemma {:induction false} CrowdKeys(key: string, j: nat, policyOf: string -> Policy)
    ensures |Crowd(key, j, policyOf).KeysSince(1)| <= j + 1 && key in Crowd(key, j, policyOf).KeysSince(1)
  {
    if j == 0 {
      CallsAreOnKey(key, policyOf(key).count, policyOf);
    } else {
      CrowdKeys(key, j - 1, policyOf);
      var before := Crowd(key, j - 1, policyOf).KeysSince(1);
      assert before + {Other(key, j)} == before + ({Other(key, j)} - before);
    }
  }

  /** Count calls on a key, one on each of as many others as the cache holds, and one more on the key. */
  lemma ForgottenKey(key: string, size: nat, policyOf: string -> Policy) returns (run: Run)
    requires size >= 1 && Interval(policyOf(key)) >= 1
    ensures run.WellFormed(policyOf) && |run.KeysSince(1)| <= size + 1 && !SameAnswers(size, run)
  {
    var crowd, c := Crowd(key, size, policyOf), Call(key, policyOf(key), 0);
    run := Then(crowd, c);
    CrowdPushesOut(key, size, size, policyOf);
    OrderIsOrder(size, crowd);
    CrowdLeavesDrained(key, size, policyOf);
    CrowdKeys(key, size, policyOf);
    OthersAreOthers(key, size);
    ElementsOf(CacheAfter(size, crowd).order, key);
    FullBucket(policyOf(key), 0);
    NothingLeft(StoreAfter(crowd)[key], policyOf(key));
    assert run.KeysSince(1) == crowd.KeysSince(1);
  }

  ghost predicate AnswersAlike(run: Run, n: nat, size: nat, policyOf: string -> Policy)
    requires size >= 1
  {
    run.WellFormed(policyOf) && |run.KeysSince(1)| <= n ==> SameAnswers(size, run)
  }

  lemma {:induction false} WellFormedIsPoliced(run: Run, policyOf: string -> Policy)
    requires run.WellFormed(policyOf)
    ensures Policed(run, policyOf)
  {
    if run.Then? {
      WellFormedIsPoliced(run.before, policyOf);
    }
  }

  /** The bounded limiter answers every run with at most n keys like the unbounded one if and only if the cache has
      room for the n keys, or no policy ever refuses. */
  lemma SequentialExactlyWithRoom(n: nat, size: nat, policyOf: string -> Policy)
    requires size >= 1
    ensures (forall run :: AnswersAlike(run, n, size, policyOf)) <==> n <= size || RefusesNothing(policyOf)
  {
    if n <= size || RefusesNothing(policyOf) {
      forall run
        ensures AnswersAlike(run, n, size, policyOf)
      {
        if run.WellFormed(policyOf) && |run.KeysSince(1)| <= n {
          if RefusesNothing(policyOf) {
            WellFormedIsPoliced(run, policyOf);
            UnlimitedAnswers(size, run, policyOf);
          } else {
            FewKeysAnswerAlike(run, size);
          }
        }
      }
    } else {
      var key :| Interval(policyOf(key)) != 0;
      var run := ForgottenKey(key, size, policyOf);
      assert !AnswersAlike(run, n, size, policyOf);
    }
  }
}
