/** How many calls on one key the limiter admits, and when it may refuse. One step is one call of Allow. */
module LimiterBounds {
  import opened Arithmetic
  import opened TokenBucket
  import opened Limiter
  import opened LimiterRefinement

  ghost predicate Counts(c: Call, granted: bool, key: string, a: Time, b: Time) {
    c.key == key && a <= c.time <= b && granted
  }

  /** How many calls on the key the limiter of this size admitted at times in [a, b]. */
  ghost function Admitted(size: nat, run: Run, key: string, a: Time, b: Time): nat
    requires size >= 1
  {
    if run.Start? then 0
    else Admitted(size, run.before, key, a, b)
         + if Counts(run.call, LastOutcome(size, run).allowed, key, a, b) then 1 else 0
  }

  /** The same count for the limiter with room for every key. */
  ghost function Grants(run: Run, key: string, a: Time, b: Time): nat {
    if run.Start? then 0
    else Grants(run.before, key, a, b) + if Counts(run.call, Granted(run), key, a, b) then 1 else 0
  }

  lemma {:induction false} SameCount(size: nat, run: Run, key: string, a: Time, b: Time)
    requires size >= 1 && SameAnswers(size, run)
    ensures Admitted(size, run, key, a, b) == Grants(run, key, a, b)
  {
    if run.Then? {
      SameCount(size, run.before, key, a, b);
    }
  }

  /** The run has ended by time b. */
  ghost predicate EndsBy(run: Run, b: Time) {
    run.Then? ==> run.call.time <= b
  }

  function Min(x: int, y: int): int {
    if x < y then x else y
  }

  /** n admissions since time a are covered by one full bucket and the time up to the last of them. */
  ghost predicate Paid(k: Bucket, n: nat, a: Time) {
    k.last >= a && Times(n, k.interval) + k.level <= k.capacity + (k.last - a)
  }

  lemma TakePays(k: Bucket, n: nat, a: Time, t: Time)
    requires k.Valid() && t >= a && Take(k, t).0
    requires n >= 1 ==> t >= k.last && Paid(k, n, a)
    ensures Paid(Take(k, t).1, n + 1, a)
  {
  }

  /** A run that ends before a window has no admission in it. */
  lemma {:induction false} NothingBefore(run: Run, key: string, a: Time, b: Time, policyOf: string -> Policy)
    requires run.WellFormed(policyOf) && EndsBy(run, a - 1)
    ensures Grants(run, key, a, b) == 0
  {
    if run.Then? {
      NothingBefore(run.before, key, a, b, policyOf);
    }
  }

  lemma {:induction false} WindowIsPaidFor(run: Run, key: string, a: Time, b: Time, policyOf: string -> Policy)
    requires run.WellFormed(policyOf) && EndsBy(run, b)
    ensures var n := Grants(run, key, a, b);
      n >= 1 ==> (key in StoreAfter(run) && Paid(StoreAfter(run)[key], n, a))
  {
    if run.Then? {
      var c := run.call;
      WindowIsPaidFor(run.before, key, a, b, policyOf);
      LastBucket(run, policyOf);
      if c.key == key && Granted(run) {
        if c.time >= a {
          TakePays(BucketFor(StoreAfter(run.before), c), Grants(run.before, key, a, b), a, c.time);
        } else {
          NothingBefore(run.before, key, a, b, policyOf);
        }
      }
    }
  }

  lemma PaidIsBounded(k: Bucket, n: nat, p: Policy, a: Time, b: Time)
    requires Paid(k, n, a) && k.Follows(p) && k.level >= 0 && k.last <= b && Interval(p) >= 1 && a <= b
    ensures n <= p.count + (b - a) / Interval(p)
  {
    StepsBound(n, p.count, Interval(p), b - a);
  }

  lemma WindowIsBounded(run: Run, key: string, a: Time, b: Time, policyOf: string -> Policy)
    requires run.WellFormed(policyOf) && Interval(policyOf(key)) >= 1 && a <= b && EndsBy(run, b)
    ensures Grants(run, key, a, b) <= policyOf(key).count + (b - a) / Interval(policyOf(key))
  {
    var n := Grants(run, key, a, b);
    WindowIsPaidFor(run, key, a, b, policyOf);
    if n >= 1 {
      StoredBucket(run, key, policyOf);
      TimeAt(run, run.LastUse(key), policyOf);
      PaidIsBounded(StoreAfter(run)[key], n, policyOf(key), a, b);
    }
  }

  /** At most Count + (b - a) / interval grants in [a, b], for the limiter with room for every key. */
  lemma {:induction false} GrantBound(run: Run, key: string, a: Time, b: Time, policyOf: string -> Policy)
    requires run.WellFormed(policyOf) && Interval(policyOf(key)) >= 1 && a <= b
    ensures Grants(run, key, a, b) <= policyOf(key).count + (b - a) / Interval(policyOf(key))
  {
    if EndsBy(run, b) {
      WindowIsBounded(run, key, a, b, policyOf);
    } else {
      GrantBound(run.before, key, a, b, policyOf);
    }
  }

  /** The bound behind a policy, for the limiter as it runs: any window [a, b] of a sparse run admits at
      most Count + (b - a) / interval calls on a key. */
  lemma AdmissionBound(size: nat, run: Run, span: Time, key: string, a: Time, b: Time, policyOf: string -> Policy)
    requires size >= 1 && run.WellFormed(policyOf) && run.Sparse(size, span) && run.Spans(span)
    requires Interval(policyOf(key)) >= 1 && a <= b
    ensures Admitted(size, run, key, a, b) <= policyOf(key).count + (b - a) / Interval(policyOf(key))
  {
    BoundedEqualsUnbounded(size, run, span, policyOf);
    SameCount(size, run, key, a, b);
    GrantBound(run, key, a, b, policyOf);
  }

  /** A bucket holds at least what came back since u, less what n admissions since u took. */
  ghost predicate Saved(k: Bucket, n: nat, u: Time) {
    k.last > u ==> k.level >= Min(k.capacity, k.last - u) - Times(n, k.interval)
  }

  lemma TakeSaves(k: Bucket, n: nat, u: Time, t: Time)
    requires k.Valid() && Take(k, t).0 && t > u
    requires k.FullAt(t) || (t >= k.last && Saved(k, n, u))
    ensures Saved(Take(k, t).1, n + 1, u)
  {
  }

  lemma {:induction false} SpentSince(run: Run, key: string, u: Time, b: Time, policyOf: string -> Policy)
    requires run.WellFormed(policyOf) && EndsBy(run, b) && key in StoreAfter(run)
    ensures Saved(StoreAfter(run)[key], Grants(run, key, u + 1, b), u)
  {
    var c := run.call;
    LastBucket(run, policyOf);
    if key in StoreAfter(run.before) {
      SpentSince(run.before, key, u, b, policyOf);
    }
    if c.key == key && Granted(run) && c.time > u {
      TakeSaves(BucketFor(StoreAfter(run.before), c), Grants(run.before, key, u + 1, b), u, c.time);
    }
  }

  lemma RefusedBucket(k: Bucket, p: Policy, n: nat, t: Time)
    requires k.Valid() && k.Follows(p) && k.last <= t && !Take(k, t).0
    requires Saved(k, n, t - Capacity(p))
    ensures n >= p.count && Capacity(p) <= p.per
  {
    IntervalFits(p);
    if n < p.count {
      TimesMonotone(n, p.count - 1, Interval(p));
    }
  }

  lemma {:induction false} WiderWindow(run: Run, key: string, a': Time, a: Time, b: Time)
    requires a' <= a
    ensures Grants(run, key, a, b) <= Grants(run, key, a', b)
  {
    if run.Then? {
      WiderWindow(run.before, key, a', a, b);
    }
  }

  lemma RefusalNeedsGrants(run: Run, a: Time, policyOf: string -> Policy)
    requires run.Then? && run.WellFormed(policyOf) && !Granted(run)
    requires var (p, t) := (run.call.policy, run.call.time); a <= t - Capacity(p) + 1 || a <= t - p.per + 1
    ensures Grants(run.before, run.call.key, a, run.call.time) >= run.call.policy.count
  {
    var c := run.call;
    var u := c.time - Capacity(c.policy);
    LastBucket(run, policyOf);
    var k, n := StoreAfter(run.before)[c.key], Grants(run.before, c.key, u + 1, c.time);
    assert Saved(k, n, u) by {
      SpentSince(run.before, c.key, u, c.time, policyOf);
    }
    RefusedBucket(k, c.policy, n, c.time);
    WiderWindow(run.before, c.key, a, u + 1, c.time);
  }

  /** No false refusal: a call is refused only if at least Count calls on its key were admitted within
      the last Count * interval, and so within the last Per. */
  lemma RefusalMeansSpent(size: nat, run: Run, a: Time, span: Time, policyOf: string -> Policy)
    requires size >= 1 && run.Then? && run.WellFormed(policyOf) && run.Sparse(size, span) && run.Spans(span)
    requires var (p, t) := (run.call.policy, run.call.time); a <= t - Capacity(p) + 1 || a <= t - p.per + 1
    requires !LastOutcome(size, run).allowed
    ensures Admitted(size, run.before, run.call.key, a, run.call.time) >= run.call.policy.count
  {
    BoundedEqualsUnbounded(size, run, span, policyOf);
    SameCount(size, run.before, run.call.key, a, run.call.time);
    RefusalNeedsGrants(run, a, policyOf);
  }

  /** A key with fewer than Count admissions in the last Per is never refused. */
  lemma FewRecentMeansGranted(size: nat, run: Run, a: Time, span: Time, policyOf: string -> Policy)
    requires size >= 1 && run.Then? && run.WellFormed(policyOf) && run.Sparse(size, span) && run.Spans(span)
    requires var (p, t) := (run.call.policy, run.call.time); a <= t - Capacity(p) + 1 || a <= t - p.per + 1
    requires Admitted(size, run.before, run.call.key, a, run.call.time) < run.call.policy.count
    ensures LastOutcome(size, run).allowed
  {
    if !LastOutcome(size, run).allowed {
      RefusalMeansSpent(size, run, a, span, policyOf);
    }
  }

  /** n more calls like c. */
  ghost function Repeat(run: Run, c: Call, n: nat): Run {
    if n == 0 then run else Then(Repeat(run, c, n - 1), c)
  }

  /** Run b is run a and n more calls. */
  ghost predicate GoesOnFor(a: Run, b: Run, n: nat) {
    if n == 0 then b == a else b.Then? && GoesOnFor(a, b.before, n - 1)
  }

  lemma {:induction false} RepeatGoesOn(run: Run, c: Call, n: nat)
    ensures GoesOnFor(run, Repeat(run, c, n), n)
  {
    if n > 0 {
      RepeatGoesOn(run, c, n - 1);
    }
  }

  lemma {:induction false} CallsAdmitAtMost(size: nat, run: Run, next: Run, n: nat, key: string, a: Time, b: Time)
    requires size >= 1 && GoesOnFor(run, next, n)
    ensures Admitted(size, next, key, a, b) <= Admitted(size, run, key, a, b) + n
  {
    if n > 0 {
      CallsAdmitAtMost(size, run, next.before, n - 1, key, a, b);
    }
  }

  /** After Per without an admission on a key, the next Count back-to-back calls on it are all admitted. */
  lemma IdleKeyHasFullBurst(size: nat, run: Run, c: Call, n: nat, a: Time, span: Time, policyOf: string -> Policy)
    requires size >= 1 && n < c.policy.count && a <= c.time - c.policy.per + 1
    requires var r := Then(Repeat(run, c, n), c); r.WellFormed(policyOf) && r.Sparse(size, span) && r.Spans(span)
    requires Admitted(size, run, c.key, a, c.time) == 0
    ensures LastOutcome(size, Then(Repeat(run, c, n), c)).allowed
  {
    var before := Repeat(run, c, n);
    RepeatGoesOn(run, c, n);
    CallsAdmitAtMost(size, run, before, n, c.key, a, c.time);
    assert Admitted(size, before, c.key, a, c.time) <= n;
    FewRecentMeansGranted(size, Then(before, c), a, span, policyOf);
  }
}
