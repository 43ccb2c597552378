/** What a policy really promises: the bound of LimiterBounds is reached, and the documented
    "at most Count within Per" is kept by every run exactly when Count is 1. */
module LimiterPolicy {
  import opened Arithmetic
  import opened TokenBucket
  import opened Limiter
  import opened LimiterRefinement
  import opened LimiterBounds

  /** Count calls at time 0 and then one more call each interval, m times, all on one key. */
  ghost function Drip(p: Policy, m: nat): Run {
    if m == 0 then Repeat(Start, Call("", p, 0), p.count)
    else Then(Drip(p, m - 1), Call("", p, Times(m, Interval(p))))
  }

  /** A run on the one key by a limiter with the one policy. */
  ghost predicate Plain(run: Run, p: Policy, end: Time, span: Time) {
    && run.WellFormed(_ => p) && run.Spans(span) && run.KeysSince(1) <= {""} && EndsBy(run, end)
  }

  lemma PlainStep(run: Run, p: Policy, end: Time, t: Time, span: Time)
    requires Plain(run, p, end, span) && end <= t && p.per <= span
    ensures Plain(Then(run, Call("", p, t)), p, t, span)
  {
  }

  lemma {:induction false} BurstIsPlain(p: Policy, n: nat, span: Time)
    requires span >= 0 && span >= p.per
    ensures Plain(Repeat(Start, Call("", p, 0), n), p, 0, span)
  {
    if n > 0 {
      BurstIsPlain(p, n - 1, span);
      PlainStep(Repeat(Start, Call("", p, 0), n - 1), p, 0, 0, span);
    }
  }

  lemma {:induction false} DripIsPlain(p: Policy, m: nat, span: Time)
    requires span >= 0 && span >= p.per
    ensures Plain(Drip(p, m), p, Times(m, Interval(p)), span)
  {
    if m == 0 {
      BurstIsPlain(p, p.count, span);
    } else {
      DripIsPlain(p, m - 1, span);
      PlainStep(Drip(p, m - 1), p, Times(m - 1, Interval(p)), Times(m, Interval(p)), span);
    }
  }

  /** A bucket that still holds n tokens at its last admission, at time t. */
  ghost predicate Holds(store: map<string, Bucket>, p: Policy, n: nat, t: Time) {
    "" in store && store[""].Follows(p) && store[""].level == Times(n, store[""].interval) && store[""].last == t
  }

  /** Taking one of the tokens it holds, or the one that came back since. */
  lemma HeldTokenIsGranted(run: Run, p: Policy, n: nat, t: Time, t': Time)
    requires Holds(StoreAfter(run), p, n, t)
    requires if n == 0 then t' == t + Interval(p) else t' == t && n <= p.count
    ensures var next := Then(run, Call("", p, t'));
      Granted(next) && Holds(StoreAfter(next), p, if n == 0 then 0 else n - 1, t')
  {
    IntervalFits(p);
    TimesMonotone(n, p.count, Interval(p));
  }

  lemma {:induction false} BurstDrains(p: Policy, n: nat, b: Time)
    requires 1 <= n <= p.count && b >= 0
    ensures var run := Repeat(Start, Call("", p, 0), n);
      Grants(run, "", 0, b) == n && Holds(StoreAfter(run), p, p.count - n, 0)
  {
    if n == 1 {
      FullBucket(p, 0);
      assert Repeat(Start, Call("", p, 0), 0) == Start;
    } else {
      BurstDrains(p, n - 1, b);
      HeldTokenIsGranted(Repeat(Start, Call("", p, 0), n - 1), p, p.count - n + 1, 0, 0);
    }
  }

  /** Every call of Drip is granted, and leaves the bucket empty. */
  lemma {:induction false} DripIsGranted(p: Policy, m: nat, b: Time)
    requires b >= Times(m, Interval(p))
    ensures Grants(Drip(p, m), "", 0, b) == p.count + m
    ensures Holds(StoreAfter(Drip(p, m)), p, 0, Times(m, Interval(p)))
  {
    if m == 0 {
      BurstDrains(p, p.count, b);
    } else {
      DripIsGranted(p, m - 1, b);
      HeldTokenIsGranted(Drip(p, m - 1), p, 0, Times(m - 1, Interval(p)), Times(m, Interval(p)));
    }
  }

  /** Drip, seen by a limiter of any size. */
  lemma DripIsAdmitted(size: nat, p: Policy, m: nat, b: Time, span: Time)
    requires size >= 1 && b >= Times(m, Interval(p)) && span >= 0 && span >= p.per
    ensures var run := Drip(p, m);
      && run.WellFormed(_ => p) && run.Sparse(size, span) && run.Spans(span)
      && Admitted(size, run, "", 0, b) == p.count + m
  {
    var run := Drip(p, m);
    DripIsGranted(p, m, b);
    DripIsPlain(p, m, span);
    SubsetSize(run.KeysSince(1), {""});
    FewKeysAreSparse(run, size, span);
    BoundedEqualsUnbounded(size, run, span, _ => p);
    SameCount(size, run, "", 0, b);
  }

  /** The admission bound cannot be improved: on windows of whole intervals it is reached. */
  lemma BoundIsReached(size: nat, p: Policy, m: nat, span: Time)
    requires size >= 1 && Interval(p) >= 1 && span >= 0 && span >= p.per
    ensures var (run, i) := (Drip(p, m), Interval(p)); var b := Times(m, i);
      && run.WellFormed(_ => p) && run.Sparse(size, span) && run.Spans(span)
      && Admitted(size, run, "", 0, b) == p.count + (b - 0) / i
  {
    var i := Interval(p);
    DripIsAdmitted(size, p, m, Times(m, i), span);
    WholeSteps(m, i);
  }

  /** On this run, no window [a, a + Per) holds more than Count admissions of the key. */
  ghost predicate KeptOn(size: nat, p: Policy, run: Run, key: string, a: Time, span: Time, policyOf: string -> Policy)
    requires size >= 1
  {
    run.WellFormed(policyOf) && run.Sparse(size, span) && run.Spans(span) && policyOf(key) == p ==>
      Admitted(size, run, key, a, a + p.per - 1) <= p.count
  }

  /** The comment on Policy, read as a promise about every run: at most Count within Per. */
  ghost predicate CommentHolds(size: nat, p: Policy)
    requires size >= 1
  {
    forall run, key, a, span, policyOf :: KeptOn(size, p, run, key, a, span, policyOf)
  }

  lemma SingleTokenKeeps(size: nat, p: Policy, run: Run, key: string, a: Time, span: Time, policyOf: string -> Policy)
    requires size >= 1 && p.per >= 1 && p.count == 1
    ensures KeptOn(size, p, run, key, a, span, policyOf)
  {
    if run.WellFormed(policyOf) && run.Sparse(size, span) && run.Spans(span) && policyOf(key) == p {
      assert Interval(p) == p.per by {
        TimesIsProduct(1, Interval(p));
      }
      AdmissionBound(size, run, span, key, a, a + p.per - 1, policyOf);
      NoWholeStep(p.per);
    }
  }

  /** With two or more tokens, Count calls at once and one more an interval later are all admitted. */
  lemma MoreTokensBreakComment(size: nat, p: Policy)
    requires size >= 1 && p.per >= 1 && p.count >= 2
    ensures !KeptOn(size, p, Drip(p, 1), "", 0, p.per, _ => p)
  {
    IntervalFits(p);
    TimesMonotone(2, p.count, Interval(p));
    TimesIsProduct(2, Interval(p));
    DripIsAdmitted(size, p, 1, p.per - 1, p.per);
  }

  /** "At most Count occurrences of a key within Per" holds on every run if and only if Count is 1. */
  lemma CommentHoldsIffSingleToken(size: nat, p: Policy)
    requires size >= 1 && p.per >= 1
    ensures CommentHolds(size, p) <==> p.count == 1
  {
    if p.count == 1 {
      forall run, key, a, span, policyOf
        ensures KeptOn(size, p, run, key, a, span, policyOf)
      {
        SingleTokenKeeps(size, p, run, key, a, span, policyOf);
      }
    } else {
      MoreTokensBreakComment(size, p);
    }
  }
}
