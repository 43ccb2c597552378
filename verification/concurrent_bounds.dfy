/** How many draws on one key concurrent calls can be granted. The clock never goes back, but a call may read it
    and draw only after another call, with a later reading, has drawn; what then still holds. */
module ConcurrentBounds {
  import opened Arithmetic
  import opened TokenBucket
  import opened LruCaches
  import opened Limiter
  import opened LimiterRefinement
  import opened LimiterBounds
  import opened ConcurrentLimiter

  // ---- Draws in clock order ----

  /** The calls of the run on one key. */
  ghost function Only(run: Run, key: string): Run {
    if run.Start? then Start
    else if run.call.key == key then Then(Only(run.before, key), run.call)
    else Only(run.before, key)
  }

  /** The draws on the key come in the order of their clock readings. */
  ghost predicate InClockOrder(run: Run, key: string) {
    run.Then? ==>
      && InClockOrder(run.before, key)
      && (run.call.key == key && Only(run.before, key).Then? ==> Only(run.before, key).call.time <= run.call.time)
  }

  lemma {:induction false} OnlyMatters(run: Run, key: string, a: Time, b: Time)
    ensures Grants(Only(run, key), key, a, b) == Grants(run, key, a, b)
    ensures key in StoreAfter(Only(run, key)) <==> key in StoreAfter(run)
    ensures key in StoreAfter(run) ==> StoreAfter(Only(run, key))[key] == StoreAfter(run)[key]
  {
    if run.Then? {
      OnlyMatters(run.before, key, a, b);
    }
  }

  lemma {:induction false} OnlyIsWellFormed(run: Run, key: string, policyOf: string -> Policy)
    requires Policed(run, policyOf) && InClockOrder(run, key)
    ensures Only(run, key).WellFormed(policyOf)
  {
    if run.Then? {
      OnlyIsWellFormed(run.before, key, policyOf);
    }
  }

  lemma LinearBound(h: History, key: string, a: Time, b: Time, policyOf: string -> Policy)
    requires h.Linear() && Policed(h.Calls(), policyOf) && InClockOrder(h.Calls(), key)
    requires Interval(policyOf(key)) >= 1 && a <= b
    ensures h.GrantedIn(key, a, b) <= policyOf(key).count + (b - a) / Interval(policyOf(key))
  {
    LinearCount(h, key, a, b);
    OnlyMatters(h.Calls(), key, a, b);
    OnlyIsWellFormed(h.Calls(), key, policyOf);
    GrantBound(Only(h.Calls(), key), key, a, b, policyOf);
  }

  /** Interleaved calls whose draws on a key come in clock order stay within the admission bound of the key. */
  lemma ConcurrentAdmissionBound(x: Execution, size: nat, key: string, a: Time, b: Time, policyOf: string -> Policy)
    requires size >= 1 && |KeysEntered(x)| <= size && Interval(policyOf(key)) >= 1 && a <= b
    requires InClockOrder(StateOf(x, size, policyOf).history.Calls(), key)
    ensures StateOf(x, size, policyOf).history.GrantedIn(key, a, b)
         <= policyOf(key).count + (b - a) / Interval(policyOf(key))
  {
    ConcurrentCallsLinearise(x, size, policyOf);
    LinearBound(StateOf(x, size, policyOf).history, key, a, b, policyOf);
  }

  // ---- A single token needs no clock order ----

  /** The bucket of a key with one token, after n grants in [a, b]: empty since its last grant. */
  ghost predicate SpentAt(k: Bucket, n: nat, a: Time, b: Time) {
    && k.Valid() && k.capacity == k.interval && k.interval >= 1
    && (k.level == 0 || n == 0)
    && (n >= 1 ==> k.last >= a && Times(n - 1, k.interval) <= Min(k.last, b) - a)
  }

  lemma SingleTokenStep(k: Bucket, n: nat, a: Time, b: Time, t: Time)
    requires SpentAt(k, n, a, b) && a <= b
    ensures SpentAt(Take(k, t).1, if Take(k, t).0 && a <= t <= b then n + 1 else n, a, b)
  {
    if Take(k, t).0 {
      TimesMonotone(0, n, k.interval);
    }
  }

  lemma SingleTokenFull(p: Policy, a: Time, b: Time)
    requires p.count == 1 && Interval(p) >= 1
    ensures SpentAt(Full(p), 0, a, b)
  {
    TimesIsProduct(1, Interval(p));
  }

  lemma {:induction false} SingleTokenSpent(run: Run, key: string, a: Time, b: Time, policyOf: string -> Policy)
    requires Policed(run, policyOf) && policyOf(key).count == 1 && Interval(policyOf(key)) >= 1 && a <= b
    ensures key !in StoreAfter(run) ==> Grants(run, key, a, b) == 0
    ensures key in StoreAfter(run) ==>
      SpentAt(StoreAfter(run)[key], Grants(run, key, a, b), a, b)
      && StoreAfter(run)[key].interval == Interval(policyOf(key))
  {
    if run.Then? {
      SingleTokenSpent(run.before, key, a, b, policyOf);
      if run.call.key == key {
        SingleTokenFull(policyOf(key), a, b);
        SingleTokenStep(BucketFor(StoreAfter(run.before), run.call), Grants(run.before, key, a, b), a, b, run.call.time);
      }
    }
  }

  lemma SingleTokenBound(run: Run, key: string, a: Time, b: Time, policyOf: string -> Policy)
    requires Policed(run, policyOf) && policyOf(key).count == 1 && Interval(policyOf(key)) >= 1 && a <= b
    ensures Grants(run, key, a, b) <= 1 + (b - a) / Interval(policyOf(key))
  {
    SingleTokenSpent(run, key, a, b, policyOf);
    var n := Grants(run, key, a, b);
    if n >= 1 {
      StepsBound(n - 1, 0, Interval(policyOf(key)), b - a);
    }
  }

  // ---- More tokens do: a late reading refills the bucket, an early one turns its clock back ----

  /** Every key comes with policy p. */
  function Always(p: Policy): string -> Policy {
    _ => p
  }

  /** The calls 0 to j - 1, all about to draw from bucket 0 at time 0. */
  ghost function Parked(j: nat): (parked: map<Thread, Pc>)
    ensures forall t: nat :: t in parked <==> t < j
    ensures forall t | t in parked :: parked[t] == Timed("", 0, 0)
  {
    if j == 0 then map[] else Parked(j - 1)[j - 1 := Timed("", 0, 0)]
  }

  /** Key "" has bucket 0, whose clock is at 0; j calls wait to draw at 0; n draws have been granted in [0, w]. */
  ghost predicate Poised(s: System, p: Policy, j: nat, n: nat, w: Time) {
    && s.cache.entries == map["" := 0] && |s.heap| == 1
    && s.heap[0].Valid() && s.heap[0].Follows(p) && s.heap[0].last == 0
    && s.threads == Parked(j) && s.clock.Some? && s.clock.value <= w && s.history.GrantedIn("", 0, w) == n
  }

  /** s goes to next by one call that finds bucket 0 and reads the clock. */
  ghost predicate Reads(s: System, next: System, t: Thread, now: Time) {
    && next.cache.entries == s.cache.entries && next.heap == s.heap && next.history == s.history
    && next.threads == s.threads[t := Timed("", 0, now)] && next.clock == Some(now)
  }

  /** s goes to next by a draw at time `now` from bucket 0. */
  ghost predicate Draws(s: System, next: System, t: Thread, now: Time, p: Policy) {
    && |s.heap| == 1 && next.cache.entries == s.cache.entries && next.clock == s.clock
    && next.threads == s.threads - {t} && next.heap == [Take(s.heap[0], now).1]
    && next.history == Drew(s.history, Call("", p, now), Take(s.heap[0], now).0)
  }

  /** A call of key "" that finds its bucket and reads the clock. */
  lemma ReadingSteps(s: System, t: Thread, now: Time, size: nat, policyOf: string -> Policy) returns (next: System)
    requires size >= 1 && s.cache.Valid(size)
    requires t !in s.threads && "" in s.cache.entries && (s.clock.Some? ==> s.clock.value <= now)
    ensures next.cache == Touch(s.cache, "") && next.heap == s.heap && next.history == s.history
    ensures next.threads == s.threads[t := Timed("", s.cache.entries[""], now)] && next.clock == Some(now)
    ensures var s1 := Step(s, Enter(t, ""), size, policyOf);
      s1.cache.Valid(size)
      && var s2 := Step(s1, Get(t), size, policyOf);
      s2.cache.Valid(size) && Step(s2, ReadClock(t, now), size, policyOf) == next
  {
    StepEnter(s, t, "", size, policyOf);
    var s1 := s.(threads := s.threads[t := Entered("")]);
    StepGet(s1, t, "", size, policyOf);
    TouchKeepsValid(s.cache, size, "");
    var s2 := s1.(cache := Touch(s.cache, ""), threads := s1.threads[t := Holding("", s.cache.entries[""])]);
    StepRead(s2, t, now, size, policyOf);
    next := s2.(threads := s2.threads[t := Timed("", s.cache.entries[""], now)], clock := Some(now));
    assert next.threads == s.threads[t := Timed("", s.cache.entries[""], now)];
  }

  lemma Reading(before: Execution, t: Thread, now: Time, size: nat, p: Policy) returns (x: Execution)
    requires size >= 1 && KeysEntered(before) == {""}
    requires var s := StateOf(before, size, Always(p));
      t !in s.threads && s.cache.entries == map["" := 0] && (s.clock.Some? ==> s.clock.value <= now)
    ensures KeysEntered(x) == {""}
    ensures Reads(StateOf(before, size, Always(p)), StateOf(x, size, Always(p)), t, now)
  {
    var next := ReadingSteps(StateOf(before, size, Always(p)), t, now, size, Always(p));
    var x1 := After(before, Enter(t, ""));
    var x2 := After(x1, Get(t));
    x := After(x2, ReadClock(t, now));
    StateAfter(before, Enter(t, ""), size, Always(p));
    StateAfter(x1, Get(t), size, Always(p));
    StateAfter(x2, ReadClock(t, now), size, Always(p));
    assert KeysEntered(x1) == {""};
    assert KeysEntered(x2) == {""};
  }

  lemma Drawing(before: Execution, t: Thread, now: Time, size: nat, p: Policy) returns (x: Execution)
    requires size >= 1 && KeysEntered(before) == {""}
    requires var s := StateOf(before, size, Always(p));
      t in s.threads && s.threads[t] == Timed("", 0, now) && |s.heap| == 1
    ensures KeysEntered(x) == {""}
    ensures Draws(StateOf(before, size, Always(p)), StateOf(x, size, Always(p)), t, now, p)
  {
    x := After(before, AllowN(t));
    StateAfter(before, AllowN(t), size, Always(p));
    StepDraw(StateOf(before, size, Always(p)), t, size, Always(p));
  }

  lemma FirstSteps(size: nat, p: Policy, w: nat) returns (s1: System, s2: System, s3: System, s4: System)
    requires size >= 1
    ensures var s0 := System(Lru([], map[]), [], map[], None, Nothing);
      && s1.cache.Valid(size) && s2.cache.Valid(size) && s3.cache.Valid(size)
      && s1 == Step(s0, Enter(0, ""), size, Always(p)) && s2 == Step(s1, Get(0), size, Always(p))
      && s3 == Step(s2, PeekOrAdd(0), size, Always(p)) && s4 == Step(s3, ReadClock(0, 0), size, Always(p))
    ensures Poised(s4, p, 1, 0, w) && s4.clock == Some(0)
  {
    var s0 := System(Lru([], map[]), [], map[], None, Nothing);
    StepEnter(s0, 0, "", size, Always(p));
    s1 := s0.(threads := s0.threads[0 := Entered("")]);
    StepGet(s1, 0, "", size, Always(p));
    s2 := s1.(threads := s1.threads[0 := Missed("")]);
    StepAdd(s2, 0, "", size, Always(p));
    AddKeepsValid(s0.cache, size, "", 0);
    s3 := s2.(cache := Add(s0.cache, size, "", 0).0, heap := [Full(p)], threads := s2.threads[0 := Holding("", 0)]);
    StepRead(s3, 0, 0, size, Always(p));
    s4 := s3.(threads := s3.threads[0 := Timed("", 0, 0)], clock := Some(0));
    NewlyPoised(s4, p, w);
  }

  lemma NewlyPoised(s: System, p: Policy, w: nat)
    requires s.cache.entries == map["" := 0] && s.heap == [Full(p)] && s.history == Nothing && s.clock == Some(0)
    requires s.threads == map[0 := Timed("", 0, 0)]
    ensures Poised(s, p, 1, 0, w)
  {
    FullBucket(p, 0);
    assert s.threads == Parked(1);
  }

  lemma FirstParked(size: nat, p: Policy, w: nat) returns (x: Execution)
    requires size >= 1
    ensures Poised(StateOf(x, size, Always(p)), p, 1, 0, w) && KeysEntered(x) == {""}
    ensures StateOf(x, size, Always(p)).clock == Some(0)
  {
    var x1 := After(Init, Enter(0, ""));
    var x2 := After(x1, Get(0));
    var x3 := After(x2, PeekOrAdd(0));
    x := After(x3, ReadClock(0, 0));
    var s1, s2, s3, s4 := FirstSteps(size, p, w);
    StateAfter(Init, Enter(0, ""), size, Always(p));
    StateAfter(x1, Get(0), size, Always(p));
    StateAfter(x2, PeekOrAdd(0), size, Always(p));
    StateAfter(x3, ReadClock(0, 0), size, Always(p));
    assert KeysEntered(x1) == {""};
    assert KeysEntered(x3) == {""};
  }

  lemma OneMoreParked(s: System, next: System, p: Policy, j: nat, w: nat)
    requires Poised(s, p, j, 0, w) && Reads(s, next, j, 0)
    ensures Poised(next, p, j + 1, 0, w)
  {
    assert Parked(j)[j := Timed("", 0, 0)] == Parked(j + 1);
  }

  lemma ParkOne(before: Execution, j: nat, size: nat, p: Policy, w: nat) returns (x: Execution)
    requires size >= 1 && KeysEntered(before) == {""}
    requires Poised(StateOf(before, size, Always(p)), p, j, 0, w)
    requires StateOf(before, size, Always(p)).clock == Some(0)
    ensures Poised(StateOf(x, size, Always(p)), p, j + 1, 0, w) && KeysEntered(x) == {""}
    ensures StateOf(x, size, Always(p)).clock == Some(0)
  {
    x := Reading(before, j, 0, size, p);
    OneMoreParked(StateOf(before, size, Always(p)), StateOf(x, size, Always(p)), p, j, w);
  }

  lemma {:induction false} Park(j: nat, size: nat, p: Policy, w: nat) returns (x: Execution)
    requires j >= 1 && size >= 1
    ensures Poised(StateOf(x, size, Always(p)), p, j, 0, w) && KeysEntered(x) == {""}
    ensures StateOf(x, size, Always(p)).clock == Some(0)
  {
    if j == 1 {
      x := FirstParked(size, p, w);
    } else {
      var before := Park(j - 1, size, p, w);
      x := ParkOne(before, j - 1, size, p, w);
    }
  }

  /** A draw two intervals late is granted, and so is the draw at 0 after it: nothing is lost. */
  lemma LateThenEarly(k: Bucket, p: Policy)
    requires k.Valid() && k.Follows(p) && k.last == 0 && p.count >= 2 && Interval(p) >= 1
    ensures var (late, k') := Take(k, 2 * Interval(p));
      var (early, k'') := Take(k', 0);
      late && early && k''.Valid() && k''.Follows(p) && k''.last == 0
  {
    TimesMonotone(2, p.count, Interval(p));
    TimesIsProduct(2, Interval(p));
  }

  /** What is left of a poised system after one more call has read the clock at 2 * interval. */
  ghost predicate Late(s: System, late: System, p: Policy, j: nat, m: nat) {
    && late.cache.entries == map["" := 0] && late.heap == s.heap && late.history == s.history
    && late.threads == Parked(j)[m := Timed("", 0, 2 * Interval(p))] && late.clock == Some(2 * Interval(p))
  }

  /** Two draws later the system is poised again, with two more grants. */
  lemma TwoDraws(s: System, late: System, drawn: System, next: System, p: Policy, j: nat, m: nat, n: nat)
    requires p.count >= 2 && Interval(p) >= 1 && 1 <= j <= m
    requires Poised(s, p, j, n, 2 * Interval(p)) && Late(s, late, p, j, m)
    requires Draws(late, drawn, m, 2 * Interval(p), p) && Draws(drawn, next, j - 1, 0, p)
    ensures Poised(next, p, j - 1, n + 2, 2 * Interval(p))
  {
    LateThenEarly(s.heap[0], p);
    assert Parked(j)[m := Timed("", 0, 2 * Interval(p))] - {m} == Parked(j);
    assert Parked(j) - {j - 1} == Parked(j - 1);
  }

  /** One more call reads the clock at 2 * interval and draws; then a waiting call draws at 0. */
  lemma Round(before: Execution, m: nat, j: nat, n: nat, size: nat, p: Policy) returns (x: Execution)
    requires size >= 1 && p.count >= 2 && Interval(p) >= 1 && 1 <= j <= m && KeysEntered(before) == {""}
    requires Poised(StateOf(before, size, Always(p)), p, j, n, 2 * Interval(p))
    ensures Poised(StateOf(x, size, Always(p)), p, j - 1, n + 2, 2 * Interval(p)) && KeysEntered(x) == {""}
  {
    var late := Reading(before, m, 2 * Interval(p), size, p);
    var drawn := Drawing(late, m, 2 * Interval(p), size, p);
    DrawnThreads(StateOf(late, size, Always(p)), StateOf(drawn, size, Always(p)), p, j, m);
    x := Drawing(drawn, j - 1, 0, size, p);
    TwoDraws(StateOf(before, size, Always(p)), StateOf(late, size, Always(p)), StateOf(drawn, size, Always(p)),
             StateOf(x, size, Always(p)), p, j, m, n);
  }

  lemma DrawnThreads(late: System, drawn: System, p: Policy, j: nat, m: nat)
    requires 1 <= j <= m && late.threads == Parked(j)[m := Timed("", 0, 2 * Interval(p))]
    requires drawn.threads == late.threads - {m}
    ensures j - 1 in drawn.threads && drawn.threads[j - 1] == Timed("", 0, 0)
  {
  }

  lemma {:induction false} Rounds(r: nat, m: nat, size: nat, p: Policy) returns (x: Execution)
    requires size >= 1 && p.count >= 2 && Interval(p) >= 1 && r <= m && 1 <= m
    ensures Poised(StateOf(x, size, Always(p)), p, m - r, 2 * r, 2 * Interval(p)) && KeysEntered(x) == {""}
  {
    if r == 0 {
      x := Park(m, size, p, 2 * Interval(p));
    } else {
      var before := Rounds(r - 1, m, size, p);
      x := Round(before, m, m - r + 1, 2 * (r - 1), size, p);
    }
  }

  /** With two or more tokens there is no bound at all: for every n an execution, with one key and a clock that does
      not go back, in which n draws are granted within two intervals. */
  lemma OutOfOrderIsUnbounded(n: nat, size: nat, p: Policy) returns (x: Execution)
    requires size >= 1 && p.count >= 2 && Interval(p) >= 1
    ensures KeysEntered(x) == {""}
    ensures StateOf(x, size, Always(p)).history.GrantedIn("", 0, 2 * Interval(p)) >= n
  {
    x := Rounds(n + 1, n + 1, size, p);
  }

  /** In this execution, the admission bound of policy p holds for the key and the window. */
  ghost predicate BoundHoldsIn(x: Execution, size: nat, p: Policy, key: string, a: Time, b: Time,
                               policyOf: string -> Policy)
    requires size >= 1 && Interval(p) >= 1
  {
    |KeysEntered(x)| <= size && policyOf(key) == p && a <= b ==>
      StateOf(x, size, policyOf).history.GrantedIn(key, a, b) <= p.count + (b - a) / Interval(p)
  }

  ghost predicate BoundHolds(size: nat, p: Policy)
    requires size >= 1 && Interval(p) >= 1
  {
    forall x, key, a, b, policyOf :: BoundHoldsIn(x, size, p, key, a, b, policyOf)
  }

  /** The admission bound survives every interleaving, clock readings that are overtaken included, if and only if
      the policy has a single token. */
  lemma BoundHoldsIffSingleToken(size: nat, p: Policy)
    requires size >= 1 && Interval(p) >= 1
    ensures BoundHolds(size, p) <==> p.count == 1
  {
    if p.count == 1 {
      forall x, key, a, b, policyOf
        ensures BoundHoldsIn(x, size, p, key, a, b, policyOf)
      {
        if |KeysEntered(x)| <= size && policyOf(key) == p && a <= b {
          ConcurrentCallsLinearise(x, size, policyOf);
          LinearCount(StateOf(x, size, policyOf).history, key, a, b);
          SingleTokenBound(StateOf(x, size, policyOf).history.Calls(), key, a, b, policyOf);
        }
      }
    } else {
      var w := 2 * Interval(p);
      var x := OutOfOrderIsUnbounded(p.count + w / Interval(p) + 1, size, p);
      assert !BoundHoldsIn(x, size, p, "", 0, w, Always(p));
    }
  }
}
