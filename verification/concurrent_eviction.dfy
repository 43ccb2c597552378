/** What room the cache needs for concurrent calls to linearise: exactly one place for every key, unless no policy
    ever refuses. */
module ConcurrentEviction {
  import opened TokenBucket
  import opened LruCaches
  import opened Limiter
  import opened LimiterRefinement
  import opened LimiterRoom
  import opened ConcurrentLimiter

  // ---- Policies that refuse nothing need no room ----

  ghost predicate AllUnlimited(s: System, policyOf: string -> Policy) {
    && (forall i | 0 <= i < |s.heap| :: Unlimited(s.heap[i]))
    && s.history.Linear() && Policed(s.history.Calls(), policyOf)
  }

  lemma UnlimitedDraw(s: System, t: Thread, size: nat, policyOf: string -> Policy)
    requires size >= 1 && s.cache.Valid(size) && AllUnlimited(s, policyOf) && RefusesNothing(policyOf)
    requires Enabled(s, AllowN(t))
    ensures AllUnlimited(Step(s, AllowN(t), size, policyOf), policyOf)
  {
    var Timed(key, id, now) := s.threads[t];
    UnlimitedTake(s.heap[id], now);
    UnlimitedStore(Then(s.history.Calls(), Call(key, policyOf(key), now)), policyOf);
  }

  lemma UnlimitedStep(s: System, e: Event, size: nat, policyOf: string -> Policy)
    requires size >= 1 && s.cache.Valid(size) && AllUnlimited(s, policyOf) && RefusesNothing(policyOf)
    ensures AllUnlimited(Step(s, e, size, policyOf), policyOf)
  {
    if e.AllowN? && Enabled(s, e) {
      UnlimitedDraw(s, e.thread, size, policyOf);
    } else if e.PeekOrAdd? && Enabled(s, e) {
      FullBucket(policyOf(s.threads[e.thread].key), 0);
    }
  }

  lemma {:induction false} UnlimitedThroughout(x: Execution, size: nat, policyOf: string -> Policy)
    requires size >= 1 && RefusesNothing(policyOf)
    ensures AllUnlimited(StateOf(x, size, policyOf), policyOf)
  {
    if x.After? {
      UnlimitedThroughout(x.before, size, policyOf);
      StateAfter(x.before, x.event, size, policyOf);
      UnlimitedStep(StateOf(x.before, size, policyOf), x.event, size, policyOf);
    }
  }

  // ---- One key too many splits a key ----

  /** A call that does not find its key: a new bucket, in front of the others. */
  ghost function Opened(s: System, t: Thread, key: string, size: nat, policyOf: string -> Policy): System
    requires size >= 1 && s.cache.Valid(size) && key !in s.cache.entries
  {
    s.(cache := Add(s.cache, size, key, |s.heap|).0, heap := s.heap + [Full(policyOf(key))],
       threads := s.threads[t := Holding(key, |s.heap|)])
  }

  lemma Opening(before: Execution, t: Thread, key: string, size: nat, policyOf: string -> Policy) returns (x: Execution)
    requires size >= 1
    requires var s := StateOf(before, size, policyOf); t !in s.threads && key !in s.cache.entries
    ensures StateOf(x, size, policyOf) == Opened(StateOf(before, size, policyOf), t, key, size, policyOf)
    ensures KeysEntered(x) == KeysEntered(before) + {key}
  {
    var s, x1 := StateOf(before, size, policyOf), After(before, Enter(t, key));
    var x2 := After(x1, Get(t));
    x := After(x2, PeekOrAdd(t));
    OpeningSteps(s, t, key, size, policyOf);
    StateAfter(before, Enter(t, key), size, policyOf);
    StateAfter(x1, Get(t), size, policyOf);
    StateAfter(x2, PeekOrAdd(t), size, policyOf);
    assert KeysEntered(x1) == KeysEntered(before) + {key};
    assert KeysEntered(x2) == KeysEntered(x1);
  }

  lemma OpeningSteps(s: System, t: Thread, key: string, size: nat, policyOf: string -> Policy)
    requires size >= 1 && s.cache.Valid(size) && t !in s.threads && key !in s.cache.entries
    ensures var s1 := Step(s, Enter(t, key), size, policyOf);
      s1.cache.Valid(size)
      && var s2 := Step(s1, Get(t), size, policyOf);
      s2.cache.Valid(size) && Step(s2, PeekOrAdd(t), size, policyOf) == Opened(s, t, key, size, policyOf)
  {
    StepEnter(s, t, key, size, policyOf);
    var s1 := s.(threads := s.threads[t := Entered(key)]);
    StepGet(s1, t, key, size, policyOf);
    var s2 := s1.(threads := s1.threads[t := Missed(key)]);
    StepAdd(s2, t, key, size, policyOf);
    assert s2.threads[t := Holding(key, |s.heap|)] == s.threads[t := Holding(key, |s.heap|)];
  }

  /** A call that finds its key. */
  ghost function Found(s: System, t: Thread, key: string): System
    requires key in s.cache.entries
  {
    s.(cache := Touch(s.cache, key), threads := s.threads[t := Holding(key, s.cache.entries[key])])
  }

  lemma Finding(before: Execution, t: Thread, key: string, size: nat, policyOf: string -> Policy) returns (x: Execution)
    requires size >= 1
    requires var s := StateOf(before, size, policyOf); t !in s.threads && key in s.cache.entries
    ensures StateOf(x, size, policyOf) == Found(StateOf(before, size, policyOf), t, key)
    ensures KeysEntered(x) == KeysEntered(before) + {key}
  {
    var s, x1 := StateOf(before, size, policyOf), After(before, Enter(t, key));
    x := After(x1, Get(t));
    StepEnter(s, t, key, size, policyOf);
    var s1 := s.(threads := s.threads[t := Entered(key)]);
    StepGet(s1, t, key, size, policyOf);
    StateAfter(before, Enter(t, key), size, policyOf);
    StateAfter(x1, Get(t), size, policyOf);
    assert s1.threads[t := Holding(key, s.cache.entries[key])] == s.threads[t := Holding(key, s.cache.entries[key])];
    assert KeysEntered(x1) == KeysEntered(before) + {key};
  }

  /** A call that holds its bucket reads the clock at 0 and draws. */
  ghost function Drawn(s: System, t: Thread, policyOf: string -> Policy): System
    requires t in s.threads && s.threads[t].Holding? && s.threads[t].bucket < |s.heap|
  {
    var Holding(key, id) := s.threads[t];
    s.(heap := s.heap[id := Take(s.heap[id], 0).1], threads := s.threads - {t}, clock := Some(0),
       history := Drew(s.history, Call(key, policyOf(key), 0), Take(s.heap[id], 0).0))
  }

  lemma Drawing(before: Execution, t: Thread, size: nat, policyOf: string -> Policy) returns (x: Execution)
    requires size >= 1
    requires var s := StateOf(before, size, policyOf);
      && t in s.threads && s.threads[t].Holding? && s.threads[t].bucket < |s.heap|
      && (s.clock.Some? ==> s.clock.value <= 0)
    ensures StateOf(x, size, policyOf) == Drawn(StateOf(before, size, policyOf), t, policyOf)
    ensures KeysEntered(x) == KeysEntered(before)
  {
    var s, x1 := StateOf(before, size, policyOf), After(before, ReadClock(t, 0));
    x := After(x1, AllowN(t));
    StepRead(s, t, 0, size, policyOf);
    var s1 := s.(threads := s.threads[t := Timed(s.threads[t].key, s.threads[t].bucket, 0)], clock := Some(0));
    StepDraw(s1, t, size, policyOf);
    StateAfter(before, ReadClock(t, 0), size, policyOf);
    StateAfter(x1, AllowN(t), size, policyOf);
    assert s1.threads - {t} == s.threads - {t};
    assert KeysEntered(x1) == KeysEntered(before);
  }

  /** n draws of the same call, all granted. */
  ghost function Burst(c: Call, n: nat): History {
    if n == 0 then Nothing else Drew(Burst(c, n - 1), c, true)
  }

  lemma {:induction false} BurstStore(key: string, p: Policy, n: nat)
    requires 1 <= n <= p.count
    ensures var store := StoreAfter(Burst(Call(key, p, 0), n).Calls()); key in store && Down(store[key], p, n)
  {
    var c := Call(key, p, 0);
    if n == 1 {
      FullIsUp(p);
      assert StoreAfter(Burst(c, 0).Calls()) == map[];
      DownByOne(Full(p), p, 0);
    } else {
      BurstStore(key, p, n - 1);
      DownByOne(StoreAfter(Burst(c, n - 1).Calls())[key], p, n - 1);
    }
  }

  /** No sequential limiter grants Count + 1 calls at once. */
  lemma BurstIsNotLinear(key: string, p: Policy)
    requires Interval(p) >= 1
    ensures !Burst(Call(key, p, 0), p.count + 1).Linear()
  {
    BurstStore(key, p, p.count);
    NothingLeft(StoreAfter(Burst(Call(key, p, 0), p.count).Calls())[key], p);
  }

  // First all but one token of the key are drawn, and one more call gets the bucket.

  /** Call 0 holds the key's bucket, from which n tokens have been drawn; nothing else is there. */
  ghost predicate Alone(s: System, key: string, p: Policy, n: nat) {
    && s.cache.order == [key] && s.cache.entries == map[key := 0]
    && |s.heap| == 1 && Down(s.heap[0], p, n)
    && s.threads == map[0 := Holding(key, 0)] && (s.clock.Some? ==> s.clock.value <= 0)
    && s.history == Burst(Call(key, p, 0), n)
  }

  lemma AloneAtFirst(s: System, next: System, key: string, size: nat, policyOf: string -> Policy)
    requires size >= 1 && s == System(Lru([], map[]), [], map[], None, Nothing)
    requires next == Opened(s, 0, key, size, policyOf)
    ensures Alone(next, key, policyOf(key), 0)
  {
    FullIsUp(policyOf(key));
  }

  lemma AloneAgain(s: System, drawn: System, next: System, key: string, n: nat, policyOf: string -> Policy)
    requires Alone(s, key, policyOf(key), n) && n < policyOf(key).count
    requires drawn == Drawn(s, 0, policyOf) && key in drawn.cache.entries && next == Found(drawn, 0, key)
    ensures Alone(next, key, policyOf(key), n + 1)
  {
    DownByOne(s.heap[0], policyOf(key), n);
    assert drawn.threads == map[];
    assert Without([key], key) == [] by {
      assert Without([key], key) == Without([], key);
    }
  }

  lemma OneCallAlone(before: Execution, key: string, n: nat, size: nat, policyOf: string -> Policy)
    returns (x: Execution)
    requires size >= 1 && Alone(StateOf(before, size, policyOf), key, policyOf(key), n) && n < policyOf(key).count
    requires KeysEntered(before) == {key}
    ensures Alone(StateOf(x, size, policyOf), key, policyOf(key), n + 1) && KeysEntered(x) == {key}
  {
    var drawn := Drawing(before, 0, size, policyOf);
    x := Finding(drawn, 0, key, size, policyOf);
    AloneAgain(StateOf(before, size, policyOf), StateOf(drawn, size, policyOf), StateOf(x, size, policyOf), key, n,
               policyOf);
  }

  lemma {:induction false} DrawDown(n: nat, key: string, size: nat, policyOf: string -> Policy) returns (x: Execution)
    requires size >= 1 && n < policyOf(key).count
    ensures Alone(StateOf(x, size, policyOf), key, policyOf(key), n) && KeysEntered(x) == {key}
  {
    if n == 0 {
      x := Opening(Init, 0, key, size, policyOf);
      AloneAtFirst(StateOf(Init, size, policyOf), StateOf(x, size, policyOf), key, size, policyOf);
    } else {
      var before := DrawDown(n - 1, key, size, policyOf);
      x := OneCallAlone(before, key, n - 1, size, policyOf);
    }
  }

  // Then as many other keys as the cache holds come in, which pushes the key out while call 0 holds its bucket.

  ghost predicate Crowded(s: System, key: string, p: Policy, j: nat, size: nat) {
    && s.cache.order == (if j < size then Others(key, j) + [key] else Others(key, j))
    && |s.heap| == j + 1 && Down(s.heap[0], p, p.count - 1)
    && 0 in s.threads && s.threads[0] == Holding(key, 0) && (forall t | t in s.threads :: t <= j)
    && (s.clock.Some? ==> s.clock.value <= 0) && s.history == Burst(Call(key, p, 0), p.count - 1)
  }

  lemma NotThereYet(s: System, key: string, p: Policy, j: nat, size: nat)
    requires s.cache.Valid(size) && Crowded(s, key, p, j, size)
    ensures Other(key, j + 1) !in s.cache.entries
    ensures j >= size ==> key !in s.cache.entries
  {
    OthersAreOthers(key, j);
    ElementsOf(s.cache.order, Other(key, j + 1));
    ElementsOf(s.cache.order, key);
  }

  lemma OneMoreCrowds(s: System, next: System, key: string, j: nat, size: nat, policyOf: string -> Policy)
    requires j < size && s.cache.Valid(size) && Crowded(s, key, policyOf(key), j, size)
    requires Other(key, j + 1) !in s.cache.entries
    requires next == Opened(s, j + 1, Other(key, j + 1), size, policyOf)
    ensures Crowded(next, key, policyOf(key), j + 1, size)
  {
    OthersAreOthers(key, j);
    if j + 1 == size {
      assert (Others(key, j) + [key])[..j] == Others(key, j);
    }
  }

  /** The key and the first j others. */
  function Entering(key: string, j: nat): set<string> {
    if j == 0 then {key} else Entering(key, j - 1) + {Other(key, j)}
  }

  lemma {:induction false} EnteringCount(key: string, j: nat)
    ensures |Entering(key, j)| <= j + 1 && key in Entering(key, j)
  {
    if j > 0 {
      EnteringCount(key, j - 1);
      assert Entering(key, j) == Entering(key, j - 1) + ({Other(key, j)} - Entering(key, j - 1));
    }
  }

  lemma CrowdOne(before: Execution, j: nat, key: string, size: nat, policyOf: string -> Policy) returns (x: Execution)
    requires size >= 1 && j < size && Crowded(StateOf(before, size, policyOf), key, policyOf(key), j, size)
    ensures Crowded(StateOf(x, size, policyOf), key, policyOf(key), j + 1, size)
    ensures KeysEntered(x) == KeysEntered(before) + {Other(key, j + 1)}
  {
    NotThereYet(StateOf(before, size, policyOf), key, policyOf(key), j, size);
    x := Opening(before, j + 1, Other(key, j + 1), size, policyOf);
    OneMoreCrowds(StateOf(before, size, policyOf), StateOf(x, size, policyOf), key, j, size, policyOf);
  }

  lemma {:induction false} Crowd(j: nat, key: string, size: nat, policyOf: string -> Policy) returns (x: Execution)
    requires size >= 1 && j <= size
    ensures Crowded(StateOf(x, size, policyOf), key, policyOf(key), j, size)
    ensures KeysEntered(x) == Entering(key, j)
  {
    if j == 0 {
      x := DrawDown(policyOf(key).count - 1, key, size, policyOf);
      AloneIsCrowded(StateOf(x, size, policyOf), key, policyOf(key), size);
    } else {
      var before := Crowd(j - 1, key, size, policyOf);
      x := CrowdOne(before, j - 1, key, size, policyOf);
    }
  }

  lemma AloneIsCrowded(s: System, key: string, p: Policy, size: nat)
    requires size >= 1 && Alone(s, key, p, p.count - 1)
    ensures Crowded(s, key, p, 0, size)
  {
    assert Others(key, 0) + [key] == [key];
  }

  // Last, another call brings the key back with a new bucket, and both calls draw.

  /** Call 0 holds the old bucket of the key, with its last token, and another call a new one. */
  ghost predicate Split(s: System, key: string, p: Policy, t: Thread, id: Address) {
    && t != 0 && 0 < id < |s.heap| && 0 in s.threads && t in s.threads
    && s.threads[0] == Holding(key, 0) && s.threads[t] == Holding(key, id)
    && Down(s.heap[0], p, p.count - 1) && Down(s.heap[id], p, 0)
    && (s.clock.Some? ==> s.clock.value <= 0) && s.history == Burst(Call(key, p, 0), p.count - 1)
  }

  lemma ReopeningSplits(s: System, next: System, key: string, size: nat, policyOf: string -> Policy)
    requires size >= 1 && s.cache.Valid(size) && Crowded(s, key, policyOf(key), size, size)
    requires key !in s.cache.entries && next == Opened(s, size + 1, key, size, policyOf)
    ensures Split(next, key, policyOf(key), size + 1, size + 1)
  {
    FullIsUp(policyOf(key));
  }

  lemma BothAreGranted(s: System, drawn: System, next: System, key: string, t: Thread, id: Address,
                       policyOf: string -> Policy)
    requires Split(s, key, policyOf(key), t, id) && drawn == Drawn(s, 0, policyOf)
    requires t in drawn.threads && drawn.threads[t] == Holding(key, id) && id < |drawn.heap|
    requires next == Drawn(drawn, t, policyOf)
    ensures next.history == Burst(Call(key, policyOf(key), 0), policyOf(key).count + 1)
  {
    DownByOne(s.heap[0], policyOf(key), policyOf(key).count - 1);
    DownByOne(s.heap[id], policyOf(key), 0);
  }

  lemma BothDraw(before: Execution, key: string, t: Thread, id: Address, size: nat, policyOf: string -> Policy)
    returns (x: Execution)
    requires size >= 1 && Split(StateOf(before, size, policyOf), key, policyOf(key), t, id)
    ensures KeysEntered(x) == KeysEntered(before)
    ensures StateOf(x, size, policyOf).history == Burst(Call(key, policyOf(key), 0), policyOf(key).count + 1)
  {
    var drawn := Drawing(before, 0, size, policyOf);
    x := Drawing(drawn, t, size, policyOf);
    BothAreGranted(StateOf(before, size, policyOf), StateOf(drawn, size, policyOf), StateOf(x, size, policyOf), key,
                   t, id, policyOf);
  }

  /** From the crowd, the key comes back, and both calls draw. */
  lemma SplitAfter(crowd: Execution, s: System, key: string, size: nat, policyOf: string -> Policy) returns (x: Execution)
    requires size >= 1 && s == StateOf(crowd, size, policyOf) && Crowded(s, key, policyOf(key), size, size)
    requires key !in s.cache.entries && size + 1 !in s.threads
    ensures KeysEntered(x) == KeysEntered(crowd) + {key}
    ensures StateOf(x, size, policyOf).history == Burst(Call(key, policyOf(key), 0), policyOf(key).count + 1)
  {
    var back := Opening(crowd, size + 1, key, size, policyOf);
    ReopeningSplits(s, StateOf(back, size, policyOf), key, size, policyOf);
    x := BothDraw(back, key, size + 1, size + 1, size, policyOf);
  }

  /** With one key more than the cache holds, Count + 1 calls at once can all be granted one key. */
  lemma SplitKey(key: string, size: nat, policyOf: string -> Policy) returns (x: Execution)
    requires size >= 1
    ensures |KeysEntered(x)| <= size + 1
    ensures StateOf(x, size, policyOf).history == Burst(Call(key, policyOf(key), 0), policyOf(key).count + 1)
  {
    var crowd := Crowd(size, key, size, policyOf);
    NotThereYet(StateOf(crowd, size, policyOf), key, policyOf(key), size, size);
    x := SplitAfter(crowd, StateOf(crowd, size, policyOf), key, size, policyOf);
    EnteringCount(key, size);
    assert KeysEntered(x) == Entering(key, size);
  }

  /** With at most n keys, this execution gives the answers of a sequential limiter. */
  ghost predicate LinearIn(x: Execution, n: nat, size: nat, policyOf: string -> Policy)
    requires size >= 1
  {
    |KeysEntered(x)| <= n ==> StateOf(x, size, policyOf).history.Linear()
  }

  /** Concurrent calls with at most n keys linearise in every interleaving if and only if the cache has room for the
      n keys, or no policy ever refuses. */
  lemma LinearExactlyWithRoom(n: nat, size: nat, policyOf: string -> Policy)
    requires size >= 1
    ensures (forall x :: LinearIn(x, n, size, policyOf)) <==> n <= size || RefusesNothing(policyOf)
  {
    if n <= size || RefusesNothing(policyOf) {
      forall x
        ensures LinearIn(x, n, size, policyOf)
      {
        if RefusesNothing(policyOf) {
          UnlimitedThroughout(x, size, policyOf);
        } else if |KeysEntered(x)| <= n {
          ConcurrentCallsLinearise(x, size, policyOf);
        }
      }
    } else {
      var key :| Interval(policyOf(key)) != 0;
      var x := SplitKey(key, size, policyOf);
      BurstIsNotLinear(key, policyOf(key));
      assert !LinearIn(x, n, size, policyOf);
    }
  }
}
