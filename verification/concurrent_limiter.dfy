/** Concurrent calls of Allow. The atomic steps are the cache lookup (Get), the insertion (PeekOrAdd), reading the
    clock, and the draw with that reading (AllowN); the steps of any number of calls interleave freely, so draws
    need not come in the order of their readings. A bucket is an object on a heap, and what a call holds between
    its steps is the object's address. */
module ConcurrentLimiter {
  import opened TokenBucket
  import opened LruCaches
  import opened Limiter
  import opened LimiterRefinement
  import opened LimiterBounds

  type Address = nat
  type Thread = nat

  /** Where a call is between two of its steps. */
  datatype Pc =
    | Entered(key: string)                  // before Get
    | Missed(key: string)                   // Get found nothing, PeekOrAdd is next
    | Holding(key: string, bucket: Address) // the clock is next
    | Timed(key: string, bucket: Address, time: Time) // AllowN is next

  /** The AllowN steps that have happened, oldest first, with their answers. */
  datatype History = Nothing | Drew(before: History, call: Call, granted: bool) {
    function Calls(): Run {
      if Nothing? then Start else Then(before.Calls(), call)
    }

    /** Each answer is the one that a sequential limiter gives to the calls in AllowN order. */
    ghost predicate Linear() {
      Drew? ==> before.Linear() && granted == Granted(Calls())
    }

    /** How many draws on the key were granted at times in [a, b]. */
    ghost function GrantedIn(key: string, a: Time, b: Time): nat {
      if Nothing? then 0
      else before.GrantedIn(key, a, b) + if Counts(call, granted, key, a, b) then 1 else 0
    }
  }

  /** `clock` is the time, as far as anyone has read it. */
  datatype System = System(cache: Lru<Address>, heap: seq<Bucket>, threads: map<Thread, Pc>, clock: Option<Time>,
                           history: History)

  datatype Event =
    | Enter(thread: Thread, key: string)
    | Get(thread: Thread)
    | PeekOrAdd(thread: Thread)
    | ReadClock(thread: Thread, time: Time)
    | AllowN(thread: Thread)
    | Tick(time: Time)

  predicate Enabled(s: System, e: Event) {
    match e
    case Enter(t, _) => t !in s.threads
    case Get(t) => t in s.threads && s.threads[t].Entered?
    case PeekOrAdd(t) => t in s.threads && s.threads[t].Missed?
    case ReadClock(t, now) =>
      t in s.threads && s.threads[t].Holding? && (s.clock.Some? ==> s.clock.value <= now)
    case AllowN(t) => t in s.threads && s.threads[t].Timed? && s.threads[t].bucket < |s.heap|
    case Tick(now) => s.clock.Some? ==> s.clock.value <= now
  }

  /** One step; an event that is not enabled changes nothing. */
  function Step(s: System, e: Event, size: nat, policyOf: string -> Policy): System
    requires s.cache.Valid(size) && size >= 1
  {
    if !Enabled(s, e) then s
    else match e
      case Enter(t, key) => s.(threads := s.threads[t := Entered(key)])
      case Get(t) =>
        var key := s.threads[t].key;
        if key in s.cache.entries
        then s.(cache := Touch(s.cache, key), threads := s.threads[t := Holding(key, s.cache.entries[key])])
        else s.(threads := s.threads[t := Missed(key)])
      case PeekOrAdd(t) =>
        var key := s.threads[t].key;
        if key in s.cache.entries
        then s.(threads := s.threads[t := Holding(key, s.cache.entries[key])])
        else s.(cache := Add(s.cache, size, key, |s.heap|).0, heap := s.heap + [Full(policyOf(key))],
                threads := s.threads[t := Holding(key, |s.heap|)])
      case ReadClock(t, now) =>
        var Holding(key, id) := s.threads[t];
        s.(threads := s.threads[t := Timed(key, id, now)], clock := Some(now))
      case AllowN(t) =>
        var Timed(key, id, now) := s.threads[t];
        var (ok, b) := Take(s.heap[id], now);
        s.(heap := s.heap[id := b], threads := s.threads - {t},
           history := Drew(s.history, Call(key, policyOf(key), now), ok))
      case Tick(now) => s.(clock := Some(now))
  }

  datatype Execution = Init | After(before: Execution, event: Event)

  ghost function StateOf(x: Execution, size: nat, policyOf: string -> Policy): (s: System)
    requires size >= 1
    ensures s.cache.Valid(size)
    decreases x, 1
  {
    if x.Init? then System(Lru([], map[]), [], map[], None, Nothing) else LastState(x, size, policyOf)
  }

  ghost function LastState(x: Execution, size: nat, policyOf: string -> Policy): (s: System)
    requires size >= 1 && x.After?
    ensures s.cache.Valid(size)
    decreases x, 0
  {
    var s := StateOf(x.before, size, policyOf);
    StepKeepsCache(s, x.event, size, policyOf);
    Step(s, x.event, size, policyOf)
  }

  lemma StepKeepsCache(s: System, e: Event, size: nat, policyOf: string -> Policy)
    requires s.cache.Valid(size) && size >= 1
    ensures Step(s, e, size, policyOf).cache.Valid(size)
  {
    if Enabled(s, e) && (e.Get? || e.PeekOrAdd?) {
      var key := s.threads[e.thread].key;
      if key !in s.cache.entries {
        AddKeepsValid(s.cache, size, key, |s.heap|);
      } else {
        TouchKeepsValid(s.cache, size, key);
      }
    }
  }

  // What each event does where it is enabled.

  lemma StateAfter(x: Execution, e: Event, size: nat, policyOf: string -> Policy)
    requires size >= 1
    ensures StateOf(After(x, e), size, policyOf) == Step(StateOf(x, size, policyOf), e, size, policyOf)
  {
    assert StateOf(After(x, e), size, policyOf) == LastState(After(x, e), size, policyOf);
  }

  lemma StepEnter(s: System, t: Thread, key: string, size: nat, policyOf: string -> Policy)
    requires size >= 1 && s.cache.Valid(size) && t !in s.threads
    ensures Step(s, Enter(t, key), size, policyOf) == s.(threads := s.threads[t := Entered(key)])
  {
  }

  lemma StepGet(s: System, t: Thread, key: string, size: nat, policyOf: string -> Policy)
    requires size >= 1 && s.cache.Valid(size) && t in s.threads && s.threads[t] == Entered(key)
    ensures Step(s, Get(t), size, policyOf)
         == if key in s.cache.entries
            then s.(cache := Touch(s.cache, key), threads := s.threads[t := Holding(key, s.cache.entries[key])])
            else s.(threads := s.threads[t := Missed(key)])
  {
  }

  lemma StepAdd(s: System, t: Thread, key: string, size: nat, policyOf: string -> Policy)
    requires size >= 1 && s.cache.Valid(size) && t in s.threads && s.threads[t] == Missed(key)
    requires key !in s.cache.entries
    ensures Step(s, PeekOrAdd(t), size, policyOf)
         == s.(cache := Add(s.cache, size, key, |s.heap|).0, heap := s.heap + [Full(policyOf(key))],
               threads := s.threads[t := Holding(key, |s.heap|)])
  {
  }

  lemma StepRead(s: System, t: Thread, now: Time, size: nat, policyOf: string -> Policy)
    requires size >= 1 && s.cache.Valid(size) && t in s.threads && s.threads[t].Holding?
    requires s.clock.Some? ==> s.clock.value <= now
    ensures var Holding(key, id) := s.threads[t];
      Step(s, ReadClock(t, now), size, policyOf)
      == s.(threads := s.threads[t := Timed(key, id, now)], clock := Some(now))
  {
  }

  lemma StepDraw(s: System, t: Thread, size: nat, policyOf: string -> Policy)
    requires size >= 1 && s.cache.Valid(size) && t in s.threads && s.threads[t].Timed? && s.threads[t].bucket < |s.heap|
    ensures var Timed(key, id, now) := s.threads[t];
      Step(s, AllowN(t), size, policyOf)
      == s.(heap := s.heap[id := Take(s.heap[id], now).1], threads := s.threads - {t},
            history := Drew(s.history, Call(key, policyOf(key), now), Take(s.heap[id], now).0))
  {
  }

  /** The keys that calls of the execution have brought in. */
  ghost function KeysEntered(x: Execution): set<string> {
    if x.Init? then {}
    else KeysEntered(x.before) + if x.event.Enter? then {x.event.key} else {}
  }

  /** Each key has a bucket at an address of its own: the sequential store's, or a full one before its first draw. */
  ghost predicate Installed(entries: map<string, Address>, heap: seq<Bucket>, store: map<string, Bucket>,
                            policyOf: string -> Policy) {
    && store.Keys <= entries.Keys
    && (forall k | k in entries ::
          entries[k] < |heap| && heap[entries[k]] == if k in store then store[k] else Full(policyOf(k)))
    && (forall k, k' | k in entries && k' in entries && k != k' :: entries[k] != entries[k'])
  }

  /** Whoever holds a bucket for a key holds the installed one. */
  ghost predicate HoldsInstalled(pc: Pc, entries: map<string, Address>) {
    pc.Holding? || pc.Timed? ==> pc.key in entries && entries[pc.key] == pc.bucket
  }

  ghost predicate Inv(s: System, keys: set<string>, policyOf: string -> Policy) {
    && s.cache.entries.Keys <= keys
    && Installed(s.cache.entries, s.heap, StoreAfter(s.history.Calls()), policyOf)
    && (forall t | t in s.threads :: s.threads[t].key in keys && HoldsInstalled(s.threads[t], s.cache.entries))
    && s.history.Linear() && Policed(s.history.Calls(), policyOf)
  }

  ghost predicate NothingReplaced(entries: map<string, Address>, entries': map<string, Address>) {
    forall k | k in entries :: k in entries' && entries'[k] == entries[k]
  }

  /** With room for every key, insertion pushes nothing out. */
  lemma InsertPushesNothingOut(s: System, t: Thread, keys: set<string>, size: nat, policyOf: string -> Policy)
    requires size >= 1 && s.cache.Valid(size) && |keys| <= size && s.cache.entries.Keys <= keys
    requires Enabled(s, PeekOrAdd(t)) && s.threads[t].key in keys && s.threads[t].key !in s.cache.entries
    ensures Step(s, PeekOrAdd(t), size, policyOf).cache.entries == s.cache.entries[s.threads[t].key := |s.heap|]
  {
    var key := s.threads[t].key;
    SubsetSize(s.cache.entries.Keys + {key}, keys);
    assert |s.cache.entries.Keys| == |s.cache.entries|;
    AddKeepsValid(s.cache, size, key, |s.heap|);
  }

  lemma InstallNew(entries: map<string, Address>, heap: seq<Bucket>, store: map<string, Bucket>, key: string,
                   policyOf: string -> Policy)
    requires Installed(entries, heap, store, policyOf) && key !in entries
    ensures Installed(entries[key := |heap|], heap + [Full(policyOf(key))], store, policyOf)
    ensures NothingReplaced(entries, entries[key := |heap|])
  {
  }

  lemma DrawFromInstalled(entries: map<string, Address>, heap: seq<Bucket>, store: map<string, Bucket>, c: Call,
                          policyOf: string -> Policy)
    requires Installed(entries, heap, store, policyOf) && c.key in entries && c.policy == policyOf(c.key)
    ensures heap[entries[c.key]] == BucketFor(store, c)
    ensures var b := Take(BucketFor(store, c), c.time).1;
      Installed(entries, heap[entries[c.key] := b], store[c.key := b], policyOf)
  {
  }

  lemma InsertKeepsInv(s: System, t: Thread, keys: set<string>, size: nat, policyOf: string -> Policy)
    requires size >= 1 && s.cache.Valid(size) && |keys| <= size && Inv(s, keys, policyOf)
    requires Enabled(s, PeekOrAdd(t)) && s.threads[t].key !in s.cache.entries
    ensures var next := Step(s, PeekOrAdd(t), size, policyOf);
      Inv(next, keys, policyOf) && NothingReplaced(s.cache.entries, next.cache.entries)
  {
    InsertPushesNothingOut(s, t, keys, size, policyOf);
    InstallNew(s.cache.entries, s.heap, StoreAfter(s.history.Calls()), s.threads[t].key, policyOf);
  }

  lemma DrawKeepsInv(s: System, t: Thread, keys: set<string>, size: nat, policyOf: string -> Policy)
    requires size >= 1 && s.cache.Valid(size) && Inv(s, keys, policyOf) && Enabled(s, AllowN(t))
    ensures Inv(Step(s, AllowN(t), size, policyOf), keys, policyOf)
  {
    var Timed(key, id, now) := s.threads[t];
    assert HoldsInstalled(s.threads[t], s.cache.entries);
    DrawFromInstalled(s.cache.entries, s.heap, StoreAfter(s.history.Calls()), Call(key, policyOf(key), now), policyOf);
  }

  lemma LookUpKeepsInv(s: System, e: Event, keys: set<string>, size: nat, policyOf: string -> Policy)
    requires size >= 1 && s.cache.Valid(size) && Inv(s, keys, policyOf) && Enabled(s, e)
    requires || e.Get? || e.ReadClock? || e.Tick? || (e.Enter? && e.key in keys)
             || (e.PeekOrAdd? && s.threads[e.thread].key in s.cache.entries)
    ensures Inv(Step(s, e, size, policyOf), keys, policyOf)
    ensures Step(s, e, size, policyOf).cache.entries == s.cache.entries
  {
  }

  /** A step within the capacity keeps the invariant and never replaces an installed bucket. */
  lemma StepKeepsInv(s: System, e: Event, keys: set<string>, size: nat, policyOf: string -> Policy)
    requires size >= 1 && s.cache.Valid(size) && |keys| <= size && Inv(s, keys, policyOf)
    requires e.Enter? ==> e.key in keys
    ensures var next := Step(s, e, size, policyOf);
      Inv(next, keys, policyOf) && NothingReplaced(s.cache.entries, next.cache.entries)
  {
    if !Enabled(s, e) {
    } else if e.AllowN? {
      DrawKeepsInv(s, e.thread, keys, size, policyOf);
    } else if e.PeekOrAdd? && s.threads[e.thread].key !in s.cache.entries {
      InsertKeepsInv(s, e.thread, keys, size, policyOf);
    } else {
      LookUpKeepsInv(s, e, keys, size, policyOf);
    }
  }

  lemma {:induction false} InvThroughout(x: Execution, keys: set<string>, size: nat, policyOf: string -> Policy)
    requires size >= 1 && KeysEntered(x) <= keys && |keys| <= size
    ensures Inv(StateOf(x, size, policyOf), keys, policyOf)
  {
    if x.After? {
      InvThroughout(x.before, keys, size, policyOf);
      StateAfter(x.before, x.event, size, policyOf);
      StepKeepsInv(StateOf(x.before, size, policyOf), x.event, keys, size, policyOf);
    }
  }

  ghost predicate Extends(later: Execution, earlier: Execution) {
    later == earlier || (later.After? && Extends(later.before, earlier))
  }

  /** The call has its bucket of the key. */
  predicate Holds(pc: Pc, key: string) {
    (pc.Holding? || pc.Timed?) && pc.key == key
  }

  /** Once a key has a bucket, it keeps that bucket, and every call that holds a bucket for the key holds it. */
  lemma {:induction false} BucketsAreNeverReplaced(later: Execution, earlier: Execution, key: string,
                                                   size: nat, policyOf: string -> Policy)
    requires size >= 1 && |KeysEntered(later)| <= size && Extends(later, earlier)
    requires key in StateOf(earlier, size, policyOf).cache.entries
    ensures var s, installed := StateOf(later, size, policyOf), StateOf(earlier, size, policyOf).cache.entries[key];
      && key in s.cache.entries && s.cache.entries[key] == installed
      && forall t | t in s.threads && Holds(s.threads[t], key) :: s.threads[t].bucket == installed
  {
    var keys := KeysEntered(later);
    InvThroughout(later, keys, size, policyOf);
    var s := StateOf(later, size, policyOf);
    if later != earlier {
      SubsetSize(KeysEntered(later.before), keys);
      BucketsAreNeverReplaced(later.before, earlier, key, size, policyOf);
      InvThroughout(later.before, keys, size, policyOf);
      StateAfter(later.before, later.event, size, policyOf);
      StepKeepsInv(StateOf(later.before, size, policyOf), later.event, keys, size, policyOf);
    }
    forall t | t in s.threads && Holds(s.threads[t], key)
      ensures s.threads[t].bucket == s.cache.entries[key]
    {
      assert HoldsInstalled(s.threads[t], s.cache.entries);
    }
  }

  /** Concurrent calls linearise: with no more keys than the cache holds, however their steps interleave,
      the answers are those of the sequential limiter of the same size, and of the one with room for
      every key, serving the calls one after the other in AllowN order. */
  lemma ConcurrentCallsLinearise(x: Execution, size: nat, policyOf: string -> Policy)
    requires size >= 1 && |KeysEntered(x)| <= size
    ensures var h := StateOf(x, size, policyOf).history;
      h.Linear() && SameAnswers(size, h.Calls()) && Policed(h.Calls(), policyOf)
  {
    var keys := KeysEntered(x);
    InvThroughout(x, keys, size, policyOf);
    var run := StateOf(x, size, policyOf).history.Calls();
    KeysAreStored(run);
    SubsetSize(run.KeysSince(1), keys);
    FewKeysAnswerAlike(run, size);
  }

  lemma {:induction false} LinearCount(h: History, key: string, a: Time, b: Time)
    requires h.Linear()
    ensures h.GrantedIn(key, a, b) == Grants(h.Calls(), key, a, b)
  {
    if h.Drew? {
      LinearCount(h.before, key, a, b);
    }
  }
}
