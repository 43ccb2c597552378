/** The pool of hashing slots under any interleaving of requests. The small steps are the semaphore's TryAcquire and
    the end of a hash, which gives the slot back whether or not the hash came out. */
module HashSlots {

  datatype Work = Create | Verify

  /** How far a request is with its hashing. Changing a password is [Verify, Create]; the others hash once at most. */
  datatype Progress =
    | Waiting(left: seq<Work>)
    | Hashing(work: Work, left: seq<Work>)
    | Answered(answer: Answer)

  datatype Answer = Complete | Busy | Broken

  datatype Pool = Pool(free: nat, requests: map<nat, Progress>)

  datatype Event =
    | Arrive(request: nat, work: seq<Work>)
    | TryAcquire(request: nat)
    | Hashed(request: nat)
    | HashFailed(request: nat)
    | Complete(request: nat)

  predicate Enabled(p: Pool, e: Event) {
    match e
    case Arrive(r, _) => r !in p.requests
    case TryAcquire(r) => r in p.requests && p.requests[r].Waiting? && p.requests[r].left != []
    case Hashed(r) => r in p.requests && p.requests[r].Hashing?
    case HashFailed(r) => r in p.requests && p.requests[r].Hashing?
    case Complete(r) => r in p.requests && p.requests[r] == Waiting([])
  }

  function Moved(p: Pool, free: nat, r: nat, to: Progress): Pool {
    Pool(free, p.requests[r := to])
  }

  function Next(p: Pool, e: Event): Pool
    requires Enabled(p, e)
  {
    match e
    case Arrive(r, work) => Moved(p, p.free, r, Waiting(work))
    case TryAcquire(r) =>
      var left := p.requests[r].left;
      if p.free == 0 then Moved(p, 0, r, Answered(Busy))
      else Moved(p, p.free - 1, r, Hashing(left[0], left[1..]))
    case Hashed(r) => Moved(p, p.free + 1, r, Waiting(p.requests[r].left))
    case HashFailed(r) => Moved(p, p.free + 1, r, Answered(Broken))
    case Complete(r) => Moved(p, p.free, r, Answered(Answer.Complete))
  }

  datatype Execution = Initially(slots: nat) | And(before: Execution, event: Event)

  predicate Possible(x: Execution)
    decreases x, 0
  {
    x.And? ==> Possible(x.before) && Enabled(Final(x.before), x.event)
  }

  function Final(x: Execution): Pool
    requires Possible(x)
    decreases x, 1
  {
    if x.Initially? then Pool(x.slots, map[]) else Next(Final(x.before), x.event)
  }

  /** MaxConcurrentHashes. */
  function Slots(x: Execution): nat {
    if x.Initially? then x.slots else Slots(x.before)
  }

  /** The requests that are hashing now, each in one hash. */
  function Running(requests: map<nat, Progress>): set<nat> {
    set r | r in requests && requests[r].Hashing?
  }

  function RunsAt(requests: map<nat, Progress>, r: nat): nat {
    if r in requests && requests[r].Hashing? then 1 else 0
  }

  lemma MoveCounts(requests: map<nat, Progress>, r: nat, to: Progress)
    ensures |Running(requests[r := to])| == |Running(requests)| - RunsAt(requests, r) + (if to.Hashing? then 1 else 0)
  {
    if to.Hashing? {
      assert Running(requests[r := to]) == Running(requests) + {r};
    } else {
      assert Running(requests[r := to]) == Running(requests) - {r};
    }
  }

  lemma StepConserves(p: Pool, e: Event)
    requires Enabled(p, e)
    ensures Next(p, e).free + |Running(Next(p, e).requests)| == p.free + |Running(p.requests)|
  {
    MoveCounts(p.requests, e.request, Next(p, e).requests[e.request]);
    assert Next(p, e).requests == p.requests[e.request := Next(p, e).requests[e.request]];
  }

  /** Free slots and running hashes always add up to the limit. */
  lemma {:induction false} SlotsAreConserved(x: Execution)
    requires Possible(x)
    ensures Final(x).free + |Running(Final(x).requests)| == Slots(x)
  {
    if x.And? {
      SlotsAreConserved(x.before);
      StepConserves(Final(x.before), x.event);
    }
  }

  /** A request is told that hashing is busy just when every slot is in another request's hands. */
  lemma BusyIffAllInUse(x: Execution, r: nat)
    requires Possible(x) && Enabled(Final(x), TryAcquire(r))
    ensures Next(Final(x), TryAcquire(r)).requests[r] == Answered(Busy)
       <==> |Running(Final(x).requests) - {r}| == Slots(x)
  {
    SlotsAreConserved(x);
    assert Running(Final(x).requests) - {r} == Running(Final(x).requests);
  }

  /** Whatever ended how, every slot is free again once nobody hashes. */
  lemma IdlePoolIsFull(x: Execution)
    requires Possible(x)
    ensures Final(x).free == Slots(x) <==> forall r | r in Final(x).requests :: !Final(x).requests[r].Hashing?
  {
    SlotsAreConserved(x);
    var requests := Final(x).requests;
    if |Running(requests)| == 0 {
      forall r | r in requests
        ensures !requests[r].Hashing?
      {
        assert r !in Running(requests);
      }
    } else {
      assert exists r :: r in Running(requests);
    }
  }

  /** The requests that have come and not been answered. */
  function InFlight(requests: map<nat, Progress>): set<nat> {
    set r | r in requests && !requests[r].Answered?
  }

  lemma WaiterLeavesRoom(requests: map<nat, Progress>, r: nat)
    requires r in InFlight(requests) && !requests[r].Hashing?
    ensures |Running(requests)| < |InFlight(requests)|
  {
    assert InFlight(requests) == Running(requests) + (InFlight(requests) - Running(requests));
  }

  ghost predicate NoneBusy(requests: map<nat, Progress>) {
    forall r | r in requests :: requests[r] != Answered(Busy)
  }

  /** At no time are more than k requests under way. */
  ghost predicate AtMost(x: Execution, k: nat)
    requires Possible(x)
  {
    |InFlight(Final(x).requests)| <= k && (x.And? ==> AtMost(x.before, k))
  }

  /** As long as no more requests are under way than there are slots, none is told that hashing is busy, however
      many come in the end. */
  lemma {:induction false} EnoughSlotsMeanNeverBusy(x: Execution)
    requires Possible(x) && AtMost(x, Slots(x))
    ensures NoneBusy(Final(x).requests)
  {
    if x.And? {
      var p := Final(x.before);
      EnoughSlotsMeanNeverBusy(x.before);
      if x.event.TryAcquire? {
        SlotsAreConserved(x.before);
        WaiterLeavesRoom(p.requests, x.event.request);
      }
    }
  }

  // ---- The slots are needed: k waiting requests take the k slots, and the next is turned away ----

  /** j requests that are hashing. */
  function Crowd(j: nat): map<nat, Progress> {
    if j == 0 then map[] else Crowd(j - 1)[j - 1 := Hashing(Create, [])]
  }

  lemma {:induction false} CrowdMembers(j: nat)
    ensures forall r: nat :: r in Crowd(j) <==> r < j
    ensures forall r | r in Crowd(j) :: Crowd(j)[r] == Hashing(Create, [])
    ensures |InFlight(Crowd(j))| == j
  {
    if j > 0 {
      CrowdMembers(j - 1);
      assert InFlight(Crowd(j)) == InFlight(Crowd(j - 1)) + {j - 1};
    } else {
      assert InFlight(Crowd(j)) == {};
    }
  }

  lemma OneMoreInFlight(j: nat, to: Progress)
    requires !to.Answered?
    ensures |InFlight(Crowd(j)[j := to])| == j + 1
  {
    CrowdMembers(j);
    assert InFlight(Crowd(j)[j := to]) == InFlight(Crowd(j)) + {j};
  }

  /** One more request comes, and tries for a slot. */
  function Arrived(x: Execution, r: nat): Execution {
    And(And(x, Arrive(r, [Create])), TryAcquire(r))
  }

  lemma ArrivedFinal(x: Execution, free: nat, j: nat, k: nat)
    requires Possible(x) && AtMost(x, k) && Final(x) == Pool(free, Crowd(j)) && j < k
    ensures var y := Arrived(x, j);
      && Possible(y) && AtMost(y, k)
      && Final(y) == if free == 0 then Pool(0, Crowd(j)[j := Answered(Busy)]) else Pool(free - 1, Crowd(j + 1))
  {
    CrowdMembers(j);
    CrowdMembers(j + 1);
    var arriving := And(x, Arrive(j, [Create]));
    OneMoreInFlight(j, Waiting([Create]));
    assert Possible(arriving) && Final(arriving) == Pool(free, Crowd(j)[j := Waiting([Create])]);
    assert [Create][1..] == [];
    var waiting := Crowd(j)[j := Waiting([Create])];
    assert waiting[j := Answered(Busy)] == Crowd(j)[j := Answered(Busy)];
    assert waiting[j := Hashing(Create, [])] == Crowd(j + 1);
    assert InFlight(Crowd(j)[j := Answered(Busy)]) == InFlight(Crowd(j));
  }

  lemma {:induction false} CrowdGathers(slots: nat, j: nat, k: nat) returns (x: Execution)
    requires j <= slots && j <= k
    ensures Possible(x) && AtMost(x, k) && Slots(x) == slots && Final(x) == Pool(slots - j, Crowd(j))
  {
    if j == 0 {
      x := Initially(slots);
      CrowdMembers(0);
    } else {
      var before := CrowdGathers(slots, j - 1, k);
      ArrivedFinal(before, slots - (j - 1), j - 1, k);
      x := Arrived(before, j - 1);
    }
  }

  /** With this many slots, no interleaving of at most k requests at a time turns anyone away. */
  ghost predicate NeverBusy(slots: nat, k: nat) {
    forall x | Possible(x) && AtMost(x, k) && Slots(x) == slots :: NoneBusy(Final(x).requests)
  }

  lemma {:induction false} AtMostMore(x: Execution, j: nat, k: nat)
    requires Possible(x) && AtMost(x, j) && j <= k
    ensures AtMost(x, k)
  {
    if x.And? {
      AtMostMore(x.before, j, k);
    }
  }

  lemma OneTooMany(slots: nat, k: nat) returns (x: Execution)
    requires slots < k
    ensures Possible(x) && AtMost(x, k) && Slots(x) == slots && !NoneBusy(Final(x).requests)
  {
    var full := CrowdGathers(slots, slots, k);
    ArrivedFinal(full, 0, slots, k);
    x := Arrived(full, slots);
    assert Final(x).requests[slots] == Answered(Busy);
  }

  /** So nobody is ever told busy, in any interleaving, if and only if there are as many slots as requests can be
      under way at a time. */
  lemma NeverBusyIffEnoughSlots(slots: nat, k: nat)
    ensures NeverBusy(slots, k) <==> k <= slots
  {
    if k <= slots {
      forall x | Possible(x) && AtMost(x, k) && Slots(x) == slots
        ensures NoneBusy(Final(x).requests)
      {
        AtMostMore(x, k, slots);
        EnoughSlotsMeanNeverBusy(x);
      }
    } else {
      var x := OneTooMany(slots, k);
      assert Possible(x) && AtMost(x, k) && Slots(x) == slots;
    }
  }
}
