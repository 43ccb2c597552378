/** The cap on sessions when requests interleave: every SQL statement is one step, and the statements of any
    number of CreateSession calls, log-outs, touches and delete-alls come in any order. */
module SessionCap {
  import opened TokenBucket
  import opened LruCaches
  import opened Db
  import opened Accounts

  /** The statement that a call of CreateSession is about to make. */
  datatype Stage = Counting | Evicting | Inserting

  datatype Call = Call(user: UserId, stage: Stage)

  datatype State = State(sessions: map<Digest, Session>, calls: map<nat, Call>)

  datatype Event =
    | Begin(call: nat, user: UserId)
    | Count(call: nat)
    | Evict(call: nat, choice: Digest)
    | Insert(call: nat, id: Digest, now: Time)
    | Fail(call: nat)  // at whatever statement
    | Delete(id: Digest)
    | DeleteAll(user: UserId)
    | Touch(id: Digest, now: Time)

  predicate At(s: State, call: nat, stage: Stage) {
    call in s.calls && s.calls[call].stage == stage
  }

  predicate Enabled(s: State, e: Event) {
    match e
    case Begin(c, _) => c !in s.calls
    case Count(c) => At(s, c, Counting)
    case Evict(c, _) => At(s, c, Evicting)
    case Insert(c, id, _) => At(s, c, Inserting) && id !in s.sessions
    case Fail(c) => c in s.calls
    case Delete(_) => true
    case DeleteAll(_) => true
    case Touch(id, now) => id in s.sessions && s.sessions[id].createdAt <= now
  }

  function Moved(s: State, call: nat, stage: Stage): State
    requires call in s.calls
  {
    s.(calls := s.calls[call := s.calls[call].(stage := stage)])
  }

  ghost function Evicted(sessions: map<Digest, Session>, u: UserId, choice: Digest): map<Digest, Session> {
    if SessionsOf(sessions, u) == {} then sessions else sessions - {LeastRecent(sessions, u, choice)}
  }

  ghost function Next(s: State, e: Event): State
    requires Enabled(s, e)
  {
    match e
    case Begin(c, u) => s.(calls := s.calls[c := Call(u, Counting)])
    case Count(c) =>
      Moved(s, c, if |SessionsOf(s.sessions, s.calls[c].user)| >= MAX_ACTIVE_SESSIONS then Evicting else Inserting)
    case Evict(c, choice) => Moved(s, c, Inserting).(sessions := Evicted(s.sessions, s.calls[c].user, choice))
    case Insert(c, id, now) =>
      State(s.sessions[id := Session(s.calls[c].user, now, now)], s.calls - {c})
    case Fail(c) => s.(calls := s.calls - {c})
    case Delete(id) => s.(sessions := s.sessions - {id})
    case DeleteAll(u) => s.(sessions := WithoutSessionsOf(s.sessions, u))
    case Touch(id, now) => s.(sessions := s.sessions[id := s.sessions[id].(lastSeenAt := now)])
  }

  datatype Execution = Initially | And(before: Execution, event: Event)

  ghost predicate Possible(x: Execution)
    decreases x, 0
  {
    x.And? ==> Possible(x.before) && Enabled(Final(x.before), x.event)
  }

  ghost function Final(x: Execution): State
    requires Possible(x)
    decreases x, 1
  {
    if x.Initially? then State(map[], map[]) else Next(Final(x.before), x.event)
  }

  function CallsOf(s: State, u: UserId): set<nat> {
    set c | c in s.calls && s.calls[c].user == u
  }

  /** The calls of the user that will insert without looking again. */
  function InsertersOf(s: State, u: UserId): set<nat> {
    set c | c in s.calls && s.calls[c].user == u && s.calls[c].stage == Inserting
  }

  /** At no time are more than k calls of CreateSession under way for the user. */
  ghost predicate AtMost(x: Execution, u: UserId, k: nat)
    requires Possible(x)
  {
    |CallsOf(Final(x), u)| <= k && (x.And? ==> AtMost(x.before, u, k))
  }

  // ---- The bound ----

  ghost function Load(s: State, u: UserId): nat {
    |SessionsOf(s.sessions, u)| + |InsertersOf(s, u)|
  }

  lemma SubsetIsSmaller<T>(a: set<T>, b: set<T>)
    requires a <= b
    ensures |a| <= |b|
  {
    assert b == a + (b - a);
  }

  lemma InsertersAreCalls(s: State, u: UserId)
    ensures |InsertersOf(s, u)| <= |CallsOf(s, u)|
  {
    SubsetIsSmaller(InsertersOf(s, u), CallsOf(s, u));
  }

  /** Deletes and touches give the user no more sessions. */
  lemma RowsShrink(a: State, b: State, u: UserId)
    requires b.calls == a.calls && SessionsOf(b.sessions, u) <= SessionsOf(a.sessions, u)
    ensures Load(b, u) <= Load(a, u)
  {
    SubsetIsSmaller(SessionsOf(b.sessions, u), SessionsOf(a.sessions, u));
    assert InsertersOf(b, u) == InsertersOf(a, u);
  }

  lemma CallsShrink(a: State, b: State, u: UserId)
    requires b.sessions == a.sessions && InsertersOf(b, u) <= InsertersOf(a, u)
    ensures Load(b, u) <= Load(a, u)
  {
    SubsetIsSmaller(InsertersOf(b, u), InsertersOf(a, u));
  }

  lemma CountKeepsLoad(s: State, c: nat, u: UserId, k: nat)
    requires At(s, c, Counting) && |CallsOf(s, u)| <= k && Load(s, u) <= 9 + k
    ensures Load(Next(s, Count(c)), u) <= 9 + k
  {
    var b := Next(s, Count(c));
    if s.calls[c].user == u && b.calls[c].stage == Inserting {
      assert CallsOf(b, u) == CallsOf(s, u);
      InsertersAreCalls(b, u);
    } else {
      assert InsertersOf(b, u) <= InsertersOf(s, u);
      CallsShrink(s, b, u);
    }
  }

  lemma SessionsWith(sessions: map<Digest, Session>, id: Digest, row: Session, u: UserId)
    requires id !in sessions
    ensures |SessionsOf(sessions[id := row], u)| == |SessionsOf(sessions, u)| + if row.userId == u then 1 else 0
  {
    assert SessionsOf(sessions[id := row], u) == SessionsOf(sessions, u) + if row.userId == u then {id} else {};
  }

  lemma SessionsWithout(sessions: map<Digest, Session>, v: UserId, choice: Digest, u: UserId)
    ensures |SessionsOf(Evicted(sessions, v, choice), u)|
         == |SessionsOf(sessions, u)| - if v == u && SessionsOf(sessions, u) != {} then 1 else 0
  {
    if SessionsOf(sessions, v) != {} {
      var d := LeastRecent(sessions, v, choice);
      assert SessionsOf(sessions - {d}, u) == SessionsOf(sessions, u) - if v == u then {d} else {};
    }
  }

  lemma InsertersWith(s: State, c: nat, u: UserId)
    requires At(s, c, Evicting)
    ensures |InsertersOf(Moved(s, c, Inserting), u)| == |InsertersOf(s, u)| + if s.calls[c].user == u then 1 else 0
    ensures |InsertersOf(Moved(s, c, Inserting), u)| <= |CallsOf(s, u)|
  {
    var b := Moved(s, c, Inserting);
    assert InsertersOf(b, u) == InsertersOf(s, u) + if s.calls[c].user == u then {c} else {};
    assert CallsOf(b, u) == CallsOf(s, u);
    InsertersAreCalls(b, u);
  }

  lemma InsertersWithout(s: State, c: nat, u: UserId)
    requires At(s, c, Inserting)
    ensures |InsertersOf(s.(calls := s.calls - {c}), u)| == |InsertersOf(s, u)| - if s.calls[c].user == u then 1 else 0
  {
    assert InsertersOf(s.(calls := s.calls - {c}), u)
        == InsertersOf(s, u) - if s.calls[c].user == u then {c} else {};
  }

  lemma EvictKeepsLoad(s: State, c: nat, choice: Digest, u: UserId, k: nat)
    requires At(s, c, Evicting) && |CallsOf(s, u)| <= k && Load(s, u) <= 9 + k
    ensures Load(Next(s, Evict(c, choice)), u) <= 9 + k
  {
    SessionsWithout(s.sessions, s.calls[c].user, choice, u);
    InsertersWith(s, c, u);
    assert InsertersOf(Next(s, Evict(c, choice)), u) == InsertersOf(Moved(s, c, Inserting), u);
  }

  lemma InsertKeepsLoad(s: State, c: nat, id: Digest, now: Time, u: UserId)
    requires At(s, c, Inserting) && id !in s.sessions
    ensures Load(Next(s, Insert(c, id, now)), u) == Load(s, u)
  {
    SessionsWith(s.sessions, id, Session(s.calls[c].user, now, now), u);
    InsertersWithout(s, c, u);
    assert InsertersOf(Next(s, Insert(c, id, now)), u) == InsertersOf(s.(calls := s.calls - {c}), u);
  }

  lemma StepKeepsLoad(s: State, e: Event, u: UserId, k: nat)
    requires Enabled(s, e) && |CallsOf(s, u)| <= k && Load(s, u) <= 9 + k
    ensures Load(Next(s, e), u) <= 9 + k
  {
    match e
    case Begin(c, _) => CallsShrink(s, Next(s, e), u);
    case Count(c) => CountKeepsLoad(s, c, u, k);
    case Evict(c, choice) => EvictKeepsLoad(s, c, choice, u, k);
    case Insert(c, id, now) => InsertKeepsLoad(s, c, id, now, u);
    case Fail(c) => CallsShrink(s, Next(s, e), u);
    case Delete(_) => RowsShrink(s, Next(s, e), u);
    case DeleteAll(_) => RowsShrink(s, Next(s, e), u);
    case Touch(_, _) => RowsShrink(s, Next(s, e), u);
  }

  lemma {:induction false} LoadIsBounded(x: Execution, u: UserId, k: nat)
    requires Possible(x) && AtMost(x, u, k)
    ensures Load(Final(x), u) <= 9 + k
  {
    if x.And? {
      LoadIsBounded(x.before, u, k);
      StepKeepsLoad(Final(x.before), x.event, u, k);
    } else {
      assert SessionsOf(Final(x).sessions, u) == {} && InsertersOf(Final(x), u) == {};
    }
  }

  /** With at most k calls under way at a time, the user never has more than 9 + k sessions; fewer by one for every
      call that is past its count. */
  lemma CapUnderInterleaving(x: Execution, u: UserId, k: nat)
    requires Possible(x) && AtMost(x, u, k)
    ensures |SessionsOf(Final(x).sessions, u)| <= 9 + k - |InsertersOf(Final(x), u)|
  {
    LoadIsBounded(x, u, k);
  }

  // ---- The bound is reached: nine sessions, then k calls that all count before any inserts ----

  function Id(n: nat): (d: Digest)
    ensures |d.preimage| == n
  {
    Sha256(seq(n, _ => 0))
  }

  /** n sessions of user 0. */
  function Filled(n: nat): map<Digest, Session> {
    if n == 0 then map[] else Filled(n - 1)[Id(n - 1) := Session(0, 0, 0)]
  }

  /** j calls for user 0, all about to insert. */
  function Ready(j: nat): map<nat, Call> {
    if j == 0 then map[] else Ready(j - 1)[j - 1 := Call(0, Inserting)]
  }

  lemma {:induction false} FilledWith(n: nat)
    ensures forall d | d in Filled(n) :: |d.preimage| < n
    ensures Id(n) !in Filled(n) && |SessionsOf(Filled(n), 0)| == n
  {
    if n > 0 {
      FilledWith(n - 1);
      SessionsWith(Filled(n - 1), Id(n - 1), Session(0, 0, 0), 0);
    } else {
      assert SessionsOf(Filled(n), 0) == {};
    }
  }

  lemma {:induction false} ReadyCalls(j: nat)
    ensures forall c: nat :: c in Ready(j) <==> c < j
    ensures forall c | c in Ready(j) :: Ready(j)[c] == Call(0, Inserting)
  {
    if j > 0 {
      ReadyCalls(j - 1);
    }
  }

  lemma CallsWith(a: State, b: State, c: nat, call: Call)
    requires c !in a.calls && b.calls == a.calls[c := call] && call.user == 0
    ensures |CallsOf(b, 0)| == |CallsOf(a, 0)| + 1
  {
    forall k
      ensures k in CallsOf(b, 0) <==> k in CallsOf(a, 0) + {c}
    {
    }
    assert CallsOf(b, 0) == CallsOf(a, 0) + {c};
  }

  lemma {:induction false} CallsInFlight(s: State, j: nat)
    requires s.calls == Ready(j)
    ensures |CallsOf(s, 0)| == j
    decreases j
  {
    if j > 0 {
      var before := s.(calls := Ready(j - 1));
      CallsInFlight(before, j - 1);
      ReadyCalls(j - 1);
      CallsWith(before, s, j - 1, Call(0, Inserting));
    } else {
      assert CallsOf(s, 0) == {};
    }
  }

  lemma OneMoreCall(s: State, j: nat, stage: Stage)
    requires s.calls == Ready(j)[j := Call(0, stage)]
    ensures |CallsOf(s, 0)| == j + 1
  {
    var before := s.(calls := Ready(j));
    CallsInFlight(before, j);
    ReadyCalls(j);
    CallsWith(before, s, j, Call(0, stage));
  }

  /** Run x goes on with one more call, up to its insert. */
  function Announced(x: Execution, c: nat): Execution {
    And(And(x, Begin(c, 0)), Count(c))
  }

  lemma AnnounceOneMore(x: Execution, n: nat, j: nat, k: nat)
    requires Possible(x) && AtMost(x, 0, k) && Final(x) == State(Filled(n), Ready(j)) && n < 10 && j < k
    ensures var y := Announced(x, j); Possible(y) && AtMost(y, 0, k) && Final(y) == State(Filled(n), Ready(j + 1))
  {
    FilledWith(n);
    ReadyCalls(j);
    var begun := And(x, Begin(j, 0));
    OneMoreCall(Final(begun), j, Counting);
    var y := And(begun, Count(j));
    OneMoreCall(Final(y), j, Inserting);
  }

  lemma InsertOneMore(x: Execution, n: nat, j: nat, k: nat)
    requires Possible(x) && AtMost(x, 0, k) && Final(x) == State(Filled(n), Ready(j)) && 0 < j <= k
    ensures var y := And(x, Insert(j - 1, Id(n), 0));
      Possible(y) && AtMost(y, 0, k) && Final(y) == State(Filled(n + 1), Ready(j - 1))
  {
    FilledWith(n);
    ReadyCalls(j - 1);
    var y := And(x, Insert(j - 1, Id(n), 0));
    assert Final(y).calls == Ready(j - 1);
    CallsInFlight(Final(y), j - 1);
  }

  /** One call after another, n times. */
  lemma {:induction false} FillInTurn(n: nat, k: nat) returns (x: Execution)
    requires n <= 10 && 0 < k
    ensures Possible(x) && AtMost(x, 0, k) && Final(x) == State(Filled(n), Ready(0))
  {
    if n == 0 {
      x := Initially;
      CallsInFlight(Final(x), 0);
    } else {
      var before := FillInTurn(n - 1, k);
      AnnounceOneMore(before, n - 1, 0, k);
      x := Announced(before, 0);
      InsertOneMore(x, n - 1, 1, k);
      x := And(x, Insert(0, Id(n - 1), 0));
    }
  }

  lemma {:induction false} AnnounceAll(j: nat, k: nat) returns (x: Execution)
    requires j <= k && 0 < k
    ensures Possible(x) && AtMost(x, 0, k) && Final(x) == State(Filled(9), Ready(j))
  {
    if j == 0 {
      x := FillInTurn(9, k);
    } else {
      var before := AnnounceAll(j - 1, k);
      AnnounceOneMore(before, 9, j - 1, k);
      x := Announced(before, j - 1);
    }
  }

  lemma {:induction false} InsertAll(i: nat, k: nat) returns (x: Execution)
    requires i <= k && 0 < k
    ensures Possible(x) && AtMost(x, 0, k) && Final(x) == State(Filled(9 + i), Ready(k - i))
  {
    if i == 0 {
      x := AnnounceAll(k, k);
    } else {
      var before := InsertAll(i - 1, k);
      InsertOneMore(before, 9 + i - 1, k - i + 1, k);
      x := And(before, Insert(k - i, Id(9 + i - 1), 0));
    }
  }

  /** The cap as the constant states it, whatever the interleaving of at most k calls. */
  ghost predicate CapHolds(k: nat) {
    forall x, u | Possible(x) && AtMost(x, u, k) :: |SessionsOf(Final(x).sessions, u)| <= MAX_ACTIVE_SESSIONS
  }

  /** The bound 9 + k is exact: it is reached for every k but 0. */
  lemma CapIsReached(k: nat) returns (x: Execution)
    requires 0 < k
    ensures Possible(x) && AtMost(x, 0, k) && |SessionsOf(Final(x).sessions, 0)| == 9 + k
  {
    x := InsertAll(k, k);
    FilledWith(9 + k);
  }

  /** So MaxActiveSessions is kept for certain just when a user's calls of CreateSession come one at a time. */
  lemma CapHoldsIffOneAtATime(k: nat)
    ensures CapHolds(k) <==> k <= 1
  {
    if k > 1 {
      var x := CapIsReached(k);
      assert Possible(x) && AtMost(x, 0, k);
    } else {
      forall x, u | Possible(x) && AtMost(x, u, k)
        ensures |SessionsOf(Final(x).sessions, u)| <= MAX_ACTIVE_SESSIONS
      {
        CapUnderInterleaving(x, u, k);
      }
    }
  }

  // ---- One call on its own is the service's CreateSession ----

  /** The execution of one call up to its count, and its eviction if it needs one; None if it failed. */
  ghost function AloneUpToInsert(s: State, c: nat, env: Env, u: UserId, choice: Digest): Option<State>
    requires c !in s.calls
    ensures var r := AloneUpToInsert(s, c, env, u, choice); r.Some? ==> At(r.value, c, Inserting)
  {
    var begun := Next(s, Begin(c, u));
    if CountSessionsFails in env.faults then None
    else
      var counted := Next(begun, Count(c));
      if At(counted, c, Inserting) then Some(counted)
      else if EvictSessionFails in env.faults then None
      else Some(Next(counted, Evict(c, choice)))
  }

  /** One call from beginning to end, with nothing in between its statements; `users` are those there are. */
  ghost function Alone(s: State, c: nat, env: Env, u: UserId, choice: Digest, users: set<UserId>): State
    requires c !in s.calls
  {
    match AloneUpToInsert(s, c, env, u, choice)
    case None => Next(Next(s, Begin(c, u)), Fail(c))
    case Some(ready) =>
      if RandomFails in env.faults || CreateSessionFails in env.faults || Sha256(env.rawId) in ready.sessions || u !in users
      then Next(ready, Fail(c))
      else Next(ready, Insert(c, Sha256(env.rawId), env.now))
  }

  lemma AloneMakesRoom(t: Tables, calls: map<nat, Call>, c: nat, env: Env, u: UserId, choice: Digest)
    requires c !in calls
    ensures match AloneUpToInsert(State(t.sessions, calls), c, env, u, choice)
      case None =>
        || CountSessionsFails in env.faults
        || (|SessionsOf(t.sessions, u)| >= MAX_ACTIVE_SESSIONS && EvictSessionFails in env.faults)
      case Some(ready) =>
        && CountSessionsFails !in env.faults
        && !(|SessionsOf(t.sessions, u)| >= MAX_ACTIVE_SESSIONS && EvictSessionFails in env.faults)
        && ready.sessions == MakeRoom(t, u, choice).sessions && ready.calls[c].user == u
  {
  }

  /** Whatever fails, and whoever it is for. */
  lemma AloneIsCreateSession(t: Tables, calls: map<nat, Call>, c: nat, env: Env, u: UserId, choice: Digest)
    requires c !in calls
    ensures Alone(State(t.sessions, calls), c, env, u, choice, t.users.Keys).sessions
         == CreateSession(t, env, u, choice).tables.sessions
  {
    AloneMakesRoom(t, calls, c, env, u, choice);
  }
}
