/** Sessions over whole runs: who they let in, that the end of one is final, how `last_seen_at` follows real use,
    and whom eviction hits. A request is one step, as in Runs. */
module SessionLife {
  import opened TokenBucket
  import opened LruCaches
  import opened Emails
  import opened Db
  import opened Accounts
  import opened Handlers
  import opened Evolution
  import opened GoodTables
  import opened Changes
  import opened Runs
  import AccountLaws
  import SessionCap

  // ---- Authentication ----

  /** With no query errors a handler runs as u just when the cookie carries the raw id of a stored session of
      active user u that is inside both time limits. */
  lemma AuthenticationIsExact(t: Tables, env: Env, cookie: Cookie, u: UserId)
    requires Consistent(t) && GetSessionFails !in env.faults && GetUserByIDFails !in env.faults
    ensures RunsAs(Authenticate(t, env, cookie).0, env, Authenticate(t, env, cookie).1) == Some(u) <==>
      && cookie.Carries? && Sha256(cookie.raw) in t.sessions
      && var s := t.sessions[Sha256(cookie.raw)];
        && s.userId == u && t.users[u].isActive
        && env.now <= s.createdAt + 90 * DAY && env.now <= s.lastSeenAt + 14 * DAY
  {
  }

  /** No session under this id would let anyone in at this time. */
  ghost predicate Over(t: Tables, d: Digest, now: Time) {
    d in t.sessions ==> IsExpired(t.sessions[d], now)
  }

  lemma StaysOver(a: Tables, b: Tables, auth: Auth, id: Digest, d: Digest, since: Time, now: Time)
    requires Evolves(a, b, auth, id, now) && Over(a, d, since) && since <= now && d != id
    ensures Over(b, d, since)
  {
  }

  /** All that b adds to a happens at or after `since`. */
  predicate NotBefore(a: Run, b: Run, since: Time) {
    b == a || (b.Then? && NotBefore(a, b.before, since) && since <= b.step.env.now)
  }

  lemma {:induction false} OverForGood(cfg: Config, a: Run, b: Run, d: Digest, since: Time)
    requires NotBefore(a, b, since) && Occurs(cfg, b) && Fair(b) && d in Drawn(a) && Over(After(a), d, since)
    ensures Occurs(cfg, a) && Fair(a) && d in Drawn(b) && Over(After(b), d, since)
  {
    if b != a {
      OverForGood(cfg, a, b.before, d, since);
      StepEvolves(cfg, b);
      StaysOver(After(b.before), After(b), b.served.auth, Sha256(b.step.env.rawId), d, since, b.step.env.now);
    }
  }

  lemma OverRefuses(t: Tables, env: Env, raw: Bytes, since: Time)
    requires Over(t, Sha256(raw), since) && since <= env.now
    ensures Authenticate(t, env, Carries(raw)).1 == Anonymous
  {
  }

  /** The end of a session is final. Once an id that has been drawn lets nobody in, be it expired, evicted, logged
      out or revoked, it never does again: not even if the deletion of the expired row failed every time. */
  lemma EndIsFinal(cfg: Config, a: Run, b: Run, env: Env, raw: Bytes, since: Time)
    requires NotBefore(a, b, since) && Occurs(cfg, b) && Fair(b) && since <= env.now
    requires Sha256(raw) in Drawn(a) && Over(After(a), Sha256(raw), since)
    ensures Authenticate(After(b), env, Carries(raw)).1 == Anonymous
  {
    OverForGood(cfg, a, b, Sha256(raw), since);
    OverRefuses(After(b), env, raw, since);
  }

  /** After a change of a user's credentials no session from before it lets anybody in again. */
  lemma ChangeEndsSessions(cfg: Config, a: Run, b: Run, env: Env, raw: Bytes)
    requires Extends(a, b) && Occurs(cfg, b) && Fair(b) && Sha256(raw) in After(a).sessions
    requires var u := After(a).sessions[Sha256(raw)].userId; Epoch(a, u) < Epoch(b, u)
    ensures Authenticate(After(b), env, Carries(raw)).1 == Anonymous
  {
    var d := Sha256(raw);
    if d in After(b).sessions {
      SessionsKeepTheirUser(cfg, a, b, d);
      ChangeRevokes(cfg, a, b, After(a).sessions[d].userId, d);
    }
    OverRefuses(After(b), env, raw, env.now);
  }

  lemma {:induction false} SessionsKeepTheirUser(cfg: Config, a: Run, b: Run, d: Digest)
    requires Extends(a, b) && Occurs(cfg, b) && Fair(b) && d in After(a).sessions && d in After(b).sessions
    ensures After(b).sessions[d].userId == After(a).sessions[d].userId
    ensures After(b).sessions[d].createdAt == After(a).sessions[d].createdAt
  {
    if b != a {
      EarlierOccurs(cfg, b);
      ExtensionIsFair(cfg, a, b.before);
      RowsAreDrawn(cfg, a);
      StepEvolves(cfg, b);
      SessionsKeepTheirUser(cfg, a, b.before, d);
    }
  }

  // ---- Last use ----

  /** The last request that ran with the session, or the one that created it. */
  function LastUse(run: Run, d: Digest): Time {
    if run.Start? then 0
    else if d == Sha256(run.step.env.rawId) || (run.served.auth.As? && run.served.auth.id == d)
    then run.step.env.now
    else LastUse(run.before, d)
  }

  /** No touch of the session ever failed. */
  predicate TouchesSucceed(run: Run, d: Digest) {
    run.Then? ==>
      && TouchesSucceed(run.before, d)
      && (run.step.request.cookie == Carries(d.preimage) ==> TouchSessionFails !in run.step.env.faults)
  }

  lemma {:induction false} UseIsPast(run: Run, d: Digest)
    requires Fair(run) && run.Then? && d in Drawn(run)
    ensures LastUse(run, d) <= run.step.env.now
  {
    if d != Sha256(run.step.env.rawId) {
      UseIsPast(run.before, d);
    }
  }

  lemma AuthenticatedIsCarried(t: Tables, env: Env, cookie: Cookie)
    ensures var auth := Authenticate(t, env, cookie).1;
      auth.As? ==> cookie == Carries(auth.id.preimage) && auth.id in t.sessions
  {
  }

  /** `last_seen_at` is never later than the last use. */
  lemma {:induction false} SeenIsUsed(cfg: Config, run: Run, d: Digest)
    requires Occurs(cfg, run) && Fair(run) && d in After(run).sessions
    ensures After(run).sessions[d].lastSeenAt <= LastUse(run, d)
  {
    StepEvolves(cfg, run);
    if d in After(run.before).sessions {
      SeenIsUsed(cfg, run.before, d);
      RowsAreDrawn(cfg, run.before);
      UseIsPast(run.before, d);
    }
  }

  lemma TouchedIsRecent(t: Tables, env: Env, cookie: Cookie, d: Digest)
    requires Consistent(t) && TouchSessionFails !in env.faults && Authenticate(t, env, cookie).1.As?
    requires d == Authenticate(t, env, cookie).1.id
    ensures d in Authenticate(t, env, cookie).0.sessions
    ensures env.now <= Authenticate(t, env, cookie).0.sessions[d].lastSeenAt + 20 * MINUTE
  {
  }

  /** The handler's half of a step. */
  lemma HandlerEvolves(cfg: Config, run: Run)
    requires Occurs(cfg, run) && Fair(run) && run.Then?
    ensures Evolves(SeenLast(run), After(run), Anonymous, Sha256(run.step.env.rawId), run.step.env.now)
  {
    var s := run.step;
    StepEvolves(cfg, run);
    LastServed(cfg, run);
    ConsistentThroughout(cfg, run.before);
    AuthenticateDisturbsNothing(After(run.before), s.env, s.request.cookie);
    AuthenticateEvolves(After(run.before), s.env, s.request.cookie, Sha256(s.env.rawId));
    ActEvolves(cfg, SeenLast(run), s.env, s.how, run.served.auth, s.request.action);
  }

  /** While its touches succeed, a session was last used at most 20 minutes after `last_seen_at`; so already
      between the middleware and the handler. */
  lemma {:induction false} UsedIsSeenMidway(cfg: Config, run: Run, d: Digest)
    requires Occurs(cfg, run) && Fair(run) && run.Then? && d in SeenLast(run).sessions && TouchesSucceed(run, d)
    ensures LastUse(run, d) <= SeenLast(run).sessions[d].lastSeenAt + 20 * MINUTE
    decreases run, 0
  {
    var t, s := After(run.before), run.step;
    StepEvolves(cfg, run);
    LastStepChanges(cfg, run);
    AuthenticateEvolves(t, s.env, s.request.cookie, Sha256(s.env.rawId));
    if run.served.auth.As? && run.served.auth.id == d {
      ConsistentThroughout(cfg, run.before);
      AuthenticatedIsCarried(t, s.env, s.request.cookie);
      TouchedIsRecent(t, s.env, s.request.cookie, d);
    } else if d in t.sessions {
      UsedIsSeen(cfg, run.before, d);
    } else {
      StrangersAreNotSeen(t, s.env, s.request.cookie, d);
    }
  }

  lemma StrangersAreNotSeen(t: Tables, env: Env, cookie: Cookie, d: Digest)
    requires d !in t.sessions
    ensures d !in Authenticate(t, env, cookie).0.sessions
  {
  }

  lemma {:induction false} UsedIsSeen(cfg: Config, run: Run, d: Digest)
    requires Occurs(cfg, run) && Fair(run) && d in After(run).sessions && TouchesSucceed(run, d)
    ensures LastUse(run, d) <= After(run).sessions[d].lastSeenAt + 20 * MINUTE
    decreases run, 1
  {
    StepEvolves(cfg, run);
    HandlerEvolves(cfg, run);
    if d in SeenLast(run).sessions {
      UsedIsSeenMidway(cfg, run, d);
    }
  }

  lemma SeenIsUsedMidway(cfg: Config, run: Run, d: Digest)
    requires Occurs(cfg, run) && Fair(run) && run.Then? && d in SeenLast(run).sessions
    ensures SeenLast(run).sessions[d].lastSeenAt <= LastUse(run, d)
  {
    var t, s := After(run.before), run.step;
    StepEvolves(cfg, run);
    LastStepChanges(cfg, run);
    AuthenticateEvolves(t, s.env, s.request.cookie, Sha256(s.env.rawId));
    if d in t.sessions {
      SeenIsUsed(cfg, run.before, d);
      RowsAreDrawn(cfg, run.before);
      UseIsPast(run.before, d);
    } else {
      StrangersAreNotSeen(t, s.env, s.request.cookie, d);
    }
  }

  /** A session in use at least every 14 days less 20 minutes does not idle out, and one left alone for more than
      14 days always does. */
  lemma IdleTimeFollowsUse(cfg: Config, run: Run, d: Digest, now: Time)
    requires Occurs(cfg, run) && Fair(run) && d in After(run).sessions
    ensures now - LastUse(run, d) > 14 * DAY ==> IsExpired(After(run).sessions[d], now)
    ensures TouchesSucceed(run, d) && now - LastUse(run, d) <= 14 * DAY - 20 * MINUTE ==>
      (IsExpired(After(run).sessions[d], now) <==> now > After(run).sessions[d].createdAt + 90 * DAY)
  {
    SeenIsUsed(cfg, run, d);
    if TouchesSucceed(run, d) {
      UsedIsSeen(cfg, run, d);
    }
  }

  // ---- Eviction ----

  /** A session that a log-in makes disappear was a least recent one of a user who had ten. */
  lemma LogInEvictsLeastRecent(cfg: Config, t: Tables, env: Env, email: string, password: string, choice: Digest,
                               d: Digest)
    requires d in t.sessions && d !in LogInEffect(cfg, t, env, email, password, choice).tables.sessions
    ensures IsLeastRecent(t.sessions, t.sessions[d].userId, d)
    ensures |SessionsOf(t.sessions, t.sessions[d].userId)| >= 10
  {
    var u := Accounts.LogIn(cfg, t, env, email, password).value;
    EvictedIsLeastRecent(t, env, u, choice, d);
  }

  lemma EvictedIsLeastRecent(t: Tables, env: Env, u: UserId, choice: Digest, d: Digest)
    requires d in t.sessions && d !in CreateSession(t, env, u, choice).tables.sessions
    ensures t.sessions[d].userId == u && IsLeastRecent(t.sessions, u, d) && |SessionsOf(t.sessions, u)| >= 10
  {
  }

  /** Eviction is nearly true LRU: the session that a log-in evicts was really last used at most 20 minutes after
      any session of that user that is kept. */
  lemma EvictionIsNearlyLru(cfg: Config, run: Run, evicted: Digest, kept: Digest)
    requires Occurs(cfg, run) && Fair(run) && run.Then? && run.step.request.action.LogIn? && TouchesSucceed(run, evicted)
    requires evicted in SeenLast(run).sessions && evicted !in After(run).sessions
    requires kept in SeenLast(run).sessions
    requires SeenLast(run).sessions[kept].userId == SeenLast(run).sessions[evicted].userId
    ensures LastUse(run, evicted) <= LastUse(run, kept) + 20 * MINUTE
  {
    UsedIsSeenMidway(cfg, run, evicted);
    SeenIsUsedMidway(cfg, run, kept);
    LastServed(cfg, run);
    var s, seen := run.step, SeenLast(run);
    if s.how.allowed {
      LogInEvictsLeastRecent(cfg, seen, s.env, s.request.action.email, s.request.action.password, s.how.evicted, evicted);
      assert kept in SessionsOf(seen.sessions, seen.sessions[evicted].userId);
    }
  }

  // ---- The ways a session can end ----

  /** The request carries the session when it is past a time limit, and the middleware gets to delete it. */
  ghost predicate Expires(t: Tables, s: Step, d: Digest) {
    && s.request.cookie == Carries(d.preimage) && Stored(t, d) && IsExpired(t.sessions[d], s.env.now)
    && GetSessionFails !in s.env.faults && DeleteSessionFails !in s.env.faults
  }

  /** The request is a log-out with the session, by its user, and nothing fails on the way. */
  ghost predicate LogsOut(t: Tables, auth: Auth, s: Step, d: Digest) {
    && s.request.action.LogOut? && auth.As? && auth.id == d && RunsAs(t, s.env, auth).Some?
    && DeleteSessionFails !in s.env.faults
  }

  /** The limiter admits a log-in of the session's own user, with the right password; the user has ten sessions,
      and this is the least recent one that the database picks. */
  ghost predicate Evicts(cfg: Config, t: Tables, s: Step, d: Digest) {
    var action := s.request.action;
    && action.LogIn? && s.how.allowed && d in t.sessions
    && Accounts.LogIn(cfg, t, s.env, action.email, action.password) == Done(t.sessions[d].userId)
    && Displaces(t, s.env, t.sessions[d].userId, s.how.evicted, d)
  }

  /** CreateSession makes room for u by deleting d. */
  ghost predicate Displaces(t: Tables, env: Env, u: UserId, choice: Digest, d: Digest) {
    && CountSessionsFails !in env.faults && EvictSessionFails !in env.faults
    && |SessionsOf(t.sessions, u)| >= 10 && d == LeastRecent(t.sessions, u, choice)
  }

  lemma NewcomerEvictsNobody(t: Tables, env: Env, v: UserId, choice: Digest, d: Digest)
    requires (forall e | e in t.sessions :: t.sessions[e].userId != v) && d in t.sessions
    ensures d in CreateSession(t, env, v, choice).tables.sessions
  {
    assert SessionsOf(t.sessions, v) == {};
  }

  lemma SignUpIsForNewcomer(cfg: Config, t: Tables, env: Env, email: string, password: string)
    ensures var o := Accounts.SignUp(cfg, t, env, email, password);
      o.tables.sessions == t.sessions && (o.reply.Done? ==> o.reply.value == t.nextUserId)
  {
    AccountLaws.SignUpIsExact(cfg, t, env, email, password);
  }

  lemma SignUpEndsNoSession(cfg: Config, t: Tables, env: Env, email: string, password: string, choice: Digest, d: Digest)
    requires Consistent(t) && d in t.sessions
    ensures d in SignUpEffect(cfg, t, env, email, password, choice).tables.sessions
  {
    var o := Accounts.SignUp(cfg, t, env, email, password);
    SignUpIsForNewcomer(cfg, t, env, email, password);
    if o.reply.Done? {
      NewcomerEvictsNobody(o.tables, env, t.nextUserId, choice, d);
    }
  }

  lemma DisplacementIsExact(t: Tables, env: Env, u: UserId, choice: Digest, d: Digest)
    requires d in t.sessions && d != Sha256(env.rawId)
    ensures d !in CreateSession(t, env, u, choice).tables.sessions <==> Displaces(t, env, u, choice, d)
  {
  }

  lemma LogInEndsByEviction(cfg: Config, t: Tables, auth: Auth, s: Step, d: Digest)
    requires d in t.sessions && d != Sha256(s.env.rawId) && s.request.action.LogIn?
    ensures d !in Act(cfg, t, s.env, s.how, auth, s.request.action).tables.sessions <==> Evicts(cfg, t, s, d)
  {
    var r := Accounts.LogIn(cfg, t, s.env, s.request.action.email, s.request.action.password);
    if s.how.allowed && r.Done? {
      DisplacementIsExact(t, s.env, r.value, s.how.evicted, d);
    }
  }

  lemma ResetsEndOwnSessions(cfg: Config, t: Tables, auth: Auth, s: Step, d: Digest)
    requires d in t.sessions
    requires s.request.action.ChangePassword? || s.request.action.ResetPassword? || s.request.action.ResetEmail?
    ensures var e := Act(cfg, t, s.env, s.how, auth, s.request.action);
      d !in e.tables.sessions <==> ChangedBy(t, auth, s.request.action, e.answer) == Some(t.sessions[d].userId)
  {
  }

  lemma OthersEndNoSession(cfg: Config, t: Tables, auth: Auth, s: Step, d: Digest)
    requires d in t.sessions
    requires var action := s.request.action;
      action.LogOut? || action.GetUser? || action.RequestPasswordReset? || action.RequestEmailReset?
    ensures d !in Act(cfg, t, s.env, s.how, auth, s.request.action).tables.sessions <==> LogsOut(t, auth, s, d)
  {
    OthersAreContained(cfg, t, s.env, s.how, auth, s.request.action);
  }

  lemma HandlerEndsSession(cfg: Config, t: Tables, auth: Auth, s: Step, d: Digest)
    requires Consistent(t) && d in t.sessions && d != Sha256(s.env.rawId)
    ensures var e := Act(cfg, t, s.env, s.how, auth, s.request.action);
      d !in e.tables.sessions <==>
        || LogsOut(t, auth, s, d) || Evicts(cfg, t, s, d)
        || ChangedBy(t, auth, s.request.action, e.answer) == Some(t.sessions[d].userId)
  {
    var action := s.request.action;
    if action.SignUp? {
      SignUpEndsNoSession(cfg, t, s.env, action.email, action.password, s.how.evicted, d);
    } else if action.LogIn? {
      LogInEndsByEviction(cfg, t, auth, s, d);
    } else if action.ChangePassword? || action.ResetPassword? || action.ResetEmail? {
      ResetsEndOwnSessions(cfg, t, auth, s, d);
    } else {
      OthersEndNoSession(cfg, t, auth, s, d);
    }
  }

  /** A session ends in a step if and only if it is presented expired, logged out, evicted by an admitted log-in of
      its own user, or revoked by a change of its user's credentials. */
  lemma SessionsEndFourWays(cfg: Config, run: Run, d: Digest)
    requires Occurs(cfg, run) && Fair(run) && run.Then? && d in After(run.before).sessions
    ensures d !in After(run).sessions <==>
      || Expires(After(run.before), run.step, d)
      || LogsOut(SeenLast(run), run.served.auth, run.step, d)
      || Evicts(cfg, SeenLast(run), run.step, d)
      || ChangedLast(run) == Some(After(run.before).sessions[d].userId)
  {
    LastStepChanges(cfg, run);
    MiddlewareEndsExpired(After(run.before), run.step, d);
    if d in SeenLast(run).sessions {
      LastHandlerEndsSession(cfg, run, d);
    } else {
      DeletedStaysDeleted(cfg, run, d);
    }
  }

  lemma LastHandlerEndsSession(cfg: Config, run: Run, d: Digest)
    requires Occurs(cfg, run) && Fair(run) && run.Then? && d in After(run.before).sessions
    requires d in SeenLast(run).sessions
    ensures d !in After(run).sessions <==>
      || LogsOut(SeenLast(run), run.served.auth, run.step, d)
      || Evicts(cfg, SeenLast(run), run.step, d)
      || ChangedBy(SeenLast(run), run.served.auth, run.step.request.action, run.served.answer)
         == Some(SeenLast(run).sessions[d].userId)
  {
    StepEvolves(cfg, run);
    LastServed(cfg, run);
    ConsistentThroughout(cfg, run.before);
    SeenIsConsistent(After(run.before), run.step.env, run.step.request.cookie);
    HandlerEndsSession(cfg, SeenLast(run), run.served.auth, run.step, d);
  }

  lemma DeletedStaysDeleted(cfg: Config, run: Run, d: Digest)
    requires Occurs(cfg, run) && Fair(run) && run.Then? && d in After(run.before).sessions
    requires d !in SeenLast(run).sessions
    ensures d !in After(run).sessions
  {
    StepEvolves(cfg, run);
    HandlerEvolves(cfg, run);
  }

  lemma SeenIsConsistent(t: Tables, env: Env, cookie: Cookie)
    requires Consistent(t)
    ensures Consistent(Authenticate(t, env, cookie).0)
  {
    AuthenticateFits(t, env, cookie);
  }

  lemma MiddlewareEndsExpired(t: Tables, s: Step, d: Digest)
    requires d in t.sessions
    ensures var seen := Authenticate(t, s.env, s.request.cookie).0;
      && (d !in seen.sessions <==> Expires(t, s, d))
      && (d in seen.sessions ==> seen.sessions[d].userId == t.sessions[d].userId)
  {
  }

  /** From a to b every request that carries the session comes within its 90 days and at most 14 days less
      20 minutes after the one before. */
  ghost predicate UsedOften(a: Run, b: Run, d: Digest) {
    b != a ==>
      && b.Then? && UsedOften(a, b.before, d)
      && (b.step.request.cookie == Carries(d.preimage) && d in After(b.before).sessions ==>
           && b.step.env.now - LastUse(b.before, d) <= 14 * DAY - 20 * MINUTE
           && b.step.env.now <= After(b.before).sessions[d].createdAt + 90 * DAY)
  }

  /** From a to b nobody logs out with the session, no log-in of its user evicts it, and its user's credentials stay. */
  ghost predicate LeftAlone(cfg: Config, a: Run, b: Run, d: Digest) {
    b != a ==>
      && b.Then? && LeftAlone(cfg, a, b.before, d)
      && !LogsOut(SeenLast(b), b.served.auth, b.step, d) && !Evicts(cfg, SeenLast(b), b.step, d)
      && (d in After(b.before).sessions ==>
           ChangedLast(b) != Some(After(b.before).sessions[d].userId))
  }

  /** So a session that is used often and left alone is there for as long as the run goes on. */
  lemma {:induction false} SessionInUseSurvives(cfg: Config, a: Run, b: Run, d: Digest)
    requires Extends(a, b) && Occurs(cfg, b) && Fair(b) && d in After(a).sessions
    requires TouchesSucceed(b, d) && UsedOften(a, b, d) && LeftAlone(cfg, a, b, d)
    ensures d in After(b).sessions
  {
    if b != a {
      EarlierOccurs(cfg, b);
      SessionInUseSurvives(cfg, a, b.before, d);
      if d !in After(b).sessions {
        SessionsEndFourWays(cfg, b, d);
        IdleTimeFollowsUse(cfg, b.before, d, b.step.env.now);
      }
    }
  }

  // ---- The cap, one request after another ----

  ghost predicate Capped(sessions: map<Digest, Session>, u: UserId) {
    |SessionsOf(sessions, u)| <= MAX_ACTIVE_SESSIONS
  }

  /** Rows may go, and may be touched, but none is new or changes hands. */
  ghost predicate NoNewSessions(a: map<Digest, Session>, b: map<Digest, Session>) {
    forall d | d in b :: d in a && b[d].userId == a[d].userId
  }

  lemma FewerStayCapped(a: map<Digest, Session>, b: map<Digest, Session>, u: UserId)
    requires NoNewSessions(a, b) && Capped(a, u)
    ensures Capped(b, u)
  {
    SessionCap.SubsetIsSmaller(SessionsOf(b, u), SessionsOf(a, u));
  }

  lemma InsertStaysCapped(t: Tables, env: Env, v: UserId, u: UserId)
    requires Capped(t.sessions, u) && (v == u ==> |SessionsOf(t.sessions, u)| < MAX_ACTIVE_SESSIONS)
    ensures Capped(InsertSession(t, env, v).tables.sessions, u)
  {
    if Sha256(env.rawId) !in t.sessions {
      SessionCap.SessionsWith(t.sessions, Sha256(env.rawId), Session(v, env.now, env.now), u);
    }
  }

  /** Count, evict, insert: with nothing in between, no user gets an eleventh session. */
  lemma CreateSessionStaysCapped(t: Tables, env: Env, v: UserId, choice: Digest, u: UserId)
    requires Capped(t.sessions, u)
    ensures Capped(CreateSession(t, env, v, choice).tables.sessions, u)
  {
    if |SessionsOf(t.sessions, v)| >= MAX_ACTIVE_SESSIONS {
      SessionCap.SessionsWithout(t.sessions, v, choice, u);
    }
    InsertStaysCapped(MakeRoom(t, v, choice), env, v, u);
  }

  lemma ActStaysCapped(cfg: Config, t: Tables, env: Env, how: Settled, auth: Auth, action: Action, u: UserId)
    requires Capped(t.sessions, u)
    ensures Capped(Act(cfg, t, env, how, auth, action).tables.sessions, u)
  {
    if action.SignUp? {
      var o := Accounts.SignUp(cfg, t, env, action.email, action.password);
      if o.reply.Done? {
        CreateSessionStaysCapped(o.tables, env, o.reply.value, how.evicted, u);
      }
    } else if action.LogIn? {
      var r := Accounts.LogIn(cfg, t, env, action.email, action.password);
      if r.Done? {
        CreateSessionStaysCapped(t, env, r.value, how.evicted, u);
      }
    } else {
      OthersAddNoSession(cfg, t, env, how, auth, action);
      FewerStayCapped(t.sessions, Act(cfg, t, env, how, auth, action).tables.sessions, u);
    }
  }

  lemma ResetsAddNoSession(cfg: Config, t: Tables, env: Env, how: Settled, auth: Auth, action: Action)
    requires action.ChangePassword? || action.ResetPassword? || action.ResetEmail?
    ensures NoNewSessions(t.sessions, Act(cfg, t, env, how, auth, action).tables.sessions)
  {
  }

  lemma OthersAddNoSession(cfg: Config, t: Tables, env: Env, how: Settled, auth: Auth, action: Action)
    requires !action.SignUp? && !action.LogIn?
    ensures NoNewSessions(t.sessions, Act(cfg, t, env, how, auth, action).tables.sessions)
  {
    if action.ChangePassword? || action.ResetPassword? || action.ResetEmail? {
      ResetsAddNoSession(cfg, t, env, how, auth, action);
    } else {
      OthersAreContained(cfg, t, env, how, auth, action);
    }
  }

  lemma MiddlewareAddsNoSession(t: Tables, env: Env, cookie: Cookie)
    ensures NoNewSessions(t.sessions, Authenticate(t, env, cookie).0.sessions)
  {
  }

  /** Run request by request, no user ever has more than ten sessions. */
  lemma {:induction false} CapThroughout(cfg: Config, run: Run, u: UserId)
    requires Occurs(cfg, run)
    ensures |SessionsOf(After(run).sessions, u)| <= 10
  {
    if run.Start? {
      assert SessionsOf(After(run).sessions, u) == {};
    } else {
      LastServed(cfg, run);
      CapThroughout(cfg, run.before, u);
      var t, s := After(run.before), run.step;
      MiddlewareAddsNoSession(t, s.env, s.request.cookie);
      FewerStayCapped(t.sessions, SeenLast(run).sessions, u);
      ActStaysCapped(cfg, SeenLast(run), s.env, s.how, run.served.auth, s.request.action, u);
    }
  }

  // ---- The ways a session can begin ----

  lemma NewSessionIsInserted(t: Tables, env: Env, u: UserId, choice: Digest, d: Digest)
    requires d !in t.sessions && d in CreateSession(t, env, u, choice).tables.sessions
    ensures d == Sha256(env.rawId) && CreateSession(t, env, u, choice).tables.sessions[d].userId == u
  {
  }

  /** A log-in that succeeds was for a user with that password and, up to case and padding, that address. */
  lemma LogInIsProof(cfg: Config, t: Tables, env: Env, email: string, password: string)
    requires Accounts.LogIn(cfg, t, env, email, password).Done?
    ensures var u := Accounts.LogIn(cfg, t, env, email, password).value;
      && u in t.users && t.users[u].isActive && t.users[u].passwordHash.password == password
      && Lower(t.users[u].email) == Lower(Trim(email))
  {
    LogInAtIsProof(t, env, Normalize(Trim(email), cfg.parses).value, password);
    FoundByFold(cfg, t.users, email);
  }

  lemma LogInAtIsProof(t: Tables, env: Env, address: string, password: string)
    requires LogInAt(t, env, address, password).Done?
    ensures var u := LogInAt(t, env, address, password).value;
      && FindUser(t.users, address) == Some(u) && t.users[u].isActive && t.users[u].passwordHash.password == password
  {
  }

  lemma FoundByFold(cfg: Config, users: map<UserId, User>, email: string)
    requires Normalize(Trim(email), cfg.parses).Some?
    ensures var u := FindUser(users, Normalize(Trim(email), cfg.parses).value);
      u.Some? ==> u.value in users && Lower(users[u.value].email) == Lower(Trim(email))
  {
    TrimTwice(email);
    NormalizeKeepsFold(Trim(email), cfg.parses);
  }

  lemma SignUpOpensOwn(cfg: Config, t: Tables, env: Env, email: string, password: string, choice: Digest, d: Digest)
    requires d !in t.sessions && d in SignUpEffect(cfg, t, env, email, password, choice).tables.sessions
    ensures var b := SignUpEffect(cfg, t, env, email, password, choice).tables;
      && b.sessions[d].userId == t.nextUserId && t.nextUserId in b.users
      && b.users[t.nextUserId].passwordHash.password == password
  {
    var o := Accounts.SignUp(cfg, t, env, email, password);
    if o.reply.Done? {
      NewSessionIsInserted(o.tables, env, o.reply.value, choice, d);
      CreateSessionIsContained(o.tables, env, o.reply.value, choice);
    }
  }

  lemma LogInOpensOwn(cfg: Config, t: Tables, env: Env, email: string, password: string, choice: Digest, d: Digest)
    requires d !in t.sessions && d in LogInEffect(cfg, t, env, email, password, choice).tables.sessions
    ensures var b := LogInEffect(cfg, t, env, email, password, choice).tables;
      var u := b.sessions[d].userId;
      && u in b.users && b.users[u].passwordHash.password == password && Lower(b.users[u].email) == Lower(Trim(email))
  {
    var r := Accounts.LogIn(cfg, t, env, email, password);
    if r.Done? {
      LogInIsProof(cfg, t, env, email, password);
      NewSessionIsInserted(t, env, r.value, choice, d);
      CreateSessionIsContained(t, env, r.value, choice);
    }
  }

  /** A session begins in one of two ways only: with the sign-up of its user, or with a log-in that the limiter
      let through, with the password and the address, in some spelling, of its user. */
  lemma SessionsBeginWithThePassword(cfg: Config, run: Run, d: Digest)
    requires Occurs(cfg, run) && run.Then? && d !in After(run.before).sessions && d in After(run).sessions
    ensures var b, action := After(run), run.step.request.action;
      var u := b.sessions[d].userId;
      && (action.SignUp? || (action.LogIn? && run.step.how.allowed))
      && u in b.users && b.users[u].passwordHash.password == action.password
      && if action.SignUp? then u == After(run.before).nextUserId
         else Lower(b.users[u].email) == Lower(Trim(action.email))
  {
    var s, action := run.step, run.step.request.action;
    LastServed(cfg, run);
    AuthenticateDisturbsNothing(After(run.before), s.env, s.request.cookie);
    StrangersAreNotSeen(After(run.before), s.env, s.request.cookie, d);
    if action.SignUp? {
      SignUpOpensOwn(cfg, SeenLast(run), s.env, action.email, action.password, s.how.evicted, d);
    } else if action.LogIn? {
      if s.how.allowed {
        LogInOpensOwn(cfg, SeenLast(run), s.env, action.email, action.password, s.how.evicted, d);
      }
    } else {
      OthersAddNoSession(cfg, SeenLast(run), s.env, s.how, run.served.auth, action);
    }
  }
}
