/** From a sign-up or a log-in to the requests that present its cookie. A request is one step, as in Runs. */
module SignIns {
  import opened TokenBucket
  import opened LruCaches
  import opened Emails
  import opened Db
  import opened Accounts
  import opened AccountLaws
  import opened Handlers
  import opened Evolution
  import opened Changes
  import opened Runs
  import opened SessionLife
  import opened Servers

  /** The session under this id is new, and its user has this password and, up to case, this address. */
  ghost predicate OpenedFor(t: Tables, d: Digest, now: Time, folded: string, password: string) {
    && d in t.sessions && t.sessions[d] == Session(t.sessions[d].userId, now, now)
    && var u := t.sessions[d].userId;
      && HasAddress(t.users, u, folded) && t.users[u].isActive && t.users[u].passwordHash.password == password
  }

  lemma SessionIsHandedOut(t: Tables, env: Env, u: UserId, choice: Digest, raw: Bytes)
    requires CreateSession(t, env, u, choice).reply == Done(raw)
    ensures var b := CreateSession(t, env, u, choice).tables;
      && raw == env.rawId && u in t.users && b.users == t.users
      && Sha256(raw) in b.sessions && b.sessions[Sha256(raw)] == Session(u, env.now, env.now)
  {
    CreateSessionIsExact(t, env, u, choice);
  }

  lemma LogInHandsOut(cfg: Config, t: Tables, env: Env, email: string, password: string, choice: Digest, raw: Bytes)
    requires LogInEffect(cfg, t, env, email, password, choice).answer == SignedIn(raw)
    ensures var b := LogInEffect(cfg, t, env, email, password, choice).tables;
      raw == env.rawId && OpenedFor(b, Sha256(raw), env.now, Lower(Trim(email)), password)
  {
    LogInIsProof(cfg, t, env, email, password);
    SessionIsHandedOut(t, env, Accounts.LogIn(cfg, t, env, email, password).value, choice, raw);
  }

  lemma SignUpHandsOut(cfg: Config, t: Tables, env: Env, email: string, password: string, choice: Digest, raw: Bytes)
    requires SignUpEffect(cfg, t, env, email, password, choice).answer == SignedIn(raw)
    ensures var b := SignUpEffect(cfg, t, env, email, password, choice).tables;
      && raw == env.rawId && OpenedFor(b, Sha256(raw), env.now, Lower(Trim(email)), password)
      && b.sessions[Sha256(raw)].userId == t.nextUserId
  {
    var o := Accounts.SignUp(cfg, t, env, email, password);
    SignUpIsExact(cfg, t, env, email, password);
    NormalizedFold(email, cfg.parses);
    SessionIsHandedOut(o.tables, env, t.nextUserId, choice, raw);
  }

  lemma OthersHandOutNothing(cfg: Config, t: Tables, env: Env, how: Settled, auth: Auth, action: Action)
    requires !action.SignUp? && !action.LogIn?
    ensures !Act(cfg, t, env, how, auth, action).answer.SignedIn?
  {
  }

  /** The answer to a sign-up, or to a log-in that the limiter let through, carries the raw id of a session opened by it,
      for the user with the address and the password that were given. */
  lemma AnswerOpensSession(cfg: Config, t: Tables, env: Env, how: Settled, r: Request, raw: Bytes)
    requires Serve(cfg, t, env, how, r).answer == SignedIn(raw)
    ensures (r.action.LogIn? && how.allowed) || r.action.SignUp?
    ensures var b := Serve(cfg, t, env, how, r).tables;
      && raw == env.rawId && OpenedFor(b, Sha256(raw), env.now, Lower(Trim(r.action.email)), r.action.password)
      && (r.action.SignUp? ==> b.sessions[Sha256(raw)].userId == t.nextUserId)
  {
    var (seen, auth) := Authenticate(t, env, r.cookie);
    AuthenticateDisturbsNothing(t, env, r.cookie);
    if r.action.SignUp? {
      SignUpHandsOut(cfg, seen, env, r.action.email, r.action.password, how.evicted, raw);
    } else if r.action.LogIn? {
      LogInHandsOut(cfg, seen, env, r.action.email, r.action.password, how.evicted, raw);
    } else {
      OthersHandOutNothing(cfg, seen, env, how, auth, r.action);
    }
  }

  lemma FreshSessionAuthenticates(t: Tables, env: Env, raw: Bytes, since: Time, folded: string, password: string)
    requires OpenedFor(t, Sha256(raw), since, folded, password) && GetSessionFails !in env.faults
    ensures Authenticate(t, env, Carries(raw)).1
         == if env.now <= since + 14 * DAY then As(Sha256(raw), t.sessions[Sha256(raw)]) else Anonymous
  {
    AuthenticateIsExact(t, env, Carries(raw));
  }

  lemma CookieShowsProfile(cfg: Config, t: Tables, env: Env, how: Settled, raw: Bytes, since: Time, folded: string,
                           password: string)
    requires OpenedFor(t, Sha256(raw), since, folded, password) && env.faults !! {GetSessionFails, GetUserByIDFails}
    ensures var u := t.sessions[Sha256(raw)].userId;
      Serve(cfg, t, env, how, Request(Carries(raw), GetUser)).answer
      == if env.now <= since + 14 * DAY then Profile(u, t.users[u].email) else Unauthorized
  {
    FreshSessionAuthenticates(t, env, raw, since, folded, password);
    AuthenticateDisturbsNothing(t, env, Carries(raw));
  }

  /** Sign up or log in, and present the cookie with the next request: within 14 days, and if no look-up fails, it runs as
      the user with the address and the password that were given, and after them as nobody. */
  lemma PresentedCookieRunsAsItsUser(cfg: Config, t: Tables, env: Env, how: Settled, r: Request, raw: Bytes, later: Env,
                                     how': Settled)
    requires Serve(cfg, t, env, how, r).answer == SignedIn(raw)
    requires later.faults !! {GetSessionFails, GetUserByIDFails}
    ensures r.action.LogIn? || r.action.SignUp?
    ensures var b := Serve(cfg, t, env, how, r).tables;
      && Sha256(raw) in b.sessions
      && var u := b.sessions[Sha256(raw)].userId;
        && HasAddress(b.users, u, Lower(Trim(r.action.email))) && b.users[u].passwordHash.password == r.action.password
        && Serve(cfg, b, later, how', Request(Carries(raw), GetUser)).answer
           == if later.now <= env.now + 14 * DAY then Profile(u, b.users[u].email) else Unauthorized
  {
    AnswerOpensSession(cfg, t, env, how, r, raw);
    CookieShowsProfile(cfg, Serve(cfg, t, env, how, r).tables, later, how', raw, env.now, Lower(Trim(r.action.email)),
                       r.action.password);
  }

  /** The same at any time later in a run: whoever presents the cookie runs as the user it was handed out to for as long as
      the session is there and inside its two limits, and never as anybody else. */
  lemma CookieIsForOneUser(cfg: Config, a: Run, b: Run, env: Env, raw: Bytes, v: UserId)
    requires a.Then? && a.served.answer == SignedIn(raw) && Extends(a, b) && Occurs(cfg, b) && Fair(b)
    requires env.faults !! {GetSessionFails, GetUserByIDFails}
    ensures Sha256(raw) in After(a).sessions
    ensures var (seen, auth) := Authenticate(After(b), env, Carries(raw));
      RunsAs(seen, env, auth) == Some(v) <==>
        && Sha256(raw) in After(b).sessions && v == After(a).sessions[Sha256(raw)].userId
        && v in After(b).users && After(b).users[v].isActive
        && env.now <= a.step.env.now + 90 * DAY && env.now <= After(b).sessions[Sha256(raw)].lastSeenAt + 14 * DAY
  {
    ExtensionIsFair(cfg, a, b);
    LastServed(cfg, a);
    AnswerOpensSession(cfg, After(a.before), a.step.env, a.step.how, a.step.request, raw);
    ConsistentThroughout(cfg, b);
    AuthenticationIsExact(After(b), env, Carries(raw), v);
    if Sha256(raw) in After(b).sessions {
      SessionsKeepTheirUser(cfg, a, b, Sha256(raw));
    }
  }

  lemma LogOutAnswers(t: Tables, env: Env, auth: Auth)
    requires RunsAs(t, env, auth).Some?
    ensures LogOutEffect(t, env, auth).answer == Success
    ensures DeleteSessionFails !in env.faults ==> auth.id !in LogOutEffect(t, env, auth).tables.sessions
  {
  }

  lemma AbsentSessionIsNobody(t: Tables, env: Env, raw: Bytes)
    requires Sha256(raw) !in t.sessions
    ensures Authenticate(t, env, Carries(raw)) == (t, Anonymous)
  {
  }

  /** Whoever logs out is told that it worked, and is nobody with the same cookie from then on, unless the deletion failed,
      which is not told. */
  lemma LogOutEndsTheSession(cfg: Config, t: Tables, env: Env, how: Settled, raw: Bytes, later: Env, how': Settled)
    requires var (seen, auth) := Authenticate(t, env, Carries(raw)); RunsAs(seen, env, auth).Some?
    ensures var p := Serve(cfg, t, env, how, Request(Carries(raw), LogOut));
      && p.answer == Success
      && (DeleteSessionFails !in env.faults ==>
           Serve(cfg, p.tables, later, how', Request(Carries(raw), GetUser)).answer == Unauthorized)
  {
    var (seen, auth) := Authenticate(t, env, Carries(raw));
    AuthenticateIsExact(t, env, Carries(raw));
    LogOutAnswers(seen, env, auth);
    if DeleteSessionFails !in env.faults {
      AbsentSessionIsNobody(LogOutEffect(seen, env, auth).tables, later, raw);
    }
  }

  /** What a browser sees of it: an answer that signs in, and then, for the cookie, the address that was given. */
  method SignInAndGetUser(server: Server, r: Request, env: Env, later: Env) returns (first: Answer, second: Answer)
    requires server.Valid() && env.freeSlots == server.users.hashSlots && later.freeSlots == server.users.hashSlots
    requires later.faults !! {GetSessionFails, GetUserByIDFails} && later.now <= env.now + 14 * DAY
    modifies server.users.queries, server.users, server.limiter, server.limiter.warnEvict, server.mux
    ensures server.Valid()
    ensures first.SignedIn? ==>
      && (r.action.LogIn? || r.action.SignUp?) && second.Profile?
      && Lower(second.email) == Lower(Trim(r.action.email))
  {
    ghost var how, how';
    ghost var t := server.users.queries.Contents();
    first, how := server.ServeHTTP(r, env);
    var cookie := if first.SignedIn? then Carries(first.raw) else NoCookie;
    second, how' := server.ServeHTTP(Request(cookie, GetUser), later);
    if first.SignedIn? {
      PresentedCookieRunsAsItsUser(server.users.config, t, env, how, r, first.raw, later, how');
    }
  }
}
