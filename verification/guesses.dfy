/** What a request that is turned away does, and that only the tries that LoginRuns counts depend on a password. */
module Guesses {
  import opened LruCaches
  import opened Emails
  import opened Db
  import opened Accounts
  import opened AccountLaws
  import opened Handlers
  import opened Evolution
  import opened Changes
  import opened Runs
  import opened LoginRuns

  /** An answer tells a success from a failure, and one error from another. */
  lemma AnswersTellReplies<T>(r: Reply<T>, s: Reply<Bytes>, e: Accounts.Error, raw: Bytes)
    ensures (AnswerTo(r) == Success <==> r.Done?) && (AnswerTo(r) == Answer.Error(e) <==> r == Failed(e))
    ensures (SessionAnswer(s) == SignedIn(raw) <==> s == Done(raw)) && (SessionAnswer(s) == Answer.Error(e) <==> s == Failed(e))
  {
  }

  // ---- Turned away ----

  lemma RefusedDoesNothing(cfg: Config, t: Tables, env: Env, how: Settled, auth: Auth, action: Action)
    requires AsLimited(t, env, auth, action).Some? && !how.allowed
    ensures Act(cfg, t, env, how, auth, action) == Effect(t, [], RateLimited)
  {
  }

  lemma AdmittedIsNotRateLimited(cfg: Config, t: Tables, env: Env, how: Settled, auth: Auth, action: Action)
    requires AsLimited(t, env, auth, action).Some? ==> how.allowed
    ensures Act(cfg, t, env, how, auth, action).answer != RateLimited
  {
  }

  /** A request is answered with "too many requests" just when it asks the limiter and is refused, and then it does nothing
      more: no row changes but for the middleware's, and no mail goes out. */
  lemma RateLimitedIsExact(cfg: Config, t: Tables, env: Env, how: Settled, r: Request)
    ensures var p, (seen, auth) := Serve(cfg, t, env, how, r), Authenticate(t, env, r.cookie);
      && (p.answer == RateLimited <==> AsLimited(seen, env, auth, r.action).Some? && !how.allowed)
      && (p.answer == RateLimited ==> p.tables == seen && p.mails == [])
  {
    var (seen, auth) := Authenticate(t, env, r.cookie);
    if AsLimited(seen, env, auth, r.action).Some? && !how.allowed {
      RefusedDoesNothing(cfg, seen, env, how, auth, r.action);
    } else {
      AdmittedIsNotRateLimited(cfg, seen, env, how, auth, r.action);
    }
  }

  predicate NeedsUser(action: Action) {
    action.LogOut? || action.GetUser? || action.ChangePassword? || action.RequestEmailReset?
  }

  lemma NobodyDoesNothing(cfg: Config, t: Tables, env: Env, how: Settled, auth: Auth, action: Action)
    requires NeedsUser(action) && RunsAs(t, env, auth).None?
    ensures Act(cfg, t, env, how, auth, action)
         == Effect(t, [], if auth == Anonymous then Unauthorized else Answer.Error(Internal))
  {
  }

  lemma SignUpIsAnswered(cfg: Config, t: Tables, env: Env, email: string, password: string, choice: Digest)
    ensures var a := SignUpEffect(cfg, t, env, email, password, choice).answer; a.SignedIn? || a.Error?
  {
    SignUpIsExact(cfg, t, env, email, password);
  }

  lemma LogInIsAnswered(cfg: Config, t: Tables, env: Env, email: string, password: string, choice: Digest)
    ensures var a := LogInEffect(cfg, t, env, email, password, choice).answer; a.SignedIn? || a.Error?
  {
  }

  lemma ResetsAreAnswered(cfg: Config, t: Tables, env: Env, how: Settled, auth: Auth, action: Action)
    requires action.ResetPassword? || action.ResetEmail?
    ensures var a := Act(cfg, t, env, how, auth, action).answer; a == Success || a.Error?
  {
  }

  lemma OthersAreNotUnauthorized(cfg: Config, t: Tables, env: Env, how: Settled, auth: Auth, action: Action)
    requires !NeedsUser(action) || auth != Anonymous
    ensures Act(cfg, t, env, how, auth, action).answer != Unauthorized
  {
    match action
    case SignUp(email, password) => SignUpIsAnswered(cfg, t, env, email, password, how.evicted);
    case LogIn(email, password) => LogInIsAnswered(cfg, t, env, email, password, how.evicted);
    case ResetPassword(_, _) => ResetsAreAnswered(cfg, t, env, how, auth, action);
    case ResetEmail(_) => ResetsAreAnswered(cfg, t, env, how, auth, action);
    case _ =>
  }

  /** A request is answered with "unauthorized" just when it needs a user and presents no session that lets one in; it does
      nothing more either, nor does one whose user cannot be looked up. */
  lemma UnauthorizedIsExact(cfg: Config, t: Tables, env: Env, how: Settled, r: Request)
    ensures var p, (seen, auth) := Serve(cfg, t, env, how, r), Authenticate(t, env, r.cookie);
      && (p.answer == Unauthorized <==> NeedsUser(r.action) && auth == Anonymous)
      && (NeedsUser(r.action) && RunsAs(seen, env, auth).None? ==>
           p.tables == seen && p.mails == [] && (p.answer == Unauthorized || p.answer == Answer.Error(Internal)))
  {
    var (seen, auth) := Authenticate(t, env, r.cookie);
    if NeedsUser(r.action) && RunsAs(seen, env, auth).None? {
      NobodyDoesNothing(cfg, seen, env, how, auth, r.action);
    } else {
      OthersAreNotUnauthorized(cfg, seen, env, how, auth, r.action);
    }
  }

  // ---- What depends on a password ----

  /** The same but for u's password hash. */
  ghost predicate SameButHash(a: Tables, b: Tables, u: UserId) {
    b == a.(users := b.users) && SameUsersButHash(a.users, b.users, u)
  }

  ghost predicate SameUsersButHash(a: map<UserId, User>, b: map<UserId, User>, u: UserId) {
    && a.Keys == b.Keys
    && forall v | v in a :: b[v] == if v == u then a[v].(passwordHash := b[v].passwordHash) else a[v]
  }

  lemma SameTaken(a: map<UserId, User>, b: map<UserId, User>, u: UserId, address: string, except: set<UserId>)
    requires SameUsersButHash(a, b, u)
    ensures Taken(a, address, except) == Taken(b, address, except)
  {
    if Taken(a, address, except) {
      var v :| v in a && v !in except && Lower(a[v].email) == Lower(address);
      assert v in b && Lower(b[v].email) == Lower(address);
    }
    if Taken(b, address, except) {
      var v :| v in b && v !in except && Lower(b[v].email) == Lower(address);
      assert v in a && Lower(a[v].email) == Lower(address);
    }
  }

  lemma SameUnique(a: map<UserId, User>, b: map<UserId, User>, u: UserId)
    requires SameUsersButHash(a, b, u) && UniqueEmails(a)
    ensures UniqueEmails(b)
  {
  }

  lemma SameFind(a: map<UserId, User>, b: map<UserId, User>, u: UserId, address: string)
    requires SameUsersButHash(a, b, u) && UniqueEmails(a)
    ensures FindUser(a, address) == FindUser(b, address)
  {
    SameTaken(a, b, u, address, {});
    SameUnique(a, b, u);
    if FindUser(a, address).Some? {
      FoundUserIsUnique(b, address, FindUser(a, address).value);
    }
  }

  lemma SameAuthenticate(a: Tables, b: Tables, u: UserId, env: Env, cookie: Cookie)
    requires SameButHash(a, b, u)
    ensures var (seen, auth) := Authenticate(a, env, cookie);
      var (seen', auth') := Authenticate(b, env, cookie);
      auth == auth' && SameButHash(seen, seen', u)
  {
  }

  lemma SameCreateSession(a: Tables, b: Tables, u: UserId, env: Env, v: UserId, choice: Digest)
    requires SameButHash(a, b, u)
    ensures var o, o' := CreateSession(a, env, v, choice), CreateSession(b, env, v, choice);
      o.reply == o'.reply && o.mails == o'.mails && SameButHash(o.tables, o'.tables, u)
  {
    CreateSessionIsExact(a, env, v, choice);
    CreateSessionIsExact(b, env, v, choice);
  }

  lemma SameSignUpRefusal(cfg: Config, a: Tables, b: Tables, u: UserId, env: Env, email: string, address: Option<string>,
                          password: string)
    requires SameButHash(a, b, u)
    ensures SignUpRefusal(cfg, a, env, email, address, password) == SignUpRefusal(cfg, b, env, email, address, password)
  {
    if address.Some? {
      SameTaken(a.users, b.users, u, address.value, {});
    }
  }

  lemma SameRegistered(a: Tables, b: Tables, u: UserId, row: User)
    requires SameButHash(a, b, u)
    ensures SameButHash(Registered(a, row), Registered(b, row), u)
  {
  }

  lemma SameSignUpWith(cfg: Config, a: Tables, b: Tables, u: UserId, env: Env, email: string, address: Option<string>,
                       password: string)
    requires SameButHash(a, b, u)
    ensures var o, o' := SignUpWith(cfg, a, env, email, address, password), SignUpWith(cfg, b, env, email, address, password);
      o.reply == o'.reply && o.mails == o'.mails && SameButHash(o.tables, o'.tables, u)
  {
    SameSignUpRefusal(cfg, a, b, u, env, email, address, password);
    if SignUpRefusal(cfg, a, env, email, address, password).None? {
      SignUpWithIsExact(cfg, a, env, email, address, password);
      SameRegistered(a, b, u, User(address.value, Argon2id(password, env.salt), true));
    }
  }

  lemma SameSignUp(cfg: Config, a: Tables, b: Tables, u: UserId, env: Env, email: string, password: string, choice: Digest)
    requires SameButHash(a, b, u)
    ensures SameEffects(SignUpEffect(cfg, a, env, email, password, choice),
                        SignUpEffect(cfg, b, env, email, password, choice), u)
  {
    SameSignUpWith(cfg, a, b, u, env, email, Normalize(Trim(email), cfg.parses), password);
    var o, o' := Accounts.SignUp(cfg, a, env, email, password), Accounts.SignUp(cfg, b, env, email, password);
    if o.reply.Done? {
      SameCreateSession(o.tables, o'.tables, u, env, o.reply.value, choice);
    }
  }

  lemma SameLogInFor(a: Tables, b: Tables, u: UserId, env: Env, email: string, address: Option<string>, password: string)
    requires SameButHash(a, b, u) && UniqueEmails(a.users)
    requires address.Some? ==> FindUser(a.users, address.value) != Some(u)
    ensures LogInFor(a, env, email, address, password) == LogInFor(b, env, email, address, password)
  {
    if address.Some? {
      SameFind(a.users, b.users, u, address.value);
    }
  }

  lemma SameLogIn(cfg: Config, a: Tables, b: Tables, u: UserId, env: Env, email: string, password: string, choice: Digest)
    requires SameButHash(a, b, u) && UniqueEmails(a.users)
    requires var address := Normalize(Trim(email), cfg.parses);
      address.Some? ==> FindUser(a.users, address.value) != Some(u)
    ensures SameEffects(LogInEffect(cfg, a, env, email, password, choice),
                        LogInEffect(cfg, b, env, email, password, choice), u)
  {
    SameLogInFor(a, b, u, env, email, Normalize(Trim(email), cfg.parses), password);
    var r := Accounts.LogIn(cfg, a, env, email, password);
    if r.Done? {
      SameCreateSession(a, b, u, env, r.value, choice);
    }
  }

  lemma SameResetPassword(cfg: Config, a: Tables, b: Tables, u: UserId, env: Env, token: Token, newPassword: string)
    requires SameButHash(a, b, u)
    ensures SameEffects(EffectOf(Accounts.ResetPassword(cfg, a, env, token, newPassword)),
                        EffectOf(Accounts.ResetPassword(cfg, b, env, token, newPassword)), u)
  {
  }

  lemma SameResetEmail(a: Tables, b: Tables, u: UserId, env: Env, token: Token)
    requires SameButHash(a, b, u)
    ensures SameEffects(EffectOf(Accounts.ResetEmail(a, env, token)), EffectOf(Accounts.ResetEmail(b, env, token)), u)
  {
    if token.Encodes? && Sha256(token.raw) in a.emailResets {
      var request := a.emailResets[Sha256(token.raw)];
      SameTaken(a.users, b.users, u, request.newEmail, {request.userId});
    }
  }

  lemma SameChangePassword(cfg: Config, a: Tables, b: Tables, u: UserId, env: Env, v: UserId, password: string,
                           newPassword: string)
    requires SameButHash(a, b, u) && v in a.users && v != u
    ensures SameEffects(EffectOf(Accounts.ChangePassword(cfg, a, env, v, a.users[v], password, newPassword)),
                        EffectOf(Accounts.ChangePassword(cfg, b, env, v, b.users[v], password, newPassword)), u)
  {
  }

  lemma SameIssue(a: Tables, b: Tables, u: UserId, env: Env, v: UserId, address: string)
    requires SameButHash(a, b, u)
    ensures var o, o' := IssuePasswordReset(a, env, v, address), IssuePasswordReset(b, env, v, address);
      o.reply == o'.reply && o.mails == o'.mails && SameButHash(o.tables, o'.tables, u)
  {
  }

  lemma SamePasswordRequest(a: Tables, b: Tables, u: UserId, env: Env, address: Option<string>)
    requires SameButHash(a, b, u) && UniqueEmails(a.users)
    ensures SameEffects(EffectOf(CreatePasswordResetFor(a, env, address)), EffectOf(CreatePasswordResetFor(b, env, address)), u)
  {
    if address.Some? {
      SameFind(a.users, b.users, u, address.value);
      var v := FindUser(a.users, address.value);
      if v.Some? {
        SameIssue(a, b, u, env, v.value, address.value);
      }
    }
  }

  lemma SameEmailRequest(a: Tables, b: Tables, u: UserId, env: Env, v: UserId, password: string, address: Option<string>)
    requires SameButHash(a, b, u) && v in a.users && v != u
    ensures SameEffects(EffectOf(CreateEmailResetFor(a, env, v, a.users[v], password, address)),
                        EffectOf(CreateEmailResetFor(b, env, v, b.users[v], password, address)), u)
  {
    if address.Some? {
      SameTaken(a.users, b.users, u, address.value, {});
    }
  }

  ghost predicate SameEffects(e: Effect, e': Effect, u: UserId) {
    e.answer == e'.answer && e.mails == e'.mails && SameButHash(e.tables, e'.tables, u)
  }

  lemma SameSessionActs(cfg: Config, a: Tables, b: Tables, u: UserId, env: Env, how: Settled, auth: Auth, action: Action)
    requires SameButHash(a, b, u) && (action.LogOut? || action.GetUser?)
    ensures SameEffects(Act(cfg, a, env, how, auth, action), Act(cfg, b, env, how, auth, action), u)
  {
  }

  lemma SameChanges(cfg: Config, a: Tables, b: Tables, u: UserId, env: Env, allowed: bool, auth: Auth, password: string,
                    newPassword: string)
    requires SameButHash(a, b, u) && (allowed ==> RunsAs(a, env, auth) != Some(u))
    ensures SameEffects(ChangePasswordEffect(cfg, a, env, allowed, auth, password, newPassword),
                        ChangePasswordEffect(cfg, b, env, allowed, auth, password, newPassword), u)
  {
    var v := RunsAs(a, env, auth);
    if v.Some? && allowed {
      SameChangePassword(cfg, a, b, u, env, v.value, password, newPassword);
    }
  }

  lemma SameEmailChanges(cfg: Config, a: Tables, b: Tables, u: UserId, env: Env, allowed: bool, auth: Auth,
                         password: string, newEmail: string)
    requires SameButHash(a, b, u) && (allowed ==> RunsAs(a, env, auth) != Some(u))
    ensures SameEffects(RequestEmailResetEffect(cfg, a, env, allowed, auth, password, newEmail),
                        RequestEmailResetEffect(cfg, b, env, allowed, auth, password, newEmail), u)
  {
    var v := RunsAs(a, env, auth);
    if v.Some? && allowed {
      SameEmailRequest(a, b, u, env, v.value, password, Normalize(newEmail, cfg.parses));
    }
  }

  lemma SameLimitedAct(cfg: Config, a: Tables, b: Tables, u: UserId, env: Env, how: Settled, auth: Auth, action: Action)
    requires SameButHash(a, b, u) && UniqueEmails(a.users)
    requires action.LogIn? || action.ChangePassword? || action.RequestPasswordReset? || action.RequestEmailReset?
    requires TriesAs(cfg, a.users, how.allowed, AsLimited(a, env, auth, action), u).None?
    ensures SameEffects(Act(cfg, a, env, how, auth, action), Act(cfg, b, env, how, auth, action), u)
  {
    match action
    case LogIn(email, password) =>
      if how.allowed {
        SameLogIn(cfg, a, b, u, env, email, password, how.evicted);
      }
    case ChangePassword(password, newPassword) =>
      SameChanges(cfg, a, b, u, env, how.allowed, auth, password, newPassword);
    case RequestPasswordReset(email) =>
      if how.allowed {
        SamePasswordRequest(a, b, u, env, Normalize(email, cfg.parses));
      }
    case RequestEmailReset(password, newEmail) =>
      SameEmailChanges(cfg, a, b, u, env, how.allowed, auth, password, newEmail);
  }

  lemma SameAct(cfg: Config, a: Tables, b: Tables, u: UserId, env: Env, how: Settled, auth: Auth, action: Action)
    requires SameButHash(a, b, u) && UniqueEmails(a.users)
    requires TriesAs(cfg, a.users, how.allowed, AsLimited(a, env, auth, action), u).None?
    ensures SameEffects(Act(cfg, a, env, how, auth, action), Act(cfg, b, env, how, auth, action), u)
  {
    if action.SignUp? {
      SameSignUp(cfg, a, b, u, env, action.email, action.password, how.evicted);
    } else if action.ResetPassword? {
      SameResetPassword(cfg, a, b, u, env, action.token, action.newPassword);
    } else if action.ResetEmail? {
      SameResetEmail(a, b, u, env, action.token);
    } else if action.LogOut? || action.GetUser? {
      SameSessionActs(cfg, a, b, u, env, how, auth, action);
    } else {
      SameLimitedAct(cfg, a, b, u, env, how, auth, action);
    }
  }

  /** A request that does not try a password of u does the same whatever that password is: the answer, the mails and all
      rows, but for the hash itself, are the same for any two. So nobody learns anything of it but by tries. */
  lemma OnlyTriesDependOnPasswords(cfg: Config, run: Run, u: UserId, other: Tables)
    requires Occurs(cfg, run) && run.Then? && TriesLast(cfg, run, u).None?
    requires SameButHash(After(run.before), other, u)
    ensures var p := Serve(cfg, other, run.step.env, run.step.how, run.step.request);
      && p.answer == run.served.answer && p.mails == run.served.mails && p.auth == run.served.auth
      && SameButHash(After(run), p.tables, u)
  {
    var s, t := run.step, After(run.before);
    LastServed(cfg, run);
    ConsistentThroughout(cfg, run.before);
    SameAuthenticate(t, other, u, s.env, s.request.cookie);
    AuthenticateDisturbsNothing(t, s.env, s.request.cookie);
    var seen' := Authenticate(other, s.env, s.request.cookie).0;
    SameAct(cfg, SeenLast(run), seen', u, s.env, s.how, run.served.auth, s.request.action);
  }
}
