/** The HTTP handlers: the order in which each calls the limiter, the user service and the session service. */
module Handlers {
  import opened TokenBucket
  import opened LruCaches
  import opened Db
  import opened Accounts
  import Limiter
  import LoginBound
  import SessionService
  import UserService

  datatype Action =
    | SignUp(email: string, password: string)
    | LogIn(email: string, password: string)
    | LogOut
    | GetUser
    | ChangePassword(password: string, newPassword: string)
    | RequestPasswordReset(email: string)
    | ResetPassword(token: Token, newPassword: string)
    | RequestEmailReset(password: string, newEmail: string)
    | ResetEmail(token: Token)

  /** `SignedIn` carries the raw session id, as the cookie does; `Profile` what is told of the user. */
  datatype Answer =
    | Success | SignedIn(raw: Bytes) | Profile(id: UserId, email: string)
    | RateLimited | Unauthorized | Error(error: Error)

  datatype Effect = Effect(tables: Tables, mails: seq<Mail>, answer: Answer)

  function AnswerTo<T>(r: Reply<T>): Answer {
    if r.Done? then Success else Answer.Error(r.error)
  }

  function EffectOf<T>(o: Outcome<T>): Effect {
    Effect(o.tables, o.mails, AnswerTo(o.reply))
  }

  function SessionAnswer(r: Reply<Bytes>): Answer {
    if r.Done? then SignedIn(r.value) else Answer.Error(r.error)
  }

  function SessionEffect(o: Outcome<Bytes>): Effect {
    Effect(o.tables, o.mails, SessionAnswer(o.reply))
  }

  /** writeCreatePasswordResetRequestError: nobody learns from the answer that an address is not in use. */
  function HidingStrangers(e: Effect): Effect {
    if e.answer == Answer.Error(UserNotFound) then e.(answer := Success) else e
  }

  /** The user as whom an authenticated handler runs. */
  function RunsAs(t: Tables, env: Env, auth: Auth): Option<UserId> {
    if auth.As? && GetUserByIDFails !in env.faults && auth.session.userId in t.users
    then Some(auth.session.userId) else None
  }

  function NotAuthenticated(t: Tables, auth: Auth): Effect {
    Effect(t, [], if auth.Anonymous? then Unauthorized else Answer.Error(Internal))
  }

  // What each handler does, after the middleware and, where it asks, the limiter.

  ghost function SignUpEffect(cfg: Config, t: Tables, env: Env, email: string, password: string,
                              choice: Digest): Effect {
    var o := Accounts.SignUp(cfg, t, env, email, password);
    if o.reply.Failed? then EffectOf(o) else SessionEffect(CreateSession(o.tables, env, o.reply.value, choice))
  }

  ghost function LogInEffect(cfg: Config, t: Tables, env: Env, email: string, password: string,
                             choice: Digest): Effect {
    var r := Accounts.LogIn(cfg, t, env, email, password);
    if r.Failed? then Effect(t, [], AnswerTo(r)) else SessionEffect(CreateSession(t, env, r.value, choice))
  }

  function LogOutEffect(t: Tables, env: Env, auth: Auth): Effect {
    if RunsAs(t, env, auth).None? then NotAuthenticated(t, auth)
    else Effect(if DeleteSessionFails in env.faults then t else t.(sessions := t.sessions - {auth.id}), [], Success)
  }

  function GetUserEffect(t: Tables, env: Env, auth: Auth): Effect {
    var u := RunsAs(t, env, auth);
    if u.None? then NotAuthenticated(t, auth) else Effect(t, [], Profile(u.value, t.users[u.value].email))
  }

  /** What the limiter and the database settle for a request. */
  datatype Settled = Settled(allowed: bool, evicted: Digest)

  function ChangePasswordEffect(cfg: Config, t: Tables, env: Env, allowed: bool, auth: Auth, password: string,
                                newPassword: string): Effect {
    var u := RunsAs(t, env, auth);
    if u.None? then NotAuthenticated(t, auth)
    else if !allowed then Effect(t, [], RateLimited)
    else EffectOf(Accounts.ChangePassword(cfg, t, env, u.value, t.users[u.value], password, newPassword))
  }

  ghost function RequestPasswordResetEffect(cfg: Config, t: Tables, env: Env, allowed: bool, email: string): Effect {
    if allowed then HidingStrangers(EffectOf(CreatePasswordReset(cfg, t, env, email))) else Effect(t, [], RateLimited)
  }

  function RequestEmailResetEffect(cfg: Config, t: Tables, env: Env, allowed: bool, auth: Auth, password: string,
                                   newEmail: string): Effect {
    var u := RunsAs(t, env, auth);
    if u.None? then NotAuthenticated(t, auth)
    else if !allowed then Effect(t, [], RateLimited)
    else EffectOf(CreateEmailReset(cfg, t, env, u.value, t.users[u.value], password, newEmail))
  }

  ghost function Act(cfg: Config, t: Tables, env: Env, how: Settled, auth: Auth, action: Action): Effect {
    match action
    case SignUp(email, password) => SignUpEffect(cfg, t, env, email, password, how.evicted)
    case LogIn(email, password) =>
      if how.allowed then LogInEffect(cfg, t, env, email, password, how.evicted) else Effect(t, [], RateLimited)
    case LogOut => LogOutEffect(t, env, auth)
    case GetUser => GetUserEffect(t, env, auth)
    case ChangePassword(password, newPassword) =>
      ChangePasswordEffect(cfg, t, env, how.allowed, auth, password, newPassword)
    case RequestPasswordReset(email) => RequestPasswordResetEffect(cfg, t, env, how.allowed, email)
    case ResetPassword(token, newPassword) => EffectOf(Accounts.ResetPassword(cfg, t, env, token, newPassword))
    case RequestEmailReset(password, newEmail) =>
      RequestEmailResetEffect(cfg, t, env, how.allowed, auth, password, newEmail)
    case ResetEmail(token) => EffectOf(Accounts.ResetEmail(t, env, token))
  }

  /** What a request of one of the four limited handlers does to the limiter, and the answer it gets. */
  function Asking(contents: Lru<Bucket>, size: nat, r: LoginBound.Request, now: Time): Limiter.Outcome
    requires contents.Valid(size) && size >= 1
  {
    Limiter.AllowStep(contents, size, Limiter.Call(LoginBound.Key(r), LoginBound.PolicyFor(r), now))
  }

  /** From one state of the limiter to the next: as the request asks it, or not at all. */
  ghost predicate Asks(before: Lru<Bucket>, after: Lru<Bucket>, size: nat, r: Option<LoginBound.Request>, now: Time,
                       allowed: bool)
    requires before.Valid(size) && size >= 1
  {
    match r
    case None => after == before
    case Some(asked) =>
      var o := Asking(before, size, asked, now);
      after == o.cache && allowed == o.allowed
  }

  function AsPasswordChange(u: Option<UserId>): Option<LoginBound.Request> {
    if u.Some? then Some(LoginBound.ChangePassword(u.value)) else None
  }

  function AsEmailChange(u: Option<UserId>): Option<LoginBound.Request> {
    if u.Some? then Some(LoginBound.RequestEmailReset(u.value)) else None
  }

  /** What a request is to the limiter, for the four handlers that ask it and once they get that far. */
  function AsLimited(t: Tables, env: Env, auth: Auth, action: Action): Option<LoginBound.Request> {
    var u := RunsAs(t, env, auth);
    match action
    case LogIn(email, _) => Some(LoginBound.LogIn(email))
    case RequestPasswordReset(email) => Some(LoginBound.RequestPasswordReset(email))
    case ChangePassword(_, _) => AsPasswordChange(u)
    case RequestEmailReset(_, _) => AsEmailChange(u)
    case _ => None
  }

  /** limitByUser and limitByField: true if the request must be turned away. */
  method Limited(limiter: Limiter.InMemoryLimiter, r: LoginBound.Request, now: Time) returns (limited: bool)
    requires limiter.Valid()
    modifies limiter, limiter.warnEvict
    ensures limiter.Valid()
    ensures Asks(old(limiter.Contents()), limiter.Contents(), limiter.size, Some(r), now, !limited)
  {
    var allowed := limiter.Allow(LoginBound.Key(r), LoginBound.PolicyFor(r), now);
    limited := !allowed;
  }

  // The handlers themselves, each for what the limiter answers and the database chooses.

  method SignUpHandler(users: UserService.Service, sessions: SessionService.Service, email: string, password: string,
                       env: Env) returns (a: Answer, ghost choice: Digest)
    requires users.queries == sessions.queries && users.queries.Valid() && env.freeSlots == users.hashSlots
    modifies users.queries, users`hashSlots
    ensures users.queries.Valid() && users.hashSlots == old(users.hashSlots)
    ensures Effect(users.queries.Contents(), [], a)
         == SignUpEffect(users.config, old(users.queries.Contents()), env, email, password, choice)
  {
    choice := Sha256(env.rawId);
    var usr := users.SignUp(email, password, env);
    if usr.Failed? {
      return AnswerTo(usr), choice;
    }
    var created;
    created, choice := sessions.CreateSession(usr.value, env);
    a := SessionAnswer(created);
  }

  /** The rest of the log-in handler, once the limiter has let the request through. */
  method LogInAdmitted(users: UserService.Service, sessions: SessionService.Service, email: string, password: string,
                       env: Env) returns (a: Answer, ghost choice: Digest)
    requires users.queries == sessions.queries && users.queries.Valid() && env.freeSlots == users.hashSlots
    modifies users.queries, users`hashSlots
    ensures users.queries.Valid() && users.hashSlots == old(users.hashSlots)
    ensures Effect(users.queries.Contents(), [], a)
         == LogInEffect(users.config, old(users.queries.Contents()), env, email, password, choice)
  {
    choice := Sha256(env.rawId);
    var usr := users.LogIn(email, password, env);
    if usr.Failed? {
      return AnswerTo(usr), choice;
    }
    var created;
    created, choice := sessions.CreateSession(usr.value, env);
    a := SessionAnswer(created);
  }

  method LogInHandler(users: UserService.Service, sessions: SessionService.Service, limiter: Limiter.InMemoryLimiter,
                      email: string, password: string, env: Env) returns (a: Answer, ghost how: Settled)
    requires users.queries == sessions.queries && users.queries.Valid() && env.freeSlots == users.hashSlots
    requires limiter.Valid()
    modifies users.queries, users`hashSlots, limiter, limiter.warnEvict
    ensures users.queries.Valid() && limiter.Valid() && users.hashSlots == old(users.hashSlots)
    ensures Asks(old(limiter.Contents()), limiter.Contents(), limiter.size, Some(LoginBound.LogIn(email)), env.now, how.allowed)
    ensures var t := old(users.queries.Contents());
      Effect(users.queries.Contents(), [], a)
      == if how.allowed then LogInEffect(users.config, t, env, email, password, how.evicted)
         else Effect(t, [], RateLimited)
  {
    var limited := Limited(limiter, LoginBound.LogIn(email), env.now);
    how := Settled(!limited, Sha256(env.rawId));
    if limited {
      return RateLimited, how;
    }
    ghost var evicted;
    a, evicted := LogInAdmitted(users, sessions, email, password, env);
    how := Settled(true, evicted);
  }

  method LogOutHandler(sessions: SessionService.Service, auth: Auth, env: Env) returns (a: Answer)
    requires sessions.queries.Valid()
    modifies sessions.queries
    ensures sessions.queries.Valid()
    ensures Effect(sessions.queries.Contents(), [], a) == LogOutEffect(old(sessions.queries.Contents()), env, auth)
  {
    var usr := SessionService.WithUser(sessions.queries, auth, env);
    if usr.Failed? {
      return if usr.error == InvalidCredentials then Unauthorized else Answer.Error(Internal);
    }
    var _ := sessions.DeleteSession(auth.id, env);
    a := Success;
  }

  method GetUserHandler(queries: Queries, auth: Auth, env: Env) returns (a: Answer)
    requires queries.Valid()
    ensures a == GetUserEffect(queries.Contents(), env, auth).answer
  {
    var usr := SessionService.WithUser(queries, auth, env);
    if usr.Failed? {
      return if usr.error == InvalidCredentials then Unauthorized else Answer.Error(Internal);
    }
    a := Profile(usr.value.0, usr.value.1.email);
  }

  method ResetPasswordHandler(users: UserService.Service, token: Token, newPassword: string, env: Env)
    returns (a: Answer)
    requires users.queries.Valid() && env.freeSlots == users.hashSlots
    modifies users.queries, users`hashSlots, users`outbox
    ensures users.queries.Valid() && users.hashSlots == old(users.hashSlots)
    ensures var o := Accounts.ResetPassword(users.config, old(users.queries.Contents()), env, token, newPassword);
      users.queries.Contents() == o.tables && users.outbox == old(users.outbox) + o.mails && a == AnswerTo(o.reply)
  {
    var r := users.ResetPasswordFromResetRequest(token, newPassword, env);
    a := AnswerTo(r);
  }

  method ResetEmailHandler(users: UserService.Service, token: Token, env: Env) returns (a: Answer)
    requires users.queries.Valid()
    modifies users.queries
    ensures users.queries.Valid()
    ensures Effect(users.queries.Contents(), [], a)
         == EffectOf(Accounts.ResetEmail(old(users.queries.Contents()), env, token))
  {
    var r := users.ResetEmailFromResetRequest(token, env);
    a := AnswerTo(r);
  }

  /** The rest of the password-change handler, for the user it runs as. */
  method ChangePasswordAs(users: UserService.Service, limiter: Limiter.InMemoryLimiter, u: UserId, row: User,
                          password: string, newPassword: string, env: Env) returns (a: Answer, allowed: bool)
    requires users.queries.Valid() && env.freeSlots == users.hashSlots && limiter.Valid()
    modifies users.queries, users, limiter, limiter.warnEvict
    ensures users.queries.Valid() && limiter.Valid() && users.hashSlots == old(users.hashSlots)
    ensures Asks(old(limiter.Contents()), limiter.Contents(), limiter.size, Some(LoginBound.ChangePassword(u)),
                 env.now, allowed)
    ensures var t := old(users.queries.Contents());
      var e := if allowed then EffectOf(Accounts.ChangePassword(users.config, t, env, u, row, password, newPassword))
               else Effect(t, [], RateLimited);
      users.queries.Contents() == e.tables && users.outbox == old(users.outbox) + e.mails && a == e.answer
  {
    var limited := Limited(limiter, LoginBound.ChangePassword(u), env.now);
    if limited {
      return RateLimited, false;
    }
    var r := users.ResetPasswordForAuthenticatedUser(u, row, password, newPassword, env);
    a, allowed := AnswerTo(r), true;
  }

  method ChangePasswordHandler(users: UserService.Service, limiter: Limiter.InMemoryLimiter, password: string,
                               newPassword: string, auth: Auth, env: Env) returns (a: Answer, ghost how: Settled)
    requires users.queries.Valid() && env.freeSlots == users.hashSlots && limiter.Valid()
    modifies users.queries, users, limiter, limiter.warnEvict
    ensures users.queries.Valid() && limiter.Valid() && users.hashSlots == old(users.hashSlots)
    ensures Asks(old(limiter.Contents()), limiter.Contents(), limiter.size,
                 AsPasswordChange(RunsAs(old(users.queries.Contents()), env, auth)), env.now, how.allowed)
    ensures var e := ChangePasswordEffect(users.config, old(users.queries.Contents()), env, how.allowed, auth, password,
                                          newPassword);
      users.queries.Contents() == e.tables && users.outbox == old(users.outbox) + e.mails && a == e.answer
  {
    how := Settled(true, Sha256(env.rawId));
    var usr := SessionService.WithUser(users.queries, auth, env);
    if usr.Failed? {
      return if usr.error == InvalidCredentials then Unauthorized else Answer.Error(Internal), how;
    }
    var allowed;
    a, allowed := ChangePasswordAs(users, limiter, usr.value.0, usr.value.1, password, newPassword, env);
    how := Settled(allowed, Sha256(env.rawId));
  }

  method RequestPasswordResetHandler(users: UserService.Service, limiter: Limiter.InMemoryLimiter, email: string,
                                     env: Env) returns (a: Answer, ghost how: Settled)
    requires users.queries.Valid() && limiter.Valid()
    modifies users.queries, users`outbox, limiter, limiter.warnEvict
    ensures users.queries.Valid() && limiter.Valid()
    ensures Asks(old(limiter.Contents()), limiter.Contents(), limiter.size,
                 Some(LoginBound.RequestPasswordReset(email)), env.now, how.allowed)
    ensures var e := RequestPasswordResetEffect(users.config, old(users.queries.Contents()), env, how.allowed, email);
      users.queries.Contents() == e.tables && users.outbox == old(users.outbox) + e.mails && a == e.answer
  {
    var limited := Limited(limiter, LoginBound.RequestPasswordReset(email), env.now);
    how := Settled(!limited, Sha256(env.rawId));
    if limited {
      return RateLimited, how;
    }
    var r := users.CreatePasswordResetRequest(email, env);
    a := if r == Failed(UserNotFound) then Success else AnswerTo(r);
  }

  /** The rest of the email-change handler, for the user it runs as. */
  method RequestEmailResetAs(users: UserService.Service, limiter: Limiter.InMemoryLimiter, u: UserId, row: User,
                             password: string, newEmail: string, env: Env) returns (a: Answer, allowed: bool)
    requires users.queries.Valid() && env.freeSlots == users.hashSlots && limiter.Valid()
    modifies users.queries, users, limiter, limiter.warnEvict
    ensures users.queries.Valid() && limiter.Valid() && users.hashSlots == old(users.hashSlots)
    ensures Asks(old(limiter.Contents()), limiter.Contents(), limiter.size, Some(LoginBound.RequestEmailReset(u)),
                 env.now, allowed)
    ensures var t := old(users.queries.Contents());
      var e := if allowed then EffectOf(CreateEmailReset(users.config, t, env, u, row, password, newEmail))
               else Effect(t, [], RateLimited);
      users.queries.Contents() == e.tables && users.outbox == old(users.outbox) + e.mails && a == e.answer
  {
    var limited := Limited(limiter, LoginBound.RequestEmailReset(u), env.now);
    if limited {
      return RateLimited, false;
    }
    var r := users.CreateEmailResetRequest(u, row, password, newEmail, env);
    a, allowed := AnswerTo(r), true;
  }

  method RequestEmailResetHandler(users: UserService.Service, limiter: Limiter.InMemoryLimiter, password: string,
                                  newEmail: string, auth: Auth, env: Env) returns (a: Answer, ghost how: Settled)
    requires users.queries.Valid() && env.freeSlots == users.hashSlots && limiter.Valid()
    modifies users.queries, users, limiter, limiter.warnEvict
    ensures users.queries.Valid() && limiter.Valid() && users.hashSlots == old(users.hashSlots)
    ensures Asks(old(limiter.Contents()), limiter.Contents(), limiter.size,
                 AsEmailChange(RunsAs(old(users.queries.Contents()), env, auth)), env.now, how.allowed)
    ensures var e := RequestEmailResetEffect(users.config, old(users.queries.Contents()), env, how.allowed, auth,
                                             password, newEmail);
      users.queries.Contents() == e.tables && users.outbox == old(users.outbox) + e.mails && a == e.answer
  {
    how := Settled(true, Sha256(env.rawId));
    var usr := SessionService.WithUser(users.queries, auth, env);
    if usr.Failed? {
      return if usr.error == InvalidCredentials then Unauthorized else Answer.Error(Internal), how;
    }
    var allowed;
    a, allowed := RequestEmailResetAs(users, limiter, usr.value.0, usr.value.1, password, newEmail, env);
    how := Settled(allowed, Sha256(env.rawId));
  }
}
