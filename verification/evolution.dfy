/** What a request can do to the tables, whatever the request: rows appear only under the id it drew, session
    rows change only by being touched while alive, and no user disappears. */
module Evolution {
  import opened TokenBucket
  import opened Emails
  import opened Db
  import opened Accounts
  import opened Handlers

  /** The session middleware, then the handler. */
  datatype Request = Request(cookie: Cookie, action: Action)

  datatype Response = Response(tables: Tables, mails: seq<Mail>, auth: Auth, answer: Answer)

  /** One whole request, with nothing in between its statements. */
  ghost function Serve(cfg: Config, t: Tables, env: Env, how: Settled, r: Request): Response {
    var (seen, auth) := Authenticate(t, env, r.cookie);
    var e := Act(cfg, seen, env, how, auth, r.action);
    Response(e.tables, e.mails, auth, e.answer)
  }

  /** The touch of the session that the request came with, while it was alive. */
  ghost predicate IsTouch(before: Session, after: Session, now: Time) {
    after == before.(lastSeenAt := now) && !IsExpired(before, now) && ShouldUpdateLastSeen(before, now)
  }

  ghost predicate SessionsFollow(a: map<Digest, Session>, b: map<Digest, Session>, auth: Auth, drawn: Digest, now: Time) {
    forall d | d in b ::
      if d in a then b[d] == a[d] || (auth.As? && auth.id == d && IsTouch(a[d], b[d], now))
      else d == drawn && b[d].createdAt == now && b[d].lastSeenAt == now
  }

  ghost predicate PasswordResetsFollow(a: map<Digest, PasswordResetRequest>, b: map<Digest, PasswordResetRequest>,
                                       drawn: Digest, now: Time) {
    forall d | d in b :: if d in a then b[d] == a[d] else d == drawn && b[d].createdAt == now
  }

  ghost predicate EmailResetsFollow(a: map<Digest, EmailResetRequest>, b: map<Digest, EmailResetRequest>,
                                    drawn: Digest, now: Time) {
    forall d | d in b :: if d in a then b[d] == a[d] else d == drawn && b[d].createdAt == now
  }

  ghost predicate Evolves(a: Tables, b: Tables, auth: Auth, drawn: Digest, now: Time) {
    && a.users.Keys <= b.users.Keys
    && SessionsFollow(a.sessions, b.sessions, auth, drawn, now)
    && PasswordResetsFollow(a.passwordResets, b.passwordResets, drawn, now)
    && EmailResetsFollow(a.emailResets, b.emailResets, drawn, now)
  }

  ghost predicate Unused(t: Tables, d: Digest) {
    d !in t.sessions && d !in t.passwordResets && d !in t.emailResets
  }

  /** Two halves of one request make one whole. */
  lemma EvolvesTwice(a: Tables, b: Tables, c: Tables, auth: Auth, drawn: Digest, now: Time)
    requires Evolves(a, b, auth, drawn, now) && Evolves(b, c, Anonymous, drawn, now) && Unused(a, drawn)
    ensures Evolves(a, c, auth, drawn, now)
  {
  }

  lemma UnchangedEvolves(t: Tables, drawn: Digest, now: Time)
    ensures Evolves(t, t, Anonymous, drawn, now)
  {
  }

  lemma AuthenticateEvolves(t: Tables, env: Env, cookie: Cookie, drawn: Digest)
    ensures Evolves(t, Authenticate(t, env, cookie).0, Authenticate(t, env, cookie).1, drawn, env.now)
  {
  }

  lemma RegisteredEvolves(t: Tables, row: User, drawn: Digest, now: Time)
    requires t.nextUserId !in t.users
    ensures Evolves(t, Registered(t, row), Anonymous, drawn, now)
  {
  }

  /** What a sign-up does to the tables: a row, or at most a used-up id. */
  lemma SignUpTables(cfg: Config, t: Tables, env: Env, email: string, password: string)
    ensures var b := Accounts.SignUp(cfg, t, env, email, password).tables;
      match SignUpError(cfg, t, env, email, password)
      case None => b == Registered(t, User(Normalize(Trim(email), cfg.parses).value, Argon2id(password, env.salt), true))
      case Some(_) => b == t || b == t.(nextUserId := t.nextUserId + 1)
  {
  }

  lemma SignUpEvolves(cfg: Config, t: Tables, env: Env, email: string, password: string, drawn: Digest)
    requires t.nextUserId !in t.users
    ensures Evolves(t, Accounts.SignUp(cfg, t, env, email, password).tables, Anonymous, drawn, env.now)
  {
    SignUpTables(cfg, t, env, email, password);
    UnchangedEvolves(t, drawn, env.now);
    if SignUpError(cfg, t, env, email, password).None? {
      RegisteredEvolves(t, User(Normalize(Trim(email), cfg.parses).value, Argon2id(password, env.salt), true), drawn, env.now);
    }
  }

  lemma MakeRoomEvolves(t: Tables, u: UserId, choice: Digest, drawn: Digest, now: Time)
    ensures Evolves(t, MakeRoom(t, u, choice), Anonymous, drawn, now)
  {
  }

  lemma InsertSessionEvolves(t: Tables, env: Env, u: UserId)
    ensures Evolves(t, InsertSession(t, env, u).tables, Anonymous, Sha256(env.rawId), env.now)
  {
  }

  lemma CreateSessionEvolves(t: Tables, env: Env, u: UserId, choice: Digest)
    requires Unused(t, Sha256(env.rawId))
    ensures Evolves(t, CreateSession(t, env, u, choice).tables, Anonymous, Sha256(env.rawId), env.now)
  {
    UnchangedEvolves(t, Sha256(env.rawId), env.now);
    var room := MakeRoom(t, u, choice);
    MakeRoomEvolves(t, u, choice, Sha256(env.rawId), env.now);
    InsertSessionEvolves(room, env, u);
    EvolvesTwice(t, room, InsertSession(room, env, u).tables, Anonymous, Sha256(env.rawId), env.now);
  }

  lemma SetPasswordEvolves(t: Tables, u: UserId, hash: PasswordHash, drawn: Digest, now: Time)
    ensures Evolves(t, SetPassword(t, u, hash), Anonymous, drawn, now)
  {
  }

  lemma SetEmailEvolves(t: Tables, u: UserId, email: string, drawn: Digest, now: Time)
    ensures Evolves(t, SetEmail(t, u, email), Anonymous, drawn, now)
  {
  }

  lemma IssuePasswordResetEvolves(t: Tables, env: Env, u: UserId, address: string)
    ensures Evolves(t, IssuePasswordReset(t, env, u, address).tables, Anonymous, Sha256(env.rawId), env.now)
  {
  }

  lemma CreatePasswordResetEvolves(cfg: Config, t: Tables, env: Env, email: string)
    ensures Evolves(t, CreatePasswordReset(cfg, t, env, email).tables, Anonymous, Sha256(env.rawId), env.now)
  {
    UnchangedEvolves(t, Sha256(env.rawId), env.now);
    var address := Normalize(email, cfg.parses);
    if address.Some? && FindUser(t.users, address.value).Some? {
      IssuePasswordResetEvolves(t, env, FindUser(t.users, address.value).value, address.value);
    }
  }

  lemma IssueEmailResetEvolves(t: Tables, env: Env, u: UserId, row: User, address: string)
    requires Sha256(env.rawId) !in t.emailResets
    ensures Evolves(t, IssueEmailReset(t, env, u, row, address).tables, Anonymous, Sha256(env.rawId), env.now)
  {
  }

  lemma CreateEmailResetEvolves(cfg: Config, t: Tables, env: Env, u: UserId, row: User, password: string,
                                newEmail: string)
    ensures Evolves(t, CreateEmailReset(cfg, t, env, u, row, password, newEmail).tables, Anonymous, Sha256(env.rawId), env.now)
  {
    UnchangedEvolves(t, Sha256(env.rawId), env.now);
    if CreateEmailResetError(cfg, t, env, u, row, password, newEmail).None? {
      IssueEmailResetEvolves(t, env, u, row, Normalize(newEmail, cfg.parses).value);
    }
  }

  lemma SignUpEffectEvolves(cfg: Config, t: Tables, env: Env, email: string, password: string, choice: Digest)
    requires t.nextUserId !in t.users && Unused(t, Sha256(env.rawId))
    ensures Evolves(t, SignUpEffect(cfg, t, env, email, password, choice).tables, Anonymous, Sha256(env.rawId), env.now)
  {
    var o := Accounts.SignUp(cfg, t, env, email, password);
    SignUpEvolves(cfg, t, env, email, password, Sha256(env.rawId));
    assert Unused(o.tables, Sha256(env.rawId));
    if o.reply.Done? {
      CreateSessionEvolves(o.tables, env, o.reply.value, choice);
      EvolvesTwice(t, o.tables, CreateSession(o.tables, env, o.reply.value, choice).tables, Anonymous,
                   Sha256(env.rawId), env.now);
    }
  }

  lemma LogOutEvolves(t: Tables, env: Env, auth: Auth, drawn: Digest)
    ensures Evolves(t, LogOutEffect(t, env, auth).tables, Anonymous, drawn, env.now)
  {
  }

  lemma ResetPasswordEvolves(cfg: Config, t: Tables, env: Env, token: Token, newPassword: string, drawn: Digest)
    ensures Evolves(t, Accounts.ResetPassword(cfg, t, env, token, newPassword).tables, Anonymous, drawn, env.now)
  {
    UnchangedEvolves(t, drawn, env.now);
    if ResetPasswordError(cfg, t, env, token, newPassword).None? {
      SetPasswordEvolves(t, t.passwordResets[Sha256(token.raw)].userId, Argon2id(newPassword, env.salt), drawn, env.now);
    }
  }

  lemma ResetEmailEvolves(t: Tables, env: Env, token: Token, drawn: Digest)
    ensures Evolves(t, Accounts.ResetEmail(t, env, token).tables, Anonymous, drawn, env.now)
  {
    UnchangedEvolves(t, drawn, env.now);
    if ResetEmailError(t, env, token).None? {
      var request := t.emailResets[Sha256(token.raw)];
      SetEmailEvolves(t, request.userId, request.newEmail, drawn, env.now);
    }
  }

  lemma ChangePasswordEvolves(cfg: Config, t: Tables, env: Env, u: UserId, row: User, password: string,
                              newPassword: string, drawn: Digest)
    ensures Evolves(t, Accounts.ChangePassword(cfg, t, env, u, row, password, newPassword).tables, Anonymous, drawn, env.now)
  {
    UnchangedEvolves(t, drawn, env.now);
    SetPasswordEvolves(t, u, Argon2id(newPassword, env.salt), drawn, env.now);
  }

  lemma ActEvolves(cfg: Config, t: Tables, env: Env, how: Settled, auth: Auth, action: Action)
    requires t.nextUserId !in t.users && Unused(t, Sha256(env.rawId))
    ensures Evolves(t, Act(cfg, t, env, how, auth, action).tables, Anonymous, Sha256(env.rawId), env.now)
  {
    var drawn, u := Sha256(env.rawId), RunsAs(t, env, auth);
    UnchangedEvolves(t, drawn, env.now);
    match action
    case SignUp(email, password) => SignUpEffectEvolves(cfg, t, env, email, password, how.evicted);
    case LogIn(email, password) =>
      var r := Accounts.LogIn(cfg, t, env, email, password);
      if r.Done? {
        CreateSessionEvolves(t, env, r.value, how.evicted);
      }
    case LogOut => LogOutEvolves(t, env, auth, drawn);
    case GetUser =>
    case ChangePassword(password, newPassword) =>
      if u.Some? {
        ChangePasswordEvolves(cfg, t, env, u.value, t.users[u.value], password, newPassword, drawn);
      }
    case RequestPasswordReset(email) => CreatePasswordResetEvolves(cfg, t, env, email);
    case ResetPassword(token, newPassword) => ResetPasswordEvolves(cfg, t, env, token, newPassword, drawn);
    case RequestEmailReset(password, newEmail) =>
      if u.Some? {
        CreateEmailResetEvolves(cfg, t, env, u.value, t.users[u.value], password, newEmail);
      }
    case ResetEmail(token) => ResetEmailEvolves(t, env, token, drawn);
  }

  /** Every request, in every state. */
  lemma ServeEvolves(cfg: Config, t: Tables, env: Env, how: Settled, r: Request)
    requires t.nextUserId !in t.users && Unused(t, Sha256(env.rawId))
    ensures Evolves(t, Serve(cfg, t, env, how, r).tables, Authenticate(t, env, r.cookie).1, Sha256(env.rawId), env.now)
  {
    var drawn := Sha256(env.rawId);
    var (seen, auth) := Authenticate(t, env, r.cookie);
    AuthenticateEvolves(t, env, r.cookie, drawn);
    assert seen.users == t.users && seen.nextUserId == t.nextUserId && Unused(seen, drawn);
    ActEvolves(cfg, seen, env, how, auth, r.action);
    EvolvesTwice(t, seen, Act(cfg, seen, env, how, auth, r.action).tables, auth, drawn, env.now);
  }
}
