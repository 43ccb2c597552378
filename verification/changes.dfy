/** Changes of credentials: which requests make one, and all that it does to the tables. */
module Changes {
  import opened LruCaches
  import opened Emails
  import opened Db
  import opened Accounts
  import opened Handlers
  import opened Evolution

  /** The user whose password or address an action changed, if it did: it was asked for, and answered with success. */
  function ChangedBy(t: Tables, auth: Auth, action: Action, answer: Answer): Option<UserId> {
    if answer != Success then None
    else match action
      case ChangePassword(_, _) => if auth.As? then Some(auth.session.userId) else None
      case ResetPassword(token, _) =>
        if token.Encodes? && Sha256(token.raw) in t.passwordResets
        then Some(t.passwordResets[Sha256(token.raw)].userId) else None
      case ResetEmail(token) =>
        if token.Encodes? && Sha256(token.raw) in t.emailResets
        then Some(t.emailResets[Sha256(token.raw)].userId) else None
      case _ => None
  }

  /** The same for a whole request. */
  function Changed(t: Tables, r: Request, p: Response): Option<UserId> {
    ChangedBy(t, p.auth, r.action, p.answer)
  }

  /** Every user and every outstanding request is still there, as it was. */
  ghost predicate Undisturbed(a: Tables, b: Tables) {
    && (forall u | u in a.users :: u in b.users && b.users[u] == a.users[u])
    && (forall d | d in a.passwordResets :: d in b.passwordResets && b.passwordResets[d] == a.passwordResets[d])
    && (forall d | d in a.emailResets :: d in b.emailResets && b.emailResets[d] == a.emailResets[d])
  }

  /** One row of users is new; all sessions and requests of that user are gone; nothing else differs. */
  ghost predicate ChangesOnly(a: Tables, b: Tables, u: UserId) {
    && u in a.users && u in b.users
    && b == ClearUser(a.(users := a.users[u := b.users[u]]), u)
  }

  lemma CreateSessionIsContained(t: Tables, env: Env, u: UserId, choice: Digest)
    ensures var b := CreateSession(t, env, u, choice).tables; b == t.(sessions := b.sessions)
  {
  }

  lemma PasswordRequestForIsContained(t: Tables, env: Env, address: Option<string>)
    ensures var b := CreatePasswordResetFor(t, env, address).tables; b == t.(passwordResets := b.passwordResets)
  {
  }

  lemma PasswordRequestIsContained(cfg: Config, t: Tables, env: Env, email: string)
    ensures var b := CreatePasswordReset(cfg, t, env, email).tables; b == t.(passwordResets := b.passwordResets)
  {
    PasswordRequestForIsContained(t, env, Normalize(email, cfg.parses));
  }

  lemma EmailRequestIsContained(cfg: Config, t: Tables, env: Env, u: UserId, row: User, password: string,
                                newEmail: string)
    ensures var b := CreateEmailReset(cfg, t, env, u, row, password, newEmail).tables;
      b == t.(emailResets := b.emailResets)
  {
  }

  /** The two requests for a token, log-out and reading the user: each writes to one table at most. */
  lemma OthersAreContained(cfg: Config, t: Tables, env: Env, how: Settled, auth: Auth, action: Action)
    ensures var b := Act(cfg, t, env, how, auth, action).tables;
      && (action.RequestPasswordReset? ==> b == t.(passwordResets := b.passwordResets))
      && (action.RequestEmailReset? ==> b == t.(emailResets := b.emailResets))
      && (action.LogOut? ==> b == t || (auth.As? && b == t.(sessions := t.sessions - {auth.id})))
      && (action.GetUser? ==> b == t)
  {
    match action
    case RequestPasswordReset(email) => PasswordRequestIsContained(cfg, t, env, email);
    case RequestEmailReset(password, newEmail) =>
      var u := RunsAs(t, env, auth);
      if u.Some? {
        EmailRequestIsContained(cfg, t, env, u.value, t.users[u.value], password, newEmail);
      }
    case _ =>
  }

  lemma RegisteredDisturbsNothing(t: Tables, row: User)
    requires t.nextUserId !in t.users
    ensures Undisturbed(t, Registered(t, row))
  {
  }

  lemma NewRowDisturbsNothing(cfg: Config, t: Tables, env: Env, email: string, password: string)
    requires t.nextUserId !in t.users
    ensures Undisturbed(t, Accounts.SignUp(cfg, t, env, email, password).tables)
  {
    SignUpTables(cfg, t, env, email, password);
    if SignUpError(cfg, t, env, email, password).None? {
      RegisteredDisturbsNothing(t, User(Normalize(Trim(email), cfg.parses).value, Argon2id(password, env.salt), true));
    }
  }

  lemma SessionsDisturbNothing(t: Tables, a: Tables, b: Tables)
    requires Undisturbed(t, a) && b == a.(sessions := b.sessions)
    ensures Undisturbed(t, b)
  {
  }

  lemma SignUpDisturbsNothing(cfg: Config, t: Tables, env: Env, email: string, password: string, choice: Digest)
    requires t.nextUserId !in t.users
    ensures Undisturbed(t, SignUpEffect(cfg, t, env, email, password, choice).tables)
  {
    var o := Accounts.SignUp(cfg, t, env, email, password);
    NewRowDisturbsNothing(cfg, t, env, email, password);
    if o.reply.Done? {
      CreateSessionIsContained(o.tables, env, o.reply.value, choice);
      SessionsDisturbNothing(t, o.tables, CreateSession(o.tables, env, o.reply.value, choice).tables);
    }
  }

  lemma LogInDisturbsNothing(cfg: Config, t: Tables, env: Env, email: string, password: string, choice: Digest)
    ensures Undisturbed(t, LogInEffect(cfg, t, env, email, password, choice).tables)
  {
    var r := Accounts.LogIn(cfg, t, env, email, password);
    if r.Done? {
      CreateSessionIsContained(t, env, r.value, choice);
    }
  }

  lemma IssuingDisturbsNothing(t: Tables, env: Env, u: UserId, row: User, address: string)
    ensures Undisturbed(t, IssuePasswordReset(t, env, u, address).tables)
    ensures Sha256(env.rawId) !in t.emailResets ==> Undisturbed(t, IssueEmailReset(t, env, u, row, address).tables)
  {
  }

  lemma PasswordRequestDisturbsNothing(cfg: Config, t: Tables, env: Env, email: string)
    ensures Undisturbed(t, CreatePasswordReset(cfg, t, env, email).tables)
  {
    var address := Normalize(email, cfg.parses);
    if address.Some? && FindUser(t.users, address.value).Some? {
      var u := FindUser(t.users, address.value).value;
      IssuingDisturbsNothing(t, env, u, t.users[u], address.value);
    }
  }

  lemma EmailRequestDisturbsNothing(cfg: Config, t: Tables, env: Env, u: UserId, row: User, password: string,
                                    newEmail: string)
    ensures Undisturbed(t, CreateEmailReset(cfg, t, env, u, row, password, newEmail).tables)
  {
    if CreateEmailResetError(cfg, t, env, u, row, password, newEmail).None? {
      IssuingDisturbsNothing(t, env, u, row, Normalize(newEmail, cfg.parses).value);
    }
  }

  lemma OtherActionsDisturbNothing(cfg: Config, t: Tables, env: Env, how: Settled, auth: Auth, action: Action)
    requires t.nextUserId !in t.users && ChangedBy(t, auth, action, Act(cfg, t, env, how, auth, action).answer).None?
    ensures Undisturbed(t, Act(cfg, t, env, how, auth, action).tables)
  {
    match action
    case SignUp(email, password) => SignUpDisturbsNothing(cfg, t, env, email, password, how.evicted);
    case LogIn(email, password) => LogInDisturbsNothing(cfg, t, env, email, password, how.evicted);
    case RequestPasswordReset(email) => PasswordRequestDisturbsNothing(cfg, t, env, email);
    case RequestEmailReset(password, newEmail) =>
      var u := RunsAs(t, env, auth);
      if u.Some? {
        EmailRequestDisturbsNothing(cfg, t, env, u.value, t.users[u.value], password, newEmail);
      }
    case _ =>
  }

  lemma AuthenticateDisturbsNothing(t: Tables, env: Env, cookie: Cookie)
    ensures var seen := Authenticate(t, env, cookie).0; seen == t.(sessions := seen.sessions)
  {
  }

  /** A request that changes no credentials leaves all users and all outstanding requests alone. */
  lemma OtherwiseUndisturbed(cfg: Config, t: Tables, env: Env, how: Settled, r: Request)
    requires t.nextUserId !in t.users && Changed(t, r, Serve(cfg, t, env, how, r)).None?
    ensures Undisturbed(t, Serve(cfg, t, env, how, r).tables)
  {
    var (seen, auth) := Authenticate(t, env, r.cookie);
    AuthenticateDisturbsNothing(t, env, r.cookie);
    OtherActionsDisturbNothing(cfg, seen, env, how, auth, r.action);
  }

  lemma SetPasswordChangesOnly(t: Tables, u: UserId, hash: PasswordHash)
    requires u in t.users
    ensures ChangesOnly(t, SetPassword(t, u, hash), u)
  {
  }

  lemma SetEmailChangesOnly(t: Tables, u: UserId, email: string)
    requires u in t.users
    ensures ChangesOnly(t, SetEmail(t, u, email), u)
  {
  }

  lemma ActChangeIsExact(cfg: Config, t: Tables, env: Env, how: Settled, auth: Auth, action: Action)
    requires PasswordResetsFit(t.passwordResets, t.users.Keys) && EmailResetsFit(t.emailResets, t.users.Keys)
    requires ChangedBy(t, auth, action, Act(cfg, t, env, how, auth, action).answer).Some?
    ensures ChangesOnly(t, Act(cfg, t, env, how, auth, action).tables,
                        ChangedBy(t, auth, action, Act(cfg, t, env, how, auth, action).answer).value)
  {
    var u := ChangedBy(t, auth, action, Act(cfg, t, env, how, auth, action).answer).value;
    match action
    case ChangePassword(_, newPassword) => SetPasswordChangesOnly(t, u, Argon2id(newPassword, env.salt));
    case ResetPassword(_, newPassword) => SetPasswordChangesOnly(t, u, Argon2id(newPassword, env.salt));
    case ResetEmail(token) => SetEmailChangesOnly(t, u, t.emailResets[Sha256(token.raw)].newEmail);
  }

  /** A change of credentials is exactly that, on the tables as the middleware left them. */
  lemma ChangeIsExact(cfg: Config, t: Tables, env: Env, how: Settled, r: Request)
    requires Consistent(t) && Changed(t, r, Serve(cfg, t, env, how, r)).Some?
    ensures ChangesOnly(Authenticate(t, env, r.cookie).0, Serve(cfg, t, env, how, r).tables,
                        Changed(t, r, Serve(cfg, t, env, how, r)).value)
  {
    var (seen, auth) := Authenticate(t, env, r.cookie);
    AuthenticateDisturbsNothing(t, env, r.cookie);
    ActChangeIsExact(cfg, seen, env, how, auth, r.action);
  }
}
