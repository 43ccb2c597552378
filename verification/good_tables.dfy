/** What every request keeps true of the tables: the schema's constraints, canonical addresses, strong passwords. */
module GoodTables {
  import opened LruCaches
  import opened Emails
  import opened Db
  import opened Accounts
  import opened Handlers
  import opened Evolution

  /** What is asked of every stored address and every password behind a stored hash. */
  datatype Rules = Rules(address: string -> bool, password: string -> bool)

  /** Whatever passes the checks of the write paths meets the rules. */
  ghost predicate Enforces(cfg: Config, rules: Rules) {
    && (forall input :: Normalize(input, cfg.parses).Some? ==> rules.address(Normalize(input, cfg.parses).value))
    && (forall password :: PasswordError(cfg, password).None? ==> rules.password(password))
  }

  ghost predicate GoodUser(rules: Rules, u: User) {
    rules.address(u.email) && rules.password(u.passwordHash.password) && u.isActive
  }

  ghost predicate GoodUsers(rules: Rules, users: map<UserId, User>) {
    forall u | u in users :: GoodUser(rules, users[u])
  }

  ghost predicate GoodEmailResets(rules: Rules, resets: map<Digest, EmailResetRequest>) {
    forall d | d in resets :: rules.address(resets[d].newEmail)
  }

  /** The schema holds, the rules do, and every user is active: nothing ever deactivates one. */
  ghost predicate Good(rules: Rules, t: Tables) {
    Consistent(t) && GoodUsers(rules, t.users) && GoodEmailResets(rules, t.emailResets)
  }

  lemma TouchedFit(sessions: map<Digest, Session>, id: Digest, env: Env, users: set<UserId>)
    requires SessionsFit(sessions, users) && id in sessions
    ensures SessionsFit(Touched(sessions, id, env), users)
  {
  }

  lemma AuthenticateFits(t: Tables, env: Env, cookie: Cookie)
    requires SessionsFit(t.sessions, t.users.Keys)
    ensures var b := Authenticate(t, env, cookie).0;
      b == t.(sessions := b.sessions) && SessionsFit(b.sessions, t.users.Keys)
  {
    if cookie.Carries? && Sha256(cookie.raw) in t.sessions {
      TouchedFit(t.sessions, Sha256(cookie.raw), env, t.users.Keys);
    }
  }

  lemma NewSessionsAreGood(rules: Rules, a: Tables, b: Tables)
    requires Good(rules, a) && b == a.(sessions := b.sessions) && SessionsFit(b.sessions, a.users.Keys)
    ensures Good(rules, b)
  {
  }

  lemma AuthenticateKeepsGood(rules: Rules, t: Tables, env: Env, cookie: Cookie)
    requires Good(rules, t)
    ensures Good(rules, Authenticate(t, env, cookie).0)
  {
    AuthenticateFits(t, env, cookie);
    NewSessionsAreGood(rules, t, Authenticate(t, env, cookie).0);
  }

  lemma CreateSessionFits(t: Tables, env: Env, u: UserId, choice: Digest)
    requires SessionsFit(t.sessions, t.users.Keys)
    ensures var b := CreateSession(t, env, u, choice).tables;
      b == t.(sessions := b.sessions) && SessionsFit(b.sessions, t.users.Keys)
  {
  }

  lemma CreateSessionKeepsGood(rules: Rules, t: Tables, env: Env, u: UserId, choice: Digest)
    requires Good(rules, t)
    ensures Good(rules, CreateSession(t, env, u, choice).tables)
  {
    CreateSessionFits(t, env, u, choice);
    NewSessionsAreGood(rules, t, CreateSession(t, env, u, choice).tables);
  }

  lemma LogOutKeepsGood(rules: Rules, t: Tables, env: Env, auth: Auth)
    requires Good(rules, t)
    ensures Good(rules, LogOutEffect(t, env, auth).tables)
  {
  }

  /** A row whose address no one else has, new or changed. */
  lemma RowStaysUnique(users: map<UserId, User>, u: UserId, row: User)
    requires UniqueEmails(users) && !Taken(users, row.email, {u})
    ensures UniqueEmails(users[u := row])
  {
  }

  lemma ChangedUsersFit(rules: Rules, users: map<UserId, User>, next: UserId, u: UserId, row: User)
    requires UsersFit(users, next) && GoodUsers(rules, users)
    requires u < next && GoodUser(rules, row) && !Taken(users, row.email, {u})
    ensures UsersFit(users[u := row], next) && GoodUsers(rules, users[u := row])
  {
    RowStaysUnique(users, u, row);
  }

  lemma NewUserIsGood(rules: Rules, t: Tables, row: User)
    requires Good(rules, t) && GoodUser(rules, row) && !Taken(t.users, row.email, {})
    ensures Good(rules, Registered(t, row))
  {
    ChangedUsersFit(rules, t.users, t.nextUserId + 1, t.nextUserId, row);
  }

  /** What a sign-up makes of the tables: a row that meets the rules, or at most a used-up id. */
  ghost predicate SignsUp(rules: Rules, a: Tables, b: Tables, row: User) {
    || b == a
    || b == a.(nextUserId := a.nextUserId + 1)
    || (b == Registered(a, row) && GoodUser(rules, row) && !Taken(a.users, row.email, {}))
  }

  lemma UnrefusedRowMeetsRules(cfg: Config, rules: Rules, t: Tables, env: Env, email: string, input: string,
                               password: string)
    requires Enforces(cfg, rules)
    requires SignUpRefusal(cfg, t, env, email, Normalize(input, cfg.parses), password).None?
    ensures Normalize(input, cfg.parses).Some?
    ensures rules.address(Normalize(input, cfg.parses).value) && rules.password(password)
  {
  }

  lemma UnrefusedIsFree(cfg: Config, t: Tables, env: Env, email: string, address: Option<string>, password: string)
    requires SignUpRefusal(cfg, t, env, email, address, password).None?
    ensures address.Some? && !Taken(t.users, address.value, {})
  {
  }

  lemma SignUpSignsUp(cfg: Config, rules: Rules, t: Tables, env: Env, email: string, password: string) returns (row: User)
    requires Enforces(cfg, rules)
    ensures SignsUp(rules, t, Accounts.SignUp(cfg, t, env, email, password).tables, row)
  {
    SignUpTables(cfg, t, env, email, password);
    if SignUpError(cfg, t, env, email, password).None? {
      UnrefusedRowMeetsRules(cfg, rules, t, env, email, Trim(email), password);
      UnrefusedIsFree(cfg, t, env, email, Normalize(Trim(email), cfg.parses), password);
      row := User(Normalize(Trim(email), cfg.parses).value, Argon2id(password, env.salt), true);
    } else {
      row := User("", Argon2id(password, env.salt), true);
    }
  }

  lemma SignedUpIsGood(rules: Rules, a: Tables, b: Tables, row: User)
    requires Good(rules, a) && SignsUp(rules, a, b, row)
    ensures Good(rules, b)
  {
    if b == Registered(a, row) && GoodUser(rules, row) && !Taken(a.users, row.email, {}) {
      NewUserIsGood(rules, a, row);
    } else {
      NextIdIsGood(rules, a);
    }
  }

  lemma SignUpKeepsGood(cfg: Config, rules: Rules, t: Tables, env: Env, email: string, password: string)
    requires Good(rules, t) && Enforces(cfg, rules)
    ensures Good(rules, Accounts.SignUp(cfg, t, env, email, password).tables)
  {
    var row := SignUpSignsUp(cfg, rules, t, env, email, password);
    SignedUpIsGood(rules, t, Accounts.SignUp(cfg, t, env, email, password).tables, row);
  }

  lemma NextIdIsGood(rules: Rules, t: Tables)
    requires Good(rules, t)
    ensures Good(rules, t.(nextUserId := t.nextUserId + 1))
  {
  }

  lemma ClearUserKeepsGood(rules: Rules, t: Tables, u: UserId)
    requires Good(rules, t)
    ensures Good(rules, ClearUser(t, u))
  {
  }

  lemma ChangedUsersAreGood(rules: Rules, t: Tables, users: map<UserId, User>)
    requires Good(rules, t) && users.Keys == t.users.Keys && UsersFit(users, t.nextUserId) && GoodUsers(rules, users)
    ensures Good(rules, t.(users := users))
  {
  }

  lemma ChangedUserIsGood(rules: Rules, t: Tables, u: UserId, row: User)
    requires Good(rules, t) && u in t.users && GoodUser(rules, row) && !Taken(t.users, row.email, {u})
    ensures Good(rules, t.(users := t.users[u := row]))
  {
    ChangedUsersFit(rules, t.users, t.nextUserId, u, row);
    ChangedUsersAreGood(rules, t, t.users[u := row]);
  }

  lemma OwnAddressIsFree(t: Tables, u: UserId)
    requires Consistent(t) && u in t.users
    ensures !Taken(t.users, t.users[u].email, {u})
  {
  }

  lemma SetPasswordKeepsGood(rules: Rules, t: Tables, u: UserId, hash: PasswordHash)
    requires Good(rules, t) && rules.password(hash.password)
    ensures Good(rules, SetPassword(t, u, hash))
  {
    if u in t.users {
      OwnAddressIsFree(t, u);
      var row := t.users[u].(passwordHash := hash);
      ChangedUserIsGood(rules, t, u, row);
      ClearUserKeepsGood(rules, t.(users := t.users[u := row]), u);
    } else {
      ClearUserKeepsGood(rules, t, u);
    }
  }

  lemma SetEmailKeepsGood(rules: Rules, t: Tables, u: UserId, email: string)
    requires Good(rules, t) && rules.address(email) && (u in t.users ==> !Taken(t.users, email, {u}))
    ensures Good(rules, SetEmail(t, u, email))
  {
    if u in t.users {
      var row := t.users[u].(email := email);
      ChangedUserIsGood(rules, t, u, row);
      ClearUserKeepsGood(rules, t.(users := t.users[u := row]), u);
    } else {
      ClearUserKeepsGood(rules, t, u);
    }
  }

  lemma ChangePasswordKeepsGood(cfg: Config, rules: Rules, t: Tables, env: Env, u: UserId, row: User,
                                password: string, newPassword: string)
    requires Good(rules, t) && Enforces(cfg, rules)
    ensures Good(rules, Accounts.ChangePassword(cfg, t, env, u, row, password, newPassword).tables)
  {
    if ChangePasswordError(cfg, env, row, password, newPassword).None? {
      SetPasswordKeepsGood(rules, t, u, Argon2id(newPassword, env.salt));
    }
  }

  lemma ResetPasswordKeepsGood(cfg: Config, rules: Rules, t: Tables, env: Env, token: Token, newPassword: string)
    requires Good(rules, t) && Enforces(cfg, rules)
    ensures Good(rules, Accounts.ResetPassword(cfg, t, env, token, newPassword).tables)
  {
    if ResetPasswordError(cfg, t, env, token, newPassword).None? {
      SetPasswordKeepsGood(rules, t, t.passwordResets[Sha256(token.raw)].userId, Argon2id(newPassword, env.salt));
    }
  }

  lemma ResetEmailKeepsGood(rules: Rules, t: Tables, env: Env, token: Token)
    requires Good(rules, t)
    ensures Good(rules, Accounts.ResetEmail(t, env, token).tables)
  {
    if ResetEmailError(t, env, token).None? {
      var request := t.emailResets[Sha256(token.raw)];
      SetEmailKeepsGood(rules, t, request.userId, request.newEmail);
    }
  }

  lemma IssuePasswordResetKeepsGood(rules: Rules, t: Tables, env: Env, u: UserId, address: string)
    requires Good(rules, t) && u in t.users
    ensures Good(rules, IssuePasswordReset(t, env, u, address).tables)
  {
    var b := IssuePasswordReset(t, env, u, address).tables;
    assert PasswordResetsFit(b.passwordResets, t.users.Keys);
    NewPasswordResetsAreGood(rules, t, b);
  }

  lemma CreatePasswordResetKeepsGood(cfg: Config, rules: Rules, t: Tables, env: Env, email: string)
    requires Good(rules, t)
    ensures Good(rules, CreatePasswordReset(cfg, t, env, email).tables)
  {
    var address := Normalize(email, cfg.parses);
    if address.Some? && FindUser(t.users, address.value).Some? {
      IssuePasswordResetKeepsGood(rules, t, env, FindUser(t.users, address.value).value, address.value);
    }
  }

  lemma NewPasswordResetsAreGood(rules: Rules, a: Tables, b: Tables)
    requires Good(rules, a) && b == a.(passwordResets := b.passwordResets)
    requires PasswordResetsFit(b.passwordResets, a.users.Keys)
    ensures Good(rules, b)
  {
  }

  lemma NewEmailResetIsGood(rules: Rules, t: Tables, id: Digest, row: EmailResetRequest)
    requires Good(rules, t) && row.userId in t.users && rules.address(row.newEmail)
    ensures Good(rules, t.(emailResets := t.emailResets[id := row]))
  {
  }

  lemma CreateEmailResetKeepsGood(cfg: Config, rules: Rules, t: Tables, env: Env, u: UserId, row: User, password: string,
                                  newEmail: string)
    requires Good(rules, t) && Enforces(cfg, rules)
    ensures Good(rules, CreateEmailReset(cfg, t, env, u, row, password, newEmail).tables)
  {
    if CreateEmailResetError(cfg, t, env, u, row, password, newEmail).None? {
      var address := Normalize(newEmail, cfg.parses).value;
      NewEmailResetIsGood(rules, t, Sha256(env.rawId), EmailResetRequest(u, address, env.now));
    }
  }

  lemma ActKeepsGood(cfg: Config, rules: Rules, t: Tables, env: Env, how: Settled, auth: Auth, action: Action)
    requires Good(rules, t) && Enforces(cfg, rules)
    ensures Good(rules, Act(cfg, t, env, how, auth, action).tables)
  {
    var u := RunsAs(t, env, auth);
    match action
    case SignUp(email, password) =>
      var o := Accounts.SignUp(cfg, t, env, email, password);
      SignUpKeepsGood(cfg, rules, t, env, email, password);
      if o.reply.Done? {
        CreateSessionKeepsGood(rules, o.tables, env, o.reply.value, how.evicted);
      }
    case LogIn(email, password) =>
      var r := Accounts.LogIn(cfg, t, env, email, password);
      if r.Done? {
        CreateSessionKeepsGood(rules, t, env, r.value, how.evicted);
      }
    case LogOut => LogOutKeepsGood(rules, t, env, auth);
    case GetUser =>
    case ChangePassword(password, newPassword) =>
      if u.Some? {
        ChangePasswordKeepsGood(cfg, rules, t, env, u.value, t.users[u.value], password, newPassword);
      }
    case RequestPasswordReset(email) => CreatePasswordResetKeepsGood(cfg, rules, t, env, email);
    case ResetPassword(token, newPassword) => ResetPasswordKeepsGood(cfg, rules, t, env, token, newPassword);
    case RequestEmailReset(password, newEmail) =>
      if u.Some? {
        CreateEmailResetKeepsGood(cfg, rules, t, env, u.value, t.users[u.value], password, newEmail);
      }
    case ResetEmail(token) => ResetEmailKeepsGood(rules, t, env, token);
  }

  /** Every request keeps the tables good. */
  lemma ServeKeepsGood(cfg: Config, rules: Rules, t: Tables, env: Env, how: Settled, r: Request)
    requires Good(rules, t) && Enforces(cfg, rules)
    ensures Good(rules, Serve(cfg, t, env, how, r).tables)
  {
    AuthenticateKeepsGood(rules, t, env, r.cookie);
    var (seen, auth) := Authenticate(t, env, r.cookie);
    ActKeepsGood(cfg, rules, seen, env, how, auth, r.action);
  }
}
