/** What each service operation does to the tables, as functions: the specifications that the service
    methods are proved against, and that the theorems about whole runs use. */
module Accounts {
  import opened TokenBucket
  import opened LruCaches
  import opened Emails
  import opened Db

  datatype Error =
    | EmailBlank | InvalidLogInInput | EmailTaken | InvalidEmail | InvalidCredentials
    | PasswordEmpty | PasswordShort | PasswordLong | PasswordCommon
    | UserNotFound | SessionNotFound | InvalidResetToken | HashingBusy | Internal

  /** The calls that can fail for reasons outside the program. */
  datatype Fault =
    | CreateUserFails | GetUserByEmailFails | GetUserByIDFails | UpdateUserFails
    | CreateRequestFails | ConsumeRequestFails | DeletePasswordResetsFails | DeleteEmailResetsFails
    | CreateSessionFails | CountSessionsFails | EvictSessionFails | GetSessionFails | TouchSessionFails
    | DeleteSessionFails | DeleteAllSessionsFails
    | BeginFails | CommitFails | RandomFails | HashFails | VerifyFails | MailFails

  /** What one request finds outside the tables. */
  datatype Env = Env(
    now: Time,           // the one clock
    faults: set<Fault>,  // which outside calls fail
    rawId: Bytes,        // the 16 random bytes it would draw
    salt: Bytes,         // the salt its hash would use
    freeSlots: nat)      // hashing slots that other requests leave free

  datatype Config = Config(parses: string -> bool, commonPasswords: set<string>)

  /** What a token parameter of a URL decodes to. */
  datatype Token = Malformed | Encodes(raw: Bytes)

  datatype MailBody = PasswordResetLink(raw: Bytes) | EmailResetLink(raw: Bytes) | PasswordWasReset | EmailChangeRequested
  datatype Mail = Mail(to: string, body: MailBody)

  datatype Reply<+T> = Done(value: T) | Failed(error: Error)

  const TOKEN_DURATION: Time := 15 * MINUTE

  datatype Outcome<+T> = Outcome(tables: Tables, mails: seq<Mail>, reply: Reply<T>)

  /** `isValidPassword`. */
  function PasswordError(cfg: Config, password: string): Option<Error> {
    if Trim(password) == "" then Some(PasswordEmpty)
    else if |password| <= 12 then Some(PasswordShort)
    else if |password| > 256 then Some(PasswordLong)
    else if Lower(password) in cfg.commonPasswords then Some(PasswordCommon)
    else None
  }

  ghost predicate StrongPassword(cfg: Config, password: string) {
    13 <= |password| <= 256 && Trim(password) != "" && Lower(password) !in cfg.commonPasswords
  }

  /** The check lets through exactly the strong passwords. */
  lemma PasswordCheckIsExact(cfg: Config, password: string)
    ensures PasswordError(cfg, password).None? <==> StrongPassword(cfg, password)
  {
  }

  /** The user that CITEXT comparison finds for an address. */
  ghost function FindUser(users: map<UserId, User>, email: string): (u: Option<UserId>)
    ensures u.Some? <==> Taken(users, email, {})
    ensures u.Some? ==> u.value in users && Lower(users[u.value].email) == Lower(email)
  {
    if Taken(users, email, {}) then
      var u :| u in users && Lower(users[u].email) == Lower(email);
      Some(u)
    else None
  }

  lemma FoundUserIsUnique(users: map<UserId, User>, email: string, u: UserId)
    requires UniqueEmails(users) && u in users && Lower(users[u].email) == Lower(email)
    ensures FindUser(users, email) == Some(u)
  {
    assert Taken(users, email, {});
  }

  // ---- Sign-up and log-in ----

  /** In the order of the checks; `address` is what normalisation made of the email. */
  function SignUpRefusal(cfg: Config, t: Tables, env: Env, email: string, address: Option<string>,
                         password: string): Option<Error> {
    if Trim(email) == "" then Some(EmailBlank)
    else if PasswordError(cfg, password).Some? then PasswordError(cfg, password)
    else if address.None? then Some(InvalidEmail)
    else if env.freeSlots == 0 then Some(HashingBusy)
    else if HashFails in env.faults || CreateUserFails in env.faults then Some(Internal)
    else if Taken(t.users, address.value, {}) then Some(EmailTaken)
    else None
  }

  function SignUpError(cfg: Config, t: Tables, env: Env, email: string, password: string): Option<Error> {
    SignUpRefusal(cfg, t, env, email, Normalize(Trim(email), cfg.parses), password)
  }

  /** A new row of users, under the next id. */
  function Registered(t: Tables, row: User): Tables {
    t.(users := t.users[t.nextUserId := row], nextUserId := t.nextUserId + 1)
  }

  function SignUpWith(cfg: Config, t: Tables, env: Env, email: string, address: Option<string>,
                      password: string): Outcome<UserId> {
    match SignUpRefusal(cfg, t, env, email, address, password)
    case None =>
      Outcome(Registered(t, User(address.value, Argon2id(password, env.salt), true)), [], Done(t.nextUserId))
    case Some(EmailTaken) => Outcome(t.(nextUserId := t.nextUserId + 1), [], Failed(EmailTaken))
    case Some(e) => Outcome(t, [], Failed(e))
  }

  function SignUp(cfg: Config, t: Tables, env: Env, email: string, password: string): Outcome<UserId> {
    SignUpWith(cfg, t, env, email, Normalize(Trim(email), cfg.parses), password)
  }

  /** `verifyPassword`, as an error or none. */
  function VerifyError(env: Env, password: string, hash: PasswordHash): Option<Error> {
    if env.freeSlots == 0 then Some(HashingBusy)
    else if VerifyFails in env.faults then Some(Internal)
    else if hash.password != password then Some(InvalidCredentials)
    else None
  }

  ghost function LogInAt(t: Tables, env: Env, address: string, password: string): Reply<UserId> {
    if GetUserByEmailFails in env.faults then Failed(Internal)
    else match FindUser(t.users, address)
      case None => Failed(InvalidCredentials)
      case Some(u) =>
        if !t.users[u].isActive then Failed(InvalidCredentials)
        else match VerifyError(env, password, t.users[u].passwordHash)
          case None => Done(u)
          case Some(e) => Failed(e)
  }

  /** `address` is what normalisation made of the email. */
  ghost function LogInFor(t: Tables, env: Env, email: string, address: Option<string>, password: string): Reply<UserId> {
    if Trim(email) == "" || password == "" then Failed(InvalidLogInInput)
    else if address.None? then Failed(InvalidEmail)
    else LogInAt(t, env, address.value, password)
  }

  ghost function LogIn(cfg: Config, t: Tables, env: Env, email: string, password: string): Reply<UserId> {
    LogInFor(t, env, email, Normalize(Trim(email), cfg.parses), password)
  }

  // ---- The three transactions ----

  /** No session and no reset request of the user is left. */
  function ClearUser(t: Tables, u: UserId): Tables {
    t.(sessions := WithoutSessionsOf(t.sessions, u),
       passwordResets := WithoutPasswordResetsOf(t.passwordResets, u),
       emailResets := WithoutEmailResetsOf(t.emailResets, u))
  }

  function SetPassword(t: Tables, u: UserId, hash: PasswordHash): Tables {
    ClearUser(if u in t.users then t.(users := t.users[u := t.users[u].(passwordHash := hash)]) else t, u)
  }

  function SetEmail(t: Tables, u: UserId, email: string): Tables {
    ClearUser(if u in t.users then t.(users := t.users[u := t.users[u].(email := email)]) else t, u)
  }

  /** The outside calls of every transaction, after the statement that updates the user. */
  predicate ClearingFails(env: Env) {
    || DeleteAllSessionsFails in env.faults || DeletePasswordResetsFails in env.faults
    || DeleteEmailResetsFails in env.faults || CommitFails in env.faults
  }

  function ChangePasswordError(cfg: Config, env: Env, row: User, password: string, newPassword: string): Option<Error> {
    if VerifyError(env, password, row.passwordHash).Some? then VerifyError(env, password, row.passwordHash)
    else if PasswordError(cfg, newPassword).Some? then PasswordError(cfg, newPassword)
    else if HashFails in env.faults || BeginFails in env.faults || UpdateUserFails in env.faults || ClearingFails(env)
    then Some(Internal)
    else None
  }

  /** `ResetPasswordForAuthenticatedUser`; `row` is the user as the middleware resolved it. */
  function ChangePassword(cfg: Config, t: Tables, env: Env, u: UserId, row: User, password: string,
                          newPassword: string): Outcome<()> {
    match ChangePasswordError(cfg, env, row, password, newPassword)
    case Some(e) => Outcome(t, [], Failed(e))
    case None =>
      Outcome(SetPassword(t, u, Argon2id(newPassword, env.salt)), [Mail(row.email, PasswordWasReset)], Done(()))
  }

  function ResetPasswordError(cfg: Config, t: Tables, env: Env, token: Token, newPassword: string): Option<Error> {
    if PasswordError(cfg, newPassword).Some? then PasswordError(cfg, newPassword)
    else if token.Malformed? then Some(InvalidResetToken)
    else if BeginFails in env.faults || ConsumeRequestFails in env.faults then Some(Internal)
    else if Sha256(token.raw) !in t.passwordResets then Some(InvalidResetToken)
    else if env.now > t.passwordResets[Sha256(token.raw)].createdAt + TOKEN_DURATION then Some(InvalidResetToken)
    else if env.freeSlots == 0 then Some(HashingBusy)
    else if HashFails in env.faults || UpdateUserFails in env.faults || ClearingFails(env) then Some(Internal)
    else None
  }

  /** `ResetPasswordFromResetRequest`. */
  function ResetPassword(cfg: Config, t: Tables, env: Env, token: Token, newPassword: string): Outcome<()> {
    match ResetPasswordError(cfg, t, env, token, newPassword)
    case Some(e) => Outcome(t, [], Failed(e))
    case None =>
      var u := t.passwordResets[Sha256(token.raw)].userId;
      var notice := if GetUserByIDFails !in env.faults && u in t.users then [Mail(t.users[u].email, PasswordWasReset)] else [];
      Outcome(SetPassword(t, u, Argon2id(newPassword, env.salt)), notice, Done(()))
  }

  function ResetEmailError(t: Tables, env: Env, token: Token): Option<Error> {
    if token.Malformed? then Some(InvalidResetToken)
    else if BeginFails in env.faults || ConsumeRequestFails in env.faults then Some(Internal)
    else if Sha256(token.raw) !in t.emailResets then Some(InvalidResetToken)
    else
      var request := t.emailResets[Sha256(token.raw)];
      if env.now > request.createdAt + TOKEN_DURATION then Some(InvalidResetToken)
      else if UpdateUserFails in env.faults then Some(Internal)
      else if request.userId in t.users && Taken(t.users, request.newEmail, {request.userId}) then Some(EmailTaken)
      else if ClearingFails(env) then Some(Internal)
      else None
  }

  /** `ResetEmailFromResetRequest`. */
  function ResetEmail(t: Tables, env: Env, token: Token): Outcome<()> {
    match ResetEmailError(t, env, token)
    case Some(e) => Outcome(t, [], Failed(e))
    case None =>
      var request := t.emailResets[Sha256(token.raw)];
      Outcome(SetEmail(t, request.userId, request.newEmail), [], Done(()))
  }

  // ---- The two requests for a token ----

  function IssuePasswordReset(t: Tables, env: Env, u: UserId, address: string): Outcome<()> {
    var id := Sha256(env.rawId);
    if RandomFails in env.faults || CreateRequestFails in env.faults || id in t.passwordResets
    then Outcome(t, [], Failed(Internal))
    else Outcome(t.(passwordResets := t.passwordResets[id := PasswordResetRequest(u, env.now)]),
                 [Mail(address, PasswordResetLink(env.rawId))],
                 if MailFails in env.faults then Failed(Internal) else Done(()))
  }

  ghost function CreatePasswordResetFor(t: Tables, env: Env, address: Option<string>): Outcome<()> {
    if address.None? then Outcome(t, [], Failed(InvalidEmail))
    else if GetUserByEmailFails in env.faults then Outcome(t, [], Failed(Internal))
    else match FindUser(t.users, address.value)
      case None => Outcome(t, [], Failed(UserNotFound))
      case Some(u) => IssuePasswordReset(t, env, u, address.value)
  }

  ghost function CreatePasswordReset(cfg: Config, t: Tables, env: Env, email: string): Outcome<()> {
    CreatePasswordResetFor(t, env, Normalize(email, cfg.parses))
  }

  /** In the order of the checks; `address` is what normalisation made of the new email. */
  function EmailResetRefusal(t: Tables, env: Env, u: UserId, row: User, password: string,
                             address: Option<string>): Option<Error> {
    if address.None? then Some(InvalidEmail)
    else if VerifyError(env, password, row.passwordHash).Some? then VerifyError(env, password, row.passwordHash)
    else if address.value == row.email then Some(EmailTaken)
    else if GetUserByEmailFails in env.faults then Some(Internal)
    else if Taken(t.users, address.value, {}) then Some(EmailTaken)
    else if RandomFails in env.faults || CreateRequestFails in env.faults
            || Sha256(env.rawId) in t.emailResets || u !in t.users then Some(Internal)
    else None
  }

  function CreateEmailResetError(cfg: Config, t: Tables, env: Env, u: UserId, row: User, password: string,
                                 newEmail: string): Option<Error> {
    EmailResetRefusal(t, env, u, row, password, Normalize(newEmail, cfg.parses))
  }

  function IssueEmailReset(t: Tables, env: Env, u: UserId, row: User, address: string): Outcome<()> {
    var link := Mail(address, EmailResetLink(env.rawId));
    Outcome(t.(emailResets := t.emailResets[Sha256(env.rawId) := EmailResetRequest(u, address, env.now)]),
            if MailFails in env.faults then [link] else [link, Mail(row.email, EmailChangeRequested)],
            if MailFails in env.faults then Failed(Internal) else Done(()))
  }

  function CreateEmailResetFor(t: Tables, env: Env, u: UserId, row: User, password: string,
                               address: Option<string>): Outcome<()> {
    match EmailResetRefusal(t, env, u, row, password, address)
    case Some(e) => Outcome(t, [], Failed(e))
    case None => IssueEmailReset(t, env, u, row, address.value)
  }

  function CreateEmailReset(cfg: Config, t: Tables, env: Env, u: UserId, row: User, password: string,
                            newEmail: string): Outcome<()> {
    CreateEmailResetFor(t, env, u, row, password, Normalize(newEmail, cfg.parses))
  }

  // ---- Sessions ----

  const MAX_ACTIVE_SESSIONS: nat := 10
  const ABSOLUTE_EXPIRATION: Time := 90 * DAY
  const IDLE_EXPIRATION: Time := 14 * DAY
  const TOUCH_AFTER: Time := 20 * MINUTE

  predicate IsExpired(s: Session, now: Time) {
    s.createdAt + ABSOLUTE_EXPIRATION < now || s.lastSeenAt + IDLE_EXPIRATION < now
  }

  predicate ShouldUpdateLastSeen(s: Session, now: Time) {
    now - s.lastSeenAt > TOUCH_AFTER
  }

  /** The tables after the count-and-evict half of CreateSession. */
  ghost function MakeRoom(t: Tables, u: UserId, choice: Digest): Tables {
    if |SessionsOf(t.sessions, u)| >= MAX_ACTIVE_SESSIONS
    then t.(sessions := t.sessions - {LeastRecent(t.sessions, u, choice)})
    else t
  }

  /** The insert at the end of CreateSession. */
  function InsertSession(t: Tables, env: Env, u: UserId): Outcome<Bytes> {
    var id := Sha256(env.rawId);
    if RandomFails in env.faults || CreateSessionFails in env.faults || id in t.sessions
    then Outcome(t, [], Failed(Internal))
    else if u !in t.users then Outcome(t, [], Failed(UserNotFound))
    else Outcome(t.(sessions := t.sessions[id := Session(u, env.now, env.now)]), [], Done(env.rawId))
  }

  /** `choice` settles which of several least recent sessions the database evicts. */
  ghost function CreateSession(t: Tables, env: Env, u: UserId, choice: Digest): Outcome<Bytes> {
    if CountSessionsFails in env.faults then Outcome(t, [], Failed(Internal))
    else if |SessionsOf(t.sessions, u)| >= MAX_ACTIVE_SESSIONS && EvictSessionFails in env.faults
    then Outcome(t, [], Failed(Internal))
    else InsertSession(MakeRoom(t, u, choice), env, u)
  }

  // ---- The middleware ----

  datatype Cookie = NoCookie | NotBase64 | Carries(raw: Bytes)

  /** Nobody, or a session (as it was looked up) whose user the handler may resolve. */
  datatype Auth = Anonymous | As(id: Digest, session: Session)

  function Touched(sessions: map<Digest, Session>, id: Digest, env: Env): map<Digest, Session>
    requires id in sessions
  {
    if ShouldUpdateLastSeen(sessions[id], env.now) && TouchSessionFails !in env.faults
       && sessions[id].createdAt <= env.now
    then sessions[id := sessions[id].(lastSeenAt := env.now)]
    else sessions
  }

  predicate Stored(t: Tables, id: Digest) {
    id in t.sessions && t.sessions[id].userId in t.users && t.users[t.sessions[id].userId].isActive
  }

  function Authenticate(t: Tables, env: Env, cookie: Cookie): (Tables, Auth) {
    if !cookie.Carries? || GetSessionFails in env.faults || !Stored(t, Sha256(cookie.raw)) then (t, Anonymous)
    else
      var id := Sha256(cookie.raw);
      if IsExpired(t.sessions[id], env.now) then
        (if DeleteSessionFails in env.faults then t else t.(sessions := t.sessions - {id}), Anonymous)
      else
        (t.(sessions := Touched(t.sessions, id, env)), As(id, t.sessions[id]))
  }
}
