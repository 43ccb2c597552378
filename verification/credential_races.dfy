/** Credentials when requests interleave: every SQL statement is one step on the tables, and so is every transaction
    that changes a password or an address. A log-in, a request for a token or a password change looks its user up in
    one statement and writes in a later one; anything may come in between. */
module CredentialRaces {
  import opened LruCaches
  import opened Emails
  import opened Db
  import opened Accounts
  import opened Evolution
  import opened Changes
  import SessionCap
  import SessionLife

  /** What a call has checked at its look-up, and what it goes on to do. */
  datatype Purpose =
    | ToOpenSession(password: string)
    | ToAskForPassword(address: string)
    | ToAskForEmail(address: string, free: bool)  // `free` once no user was found with the address
    | ToChangePassword(password: string, newPassword: string)

  /** A call between its statements, with the row that it looked up. */
  datatype Call = Call(user: UserId, row: User, purpose: Purpose)

  datatype State = State(tables: Tables, calls: map<nat, Call>)

  datatype Event =
    | SignUp(call: nat, env: Env, email: string, password: string)
    | LogIn(call: nat, env: Env, email: string, password: string)
    | AskForPassword(call: nat, env: Env, email: string)
    | AskForEmail(call: nat, env: Env, user: UserId, password: string, newEmail: string)
    | ChangePassword(call: nat, env: Env, user: UserId, password: string, newPassword: string)
    | CheckAddress(call: nat, env: Env)            // GetUserByEmail, before an email request is written
    | MakeRoom(call: nat, choice: Digest)          // the eviction of a session
    | Insert(call: nat, env: Env)                  // the row that the call came for
    | Commit(call: nat, env: Env)                  // the transaction of a password change
    | ResetPassword(env: Env, token: Token, newPassword: string)
    | ResetEmail(env: Env, token: Token)
    | Leave(call: nat)                             // an error, at whatever statement
    | Touch(id: Digest, env: Env)
    | Delete(id: Digest)

  /** What a look-up finds and checks; None if it turns the request away. */
  ghost function LooksUp(cfg: Config, t: Tables, e: Event): Option<Call> {
    match e
    case LogIn(_, env, email, password) =>
      var r := Accounts.LogIn(cfg, t, env, email, password);
      if r.Done? && r.value in t.users then Some(Call(r.value, t.users[r.value], ToOpenSession(password))) else None
    case AskForPassword(_, env, email) =>
      var address := Normalize(email, cfg.parses);
      if address.None? || GetUserByEmailFails in env.faults then None
      else var u := FindUser(t.users, address.value);
        if u.Some? then Some(Call(u.value, t.users[u.value], ToAskForPassword(address.value))) else None
    case AskForEmail(_, env, u, password, newEmail) =>
      var address := Normalize(newEmail, cfg.parses);
      if u in t.users && address.Some? && VerifyError(env, password, t.users[u].passwordHash).None?
         && address.value != t.users[u].email
      then Some(Call(u, t.users[u], ToAskForEmail(address.value, false))) else None
    case ChangePassword(_, env, u, password, newPassword) =>
      if u in t.users && VerifyError(env, password, t.users[u].passwordHash).None?
         && PasswordError(cfg, newPassword).None? && HashFails !in env.faults
      then Some(Call(u, t.users[u], ToChangePassword(password, newPassword))) else None
    case _ => None
  }

  predicate IsLookUp(e: Event) {
    e.LogIn? || e.AskForPassword? || e.AskForEmail? || e.ChangePassword?
  }

  ghost predicate Enabled(cfg: Config, s: State, e: Event) {
    match e
    case SignUp(c, _, _, _) => c !in s.calls
    case CheckAddress(c, _) => c in s.calls && s.calls[c].purpose.ToAskForEmail?
    case MakeRoom(c, _) => c in s.calls && s.calls[c].purpose.ToOpenSession?
    case Insert(c, _) =>
      c in s.calls && !s.calls[c].purpose.ToChangePassword? && (s.calls[c].purpose.ToAskForEmail? ==> s.calls[c].purpose.free)
    case Commit(c, env) =>
      && c in s.calls && s.calls[c].purpose.ToChangePassword?
      && !(BeginFails in env.faults || UpdateUserFails in env.faults || ClearingFails(env))
    case Leave(c) => c in s.calls
    case Touch(id, _) => id in s.tables.sessions
    case ResetPassword(_, _, _) => true
    case ResetEmail(_, _) => true
    case Delete(_) => true
    case _ => e.call !in s.calls && LooksUp(cfg, s.tables, e).Some?
  }

  /** The table that the row of a call goes to. */
  datatype Kind = InSessions | InPasswordResets | InEmailResets

  function KindOf(p: Purpose): Kind
    requires !p.ToChangePassword?
  {
    match p
    case ToOpenSession(_) => InSessions
    case ToAskForPassword(_) => InPasswordResets
    case ToAskForEmail(_, _) => InEmailResets
  }

  function Inserted(t: Tables, call: Call, env: Env): Tables {
    match call.purpose
    case ToOpenSession(_) => InsertSession(t, env, call.user).tables
    case ToAskForPassword(address) => IssuePasswordReset(t, env, call.user, address).tables
    case ToAskForEmail(address, _) =>
      if RandomFails in env.faults || CreateRequestFails in env.faults || Sha256(env.rawId) in t.emailResets
         || call.user !in t.users
      then t else IssueEmailReset(t, env, call.user, call.row, address).tables
    case ToChangePassword(_, _) => t
  }

  /** The tables after the event. */
  ghost function TablesAfter(cfg: Config, s: State, e: Event): Tables
    requires Enabled(cfg, s, e)
  {
    match e
    case SignUp(_, env, email, password) => Accounts.SignUp(cfg, s.tables, env, email, password).tables
    case MakeRoom(c, choice) =>
      s.tables.(sessions := SessionCap.Evicted(s.tables.sessions, s.calls[c].user, choice))
    case Insert(c, env) => Inserted(s.tables, s.calls[c], env)
    case Commit(c, env) =>
      SetPassword(s.tables, s.calls[c].user, Argon2id(s.calls[c].purpose.newPassword, env.salt))
    case ResetPassword(env, token, newPassword) => Accounts.ResetPassword(cfg, s.tables, env, token, newPassword).tables
    case ResetEmail(env, token) => Accounts.ResetEmail(s.tables, env, token).tables
    case Touch(id, env) => s.tables.(sessions := Touched(s.tables.sessions, id, env))
    case Delete(id) => s.tables.(sessions := s.tables.sessions - {id})
    case _ => s.tables
  }

  ghost function CallsAfter(cfg: Config, s: State, e: Event): map<nat, Call>
    requires Enabled(cfg, s, e)
  {
    match e
    case SignUp(c, env, email, password) =>
      var o := Accounts.SignUp(cfg, s.tables, env, email, password);
      if o.reply.Done? && o.reply.value in o.tables.users
      then s.calls[c := Call(o.reply.value, o.tables.users[o.reply.value], ToOpenSession(password))] else s.calls
    case CheckAddress(c, env) =>
      if GetUserByEmailFails in env.faults || Taken(s.tables.users, s.calls[c].purpose.address, {}) then s.calls - {c}
      else s.calls[c := s.calls[c].(purpose := s.calls[c].purpose.(free := true))]
    case Insert(c, _) => s.calls - {c}
    case Commit(c, _) => s.calls - {c}
    case Leave(c) => s.calls - {c}
    case _ => if IsLookUp(e) then s.calls[e.call := LooksUp(cfg, s.tables, e).value] else s.calls
  }

  ghost function Next(cfg: Config, s: State, e: Event): State
    requires Enabled(cfg, s, e)
  {
    State(TablesAfter(cfg, s, e), CallsAfter(cfg, s, e))
  }

  // ---- What one step does to the tables ----

  /** The user to whom the row belongs, if it is there. */
  function Owner(t: Tables, kind: Kind, d: Digest): Option<UserId> {
    match kind
    case InSessions => if d in t.sessions then Some(t.sessions[d].userId) else None
    case InPasswordResets => if d in t.passwordResets then Some(t.passwordResets[d].userId) else None
    case InEmailResets => if d in t.emailResets then Some(t.emailResets[d].userId) else None
  }

  /** The user whose credentials the event changes: by a commit, or by a reset that succeeds. */
  ghost function ChangesUser(cfg: Config, s: State, e: Event): Option<UserId>
    requires Enabled(cfg, s, e)
  {
    match e
    case Commit(c, _) => Some(s.calls[c].user)
    case ResetPassword(env, token, newPassword) =>
      if ResetPasswordError(cfg, s.tables, env, token, newPassword).None?
      then Some(s.tables.passwordResets[Sha256(token.raw)].userId) else None
    case ResetEmail(env, token) =>
      if ResetEmailError(s.tables, env, token).None? then Some(s.tables.emailResets[Sha256(token.raw)].userId) else None
    case _ => None
  }

  /** The password that the event sets for the user it changes. */
  ghost function SetsPassword(cfg: Config, s: State, e: Event): Option<string>
    requires Enabled(cfg, s, e)
  {
    match e
    case Commit(c, _) => Some(s.calls[c].purpose.newPassword)
    case ResetPassword(env, token, newPassword) =>
      if ResetPasswordError(cfg, s.tables, env, token, newPassword).None? then Some(newPassword) else None
    case _ => None
  }

  /** The event writes the row. */
  ghost predicate Writes(cfg: Config, s: State, e: Event, kind: Kind, d: Digest)
    requires Enabled(cfg, s, e)
  {
    e.Insert? && Owner(s.tables, kind, d).None? && Owner(TablesAfter(cfg, s, e), kind, d).Some?
  }

  lemma ClearedOwner(t: Tables, u: UserId, kind: Kind, d: Digest)
    ensures Owner(ClearUser(t, u), kind, d) == if Owner(t, kind, d) == Some(u) then None else Owner(t, kind, d)
  {
  }

  lemma InsertedOwner(t: Tables, call: Call, env: Env, kind: Kind, d: Digest)
    requires !call.purpose.ToChangePassword?
    ensures var t' := Inserted(t, call, env);
      && t'.users == t.users && t'.nextUserId == t.nextUserId
      && (Owner(t', kind, d) == Owner(t, kind, d)
          || (Owner(t, kind, d).None? && kind == KindOf(call.purpose) && d == Sha256(env.rawId)
              && Owner(t', kind, d) == Some(call.user)))
  {
  }

  lemma SessionsOwner(t: Tables, sessions: map<Digest, Session>, kind: Kind, d: Digest)
    requires forall e | e in sessions :: e in t.sessions && sessions[e].userId == t.sessions[e].userId
    ensures var t' := t.(sessions := sessions);
      Owner(t', kind, d).Some? ==> Owner(t', kind, d) == Owner(t, kind, d)
  {
  }

  lemma SignUpOwner(cfg: Config, t: Tables, env: Env, email: string, password: string, kind: Kind, d: Digest)
    ensures Owner(Accounts.SignUp(cfg, t, env, email, password).tables, kind, d) == Owner(t, kind, d)
  {
    SignUpTables(cfg, t, env, email, password);
  }

  lemma SetsOwner(t: Tables, u: UserId, hash: PasswordHash, email: string, kind: Kind, d: Digest)
    ensures Owner(SetPassword(t, u, hash), kind, d) == if Owner(t, kind, d) == Some(u) then None else Owner(t, kind, d)
    ensures Owner(SetEmail(t, u, email), kind, d) == if Owner(t, kind, d) == Some(u) then None else Owner(t, kind, d)
  {
    var a := if u in t.users then t.(users := t.users[u := t.users[u].(passwordHash := hash)]) else t;
    var b := if u in t.users then t.(users := t.users[u := t.users[u].(email := email)]) else t;
    ClearedOwner(a, u, kind, d);
    ClearedOwner(b, u, kind, d);
  }

  lemma ResetOwner(cfg: Config, s: State, e: Event, kind: Kind, d: Digest)
    requires Enabled(cfg, s, e) && (e.Commit? || e.ResetPassword? || e.ResetEmail?)
    ensures Owner(TablesAfter(cfg, s, e), kind, d).Some? ==>
      Owner(TablesAfter(cfg, s, e), kind, d) == Owner(s.tables, kind, d) && Owner(s.tables, kind, d) != ChangesUser(cfg, s, e)
  {
    match e
    case Commit(c, env) =>
      SetsOwner(s.tables, s.calls[c].user, Argon2id(s.calls[c].purpose.newPassword, env.salt), "", kind, d);
    case ResetPassword(env, token, newPassword) =>
      if ResetPasswordError(cfg, s.tables, env, token, newPassword).None? {
        SetsOwner(s.tables, s.tables.passwordResets[Sha256(token.raw)].userId, Argon2id(newPassword, env.salt), "", kind, d);
      }
    case ResetEmail(env, token) =>
      if ResetEmailError(s.tables, env, token).None? {
        var request := s.tables.emailResets[Sha256(token.raw)];
        SetsOwner(s.tables, request.userId, Argon2id("", env.salt), request.newEmail, kind, d);
      }
  }

  /** A row that is there after a step, and that the step did not write, was there before, of the same user, whose
      credentials the step does not change: a change leaves no row of its user. */
  lemma RowWasThere(cfg: Config, s: State, e: Event, kind: Kind, d: Digest)
    requires Enabled(cfg, s, e) && !Writes(cfg, s, e, kind, d)
    requires Owner(TablesAfter(cfg, s, e), kind, d).Some?
    ensures Owner(TablesAfter(cfg, s, e), kind, d) == Owner(s.tables, kind, d)
    ensures ChangesUser(cfg, s, e) != Owner(s.tables, kind, d)
  {
    match e
    case SignUp(_, env, email, password) => SignUpOwner(cfg, s.tables, env, email, password, kind, d);
    case Insert(c, env) => InsertedOwner(s.tables, s.calls[c], env, kind, d);
    case MakeRoom(c, choice) =>
      SessionsOwner(s.tables, SessionCap.Evicted(s.tables.sessions, s.calls[c].user, choice), kind, d);
    case Touch(id, env) => SessionsOwner(s.tables, Touched(s.tables.sessions, id, env), kind, d);
    case Delete(id) => SessionsOwner(s.tables, s.tables.sessions - {id}, kind, d);
    case Commit(_, _) => ResetOwner(cfg, s, e, kind, d);
    case ResetPassword(_, _, _) => ResetOwner(cfg, s, e, kind, d);
    case ResetEmail(_, _) => ResetOwner(cfg, s, e, kind, d);
    case _ =>
  }

  /** A row that a step writes is for the user and of the kind that the call came for. */
  lemma WritesForCaller(cfg: Config, s: State, e: Event, kind: Kind, d: Digest)
    requires Enabled(cfg, s, e) && Writes(cfg, s, e, kind, d)
    ensures kind == KindOf(s.calls[e.call].purpose) && d == Sha256(e.env.rawId)
    ensures Owner(TablesAfter(cfg, s, e), kind, d) == Some(s.calls[e.call].user)
    ensures TablesAfter(cfg, s, e).users == s.tables.users
  {
    InsertedOwner(s.tables, s.calls[e.call], e.env, kind, d);
  }

  ghost predicate IdsFit(t: Tables) {
    forall u | u in t.users :: u < t.nextUserId
  }

  lemma SetsUsers(t: Tables, u: UserId, hash: PasswordHash, email: string, v: UserId)
    requires v in t.users
    ensures var t' := SetPassword(t, u, hash);
      && t'.nextUserId == t.nextUserId && t'.users.Keys == t.users.Keys
      && t'.users[v] == if v == u then t.users[v].(passwordHash := hash) else t.users[v]
    ensures var t' := SetEmail(t, u, email);
      && t'.nextUserId == t.nextUserId && t'.users.Keys == t.users.Keys
      && t'.users[v] == if v == u then t.users[v].(email := email) else t.users[v]
  {
  }

  /** The rest of a user's row is the same, or it is the one that the event changes. */
  ghost predicate UserStays(t: Tables, t': Tables, changed: Option<UserId>, password: Option<string>, u: UserId)
    requires u in t.users
  {
    && u in t'.users && (changed != Some(u) ==> t'.users[u] == t.users[u])
    && t'.users[u].passwordHash.password
       == if changed == Some(u) && password.Some? then password.value else t.users[u].passwordHash.password
  }

  lemma ResetUsers(cfg: Config, s: State, e: Event, u: UserId)
    requires Enabled(cfg, s, e) && (e.Commit? || e.ResetPassword? || e.ResetEmail?) && u in s.tables.users
    ensures UserStays(s.tables, TablesAfter(cfg, s, e), ChangesUser(cfg, s, e), SetsPassword(cfg, s, e), u)
  {
    match e
    case Commit(c, env) =>
      SetsUsers(s.tables, s.calls[c].user, Argon2id(s.calls[c].purpose.newPassword, env.salt), "", u);
    case ResetPassword(env, token, newPassword) =>
      if ResetPasswordError(cfg, s.tables, env, token, newPassword).None? {
        SetsUsers(s.tables, s.tables.passwordResets[Sha256(token.raw)].userId, Argon2id(newPassword, env.salt), "", u);
      }
    case ResetEmail(env, token) =>
      if ResetEmailError(s.tables, env, token).None? {
        var request := s.tables.emailResets[Sha256(token.raw)];
        SetsUsers(s.tables, request.userId, Argon2id("", env.salt), request.newEmail, u);
      }
  }

  lemma OtherTables(cfg: Config, s: State, e: Event)
    requires Enabled(cfg, s, e) && !(e.Commit? || e.ResetPassword? || e.ResetEmail? || e.SignUp?)
    ensures TablesAfter(cfg, s, e).users == s.tables.users && TablesAfter(cfg, s, e).nextUserId == s.tables.nextUserId
  {
    if e.Insert? {
      InsertedOwner(s.tables, s.calls[e.call], e.env, InSessions, Sha256(e.env.rawId));
    }
  }

  lemma SignUpUsers(cfg: Config, t: Tables, env: Env, email: string, password: string, u: UserId)
    requires IdsFit(t) && u in t.users
    ensures var t' := Accounts.SignUp(cfg, t, env, email, password).tables; u in t'.users && t'.users[u] == t.users[u]
  {
    assert t.nextUserId !in t.users;
    NewRowDisturbsNothing(cfg, t, env, email, password);
  }

  lemma UsersStay(cfg: Config, s: State, e: Event, u: UserId)
    requires Enabled(cfg, s, e) && IdsFit(s.tables) && u in s.tables.users
    ensures UserStays(s.tables, TablesAfter(cfg, s, e), ChangesUser(cfg, s, e), SetsPassword(cfg, s, e), u)
  {
    if e.Commit? || e.ResetPassword? || e.ResetEmail? {
      ResetUsers(cfg, s, e, u);
    } else if e.SignUp? {
      SignUpUsers(cfg, s.tables, e.env, e.email, e.password, u);
    } else {
      OtherTables(cfg, s, e);
    }
  }

  lemma ResetIds(cfg: Config, s: State, e: Event)
    requires Enabled(cfg, s, e) && IdsFit(s.tables) && (e.Commit? || e.ResetPassword? || e.ResetEmail?)
    ensures IdsFit(TablesAfter(cfg, s, e))
  {
  }

  lemma IdsStayFit(cfg: Config, s: State, e: Event)
    requires Enabled(cfg, s, e) && IdsFit(s.tables)
    ensures IdsFit(TablesAfter(cfg, s, e))
  {
    if e.Commit? || e.ResetPassword? || e.ResetEmail? {
      ResetIds(cfg, s, e);
    } else if e.SignUp? {
      SignUpTables(cfg, s.tables, e.env, e.email, e.password);
    } else {
      OtherTables(cfg, s, e);
    }
  }

  // ---- What a look-up has checked ----

  ghost predicate Checked(call: Call) {
    match call.purpose
    case ToOpenSession(password) => call.row.passwordHash.password == password
    case ToAskForPassword(address) => Lower(call.row.email) == Lower(address)
    case ToAskForEmail(_, _) => true
    case ToChangePassword(password, _) => call.row.passwordHash.password == password
  }

  lemma LookUpChecks(cfg: Config, t: Tables, e: Event)
    requires IsLookUp(e) && LooksUp(cfg, t, e).Some?
    ensures var call := LooksUp(cfg, t, e).value; call.user in t.users && t.users[call.user] == call.row && Checked(call)
  {
    if e.LogIn? {
      SessionLife.LogInIsProof(cfg, t, e.env, e.email, e.password);
    }
  }

  lemma SignUpChecks(cfg: Config, t: Tables, env: Env, email: string, password: string)
    ensures var o := Accounts.SignUp(cfg, t, env, email, password);
      o.reply.Done? ==>
        && o.reply.value in o.tables.users && o.tables.users[o.reply.value].passwordHash.password == password
  {
    SignUpTables(cfg, t, env, email, password);
  }

  // ---- Executions ----

  datatype Execution = Initially | And(before: Execution, event: Event)

  ghost predicate Possible(cfg: Config, x: Execution)
    decreases x, 0
  {
    x.And? ==> Possible(cfg, x.before) && Enabled(cfg, Final(cfg, x.before), x.event)
  }

  ghost function Final(cfg: Config, x: Execution): State
    requires Possible(cfg, x)
    decreases x, 2
  {
    if x.Initially? then State(Rows(map[], 0, map[], map[], map[]), map[]) else LastState(cfg, x)
  }

  ghost function LastState(cfg: Config, x: Execution): State
    requires Possible(cfg, x) && x.And?
    decreases x, 1
  {
    Next(cfg, Final(cfg, x.before), x.event)
  }

  lemma FinalIsNext(cfg: Config, x: Execution)
    requires Possible(cfg, x) && x.And?
    ensures Possible(cfg, x.before) && Enabled(cfg, Final(cfg, x.before), x.event)
    ensures Final(cfg, x).tables == TablesAfter(cfg, Final(cfg, x.before), x.event)
    ensures Final(cfg, x).calls == CallsAfter(cfg, Final(cfg, x.before), x.event)
  {
    assert Final(cfg, x) == LastState(cfg, x);
  }

  /** The last event is the look-up of this call. */
  predicate Starts(x: Execution, c: nat)
    requires x.And?
  {
    (IsLookUp(x.event) || x.event.SignUp?) && x.event.call == c
  }

  ghost predicate ChangesLast(cfg: Config, x: Execution, u: UserId)
    requires Possible(cfg, x) && x.And?
  {
    ChangesUser(cfg, Final(cfg, x.before), x.event) == Some(u)
  }

  ghost predicate WritesLast(cfg: Config, x: Execution, kind: Kind, d: Digest)
    requires Possible(cfg, x) && x.And?
  {
    Writes(cfg, Final(cfg, x.before), x.event, kind, d)
  }

  /** A change of the user's credentials has committed since the look-up of the call. */
  ghost predicate ChangedSince(cfg: Config, x: Execution, c: nat, u: UserId)
    requires Possible(cfg, x)
  {
    x.And? && !Starts(x, c) && (ChangesLast(cfg, x, u) || ChangedSince(cfg, x.before, c, u))
  }

  /** The call that wrote the row, as it was when it did. */
  ghost function WrittenBy(cfg: Config, x: Execution, kind: Kind, d: Digest): Option<Call>
    requires Possible(cfg, x)
  {
    if x.Initially? then None
    else if WritesLast(cfg, x, kind, d) then Some(Final(cfg, x.before).calls[x.event.call])
    else WrittenBy(cfg, x.before, kind, d)
  }

  /** A change of the user's credentials has committed since the look-up of the call that wrote the row. */
  ghost predicate Stale(cfg: Config, x: Execution, kind: Kind, d: Digest, u: UserId)
    requires Possible(cfg, x)
  {
    x.And? &&
    if WritesLast(cfg, x, kind, d) then ChangedSince(cfg, x.before, x.event.call, u)
    else ChangesLast(cfg, x, u) || Stale(cfg, x.before, kind, d, u)
  }

  /** A change of the user's credentials committed between the look-up and the insert of that call. */
  ghost predicate Overtaken(cfg: Config, x: Execution, kind: Kind, d: Digest, u: UserId)
    requires Possible(cfg, x)
  {
    x.And? &&
    if WritesLast(cfg, x, kind, d) then ChangedSince(cfg, x.before, x.event.call, u)
    else Overtaken(cfg, x.before, kind, d, u)
  }

  ghost function OwnerAfter(cfg: Config, x: Execution, kind: Kind, d: Digest): Option<UserId>
    requires Possible(cfg, x)
  {
    Owner(Final(cfg, x).tables, kind, d)
  }

  /** A row that the last step did not write was there before it, and its user's credentials stayed. */
  lemma RowWasThereBefore(cfg: Config, x: Execution, kind: Kind, d: Digest)
    requires Possible(cfg, x) && OwnerAfter(cfg, x, kind, d).Some?
    ensures x.And?
    ensures !WritesLast(cfg, x, kind, d) ==>
      OwnerAfter(cfg, x, kind, d) == OwnerAfter(cfg, x.before, kind, d)
      && !ChangesLast(cfg, x, OwnerAfter(cfg, x, kind, d).value)
  {
    if x.And? {
      FinalIsNext(cfg, x);
      if !WritesLast(cfg, x, kind, d) {
        RowWasThere(cfg, Final(cfg, x.before), x.event, kind, d);
      }
    }
  }

  /** Statement by statement, a stored session or request rests on a look-up from before a change of its user's
      credentials if and only if the change committed before the row was inserted: whatever was there when it
      committed is gone. */
  lemma {:induction false} StaleIffOvertaken(cfg: Config, x: Execution, kind: Kind, d: Digest, u: UserId)
    requires Possible(cfg, x) && OwnerAfter(cfg, x, kind, d) == Some(u)
    ensures Stale(cfg, x, kind, d, u) <==> Overtaken(cfg, x, kind, d, u)
  {
    RowWasThereBefore(cfg, x, kind, d);
    if !WritesLast(cfg, x, kind, d) {
      StaleIffOvertaken(cfg, x.before, kind, d, u);
    }
  }

  // ---- What that means for the credentials themselves ----

  lemma {:induction false} IdsAlwaysFit(cfg: Config, x: Execution)
    requires Possible(cfg, x)
    ensures IdsFit(Final(cfg, x).tables)
  {
    if x.And? {
      FinalIsNext(cfg, x);
      IdsAlwaysFit(cfg, x.before);
      IdsStayFit(cfg, Final(cfg, x.before), x.event);
    }
  }

  /** The last password that was set for the user since the look-up of the call. */
  ghost function PasswordSince(cfg: Config, x: Execution, c: nat, u: UserId): Option<string>
    requires Possible(cfg, x)
  {
    if x.Initially? || Starts(x, c) then None
    else if ChangesLast(cfg, x, u) && SetsPassword(cfg, Final(cfg, x.before), x.event).Some?
    then SetsPassword(cfg, Final(cfg, x.before), x.event)
    else PasswordSince(cfg, x.before, c, u)
  }

  ghost predicate IsUser(t: Tables, u: UserId, row: User, changed: bool, password: Option<string>) {
    && u in t.users && (!changed ==> t.users[u] == row)
    && t.users[u].passwordHash.password == if password.Some? then password.value else row.passwordHash.password
  }

  /** The user of a call is as it was looked up but for the changes since. */
  ghost predicate CallFits(cfg: Config, x: Execution, c: nat)
    requires Possible(cfg, x) && c in Final(cfg, x).calls
  {
    var call := Final(cfg, x).calls[c];
    && Checked(call)
    && IsUser(Final(cfg, x).tables, call.user, call.row, ChangedSince(cfg, x, c, call.user),
              PasswordSince(cfg, x, c, call.user))
  }

  lemma StartedCallFits(cfg: Config, x: Execution, c: nat)
    requires Possible(cfg, x) && x.And? && c in Final(cfg, x).calls && Starts(x, c)
    ensures CallFits(cfg, x, c)
  {
    FinalIsNext(cfg, x);
    var s := Final(cfg, x.before);
    if x.event.SignUp? {
      SignUpChecks(cfg, s.tables, x.event.env, x.event.email, x.event.password);
    } else {
      LookUpChecks(cfg, s.tables, x.event);
    }
  }

  /** A call that goes on is the one it was. */
  lemma CallWasThere(cfg: Config, s: State, e: Event, c: nat)
    requires Enabled(cfg, s, e) && c in CallsAfter(cfg, s, e)
    requires !((IsLookUp(e) || e.SignUp?) && e.call == c)
    ensures c in s.calls
    ensures var a, b := s.calls[c], CallsAfter(cfg, s, e)[c];
      b.user == a.user && b.row == a.row && (Checked(a) ==> Checked(b)) && (b.purpose.ToChangePassword? ==> b == a)
  {
  }

  lemma {:induction false} CallsFit(cfg: Config, x: Execution, c: nat)
    requires Possible(cfg, x) && c in Final(cfg, x).calls
    ensures CallFits(cfg, x, c)
  {
    if x.And? {
      FinalIsNext(cfg, x);
      if Starts(x, c) {
        StartedCallFits(cfg, x, c);
      } else {
        CallWasThere(cfg, Final(cfg, x.before), x.event, c);
        CallsFit(cfg, x.before, c);
        IdsAlwaysFit(cfg, x.before);
        UsersStay(cfg, Final(cfg, x.before), x.event, Final(cfg, x.before).calls[c].user);
      }
    }
  }

  /** The last password that was set for the user between the look-up and the insert of the call that wrote the row. */
  ghost function PasswordBetween(cfg: Config, x: Execution, kind: Kind, d: Digest, u: UserId): Option<string>
    requires Possible(cfg, x)
  {
    if x.Initially? then None
    else if WritesLast(cfg, x, kind, d) then PasswordSince(cfg, x.before, x.event.call, u)
    else PasswordBetween(cfg, x.before, kind, d, u)
  }

  lemma WrittenRowFits(cfg: Config, x: Execution, kind: Kind, d: Digest)
    requires Possible(cfg, x) && x.And? && WritesLast(cfg, x, kind, d)
    ensures var call := Final(cfg, x.before).calls[x.event.call];
      && Checked(call) && kind == KindOf(call.purpose) && OwnerAfter(cfg, x, kind, d) == Some(call.user)
      && IsUser(Final(cfg, x).tables, call.user, call.row, ChangedSince(cfg, x.before, x.event.call, call.user),
                PasswordSince(cfg, x.before, x.event.call, call.user))
  {
    FinalIsNext(cfg, x);
    WritesForCaller(cfg, Final(cfg, x.before), x.event, kind, d);
    CallsFit(cfg, x.before, x.event.call);
  }

  /** A stored row was written by a call for its user that had checked what it claims; and unless the call was
      overtaken, the user is still as the call had looked it up. */
  lemma {:induction false} RowsFit(cfg: Config, x: Execution, kind: Kind, d: Digest, u: UserId)
    requires Possible(cfg, x) && OwnerAfter(cfg, x, kind, d) == Some(u)
    ensures var writer := WrittenBy(cfg, x, kind, d);
      && writer.Some? && writer.value.user == u && Checked(writer.value)
      && !writer.value.purpose.ToChangePassword? && kind == KindOf(writer.value.purpose)
      && IsUser(Final(cfg, x).tables, u, writer.value.row, Overtaken(cfg, x, kind, d, u),
                PasswordBetween(cfg, x, kind, d, u))
  {
    RowWasThereBefore(cfg, x, kind, d);
    FinalIsNext(cfg, x);
    if WritesLast(cfg, x, kind, d) {
      WrittenRowFits(cfg, x, kind, d);
    } else {
      RowsFit(cfg, x.before, kind, d, u);
      IdsAlwaysFit(cfg, x.before);
      UsersStay(cfg, Final(cfg, x.before), x.event, u);
    }
  }

  /** The password with which a stored session was opened is its user's present one if and only if no other password
      was set between the look-up and the insert of the log-in. */
  lemma SessionIsOnPresentPassword(cfg: Config, x: Execution, d: Digest, u: UserId)
    requires Possible(cfg, x) && OwnerAfter(cfg, x, InSessions, d) == Some(u)
    ensures var writer := WrittenBy(cfg, x, InSessions, d);
      && writer.Some? && writer.value.purpose.ToOpenSession? && u in Final(cfg, x).tables.users
      && var between := PasswordBetween(cfg, x, InSessions, d, u);
      (writer.value.purpose.password == Final(cfg, x).tables.users[u].passwordHash.password <==>
        between.None? || between.value == writer.value.purpose.password)
  {
    RowsFit(cfg, x, InSessions, d, u);
  }

  /** A stored password token was asked for at its user's present address, up to case, unless its request was
      overtaken by a change. */
  lemma PasswordTokenIsForPresentAddress(cfg: Config, x: Execution, d: Digest, u: UserId)
    requires Possible(cfg, x) && OwnerAfter(cfg, x, InPasswordResets, d) == Some(u)
    ensures var writer := WrittenBy(cfg, x, InPasswordResets, d);
      && writer.Some? && writer.value.purpose.ToAskForPassword? && u in Final(cfg, x).tables.users
      && (!Overtaken(cfg, x, InPasswordResets, d, u) ==>
           Lower(Final(cfg, x).tables.users[u].email) == Lower(writer.value.purpose.address))
  {
    RowsFit(cfg, x, InPasswordResets, d, u);
  }

  /** A password change is committed on the word of someone who knows the present password if and only if no other
      password was set since its look-up. In handler-atomic runs none can be; here a change that was checked before a
      reset commits can undo the reset. */
  lemma ChangeIsOnPresentPassword(cfg: Config, x: Execution, c: nat)
    requires Possible(cfg, x) && c in Final(cfg, x).calls && Final(cfg, x).calls[c].purpose.ToChangePassword?
    ensures var call, t := Final(cfg, x).calls[c], Final(cfg, x).tables;
      && call.user in t.users
      && var since := PasswordSince(cfg, x, c, call.user);
      (call.purpose.password == t.users[call.user].passwordHash.password <==>
        since.None? || since.value == call.purpose.password)
  {
    CallsFit(cfg, x, c);
  }

  // ---- Exactly when all is as in handler-atomic runs ----

  /** If the row is there, it rests on its user's present credentials. */
  ghost predicate FreshRow(cfg: Config, x: Execution, kind: Kind, d: Digest)
    requires Possible(cfg, x)
  {
    OwnerAfter(cfg, x, kind, d).Some? ==> !Stale(cfg, x, kind, d, OwnerAfter(cfg, x, kind, d).value)
  }

  ghost predicate AlwaysFresh(cfg: Config, x: Execution)
    requires Possible(cfg, x)
  {
    && (forall kind, d :: FreshRow(cfg, x, kind, d))
    && (x.And? ==> AlwaysFresh(cfg, x.before))
  }

  /** The last step writes a row for a user whose credentials changed since the look-up of the call. */
  ghost predicate OvertakenLast(cfg: Config, x: Execution, kind: Kind, d: Digest)
    requires Possible(cfg, x) && x.And?
  {
    && WritesLast(cfg, x, kind, d)
    && ChangedSince(cfg, x.before, x.event.call, Final(cfg, x.before).calls[x.event.call].user)
  }

  /** No change of credentials ever commits between the look-up and the insert of a call for the same user. */
  ghost predicate NeverOvertaken(cfg: Config, x: Execution)
    requires Possible(cfg, x)
  {
    x.And? ==> (forall kind, d :: !OvertakenLast(cfg, x, kind, d)) && NeverOvertaken(cfg, x.before)
  }

  lemma {:induction false} NotOvertaken(cfg: Config, x: Execution, kind: Kind, d: Digest, u: UserId)
    requires Possible(cfg, x) && NeverOvertaken(cfg, x) && OwnerAfter(cfg, x, kind, d) == Some(u)
    ensures !Overtaken(cfg, x, kind, d, u)
  {
    RowWasThereBefore(cfg, x, kind, d);
    if WritesLast(cfg, x, kind, d) {
      WrittenRowFits(cfg, x, kind, d);
      assert !OvertakenLast(cfg, x, kind, d);
    } else {
      NotOvertaken(cfg, x.before, kind, d, u);
    }
  }

  lemma OvertakenIsStale(cfg: Config, x: Execution, kind: Kind, d: Digest)
    requires Possible(cfg, x) && x.And? && OvertakenLast(cfg, x, kind, d)
    ensures !FreshRow(cfg, x, kind, d)
  {
    WrittenRowFits(cfg, x, kind, d);
  }

  /** In every state every session and request rests on its user's present credentials if and only if no change of
      credentials ever commits between the look-up and the insert of a call for the same user. */
  lemma {:induction false} AlwaysFreshIffNeverOvertaken(cfg: Config, x: Execution)
    requires Possible(cfg, x)
    ensures AlwaysFresh(cfg, x) <==> NeverOvertaken(cfg, x)
  {
    if x.And? {
      AlwaysFreshIffNeverOvertaken(cfg, x.before);
    }
    if NeverOvertaken(cfg, x) {
      forall kind, d
        ensures FreshRow(cfg, x, kind, d)
      {
        if OwnerAfter(cfg, x, kind, d).Some? {
          StaleIffOvertaken(cfg, x, kind, d, OwnerAfter(cfg, x, kind, d).value);
          NotOvertaken(cfg, x, kind, d, OwnerAfter(cfg, x, kind, d).value);
        }
      }
    } else if NeverOvertaken(cfg, x.before) {
      var kind, d :| OvertakenLast(cfg, x, kind, d);
      OvertakenIsStale(cfg, x, kind, d);
    }
  }

  // ---- It does happen ----

  /** Wherever a log-in stands between its look-up and its insert, any change of its user's credentials that commits
      then leaves it to insert a session that outlives the change. */
  lemma OldSessionCanSurvive(cfg: Config, x: Execution, c: nat, change: Event, env: Env)
    requires Possible(cfg, x) && c in Final(cfg, x).calls && Final(cfg, x).calls[c].purpose.ToOpenSession?
    requires Enabled(cfg, Final(cfg, x), change) && !change.Leave? && !change.Insert?
    requires ChangesUser(cfg, Final(cfg, x), change) == Some(Final(cfg, x).calls[c].user)
    requires change.Commit? ==> change.call != c
    requires env.faults == {} && Sha256(env.rawId) !in Final(cfg, x).tables.sessions
    ensures var u, y := Final(cfg, x).calls[c].user, And(And(x, change), Insert(c, env));
      && Possible(cfg, y) && OwnerAfter(cfg, y, InSessions, Sha256(env.rawId)) == Some(u)
      && Stale(cfg, y, InSessions, Sha256(env.rawId), u)
  {
    var s, d := Final(cfg, x), Sha256(env.rawId);
    var x1 := And(x, change);
    FinalIsNext(cfg, x1);
    CallsFit(cfg, x, c);
    IdsAlwaysFit(cfg, x);
    UsersStay(cfg, s, change, s.calls[c].user);
    ResetOwner(cfg, s, change, InSessions, d);
    var y := And(x1, Insert(c, env));
    FinalIsNext(cfg, y);
    assert Final(cfg, x1).calls[c] == s.calls[c];
  }

  /** And wherever a password change stands between its look-up and its commit, a reset that commits in between is
      undone: the password is the one that was asked for on the word of someone who knew the old one. */
  lemma ResetCanBeUndone(cfg: Config, x: Execution, c: nat, env: Env, token: Token, password: string, late: Env)
    requires Possible(cfg, x) && c in Final(cfg, x).calls && Final(cfg, x).calls[c].purpose.ToChangePassword?
    requires ResetPasswordError(cfg, Final(cfg, x).tables, env, token, password).None?
    requires Final(cfg, x).tables.passwordResets[Sha256(token.raw)].userId == Final(cfg, x).calls[c].user
    requires late.faults == {}
    ensures var call, x1 := Final(cfg, x).calls[c], And(x, Event.ResetPassword(env, token, password));
      var y := And(x1, Commit(c, late));
      && Possible(cfg, y) && call.user in Final(cfg, x1).tables.users && call.user in Final(cfg, y).tables.users
      && Final(cfg, x1).tables.users[call.user].passwordHash.password == password
      && Final(cfg, y).tables.users[call.user].passwordHash.password == call.purpose.newPassword
  {
    var s, u := Final(cfg, x), Final(cfg, x).calls[c].user;
    var x1 := And(x, Event.ResetPassword(env, token, password));
    CallsFit(cfg, x, c);
    IdsAlwaysFit(cfg, x);
    FinalIsNext(cfg, x1);
    UsersStay(cfg, s, x1.event, u);
    IdsAlwaysFit(cfg, x1);
    var y := And(x1, Commit(c, late));
    FinalIsNext(cfg, y);
    UsersStay(cfg, Final(cfg, x1), y.event, u);
  }
}
