/** The steps of CredentialRaces, taken in a row with nothing in between, are the effects of the handlers. */
module RacesAlone {
  import opened LruCaches
  import opened Emails
  import opened Db
  import opened Accounts
  import opened Handlers
  import opened Evolution
  import opened CredentialRaces
  import Identities
  import Runs
  import SessionLife

  /** What an insert does, by the purpose of the call. */
  lemma InsertByPurpose(cfg: Config, s: State, c: nat, env: Env)
    requires c in s.calls && Enabled(cfg, s, Insert(c, env))
    ensures Next(cfg, s, Insert(c, env)).tables == Inserted(s.tables, s.calls[c], env)
    ensures Next(cfg, s, Insert(c, env)).calls == s.calls - {c}
  {
  }

  /** What a look-up leads to. */
  lemma LookUpStarts(cfg: Config, s: State, e: Event)
    requires Enabled(cfg, s, e) && IsLookUp(e)
    ensures Next(cfg, s, e) == State(s.tables, s.calls[e.call := LooksUp(cfg, s.tables, e).value])
  {
  }

  /** The rest of a log-in or a sign-up, from the look-up on: count, evict, insert. */
  ghost function SessionAlone(cfg: Config, s: State, c: nat, env: Env, choice: Digest): State
    requires c in s.calls && s.calls[c].purpose.ToOpenSession?
  {
    var full := |SessionsOf(s.tables.sessions, s.calls[c].user)| >= MAX_ACTIVE_SESSIONS;
    if CountSessionsFails in env.faults || (full && EvictSessionFails in env.faults) then Next(cfg, s, Leave(c))
    else Next(cfg, if full then Next(cfg, s, Event.MakeRoom(c, choice)) else s, Insert(c, env))
  }

  lemma SessionAloneIsCreateSession(cfg: Config, s: State, c: nat, env: Env, choice: Digest)
    requires c in s.calls && s.calls[c].purpose.ToOpenSession?
    ensures SessionAlone(cfg, s, c, env, choice).tables
         == Accounts.CreateSession(s.tables, env, s.calls[c].user, choice).tables
    ensures SessionAlone(cfg, s, c, env, choice).calls == s.calls - {c}
  {
  }

  ghost function LogInAlone(cfg: Config, s: State, c: nat, env: Env, email: string, password: string, choice: Digest): State
    requires c !in s.calls
  {
    var e := Event.LogIn(c, env, email, password);
    if LooksUp(cfg, s.tables, e).None? then s else SessionAlone(cfg, Next(cfg, s, e), c, env, choice)
  }

  /** Whatever fails, and whoever it is for. */
  lemma LogInAloneIsEffect(cfg: Config, s: State, c: nat, env: Env, email: string, password: string, choice: Digest)
    requires c !in s.calls
    ensures LogInAlone(cfg, s, c, env, email, password, choice).tables
         == LogInEffect(cfg, s.tables, env, email, password, choice).tables
  {
    var e := Event.LogIn(c, env, email, password);
    if Accounts.LogIn(cfg, s.tables, env, email, password).Done? {
      SessionLife.LogInIsProof(cfg, s.tables, env, email, password);
      SessionAloneIsCreateSession(cfg, Next(cfg, s, e), c, env, choice);
    }
  }

  ghost function SignUpAlone(cfg: Config, s: State, c: nat, env: Env, email: string, password: string, choice: Digest): State
    requires c !in s.calls
  {
    var next := Next(cfg, s, Event.SignUp(c, env, email, password));
    if c in next.calls && next.calls[c].purpose.ToOpenSession? then SessionAlone(cfg, next, c, env, choice) else next
  }

  lemma SignUpAloneIsEffect(cfg: Config, s: State, c: nat, env: Env, email: string, password: string, choice: Digest)
    requires c !in s.calls
    ensures SignUpAlone(cfg, s, c, env, email, password, choice).tables
         == SignUpEffect(cfg, s.tables, env, email, password, choice).tables
  {
    var next := Next(cfg, s, Event.SignUp(c, env, email, password));
    SignUpChecks(cfg, s.tables, env, email, password);
    if Accounts.SignUp(cfg, s.tables, env, email, password).reply.Done? {
      SessionAloneIsCreateSession(cfg, next, c, env, choice);
    }
  }

  ghost function PasswordRequestAlone(cfg: Config, s: State, c: nat, env: Env, email: string): State
    requires c !in s.calls
  {
    var e := AskForPassword(c, env, email);
    if LooksUp(cfg, s.tables, e).None? then s else Next(cfg, Next(cfg, s, e), Insert(c, env))
  }

  lemma PasswordRequestLooksUp(cfg: Config, t: Tables, c: nat, env: Env, email: string)
    ensures match LooksUp(cfg, t, AskForPassword(c, env, email))
      case None => CreatePasswordReset(cfg, t, env, email).tables == t
      case Some(call) =>
        && call.purpose.ToAskForPassword?
        && CreatePasswordReset(cfg, t, env, email).tables
           == IssuePasswordReset(t, env, call.user, call.purpose.address).tables
  {
  }

  lemma PasswordRequestAloneIsEffect(cfg: Config, s: State, c: nat, env: Env, email: string)
    requires c !in s.calls
    ensures PasswordRequestAlone(cfg, s, c, env, email).tables == CreatePasswordReset(cfg, s.tables, env, email).tables
  {
    var e := AskForPassword(c, env, email);
    PasswordRequestLooksUp(cfg, s.tables, c, env, email);
    if LooksUp(cfg, s.tables, e).Some? {
      LookUpStarts(cfg, s, e);
      InsertByPurpose(cfg, Next(cfg, s, e), c, env);
    }
  }

  ghost function EmailRequestAlone(cfg: Config, s: State, c: nat, env: Env, u: UserId, password: string,
                                   newEmail: string): State
    requires c !in s.calls
  {
    var e := AskForEmail(c, env, u, password, newEmail);
    if LooksUp(cfg, s.tables, e).None? then s
    else
      var checked := Next(cfg, Next(cfg, s, e), CheckAddress(c, env));
      if c in checked.calls && Enabled(cfg, checked, Insert(c, env)) then Next(cfg, checked, Insert(c, env)) else checked
  }

  lemma EmailRequestLooksUp(cfg: Config, t: Tables, c: nat, env: Env, u: UserId, password: string, newEmail: string)
    requires u in t.users
    ensures var b := CreateEmailReset(cfg, t, env, u, t.users[u], password, newEmail).tables;
      match LooksUp(cfg, t, AskForEmail(c, env, u, password, newEmail))
      case None => b == t
      case Some(call) =>
        && call.user == u && call.row == t.users[u] && call.purpose.ToAskForEmail? && !call.purpose.free
        && b == if GetUserByEmailFails in env.faults || Taken(t.users, call.purpose.address, {}) then t
                else Inserted(t, call, env)
  {
  }

  lemma CheckStep(cfg: Config, s: State, c: nat, env: Env)
    requires c in s.calls && s.calls[c].purpose.ToAskForEmail?
    ensures var call := s.calls[c];
      Next(cfg, s, CheckAddress(c, env))
      == if GetUserByEmailFails in env.faults || Taken(s.tables.users, call.purpose.address, {})
         then State(s.tables, s.calls - {c})
         else State(s.tables, s.calls[c := call.(purpose := call.purpose.(free := true))])
  {
  }

  lemma EmailRequestAloneIsEffect(cfg: Config, s: State, c: nat, env: Env, u: UserId, password: string,
                                  newEmail: string)
    requires c !in s.calls && u in s.tables.users
    ensures EmailRequestAlone(cfg, s, c, env, u, password, newEmail).tables
         == CreateEmailReset(cfg, s.tables, env, u, s.tables.users[u], password, newEmail).tables
  {
    var e := AskForEmail(c, env, u, password, newEmail);
    EmailRequestLooksUp(cfg, s.tables, c, env, u, password, newEmail);
    if LooksUp(cfg, s.tables, e).Some? {
      LookUpStarts(cfg, s, e);
      var found := State(s.tables, s.calls[c := LooksUp(cfg, s.tables, e).value]);
      CheckStep(cfg, found, c, env);
      var checked := Next(cfg, found, CheckAddress(c, env));
      if c in checked.calls {
        InsertByPurpose(cfg, checked, c, env);
      }
    }
  }

  ghost function PasswordChangeAlone(cfg: Config, s: State, c: nat, env: Env, u: UserId, password: string,
                                     newPassword: string): State
    requires c !in s.calls
  {
    var e := Event.ChangePassword(c, env, u, password, newPassword);
    if LooksUp(cfg, s.tables, e).None? then s
    else
      var found := Next(cfg, s, e);
      if Enabled(cfg, found, Commit(c, env)) then Next(cfg, found, Commit(c, env)) else Next(cfg, found, Leave(c))
  }

  lemma PasswordChangeAloneIsEffect(cfg: Config, s: State, c: nat, env: Env, u: UserId, password: string,
                                    newPassword: string)
    requires c !in s.calls && u in s.tables.users
    ensures PasswordChangeAlone(cfg, s, c, env, u, password, newPassword).tables
         == Accounts.ChangePassword(cfg, s.tables, env, u, s.tables.users[u], password, newPassword).tables
  {
  }

  // ---- A race from the very start ----

  lemma SignedUpLogsIn(cfg: Config, t: Tables, env: Env, email: string, password: string)
    requires env.faults == {} && env.freeSlots > 0 && Normalize(Trim(email), cfg.parses).Some? && password != ""
    requires t.users.Keys == {0} && t.users[0].isActive && t.users[0].passwordHash.password == password
    requires Lower(t.users[0].email) == Lower(Trim(email))
    ensures Accounts.LogIn(cfg, t, env, email, password) == Done(0)
  {
    Identities.TypedAddressFinds(cfg, t.users, email, 0);
    Identities.NormalizedIsNotBlank(cfg, email);
    Identities.FoundUserDecides(t, env, Normalize(Trim(email), cfg.parses).value, password, 0);
  }

  /** What a first sign-up leaves. */
  lemma FirstSignUp(cfg: Config, env: Env, email: string, password: string) returns (row: User)
    requires Accounts.SignUp(cfg, Runs.EMPTY, env, email, password).reply.Done?
    ensures Accounts.SignUp(cfg, Runs.EMPTY, env, email, password).tables == Registered(Runs.EMPTY, row)
    ensures Accounts.SignUp(cfg, Runs.EMPTY, env, email, password).reply == Done(0)
    ensures row.isActive && row.passwordHash.password == password && password != ""
    ensures Normalize(Trim(email), cfg.parses).Some? && Lower(row.email) == Lower(Trim(email))
  {
    var address := Normalize(Trim(email), cfg.parses);
    SignUpTables(cfg, Runs.EMPTY, env, email, password);
    FirstIsUnrefused(cfg, env, email, address, password);
    row := User(address.value, Argon2id(password, env.salt), true);
    TrimTwice(email);
    NormalizeKeepsFold(Trim(email), cfg.parses);
  }

  lemma FirstIsUnrefused(cfg: Config, env: Env, email: string, address: Option<string>, password: string)
    requires SignUpRefusal(cfg, Runs.EMPTY, env, email, address, password).None?
    ensures address.Some? && PasswordError(cfg, password).None? && password != ""
  {
  }

  /** Someone signs up and has a session, logs in once more and changes the password; the log-in is checked before the
      change commits and opens its session after. In the end a session is stored that was opened with the old
      password. */
  lemma RaceHappens(cfg: Config, env: Env, email: string, password: string, newPassword: string, late: Env)
    returns (x: Execution)
    requires env.faults == {} && env.freeSlots > 0 && late.faults == {} && late.rawId != env.rawId
    requires Accounts.SignUp(cfg, Runs.EMPTY, env, email, password).reply.Done? && PasswordError(cfg, newPassword).None?
    ensures Possible(cfg, x) && OwnerAfter(cfg, x, InSessions, Sha256(late.rawId)) == Some(0)
    ensures Stale(cfg, x, InSessions, Sha256(late.rawId), 0)
  {
    var row := FirstSignUp(cfg, env, email, password);
    var x1 := And(Initially, Event.SignUp(0, env, email, password));
    assert Possible(cfg, Initially);
    FinalIsNext(cfg, x1);
    var x2 := And(x1, Insert(0, env));
    FinalIsNext(cfg, x2);
    SignedUpLogsIn(cfg, Final(cfg, x2).tables, env, email, password);
    var x3 := And(x2, Event.LogIn(1, env, email, password));
    FinalIsNext(cfg, x3);
    var x4 := And(x3, Event.ChangePassword(2, env, 0, password, newPassword));
    FinalIsNext(cfg, x4);
    OldSessionCanSurvive(cfg, x4, 1, Commit(2, env), late);
    x := And(And(x4, Commit(2, env)), Insert(1, late));
  }
}
