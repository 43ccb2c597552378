/** Addresses and passwords in every reachable state, and the way from a sign-up to the log-ins that follow.
    A request is one step, as in Runs. */
module Identities {
  import opened LruCaches
  import opened Emails
  import opened Db
  import opened Accounts
  import opened AccountLaws
  import opened Handlers
  import opened GoodTables
  import opened Runs
  import opened Provenance

  /** A fixed point of normalisation. */
  ghost predicate Canonical(cfg: Config, email: string) {
    Normalize(email, cfg.parses) == Some(email)
  }

  ghost function Promised(cfg: Config): Rules {
    Rules(email => Canonical(cfg, email), password => StrongPassword(cfg, password))
  }

  lemma ChecksEnforcePromises(cfg: Config)
    requires IgnoresDomainCase(cfg.parses)
    ensures Enforces(cfg, Promised(cfg))
  {
    forall input | Normalize(input, cfg.parses).Some?
      ensures Promised(cfg).address(Normalize(input, cfg.parses).value)
    {
      NormalizeIsIdempotent(input, cfg.parses);
    }
    forall password | PasswordError(cfg, password).None?
      ensures Promised(cfg).password(password)
    {
      PasswordCheckIsExact(cfg, password);
    }
  }

  /** In every reachable state every address, of a user or to become one, is a fixed point of normalisation, and
      no two users' addresses are equal up to case. */
  lemma AddressesStayCanonicalAndUnique(cfg: Config, run: Run)
    requires Occurs(cfg, run) && IgnoresDomainCase(cfg.parses)
    ensures var t := After(run);
      && (forall u | u in t.users :: Canonical(cfg, t.users[u].email))
      && (forall d | d in t.emailResets :: Canonical(cfg, t.emailResets[d].newEmail))
      && UniqueEmails(t.users)
  {
    ChecksEnforcePromises(cfg);
    GoodThroughout(cfg, Promised(cfg), run);
    PromisesKept(cfg, After(run));
  }

  /** In every reachable state every stored hash is of a password of 13 to 256 characters, neither blank nor common,
      whichever of the three write paths stored it. */
  lemma PasswordsStayStrong(cfg: Config, run: Run, u: UserId)
    requires Occurs(cfg, run) && u in After(run).users
    ensures var password := After(run).users[u].passwordHash.password;
      13 <= |password| <= 256 && Trim(password) != "" && Lower(password) !in cfg.commonPasswords
  {
    var rules := Rules(_ => true, password => StrongPassword(cfg, password));
    forall password | PasswordError(cfg, password).None?
      ensures rules.password(password)
    {
      PasswordCheckIsExact(cfg, password);
    }
    GoodThroughout(cfg, rules, run);
    assert GoodUser(rules, After(run).users[u]);
  }

  lemma PromisesKept(cfg: Config, t: Tables)
    requires Good(Promised(cfg), t)
    ensures forall u | u in t.users :: Canonical(cfg, t.users[u].email)
    ensures forall d | d in t.emailResets :: Canonical(cfg, t.emailResets[d].newEmail)
    ensures UniqueEmails(t.users)
  {
    var rules := Promised(cfg);
    forall u | u in t.users
      ensures Canonical(cfg, t.users[u].email)
    {
      assert GoodUser(rules, t.users[u]);
    }
    forall d | d in t.emailResets
      ensures Canonical(cfg, t.emailResets[d].newEmail)
    {
      assert rules.address(t.emailResets[d].newEmail);
    }
  }

  /** The user whom a log-in finds is the one whose address the typed text folds to. */
  lemma TypedAddressFinds(cfg: Config, users: map<UserId, User>, typed: string, u: UserId)
    requires UniqueEmails(users) && u in users && Normalize(Trim(typed), cfg.parses).Some?
    ensures FindUser(users, Normalize(Trim(typed), cfg.parses).value) == Some(u)
       <==> Lower(users[u].email) == Lower(Trim(typed))
  {
    TrimTwice(typed);
    NormalizeKeepsFold(Trim(typed), cfg.parses);
    if Lower(users[u].email) == Lower(Trim(typed)) {
      FoundUserIsUnique(users, Normalize(Trim(typed), cfg.parses).value, u);
    }
  }

  /** A step that adds the user, by signing up with this text. */
  lemma SignedUpAddress(cfg: Config, run: Run, u: UserId)
    requires Occurs(cfg, run) && run.Then? && u !in After(run.before).users && u in After(run).users
    ensures run.step.request.action.SignUp?
    ensures Lower(After(run).users[u].email) == Lower(Trim(run.step.request.action.email))
  {
    LastNewUser(cfg, run, u);
    TrimTwice(run.step.request.action.email);
    NormalizeKeepsFold(Trim(run.step.request.action.email), cfg.parses);
  }

  /** Whoever signs up with an address can log in with any spelling of it, in whatever case or padding, as long as
      the address has not been changed: whatever else happened, the password then decides alone. */
  lemma SignUpThenLogIn(cfg: Config, a: Run, b: Run, u: UserId, env: Env, typed: string, password: string)
    requires Extends(a, b) && Occurs(cfg, b) && Fair(b)
    requires a.Then? && u !in After(a.before).users && u in After(a).users
    requires u in After(b).users && After(b).users[u].email == After(a).users[u].email
    requires a.step.request.action.SignUp? ==> Lower(Trim(typed)) == Lower(Trim(a.step.request.action.email))
    requires Normalize(Trim(typed), cfg.parses).Some? && password != ""
    requires env.faults == {} && env.freeSlots > 0
    ensures Accounts.LogIn(cfg, After(b), env, typed, password) == Done(u)
       <==> After(b).users[u].passwordHash.password == password
  {
    ExtensionIsFair(cfg, a, b);
    SignedUpAddress(cfg, a, u);
    GoodThroughout(cfg, Rules(_ => true, _ => true), b);
    TypedAddressFinds(cfg, After(b).users, typed, u);
    NormalizedIsNotBlank(cfg, typed);
    FoundUserDecides(After(b), env, Normalize(Trim(typed), cfg.parses).value, password, u);
  }

  lemma FoundUserDecides(t: Tables, env: Env, address: string, password: string, u: UserId)
    requires env.faults == {} && env.freeSlots > 0 && FindUser(t.users, address) == Some(u)
    ensures LogInAt(t, env, address, password) == Done(u)
       <==> t.users[u].isActive && t.users[u].passwordHash.password == password
  {
    VerifyIsExact(env, password, t.users[u].passwordHash);
  }

  lemma VerifyIsExact(env: Env, password: string, hash: PasswordHash)
    requires env.faults == {} && env.freeSlots > 0
    ensures VerifyError(env, password, hash).None? <==> hash.password == password
  {
  }

  lemma NormalizedIsNotBlank(cfg: Config, typed: string)
    requires Normalize(Trim(typed), cfg.parses).Some?
    ensures Trim(typed) != ""
  {
    TrimTwice(typed);
    NormalizeKeepsFold(Trim(typed), cfg.parses);
  }

  /** With no failing call and a free slot, a well-formed log-in that is turned away is told the same whether the
      address is unknown, the user inactive or the password wrong. */
  lemma RefusedLogInsLookAlike(cfg: Config, t: Tables, env: Env, typed: string, password: string)
    requires Normalize(Trim(typed), cfg.parses).Some? && password != "" && env.faults == {} && env.freeSlots > 0
    ensures var r := Accounts.LogIn(cfg, t, env, typed, password); r.Done? || r == Failed(InvalidCredentials)
  {
    NormalizedIsNotBlank(cfg, typed);
  }

  /** And whoever asks for a password token is told the same whatever users there are. */
  lemma TokenRequestsLookAlike(cfg: Config, a: Tables, b: Tables, env: Env, how: Settled, auth: Auth, email: string)
    requires env.faults == {} && Sha256(env.rawId) !in a.passwordResets && Sha256(env.rawId) !in b.passwordResets
    ensures Act(cfg, a, env, how, auth, RequestPasswordReset(email)).answer
         == Act(cfg, b, env, how, auth, RequestPasswordReset(email)).answer
  {
    TokenRequestAnswer(cfg, a, env, email);
    TokenRequestAnswer(cfg, b, env, email);
  }

  lemma TokenRequestAnswer(cfg: Config, t: Tables, env: Env, email: string)
    requires env.faults == {} && Sha256(env.rawId) !in t.passwordResets
    ensures HidingStrangers(EffectOf(CreatePasswordReset(cfg, t, env, email))).answer
         == if Normalize(email, cfg.parses).Some? then Success else Answer.Error(InvalidEmail)
  {
  }

  lemma TokenRequestForIsAnswered(t: Tables, env: Env, address: Option<string>, folded: string, u: UserId)
    requires UniqueEmails(t.users) && (InUse(t.users, folded) ==> HasAddress(t.users, u, folded))
    requires address.Some? ==> Lower(address.value) == folded
    ensures HidingStrangers(EffectOf(CreatePasswordResetFor(t, env, address))).answer
         == if address.None? then Answer.Error(InvalidEmail)
            else if GetUserByEmailFails in env.faults then Answer.Error(Internal)
            else if InUse(t.users, folded) && (Sha256(env.rawId) in t.passwordResets
                                               || !(env.faults !! {RandomFails, CreateRequestFails, MailFails}))
            then Answer.Error(Internal)
            else Success
  {
    if address.Some? {
      PasswordRequestForIsExact(t, env, address, u);
    }
  }

  /** What a request for a password token that gets past the limiter is told, calls that fail included; `u` is the user with
      the address, if there is one. */
  lemma TokenRequestIsAnswered(cfg: Config, t: Tables, env: Env, email: string, u: UserId)
    requires UniqueEmails(t.users)
    requires InUse(t.users, Lower(Trim(email))) ==> HasAddress(t.users, u, Lower(Trim(email)))
    ensures RequestPasswordResetEffect(cfg, t, env, true, email).answer
         == if Normalize(email, cfg.parses).None? then Answer.Error(InvalidEmail)
            else if GetUserByEmailFails in env.faults then Answer.Error(Internal)
            else if InUse(t.users, Lower(Trim(email)))
                    && (Sha256(env.rawId) in t.passwordResets
                        || !(env.faults !! {RandomFails, CreateRequestFails, MailFails})) then Answer.Error(Internal)
            else Success
  {
    var address := Normalize(email, cfg.parses);
    if address.Some? {
      NormalizeKeepsFold(email, cfg.parses);
    }
    TokenRequestForIsAnswered(t, env, address, Lower(Trim(email)), u);
  }
}
