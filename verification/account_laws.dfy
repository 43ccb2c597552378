/** What every flow of the accounts does, in terms of its input alone: when it succeeds, what it then changes, mails and
    answers, and which refusal it gives when it does not. */
module AccountLaws {
  import opened LruCaches
  import opened TokenBucket
  import opened Emails
  import opened Db
  import opened Accounts

  /** The user has this address, as CITEXT compares. */
  ghost predicate HasAddress(users: map<UserId, User>, u: UserId, folded: string) {
    u in users && Lower(users[u].email) == folded
  }

  /** Some user has. */
  ghost predicate InUse(users: map<UserId, User>, folded: string) {
    exists u :: HasAddress(users, u, folded)
  }

  lemma TakenIsInUse(users: map<UserId, User>, address: string)
    ensures Taken(users, address, {}) <==> InUse(users, Lower(address))
  {
    if Taken(users, address, {}) {
      var u :| u in users && u !in {} && Lower(users[u].email) == Lower(address);
      assert HasAddress(users, u, Lower(address));
    }
  }

  // ---- Passwords ----

  /** Which refusal a password gets. */
  lemma PasswordRefusals(cfg: Config, password: string)
    ensures PasswordError(cfg, password) == Some(PasswordEmpty) <==> Trim(password) == ""
    ensures PasswordError(cfg, password) == Some(PasswordShort) <==> Trim(password) != "" && |password| < 13
    ensures PasswordError(cfg, password) == Some(PasswordLong) <==> Trim(password) != "" && |password| > 256
    ensures PasswordError(cfg, password) == Some(PasswordCommon) <==>
      Trim(password) != "" && 13 <= |password| <= 256 && Lower(password) in cfg.commonPasswords
    ensures PasswordError(cfg, password).None? <==> StrongPassword(cfg, password)
  {
  }

  lemma VerifyRefusals(env: Env, password: string, hash: PasswordHash)
    ensures VerifyError(env, password, hash) == Some(HashingBusy) <==> env.freeSlots == 0
    ensures VerifyError(env, password, hash) == Some(Internal) <==> env.freeSlots > 0 && VerifyFails in env.faults
    ensures VerifyError(env, password, hash) == Some(InvalidCredentials) <==>
      env.freeSlots > 0 && VerifyFails !in env.faults && hash.password != password
    ensures VerifyError(env, password, hash).None? <==>
      env.freeSlots > 0 && VerifyFails !in env.faults && hash.password == password
  {
  }

  // ---- Sign-up ----

  lemma SignUpRefusalIsExact(cfg: Config, t: Tables, env: Env, email: string, address: Option<string>, password: string)
    ensures var e := SignUpRefusal(cfg, t, env, email, address, password);
      var sound := Trim(email) != "" && StrongPassword(cfg, password);
      var fails := HashFails in env.faults || CreateUserFails in env.faults;
      && (e == Some(EmailBlank) <==> Trim(email) == "")
      && (Trim(email) != "" && !StrongPassword(cfg, password) ==> e == PasswordError(cfg, password))
      && (e == Some(InvalidEmail) <==> sound && address.None?)
      && (e == Some(HashingBusy) <==> sound && address.Some? && env.freeSlots == 0)
      && (e == Some(Internal) <==> sound && address.Some? && env.freeSlots > 0 && fails)
      && (e == Some(EmailTaken) <==>
           sound && address.Some? && env.freeSlots > 0 && !fails && InUse(t.users, Lower(address.value)))
      && (e == None <==>
           sound && address.Some? && env.freeSlots > 0 && !fails && !InUse(t.users, Lower(address.value)))
  {
    PasswordRefusals(cfg, password);
    if address.Some? {
      TakenIsInUse(t.users, address.value);
    }
  }

  lemma NormalizedFold(email: string, parses: string -> bool)
    requires Normalize(Trim(email), parses).Some?
    ensures Lower(Normalize(Trim(email), parses).value) == Lower(Trim(email)) && Trim(email) != ""
  {
    TrimTwice(email);
    NormalizeKeepsFold(Trim(email), parses);
  }

  lemma SignUpWithIsExact(cfg: Config, t: Tables, env: Env, email: string, address: Option<string>, password: string)
    ensures var o := SignUpWith(cfg, t, env, email, address, password);
      && (o.reply.Done? <==>
           && Trim(email) != "" && StrongPassword(cfg, password) && address.Some?
           && env.freeSlots > 0 && HashFails !in env.faults && CreateUserFails !in env.faults
           && !InUse(t.users, Lower(address.value)))
      && (o.reply.Done? ==>
           && o.reply == Done(t.nextUserId)
           && o.tables == t.(users := t.users[t.nextUserId := User(address.value, Argon2id(password, env.salt), true)],
                             nextUserId := t.nextUserId + 1))
      && (o.reply.Failed? ==>
           && o.tables.(nextUserId := t.nextUserId) == t
           && Some(o.reply.error) == SignUpRefusal(cfg, t, env, email, address, password))
      && o.mails == []
  {
    SignUpRefusalIsExact(cfg, t, env, email, address, password);
  }

  /** A sign-up succeeds just when the address is there, valid and nobody's, the password strong, a slot free and no call
      fails. It then adds the one row, active and under the next id; else all rows stay as they were. */
  lemma SignUpIsExact(cfg: Config, t: Tables, env: Env, email: string, password: string)
    ensures var o, address := SignUp(cfg, t, env, email, password), Normalize(Trim(email), cfg.parses);
      && (o.reply.Done? <==>
           && Trim(email) != "" && StrongPassword(cfg, password) && address.Some?
           && env.freeSlots > 0 && HashFails !in env.faults && CreateUserFails !in env.faults
           && !InUse(t.users, Lower(Trim(email))))
      && (o.reply.Done? ==>
           && o.reply == Done(t.nextUserId)
           && o.tables == t.(users := t.users[t.nextUserId := User(address.value, Argon2id(password, env.salt), true)],
                             nextUserId := t.nextUserId + 1))
      && (o.reply.Failed? ==> o.tables.(nextUserId := t.nextUserId) == t)
      && o.mails == []
  {
    var address := Normalize(Trim(email), cfg.parses);
    SignUpWithIsExact(cfg, t, env, email, address, password);
    if address.Some? {
      NormalizedFold(email, cfg.parses);
    }
  }

  /** Which refusal a sign-up gets, in the order of the checks. */
  lemma SignUpRefusals(cfg: Config, t: Tables, env: Env, email: string, password: string)
    ensures var r, valid := SignUp(cfg, t, env, email, password).reply, Normalize(Trim(email), cfg.parses).Some?;
      var sound := Trim(email) != "" && StrongPassword(cfg, password);
      var fails := HashFails in env.faults || CreateUserFails in env.faults;
      && (r == Failed(EmailBlank) <==> Trim(email) == "")
      && (Trim(email) != "" && !StrongPassword(cfg, password) ==> r == Failed(PasswordError(cfg, password).value))
      && (r == Failed(InvalidEmail) <==> sound && !valid)
      && (r == Failed(HashingBusy) <==> sound && valid && env.freeSlots == 0)
      && (r == Failed(Internal) <==> sound && valid && env.freeSlots > 0 && fails)
      && (r == Failed(EmailTaken) <==> sound && valid && env.freeSlots > 0 && !fails && InUse(t.users, Lower(Trim(email))))
  {
    var address := Normalize(Trim(email), cfg.parses);
    SignUpRefusalIsExact(cfg, t, env, email, address, password);
    SignUpWithIsExact(cfg, t, env, email, address, password);
    if address.Some? {
      NormalizedFold(email, cfg.parses);
    }
    PasswordRefusals(cfg, password);
  }

  // ---- Log-in ----

  lemma FoundIffHasAddress(users: map<UserId, User>, address: string, u: UserId)
    requires UniqueEmails(users)
    ensures FindUser(users, address) == Some(u) <==> HasAddress(users, u, Lower(address))
    ensures FindUser(users, address).None? <==> !InUse(users, Lower(address))
  {
    TakenIsInUse(users, address);
    if HasAddress(users, u, Lower(address)) {
      FoundUserIsUnique(users, address, u);
    }
  }

  lemma LogInAtIsExact(t: Tables, env: Env, address: string, password: string, u: UserId)
    requires UniqueEmails(t.users)
    ensures var r := LogInAt(t, env, address, password);
      && (r == Done(u) <==>
           && HasAddress(t.users, u, Lower(address)) && t.users[u].isActive && GetUserByEmailFails !in env.faults
           && VerifyError(env, password, t.users[u].passwordHash).None?)
      && (r.Failed? && HasAddress(t.users, u, Lower(address)) && GetUserByEmailFails !in env.faults ==>
           r == Failed(if t.users[u].isActive then VerifyError(env, password, t.users[u].passwordHash).value
                       else InvalidCredentials))
      && (GetUserByEmailFails in env.faults ==> r == Failed(Internal))
      && (!InUse(t.users, Lower(address)) && GetUserByEmailFails !in env.faults ==> r == Failed(InvalidCredentials))
  {
    FoundIffHasAddress(t.users, address, u);
    if FindUser(t.users, address).Some? {
      FoundIffHasAddress(t.users, address, FindUser(t.users, address).value);
    }
  }

  lemma LogInForIsExact(t: Tables, env: Env, email: string, address: Option<string>, password: string, u: UserId)
    requires UniqueEmails(t.users) && address.Some?
    requires InUse(t.users, Lower(address.value)) ==> HasAddress(t.users, u, Lower(address.value))
    ensures var r, given := LogInFor(t, env, email, address, password), Trim(email) != "" && password != "";
      var active := HasAddress(t.users, u, Lower(address.value)) && t.users[u].isActive;
      var finds, verifies := GetUserByEmailFails !in env.faults, VerifyFails !in env.faults;
      && (r == Failed(InvalidLogInInput) <==> !given)
      && (r == Failed(HashingBusy) <==> given && finds && active && env.freeSlots == 0)
      && (r == Failed(Internal) <==> given && (!finds || (active && env.freeSlots > 0 && !verifies)))
      && (r == Failed(InvalidCredentials) <==>
           && given && finds
           && (active ==> env.freeSlots > 0 && verifies && t.users[u].passwordHash.password != password))
      && (r == Done(u) <==>
           && given && finds && active && env.freeSlots > 0 && verifies
           && t.users[u].passwordHash.password == password)
      && (r.Failed? || r == Done(u))
  {
    LogInAtIsExact(t, env, address.value, password, u);
    FoundIffHasAddress(t.users, address.value, u);
    if u in t.users {
      VerifyRefusals(env, password, t.users[u].passwordHash);
    }
  }

  lemma LogInForSucceeds(t: Tables, env: Env, email: string, address: Option<string>, password: string, u: UserId)
    requires UniqueEmails(t.users) && address.Some?
    ensures LogInFor(t, env, email, address, password) == Done(u) <==>
      && Trim(email) != "" && password != ""
      && HasAddress(t.users, u, Lower(address.value)) && t.users[u].isActive
      && t.users[u].passwordHash.password == password
      && env.freeSlots > 0 && env.faults !! {GetUserByEmailFails, VerifyFails}
  {
    LogInAtIsExact(t, env, address.value, password, u);
    if u in t.users {
      VerifyRefusals(env, password, t.users[u].passwordHash);
    }
  }

  /** A log-in succeeds as u just when the address is valid and folds to that of u, u is active, the password is the one
      last set, a slot is free and no call fails. */
  lemma LogInIsExact(cfg: Config, t: Tables, env: Env, email: string, password: string, u: UserId)
    requires UniqueEmails(t.users)
    ensures LogIn(cfg, t, env, email, password) == Done(u) <==>
      && Normalize(Trim(email), cfg.parses).Some? && password != ""
      && HasAddress(t.users, u, Lower(Trim(email))) && t.users[u].isActive
      && t.users[u].passwordHash.password == password
      && env.freeSlots > 0 && env.faults !! {GetUserByEmailFails, VerifyFails}
  {
    var address := Normalize(Trim(email), cfg.parses);
    if address.Some? {
      NormalizedFold(email, cfg.parses);
      LogInForSucceeds(t, env, email, address, password, u);
    }
  }

  /** Which refusal a log-in gets; `u` is the user with the address, if there is one. */
  lemma LogInRefusals(cfg: Config, t: Tables, env: Env, email: string, password: string, u: UserId)
    requires UniqueEmails(t.users) && (InUse(t.users, Lower(Trim(email))) ==> HasAddress(t.users, u, Lower(Trim(email))))
    ensures var r, valid := LogIn(cfg, t, env, email, password), Normalize(Trim(email), cfg.parses).Some?;
      var given := Trim(email) != "" && password != "";
      var active := HasAddress(t.users, u, Lower(Trim(email))) && t.users[u].isActive;
      var asked := given && valid && GetUserByEmailFails !in env.faults;
      && (r == Failed(InvalidLogInInput) <==> !given)
      && (r == Failed(InvalidEmail) <==> given && !valid)
      && (r == Failed(HashingBusy) <==> asked && active && env.freeSlots == 0)
      && (r == Failed(Internal) <==>
           && given && valid
           && (GetUserByEmailFails in env.faults || (active && env.freeSlots > 0 && VerifyFails in env.faults)))
      && (r == Failed(InvalidCredentials) <==>
           && asked
           && (active ==> env.freeSlots > 0 && VerifyFails !in env.faults && t.users[u].passwordHash.password != password))
  {
    var address := Normalize(Trim(email), cfg.parses);
    if address.Some? {
      NormalizedFold(email, cfg.parses);
      LogInForIsExact(t, env, email, address, password, u);
    }
  }

  // ---- The three transactions ----

  lemma ClearingFailsOn(env: Env)
    ensures ClearingFails(env) <==>
      !(env.faults !! {DeleteAllSessionsFails, DeletePasswordResetsFails, DeleteEmailResetsFails, CommitFails})
  {
  }

  /** Which refusal a change of password gets; nobody is mailed but the user, on success. */
  lemma ChangePasswordRefusals(cfg: Config, t: Tables, env: Env, u: UserId, row: User, password: string,
                               newPassword: string)
    ensures var o := ChangePassword(cfg, t, env, u, row, password, newPassword);
      var right := env.freeSlots > 0 && VerifyFails !in env.faults && row.passwordHash.password == password;
      var fails := !(env.faults !! {HashFails, BeginFails, UpdateUserFails, DeleteAllSessionsFails,
                                    DeletePasswordResetsFails, DeleteEmailResetsFails, CommitFails});
      && (o.reply == Failed(HashingBusy) <==> env.freeSlots == 0)
      && (o.reply == Failed(InvalidCredentials) <==>
           env.freeSlots > 0 && VerifyFails !in env.faults && row.passwordHash.password != password)
      && (right && !StrongPassword(cfg, newPassword) ==> o.reply == Failed(PasswordError(cfg, newPassword).value))
      && (o.reply == Failed(Internal) <==>
           || (env.freeSlots > 0 && VerifyFails in env.faults)
           || (right && StrongPassword(cfg, newPassword) && fails))
      && (o.reply == Done(()) <==> right && StrongPassword(cfg, newPassword) && !fails)
      && o.mails == if o.reply.Done? then [Mail(row.email, PasswordWasReset)] else []
  {
    PasswordRefusals(cfg, newPassword);
    VerifyRefusals(env, password, row.passwordHash);
    ClearingFailsOn(env);
  }

  /** A token that is stored and not older than 15 minutes. */
  predicate PasswordTokenKnown(t: Tables, env: Env, token: Token) {
    && token.Encodes? && Sha256(token.raw) in t.passwordResets
    && env.now <= t.passwordResets[Sha256(token.raw)].createdAt + 15 * MINUTE
  }

  /** Which refusal a password token gets, and who is told when it works: the user it was issued to, at the address that
      the user has. */
  lemma ResetPasswordRefusals(cfg: Config, t: Tables, env: Env, token: Token, newPassword: string)
    ensures var o := ResetPassword(cfg, t, env, token, newPassword);
      var strong, known := StrongPassword(cfg, newPassword), PasswordTokenKnown(t, env, token);
      var unasked := token.Encodes? && !(env.faults !! {BeginFails, ConsumeRequestFails});
      var fails := !(env.faults !! {HashFails, UpdateUserFails, DeleteAllSessionsFails, DeletePasswordResetsFails,
                                    DeleteEmailResetsFails, CommitFails});
      && (!strong ==> o.reply == Failed(PasswordError(cfg, newPassword).value))
      && (o.reply == Failed(InvalidResetToken) <==> strong && !unasked && !known)
      && (o.reply == Failed(HashingBusy) <==> strong && !unasked && known && env.freeSlots == 0)
      && (o.reply == Failed(Internal) <==> strong && (unasked || (known && env.freeSlots > 0 && fails)))
      && (o.reply == Done(()) <==> strong && !unasked && known && env.freeSlots > 0 && !fails)
      && (o.reply.Failed? ==> o.mails == [])
      && (o.reply.Done? ==>
           var u := t.passwordResets[Sha256(token.raw)].userId;
           o.mails == if GetUserByIDFails !in env.faults && u in t.users
                      then [Mail(t.users[u].email, PasswordWasReset)] else [])
  {
    PasswordRefusals(cfg, newPassword);
    ClearingFailsOn(env);
  }

  predicate EmailTokenKnown(t: Tables, env: Env, token: Token) {
    && token.Encodes? && Sha256(token.raw) in t.emailResets
    && env.now <= t.emailResets[Sha256(token.raw)].createdAt + 15 * MINUTE
  }

  /** The address of the token is now some other user's. */
  ghost predicate Overtaken(t: Tables, token: Token) {
    && token.Encodes? && Sha256(token.raw) in t.emailResets
    && var request := t.emailResets[Sha256(token.raw)];
      request.userId in t.users && Taken(t.users, request.newEmail, {request.userId})
  }

  /** Which refusal an email token gets; nobody is mailed. */
  lemma ResetEmailRefusals(t: Tables, env: Env, token: Token)
    ensures var o, known, overtaken := ResetEmail(t, env, token), EmailTokenKnown(t, env, token), Overtaken(t, token);
      var unasked := token.Encodes? && !(env.faults !! {BeginFails, ConsumeRequestFails});
      var fails := !(env.faults !! {DeleteAllSessionsFails, DeletePasswordResetsFails, DeleteEmailResetsFails, CommitFails});
      && (o.reply == Failed(InvalidResetToken) <==> !unasked && !known)
      && (o.reply == Failed(EmailTaken) <==> !unasked && known && UpdateUserFails !in env.faults && overtaken)
      && (o.reply == Failed(Internal) <==>
           unasked || (known && (UpdateUserFails in env.faults || (!overtaken && fails))))
      && (o.reply == Done(()) <==> !unasked && known && UpdateUserFails !in env.faults && !overtaken && !fails)
      && o.mails == []
  {
    ClearingFailsOn(env);
  }

  // ---- The two requests for a token ----

  lemma PasswordRequestForIsExact(t: Tables, env: Env, address: Option<string>, u: UserId)
    requires UniqueEmails(t.users) && address.Some?
    requires InUse(t.users, Lower(address.value)) ==> HasAddress(t.users, u, Lower(address.value))
    ensures var o, id := CreatePasswordResetFor(t, env, address), Sha256(env.rawId);
      var known := InUse(t.users, Lower(address.value));
      if known && id !in t.passwordResets && env.faults !! {GetUserByEmailFails, RandomFails, CreateRequestFails} then
        && o.tables == t.(passwordResets := t.passwordResets[id := PasswordResetRequest(u, env.now)])
        && o.mails == [Mail(address.value, PasswordResetLink(env.rawId))]
        && o.reply == if MailFails in env.faults then Failed(Internal) else Done(())
      else
        && o.tables == t && o.mails == []
        && o.reply == Failed(if !known && GetUserByEmailFails !in env.faults then UserNotFound else Internal)
  {
    FoundIffHasAddress(t.users, address.value, u);
  }

  /** Whoever asks for a password token with the address of some user gets one, mailed to that address and stored for that
      user from now, unless a call fails or the id is used; nobody else's address gets one. `u` is the user with the
      address, if there is one. */
  lemma PasswordRequestIsExact(cfg: Config, t: Tables, env: Env, email: string, u: UserId)
    requires UniqueEmails(t.users)
    requires InUse(t.users, Lower(Trim(email))) ==> HasAddress(t.users, u, Lower(Trim(email)))
    ensures var o, id := CreatePasswordReset(cfg, t, env, email), Sha256(env.rawId);
      var address, known := Normalize(email, cfg.parses), InUse(t.users, Lower(Trim(email)));
      if address.None? then
        o.tables == t && o.mails == [] && o.reply == Failed(InvalidEmail)
      else if known && id !in t.passwordResets && env.faults !! {GetUserByEmailFails, RandomFails, CreateRequestFails} then
        && o.tables == t.(passwordResets := t.passwordResets[id := PasswordResetRequest(u, env.now)])
        && o.mails == [Mail(address.value, PasswordResetLink(env.rawId))]
        && o.reply == if MailFails in env.faults then Failed(Internal) else Done(())
      else
        && o.tables == t && o.mails == []
        && o.reply == Failed(if !known && GetUserByEmailFails !in env.faults then UserNotFound else Internal)
  {
    var address := Normalize(email, cfg.parses);
    if address.Some? {
      NormalizeKeepsFold(email, cfg.parses);
      PasswordRequestForIsExact(t, env, address, u);
    }
  }

  /** Some call between the password check and the insert of an email request fails. */
  predicate RequestingFails(t: Tables, env: Env, u: UserId) {
    || RandomFails in env.faults || CreateRequestFails in env.faults
    || Sha256(env.rawId) in t.emailResets || u !in t.users
  }

  lemma EmailRefusalIsExact(t: Tables, env: Env, u: UserId, row: User, password: string, address: Option<string>)
    requires address.Some?
    ensures var e := EmailResetRefusal(t, env, u, row, password, address);
      var right := env.freeSlots > 0 && VerifyFails !in env.faults && row.passwordHash.password == password;
      var other, free := address.value != row.email, !InUse(t.users, Lower(address.value));
      var asked := GetUserByEmailFails !in env.faults;
      && (e == Some(HashingBusy) <==> env.freeSlots == 0)
      && (e == Some(InvalidCredentials) <==>
           env.freeSlots > 0 && VerifyFails !in env.faults && row.passwordHash.password != password)
      && (e == Some(EmailTaken) <==> right && (!other || (asked && !free)))
      && (e == Some(Internal) <==>
           || (env.freeSlots > 0 && VerifyFails in env.faults)
           || (right && other && (!asked || (free && RequestingFails(t, env, u)))))
      && (e == None <==> right && other && asked && free && !RequestingFails(t, env, u))
  {
    VerifyRefusals(env, password, row.passwordHash);
    TakenIsInUse(t.users, address.value);
  }

  lemma EmailRequestForIsExact(t: Tables, env: Env, u: UserId, row: User, password: string, address: Option<string>)
    requires address.Some?
    ensures var o := CreateEmailResetFor(t, env, u, row, password, address);
      if env.freeSlots > 0 && row.passwordHash.password == password && address.value != row.email
         && env.faults !! {VerifyFails, GetUserByEmailFails} && !InUse(t.users, Lower(address.value))
         && !RequestingFails(t, env, u)
      then
        && o.tables == t.(emailResets :=
                            t.emailResets[Sha256(env.rawId) := EmailResetRequest(u, address.value, env.now)])
        && o.mails == [Mail(address.value, EmailResetLink(env.rawId))]
                      + (if MailFails in env.faults then [] else [Mail(row.email, EmailChangeRequested)])
        && o.reply == if MailFails in env.faults then Failed(Internal) else Done(())
      else
        o.tables == t && o.mails == [] && o.reply.Failed?
  {
    EmailRefusalIsExact(t, env, u, row, password, address);
  }

  /** Whoever is logged in as u and asks for a new address with the right password gets a token mailed to that address and
      stored for u, and u is told at the present one once the link is out, unless the address is taken, the id used or a
      call fails. */
  lemma EmailRequestIsExact(cfg: Config, t: Tables, env: Env, u: UserId, row: User, password: string, newEmail: string)
    ensures var o, address := CreateEmailReset(cfg, t, env, u, row, password, newEmail), Normalize(newEmail, cfg.parses);
      if address.Some? && env.freeSlots > 0 && row.passwordHash.password == password && address.value != row.email
         && env.faults !! {VerifyFails, GetUserByEmailFails} && !InUse(t.users, Lower(Trim(newEmail)))
         && !RequestingFails(t, env, u)
      then
        && o.tables == t.(emailResets :=
                            t.emailResets[Sha256(env.rawId) := EmailResetRequest(u, address.value, env.now)])
        && o.mails == [Mail(address.value, EmailResetLink(env.rawId))]
                      + (if MailFails in env.faults then [] else [Mail(row.email, EmailChangeRequested)])
        && o.reply == if MailFails in env.faults then Failed(Internal) else Done(())
      else
        o.tables == t && o.mails == [] && o.reply.Failed?
  {
    var address := Normalize(newEmail, cfg.parses);
    if address.Some? {
      NormalizeKeepsFold(newEmail, cfg.parses);
      EmailRequestForIsExact(t, env, u, row, password, address);
    }
  }

  /** Which refusal a request for a new address gets. */
  lemma EmailRequestRefusals(cfg: Config, t: Tables, env: Env, u: UserId, row: User, password: string, newEmail: string)
    ensures var r, address := CreateEmailReset(cfg, t, env, u, row, password, newEmail).reply,
                              Normalize(newEmail, cfg.parses);
      var right := env.freeSlots > 0 && VerifyFails !in env.faults && row.passwordHash.password == password;
      && (r == Failed(InvalidEmail) <==> address.None?)
      && (r == Failed(HashingBusy) <==> address.Some? && env.freeSlots == 0)
      && (r == Failed(InvalidCredentials) <==>
           && address.Some? && env.freeSlots > 0 && VerifyFails !in env.faults && row.passwordHash.password != password)
      && (r == Failed(EmailTaken) <==>
           && address.Some? && right
           && (address.value == row.email
               || (GetUserByEmailFails !in env.faults && InUse(t.users, Lower(Trim(newEmail))))))
  {
    var address := Normalize(newEmail, cfg.parses);
    if address.Some? {
      NormalizeKeepsFold(newEmail, cfg.parses);
      EmailRefusalIsExact(t, env, u, row, password, address);
    }
  }

  // ---- Sessions ----

  /** The session that must go before u gets another one. */
  ghost function Displaced(t: Tables, u: UserId, choice: Digest): set<Digest> {
    if |SessionsOf(t.sessions, u)| >= 10 then {LeastRecent(t.sessions, u, choice)} else {}
  }

  /** Counting, or the eviction that is then needed, fails. */
  predicate NoRoom(t: Tables, env: Env, u: UserId) {
    || CountSessionsFails in env.faults
    || (|SessionsOf(t.sessions, u)| >= 10 && EvictSessionFails in env.faults)
  }

  /** A session is handed out just when there is a user to have it, the id is unused and no call fails. The raw id is the
      one whose hash is stored, for u, from now. If not, no row is new; a row that was evicted for it is gone all the same. */
  lemma CreateSessionIsExact(t: Tables, env: Env, u: UserId, choice: Digest)
    ensures var o, id, rest := CreateSession(t, env, u, choice), Sha256(env.rawId), t.sessions - Displaced(t, u, choice);
      if NoRoom(t, env, u) then
        o.tables == t && o.reply == Failed(Internal)
      else if id !in rest && env.faults !! {RandomFails, CreateSessionFails} && u in t.users then
        o.tables == t.(sessions := rest[id := Session(u, env.now, env.now)]) && o.reply == Done(env.rawId)
      else
        && o.tables == t.(sessions := rest)
        && o.reply == Failed(if id !in rest && env.faults !! {RandomFails, CreateSessionFails}
                             then UserNotFound else Internal)
    ensures CreateSession(t, env, u, choice).mails == []
  {
    assert MakeRoom(t, u, choice) == t.(sessions := t.sessions - Displaced(t, u, choice));
  }

  /** A session that the middleware lets through is marked as seen now just when it was last seen more than 20 minutes ago,
      was not created in the future and the call does not fail; an expired one is deleted if that does not fail; nothing
      else changes. */
  lemma AuthenticateIsExact(t: Tables, env: Env, cookie: Cookie)
    ensures var (seen, auth) := Authenticate(t, env, cookie);
      var d := if cookie.Carries? then Sha256(cookie.raw) else Sha256([]);
      var there := cookie.Carries? && GetSessionFails !in env.faults && Stored(t, d);
      if !there then
        seen == t && auth == Anonymous
      else
        var s := t.sessions[d];
        if env.now > s.createdAt + 90 * DAY || env.now > s.lastSeenAt + 14 * DAY then
          && auth == Anonymous
          && seen == if DeleteSessionFails in env.faults then t else t.(sessions := t.sessions - {d})
        else
          && auth == As(d, s)
          && seen == if env.now > s.lastSeenAt + 20 * MINUTE && TouchSessionFails !in env.faults && s.createdAt <= env.now
                     then t.(sessions := t.sessions[d := Session(s.userId, s.createdAt, env.now)])
                     else t
  {
  }
}
