/** Reset tokens over whole runs: when one works, how long it lasts, that it works once, and where it was mailed.
    A request is one step, as in Runs. */
module Tokens {
  import opened TokenBucket
  import opened LruCaches
  import opened Db
  import opened Accounts
  import opened Handlers
  import opened Changes
  import opened Runs

  // ---- One use ----

  /** A password reset with a token succeeds just when the token is stored and fresh, the password strong, a slot
      free and no call fails; if not, the tables are as they were; if so, the token and all else that the user
      had is gone and the password is the new one. */
  lemma PasswordTokenIsSpentExactlyOnSuccess(cfg: Config, t: Tables, env: Env, token: Token, newPassword: string)
    requires Consistent(t)
    ensures var o := Accounts.ResetPassword(cfg, t, env, token, newPassword);
      && (o.reply.Done? <==>
           && token.Encodes? && Sha256(token.raw) in t.passwordResets
           && env.now <= t.passwordResets[Sha256(token.raw)].createdAt + 15 * MINUTE
           && StrongPassword(cfg, newPassword) && env.freeSlots > 0
           && !(BeginFails in env.faults || ConsumeRequestFails in env.faults || HashFails in env.faults
                || UpdateUserFails in env.faults || ClearingFails(env)))
      && (o.reply.Failed? ==> o.tables == t)
      && (o.reply.Done? ==>
           var u := t.passwordResets[Sha256(token.raw)].userId;
           && ChangesOnly(t, o.tables, u)
           && o.tables.users[u] == t.users[u].(passwordHash := Argon2id(newPassword, env.salt))
           && Sha256(token.raw) !in o.tables.passwordResets)
  {
    PasswordCheckIsExact(cfg, newPassword);
  }

  lemma EmailTokenIsSpentExactlyOnSuccess(t: Tables, env: Env, token: Token)
    requires Consistent(t)
    ensures var o := Accounts.ResetEmail(t, env, token);
      && (o.reply.Done? <==>
           && token.Encodes? && Sha256(token.raw) in t.emailResets
           && env.now <= t.emailResets[Sha256(token.raw)].createdAt + 15 * MINUTE
           && !Taken(t.users, t.emailResets[Sha256(token.raw)].newEmail, {t.emailResets[Sha256(token.raw)].userId})
           && !(BeginFails in env.faults || ConsumeRequestFails in env.faults || UpdateUserFails in env.faults
                || ClearingFails(env)))
      && (o.reply.Failed? ==> o.tables == t)
      && (o.reply.Done? ==>
           var request := t.emailResets[Sha256(token.raw)];
           && ChangesOnly(t, o.tables, request.userId)
           && o.tables.users[request.userId] == t.users[request.userId].(email := request.newEmail)
           && Sha256(token.raw) !in o.tables.emailResets)
  {
  }

  /** The third transaction, for a user who is logged in: it succeeds just when the password is right, the new one
      strong, a slot free and no call fails; if not, the tables are as they were. */
  lemma PasswordChangesExactlyOnSuccess(cfg: Config, t: Tables, env: Env, u: UserId, password: string,
                                        newPassword: string)
    requires u in t.users
    ensures var o := Accounts.ChangePassword(cfg, t, env, u, t.users[u], password, newPassword);
      && (o.reply.Done? <==>
           && password == t.users[u].passwordHash.password && StrongPassword(cfg, newPassword) && env.freeSlots > 0
           && !(VerifyFails in env.faults || HashFails in env.faults || BeginFails in env.faults
                || UpdateUserFails in env.faults || ClearingFails(env)))
      && (o.reply.Failed? ==> o.tables == t && o.mails == [])
      && (o.reply.Done? ==>
           && ChangesOnly(t, o.tables, u)
           && o.tables.users[u] == t.users[u].(passwordHash := Argon2id(newPassword, env.salt))
           && o.mails == [Mail(t.users[u].email, PasswordWasReset)])
  {
    PasswordCheckIsExact(cfg, newPassword);
  }

  /** The last step set a password with this token. */
  predicate SetsPasswordWith(run: Run, raw: Bytes)
    requires run.Then?
  {
    && run.step.request.action.ResetPassword? && run.step.request.action.token == Encodes(raw)
    && ChangedLast(run).Some?
  }

  predicate SetsEmailWith(run: Run, raw: Bytes)
    requires run.Then?
  {
    && run.step.request.action.ResetEmail? && run.step.request.action.token == Encodes(raw)
    && ChangedLast(run).Some?
  }

  function PasswordsSetWith(run: Run, raw: Bytes): nat {
    if run.Start? then 0
    else PasswordsSetWith(run.before, raw) + if SetsPasswordWith(run, raw) then 1 else 0
  }

  function EmailsSetWith(run: Run, raw: Bytes): nat {
    if run.Start? then 0
    else EmailsSetWith(run.before, raw) + if SetsEmailWith(run, raw) then 1 else 0
  }

  /** A step that uses a token finds it stored and leaves it gone. */
  lemma UseRemoves(cfg: Config, run: Run, raw: Bytes)
    requires Occurs(cfg, run) && Fair(run) && run.Then?
    ensures SetsPasswordWith(run, raw) ==>
      Sha256(raw) in After(run.before).passwordResets && Sha256(raw) !in After(run).passwordResets
    ensures SetsEmailWith(run, raw) ==>
      Sha256(raw) in After(run.before).emailResets && Sha256(raw) !in After(run).emailResets
  {
    if SetsPasswordWith(run, raw) || SetsEmailWith(run, raw) {
      ChangeLeavesNothing(cfg, run, Sha256(raw));
      StepEvolves(cfg, run);
    }
  }

  /** Over any run a password token takes effect at most once, and once it has, it is stored no more. */
  lemma {:induction false} PasswordTokenWorksOnce(cfg: Config, run: Run, raw: Bytes)
    requires Occurs(cfg, run) && Fair(run)
    ensures PasswordsSetWith(run, raw) <= 1
    ensures PasswordsSetWith(run, raw) == 1 ==>
      Sha256(raw) in Drawn(run) && Sha256(raw) !in After(run).passwordResets
  {
    if run.Then? {
      EarlierOccurs(cfg, run);
      PasswordTokenWorksOnce(cfg, run.before, raw);
      UseRemoves(cfg, run, raw);
      RowsAreDrawn(cfg, run.before);
      StepEvolves(cfg, run);
    }
  }

  lemma {:induction false} EmailTokenWorksOnce(cfg: Config, run: Run, raw: Bytes)
    requires Occurs(cfg, run) && Fair(run)
    ensures EmailsSetWith(run, raw) <= 1
    ensures EmailsSetWith(run, raw) == 1 ==>
      Sha256(raw) in Drawn(run) && Sha256(raw) !in After(run).emailResets
  {
    if run.Then? {
      EarlierOccurs(cfg, run);
      EmailTokenWorksOnce(cfg, run.before, raw);
      UseRemoves(cfg, run, raw);
      RowsAreDrawn(cfg, run.before);
      StepEvolves(cfg, run);
    }
  }

  // ---- How long it lasts ----

  /** A step either leaves a request as it is or is the end of it: the latter just when it changes the credentials
      of its user. */
  lemma RequestsEndWithTheEpoch(cfg: Config, run: Run, d: Digest)
    requires Occurs(cfg, run) && Fair(run) && run.Then?
    ensures var a, b := After(run.before), After(run);
      d in a.passwordResets ==>
        if ChangedLast(run) == Some(a.passwordResets[d].userId) then d !in b.passwordResets
        else d in b.passwordResets && b.passwordResets[d] == a.passwordResets[d]
    ensures var a, b := After(run.before), After(run);
      d in a.emailResets ==>
        if ChangedLast(run) == Some(a.emailResets[d].userId) then d !in b.emailResets
        else d in b.emailResets && b.emailResets[d] == a.emailResets[d]
  {
    LastStepChanges(cfg, run);
  }

  /** An outstanding request stays, as it was written, exactly as long as its user's credentials do: neither
      failed attempts nor anybody else's requests end it. */
  lemma {:induction false} PasswordTokenLastsForTheEpoch(cfg: Config, a: Run, b: Run, d: Digest)
    requires Extends(a, b) && Occurs(cfg, b) && Fair(b) && d in After(a).passwordResets
    ensures var row := After(a).passwordResets[d];
      if Epoch(a, row.userId) == Epoch(b, row.userId)
      then d in After(b).passwordResets && After(b).passwordResets[d] == row
      else d !in After(b).passwordResets
  {
    if b != a {
      EarlierOccurs(cfg, b);
      PasswordTokenLastsForTheEpoch(cfg, a, b.before, d);
      EpochsGrow(a, b.before, After(a).passwordResets[d].userId);
      RequestsEndWithTheEpoch(cfg, b, d);
      ExtensionIsFair(cfg, a, b.before);
      RowsAreDrawn(cfg, a);
      StepEvolves(cfg, b);
    }
  }

  lemma {:induction false} EmailTokenLastsForTheEpoch(cfg: Config, a: Run, b: Run, d: Digest)
    requires Extends(a, b) && Occurs(cfg, b) && Fair(b) && d in After(a).emailResets
    ensures var row := After(a).emailResets[d];
      if Epoch(a, row.userId) == Epoch(b, row.userId)
      then d in After(b).emailResets && After(b).emailResets[d] == row
      else d !in After(b).emailResets
  {
    if b != a {
      EarlierOccurs(cfg, b);
      EmailTokenLastsForTheEpoch(cfg, a, b.before, d);
      EpochsGrow(a, b.before, After(a).emailResets[d].userId);
      RequestsEndWithTheEpoch(cfg, b, d);
      ExtensionIsFair(cfg, a, b.before);
      RowsAreDrawn(cfg, a);
      StepEvolves(cfg, b);
    }
  }

  /** So a token that is not yet spent works at any time within its quarter of an hour: whatever failed before,
      a sound attempt sets the password. */
  lemma UnspentTokenStillWorks(cfg: Config, a: Run, b: Run, raw: Bytes, newPassword: string)
    requires b.Then? && Extends(a, b.before) && Occurs(cfg, b) && Fair(b) && Sha256(raw) in After(a).passwordResets
    requires b.step.request.action == Action.ResetPassword(Encodes(raw), newPassword)
    requires b.step.env.faults == {} && b.step.env.freeSlots > 0 && StrongPassword(cfg, newPassword)
    requires b.step.env.now <= After(a).passwordResets[Sha256(raw)].createdAt + 15 * MINUTE
    ensures var u := After(a).passwordResets[Sha256(raw)].userId;
      Epoch(a, u) == Epoch(b.before, u) <==> ChangedLast(b) == Some(u)
  {
    LastServed(cfg, b);
    PasswordTokenLastsForTheEpoch(cfg, a, b.before, Sha256(raw));
    AuthenticateDisturbsNothing(After(b.before), b.step.env, b.step.request.cookie);
    SoundAttemptWorks(cfg, SeenLast(b), b.step, raw, newPassword);
  }

  lemma SoundAttemptWorks(cfg: Config, t: Tables, s: Step, raw: Bytes, newPassword: string)
    requires s.env.faults == {} && s.env.freeSlots > 0 && StrongPassword(cfg, newPassword)
    requires Sha256(raw) in t.passwordResets ==>
      s.env.now <= t.passwordResets[Sha256(raw)].createdAt + 15 * MINUTE
    ensures ResetPasswordError(cfg, t, s.env, Encodes(raw), newPassword).None? <==> Sha256(raw) in t.passwordResets
  {
    PasswordCheckIsExact(cfg, newPassword);
  }

  /** The same for an email token, as long as the address is free: a sound attempt sets it. */
  lemma UnspentEmailTokenStillWorks(cfg: Config, a: Run, b: Run, raw: Bytes)
    requires b.Then? && Extends(a, b.before) && Occurs(cfg, b) && Fair(b) && Sha256(raw) in After(a).emailResets
    requires b.step.request.action == Action.ResetEmail(Encodes(raw)) && b.step.env.faults == {}
    requires b.step.env.now <= After(a).emailResets[Sha256(raw)].createdAt + 15 * MINUTE
    ensures var row := After(a).emailResets[Sha256(raw)];
      Epoch(a, row.userId) == Epoch(b.before, row.userId)
      && !Taken(After(b.before).users, row.newEmail, {row.userId})
      <==> ChangedLast(b) == Some(row.userId)
  {
    LastServed(cfg, b);
    EmailTokenLastsForTheEpoch(cfg, a, b.before, Sha256(raw));
    ConsistentThroughout(cfg, b.before);
    AuthenticateDisturbsNothing(After(b.before), b.step.env, b.step.request.cookie);
    SoundEmailAttemptWorks(SeenLast(b), b.step, raw);
  }

  lemma SoundEmailAttemptWorks(t: Tables, s: Step, raw: Bytes)
    requires s.env.faults == {} && EmailResetsFit(t.emailResets, t.users.Keys)
    requires Sha256(raw) in t.emailResets ==> s.env.now <= t.emailResets[Sha256(raw)].createdAt + 15 * MINUTE
    ensures ResetEmailError(t, s.env, Encodes(raw)).None? <==>
      && Sha256(raw) in t.emailResets
      && !Taken(t.users, t.emailResets[Sha256(raw)].newEmail, {t.emailResets[Sha256(raw)].userId})
  {
  }
}
