/** Where tokens were mailed, and how users came by their addresses and passwords. A request is one step, as in Runs. */
module Provenance {
  import opened LruCaches
  import opened Emails
  import opened Db
  import opened Accounts
  import opened AccountLaws
  import opened Handlers
  import opened Evolution
  import opened Changes
  import opened Runs
  import opened Tokens

  /** Some step of the run handed the mail to the mailer, whether or not it got through. */
  predicate Posted(run: Run, m: Mail) {
    run.Then? && (Posted(run.before, m) || m in run.served.mails)
  }

  // ---- What one request posts ----

  /** A password link goes out for the row it stands for, to an address that is that user's up to case. */
  lemma LastPasswordLink(cfg: Config, run: Run, to: string, raw: Bytes)
    requires Occurs(cfg, run) && run.Then? && Mail(to, PasswordResetLink(raw)) in run.served.mails
    ensures var b := After(run);
      && raw == run.step.env.rawId && b.users == After(run.before).users && Sha256(raw) in b.passwordResets
      && b.passwordResets[Sha256(raw)].userId in b.users
      && Lower(b.users[b.passwordResets[Sha256(raw)].userId].email) == Lower(to)
  {
    var t, s := After(run.before), run.step;
    LastServed(cfg, run);
    AuthenticateDisturbsNothing(t, s.env, s.request.cookie);
    PasswordLinkOfAct(cfg, SeenLast(run), s.env, s.how, run.served.auth, s.request.action, to, raw);
  }

  lemma EmailRequestPostsNoPasswordLink(cfg: Config, t: Tables, env: Env, u: UserId, row: User, password: string,
                                        newEmail: string, to: string, raw: Bytes)
    ensures Mail(to, PasswordResetLink(raw)) !in CreateEmailReset(cfg, t, env, u, row, password, newEmail).mails
  {
  }

  lemma ResetsPostNoPasswordLink(cfg: Config, t: Tables, env: Env, how: Settled, auth: Auth, action: Action,
                                 to: string, raw: Bytes)
    requires action.ChangePassword? || action.ResetPassword? || action.ResetEmail?
    ensures Mail(to, PasswordResetLink(raw)) !in Act(cfg, t, env, how, auth, action).mails
  {
  }

  lemma PasswordLinksAreAskedFor(cfg: Config, t: Tables, env: Env, how: Settled, auth: Auth, action: Action,
                                 to: string, raw: Bytes)
    requires Mail(to, PasswordResetLink(raw)) in Act(cfg, t, env, how, auth, action).mails
    ensures action.RequestPasswordReset? && how.allowed
  {
    if action.RequestEmailReset? && RunsAs(t, env, auth).Some? {
      var u := RunsAs(t, env, auth).value;
      EmailRequestPostsNoPasswordLink(cfg, t, env, u, t.users[u], action.password, action.newEmail, to, raw);
    } else if action.ChangePassword? || action.ResetPassword? || action.ResetEmail? {
      ResetsPostNoPasswordLink(cfg, t, env, how, auth, action, to, raw);
    }
  }

  lemma PasswordLinkOfAct(cfg: Config, t: Tables, env: Env, how: Settled, auth: Auth, action: Action, to: string,
                          raw: Bytes)
    requires Mail(to, PasswordResetLink(raw)) in Act(cfg, t, env, how, auth, action).mails
    ensures var b := Act(cfg, t, env, how, auth, action).tables;
      && raw == env.rawId && b.users == t.users && Sha256(raw) in b.passwordResets
      && b.passwordResets[Sha256(raw)].userId in b.users
      && Lower(b.users[b.passwordResets[Sha256(raw)].userId].email) == Lower(to)
  {
    PasswordLinksAreAskedFor(cfg, t, env, how, auth, action, to, raw);
    PasswordLinkOfRequest(cfg, t, env, action.email, to, raw);
  }

  lemma PasswordLinkOfRequest(cfg: Config, t: Tables, env: Env, email: string, to: string, raw: Bytes)
    requires Mail(to, PasswordResetLink(raw)) in CreatePasswordReset(cfg, t, env, email).mails
    ensures var b := CreatePasswordReset(cfg, t, env, email).tables;
      && raw == env.rawId && b.users == t.users && Sha256(raw) in b.passwordResets
      && b.passwordResets[Sha256(raw)].userId in b.users
      && Lower(b.users[b.passwordResets[Sha256(raw)].userId].email) == Lower(to)
  {
  }

  lemma PasswordRequestPostsNoEmailLink(cfg: Config, t: Tables, env: Env, email: string, to: string, raw: Bytes)
    ensures Mail(to, EmailResetLink(raw)) !in CreatePasswordReset(cfg, t, env, email).mails
  {
  }

  lemma ResetsPostNoEmailLink(cfg: Config, t: Tables, env: Env, how: Settled, auth: Auth, action: Action,
                              to: string, raw: Bytes)
    requires action.ChangePassword? || action.ResetPassword? || action.ResetEmail?
    ensures Mail(to, EmailResetLink(raw)) !in Act(cfg, t, env, how, auth, action).mails
  {
  }

  lemma EmailLinksAreAskedFor(cfg: Config, t: Tables, env: Env, how: Settled, auth: Auth, action: Action,
                              to: string, raw: Bytes)
    requires Mail(to, EmailResetLink(raw)) in Act(cfg, t, env, how, auth, action).mails
    ensures action.RequestEmailReset? && how.allowed && RunsAs(t, env, auth).Some?
  {
    if action.RequestPasswordReset? {
      PasswordRequestPostsNoEmailLink(cfg, t, env, action.email, to, raw);
    } else if action.ChangePassword? || action.ResetPassword? || action.ResetEmail? {
      ResetsPostNoEmailLink(cfg, t, env, how, auth, action, to, raw);
    }
  }

  lemma EmailLinkOfRequest(cfg: Config, t: Tables, env: Env, u: UserId, row: User, password: string,
                           newEmail: string, to: string, raw: Bytes)
    requires Mail(to, EmailResetLink(raw)) in CreateEmailReset(cfg, t, env, u, row, password, newEmail).mails
    ensures var b := CreateEmailReset(cfg, t, env, u, row, password, newEmail).tables;
      raw == env.rawId && Sha256(raw) in b.emailResets && b.emailResets[Sha256(raw)].newEmail == to
  {
  }

  lemma EmailLinkOfAct(cfg: Config, t: Tables, env: Env, how: Settled, auth: Auth, action: Action, to: string,
                       raw: Bytes)
    requires Mail(to, EmailResetLink(raw)) in Act(cfg, t, env, how, auth, action).mails
    ensures var b := Act(cfg, t, env, how, auth, action).tables;
      raw == env.rawId && Sha256(raw) in b.emailResets && b.emailResets[Sha256(raw)].newEmail == to
  {
    EmailLinksAreAskedFor(cfg, t, env, how, auth, action, to, raw);
    var u := RunsAs(t, env, auth).value;
    EmailLinkOfRequest(cfg, t, env, u, t.users[u], action.password, action.newEmail, to, raw);
  }

  lemma ResetsAddNoEmailRow(cfg: Config, t: Tables, env: Env, how: Settled, auth: Auth, action: Action)
    requires action.ChangePassword? || action.ResetPassword? || action.ResetEmail?
    ensures Act(cfg, t, env, how, auth, action).tables.emailResets.Keys <= t.emailResets.Keys
  {
  }

  lemma EmailRowsAreAskedFor(cfg: Config, t: Tables, env: Env, how: Settled, auth: Auth, action: Action)
    requires !action.RequestEmailReset?
    ensures Act(cfg, t, env, how, auth, action).tables.emailResets.Keys <= t.emailResets.Keys
  {
    if action.SignUp? {
      var o := Accounts.SignUp(cfg, t, env, action.email, action.password);
      if o.reply.Done? {
        CreateSessionIsContained(o.tables, env, o.reply.value, how.evicted);
      }
    } else if action.LogIn? {
      var r := Accounts.LogIn(cfg, t, env, action.email, action.password);
      if r.Done? {
        CreateSessionIsContained(t, env, r.value, how.evicted);
      }
    } else if action.ChangePassword? || action.ResetPassword? || action.ResetEmail? {
      ResetsAddNoEmailRow(cfg, t, env, how, auth, action);
    } else {
      OthersAreContained(cfg, t, env, how, auth, action);
    }
  }

  /** A new email row is posted to the address it names. */
  lemma NewEmailRowIsPosted(cfg: Config, t: Tables, env: Env, how: Settled, auth: Auth, action: Action, d: Digest)
    requires d !in t.emailResets && d in Act(cfg, t, env, how, auth, action).tables.emailResets
    ensures var e := Act(cfg, t, env, how, auth, action);
      d == Sha256(env.rawId) && Mail(e.tables.emailResets[d].newEmail, EmailResetLink(d.preimage)) in e.mails
  {
    if !action.RequestEmailReset? {
      EmailRowsAreAskedFor(cfg, t, env, how, auth, action);
    }
  }

  lemma LastEmailRow(cfg: Config, run: Run, d: Digest)
    requires Occurs(cfg, run) && run.Then? && d !in After(run.before).emailResets && d in After(run).emailResets
    ensures Mail(After(run).emailResets[d].newEmail, EmailResetLink(d.preimage)) in run.served.mails
  {
    var t, s := After(run.before), run.step;
    LastServed(cfg, run);
    AuthenticateDisturbsNothing(t, s.env, s.request.cookie);
    NewEmailRowIsPosted(cfg, SeenLast(run), s.env, s.how, run.served.auth, s.request.action, d);
  }

  lemma LastEmailLink(cfg: Config, run: Run, to: string, raw: Bytes)
    requires Occurs(cfg, run) && run.Then? && Mail(to, EmailResetLink(raw)) in run.served.mails
    ensures var b := After(run);
      raw == run.step.env.rawId && Sha256(raw) in b.emailResets && b.emailResets[Sha256(raw)].newEmail == to
  {
    var s := run.step;
    LastServed(cfg, run);
    EmailLinkOfAct(cfg, SeenLast(run), s.env, s.how, run.served.auth, s.request.action, to, raw);
  }

  // ---- What whole runs post ----

  lemma {:induction false} PasswordLinksAreDrawn(cfg: Config, run: Run, to: string, raw: Bytes)
    requires Occurs(cfg, run) && Posted(run, Mail(to, PasswordResetLink(raw)))
    ensures Sha256(raw) in Drawn(run)
  {
    if Posted(run.before, Mail(to, PasswordResetLink(raw))) {
      EarlierOccurs(cfg, run);
      PasswordLinksAreDrawn(cfg, run.before, to, raw);
    } else {
      LastPasswordLink(cfg, run, to, raw);
    }
  }

  /** An outstanding password token was mailed to nobody but its user, at the address the user has now, up to case. */
  lemma {:induction false} PasswordTokensGoToTheirUser(cfg: Config, run: Run, to: string, raw: Bytes)
    requires Occurs(cfg, run) && Fair(run) && Posted(run, Mail(to, PasswordResetLink(raw)))
    requires Sha256(raw) in After(run).passwordResets
    ensures var u := After(run).passwordResets[Sha256(raw)].userId;
      u in After(run).users && Lower(After(run).users[u].email) == Lower(to)
  {
    if Posted(run.before, Mail(to, PasswordResetLink(raw))) {
      StepEvolves(cfg, run);
      PasswordLinksAreDrawn(cfg, run.before, to, raw);
      PasswordTokensGoToTheirUser(cfg, run.before, to, raw);
      RequestsEndWithTheEpoch(cfg, run, Sha256(raw));
      OnlyChangesTouchUsers(cfg, run, After(run).passwordResets[Sha256(raw)].userId);
    } else {
      LastPasswordLink(cfg, run, to, raw);
    }
  }

  /** A new password row is posted, whoever asked for it. */
  lemma NewPasswordRowIsPosted(cfg: Config, t: Tables, env: Env, email: string, d: Digest)
    requires d !in t.passwordResets && d in CreatePasswordReset(cfg, t, env, email).tables.passwordResets
    ensures Normalize(email, cfg.parses).Some?
    ensures Mail(Normalize(email, cfg.parses).value, PasswordResetLink(d.preimage))
         in CreatePasswordReset(cfg, t, env, email).mails
  {
  }

  lemma ResetsAddNoPasswordRow(cfg: Config, t: Tables, env: Env, how: Settled, auth: Auth, action: Action)
    requires action.ChangePassword? || action.ResetPassword? || action.ResetEmail?
    ensures Act(cfg, t, env, how, auth, action).tables.passwordResets.Keys <= t.passwordResets.Keys
  {
  }

  lemma PasswordRowsAreAskedFor(cfg: Config, t: Tables, env: Env, how: Settled, auth: Auth, action: Action, d: Digest)
    requires d !in t.passwordResets && d in Act(cfg, t, env, how, auth, action).tables.passwordResets
    ensures action.RequestPasswordReset? && how.allowed
  {
    if action.SignUp? {
      SignUpIsExact(cfg, t, env, action.email, action.password);
      var o := Accounts.SignUp(cfg, t, env, action.email, action.password);
      if o.reply.Done? {
        CreateSessionIsContained(o.tables, env, o.reply.value, how.evicted);
      }
    } else if action.LogIn? {
      var r := Accounts.LogIn(cfg, t, env, action.email, action.password);
      if r.Done? {
        CreateSessionIsContained(t, env, r.value, how.evicted);
      }
    } else if action.ChangePassword? || action.ResetPassword? || action.ResetEmail? {
      ResetsAddNoPasswordRow(cfg, t, env, how, auth, action);
    } else {
      OthersAreContained(cfg, t, env, how, auth, action);
    }
  }

  ghost predicate PostedToSomebody(run: Run, raw: Bytes) {
    exists to :: Posted(run, Mail(to, PasswordResetLink(raw)))
  }

  lemma LastPasswordRow(cfg: Config, run: Run, d: Digest)
    requires Occurs(cfg, run) && run.Then? && d !in After(run.before).passwordResets && d in After(run).passwordResets
    ensures PostedToSomebody(run, d.preimage)
  {
    var t, s := After(run.before), run.step;
    LastServed(cfg, run);
    AuthenticateDisturbsNothing(t, s.env, s.request.cookie);
    PasswordRowsAreAskedFor(cfg, SeenLast(run), s.env, s.how, run.served.auth, s.request.action, d);
    var email := s.request.action.email;
    NewPasswordRowIsPosted(cfg, SeenLast(run), s.env, email, d);
    assert Posted(run, Mail(Normalize(email, cfg.parses).value, PasswordResetLink(d.preimage)));
  }

  /** Every outstanding password token was mailed to its user: to some address, and so to the one that the user has now. */
  lemma PasswordTokensArePosted(cfg: Config, run: Run, d: Digest)
    requires Occurs(cfg, run) && Fair(run) && d in After(run).passwordResets
    ensures var u := After(run).passwordResets[d].userId;
      && u in After(run).users && PostedToSomebody(run, d.preimage)
      && forall to | Posted(run, Mail(to, PasswordResetLink(d.preimage))) :: Lower(to) == Lower(After(run).users[u].email)
  {
    PasswordRowIsPosted(cfg, run, d);
    ConsistentThroughout(cfg, run);
    forall to | Posted(run, Mail(to, PasswordResetLink(d.preimage)))
      ensures Lower(to) == Lower(After(run).users[After(run).passwordResets[d].userId].email)
    {
      PasswordTokensGoToTheirUser(cfg, run, to, d.preimage);
    }
  }

  lemma {:induction false} PasswordRowIsPosted(cfg: Config, run: Run, d: Digest)
    requires Occurs(cfg, run) && d in After(run).passwordResets
    ensures PostedToSomebody(run, d.preimage)
  {
    if d in After(run.before).passwordResets {
      EarlierOccurs(cfg, run);
      PasswordRowIsPosted(cfg, run.before, d);
      var to :| Posted(run.before, Mail(to, PasswordResetLink(d.preimage)));
      assert Posted(run, Mail(to, PasswordResetLink(d.preimage)));
    } else {
      LastPasswordRow(cfg, run, d);
    }
  }

  lemma {:induction false} EmailLinksAreDrawn(cfg: Config, run: Run, to: string, raw: Bytes)
    requires Occurs(cfg, run) && Posted(run, Mail(to, EmailResetLink(raw)))
    ensures Sha256(raw) in Drawn(run)
  {
    if Posted(run.before, Mail(to, EmailResetLink(raw))) {
      EarlierOccurs(cfg, run);
      EmailLinksAreDrawn(cfg, run.before, to, raw);
    } else {
      LastEmailLink(cfg, run, to, raw);
    }
  }

  /** An outstanding email token was mailed to the address it would set, and to no other. */
  lemma {:induction false} EmailTokensGoToTheirAddress(cfg: Config, run: Run, to: string, d: Digest)
    requires Occurs(cfg, run) && Fair(run) && d in After(run).emailResets
    ensures Posted(run, Mail(to, EmailResetLink(d.preimage))) <==> to == After(run).emailResets[d].newEmail
  {
    var link := Mail(to, EmailResetLink(d.preimage));
    StepEvolves(cfg, run);
    if d in After(run.before).emailResets {
      EmailTokensGoToTheirAddress(cfg, run.before, to, d);
    } else {
      LastEmailRow(cfg, run, d);
      if Posted(run.before, link) {
        EmailLinksAreDrawn(cfg, run.before, to, d.preimage);
      }
    }
    if link in run.served.mails {
      LastEmailLink(cfg, run, to, d.preimage);
    }
  }

  // ---- How users came by their addresses and passwords ----

  /** The last step made the address the user's: by signing the user up with it, or by setting it with a token of
      that user that had been mailed to it. */
  ghost predicate VouchesFor(cfg: Config, run: Run, u: UserId, email: string)
    requires run.Then?
  {
    && u in After(run).users && After(run).users[u].email == email
    && match run.step.request.action
       case SignUp(typed, _) =>
         && u !in After(run.before).users && u == After(run.before).nextUserId
         && Normalize(Trim(typed), cfg.parses) == Some(email)
       case ResetEmail(token) =>
         && ChangedLast(run) == Some(u) && token.Encodes?
         && Posted(run.before, Mail(email, EmailResetLink(token.raw)))
         && Sha256(token.raw) in After(run.before).emailResets
         && After(run.before).emailResets[Sha256(token.raw)].userId == u
       case _ => false
  }

  ghost predicate Vouched(cfg: Config, run: Run, u: UserId, email: string) {
    run.Then? && (Vouched(cfg, run.before, u, email) || VouchesFor(cfg, run, u, email))
  }

  lemma ResetsAddNoUser(cfg: Config, t: Tables, env: Env, how: Settled, auth: Auth, action: Action)
    requires action.ChangePassword? || action.ResetPassword? || action.ResetEmail?
    ensures Act(cfg, t, env, how, auth, action).tables.users.Keys <= t.users.Keys
  {
  }

  lemma OtherActionsAddNoUser(cfg: Config, t: Tables, env: Env, how: Settled, auth: Auth, action: Action)
    requires !action.SignUp?
    ensures Act(cfg, t, env, how, auth, action).tables.users.Keys <= t.users.Keys
  {
    if action.LogIn? {
      var r := Accounts.LogIn(cfg, t, env, action.email, action.password);
      if r.Done? {
        CreateSessionIsContained(t, env, r.value, how.evicted);
      }
    } else if action.ChangePassword? || action.ResetPassword? || action.ResetEmail? {
      ResetsAddNoUser(cfg, t, env, how, auth, action);
    } else {
      OthersAreContained(cfg, t, env, how, auth, action);
    }
  }

  lemma SignUpAddsOneUser(cfg: Config, t: Tables, env: Env, email: string, password: string, u: UserId)
    requires u !in t.users && u in Accounts.SignUp(cfg, t, env, email, password).tables.users
    ensures u == t.nextUserId
    ensures Normalize(Trim(email), cfg.parses)
         == Some(Accounts.SignUp(cfg, t, env, email, password).tables.users[u].email)
  {
    SignUpTables(cfg, t, env, email, password);
    NormalizedIfUnrefused(cfg, t, env, email, Normalize(Trim(email), cfg.parses), password);
  }

  lemma NormalizedIfUnrefused(cfg: Config, t: Tables, env: Env, email: string, address: Option<string>, password: string)
    ensures SignUpRefusal(cfg, t, env, email, address, password).None? ==> address.Some?
  {
  }

  lemma SignUpSessionKeepsUsers(cfg: Config, t: Tables, env: Env, email: string, password: string, choice: Digest)
    ensures SignUpEffect(cfg, t, env, email, password, choice).tables.users
         == Accounts.SignUp(cfg, t, env, email, password).tables.users
  {
    var o := Accounts.SignUp(cfg, t, env, email, password);
    if o.reply.Done? {
      CreateSessionIsContained(o.tables, env, o.reply.value, choice);
    }
  }

  lemma NewUserSignedUp(cfg: Config, t: Tables, env: Env, email: string, password: string, choice: Digest, u: UserId)
    requires u !in t.users && u in SignUpEffect(cfg, t, env, email, password, choice).tables.users
    ensures u == t.nextUserId
    ensures Normalize(Trim(email), cfg.parses)
         == Some(SignUpEffect(cfg, t, env, email, password, choice).tables.users[u].email)
  {
    SignUpSessionKeepsUsers(cfg, t, env, email, password, choice);
    SignUpAddsOneUser(cfg, t, env, email, password, u);
  }

  lemma LastNewUser(cfg: Config, run: Run, u: UserId)
    requires Occurs(cfg, run) && run.Then? && u !in After(run.before).users && u in After(run).users
    ensures run.step.request.action.SignUp? && VouchesFor(cfg, run, u, After(run).users[u].email)
  {
    var s, action := run.step, run.step.request.action;
    LastServed(cfg, run);
    AuthenticateDisturbsNothing(After(run.before), s.env, s.request.cookie);
    if action.SignUp? {
      NewUserSignedUp(cfg, SeenLast(run), s.env, action.email, action.password, s.how.evicted, u);
    } else {
      OtherActionsAddNoUser(cfg, SeenLast(run), s.env, s.how, run.served.auth, action);
    }
  }

  /** What a change of credentials does to the user's row. */
  lemma ChangedRow(cfg: Config, t: Tables, env: Env, how: Settled, auth: Auth, action: Action, u: UserId)
    requires u in t.users && ChangedBy(t, auth, action, Act(cfg, t, env, how, auth, action).answer) == Some(u)
    ensures var b := Act(cfg, t, env, how, auth, action).tables;
      && u in b.users
      && (action.ResetEmail? ==> b.users[u] == t.users[u].(email := t.emailResets[Sha256(action.token.raw)].newEmail))
      && (!action.ResetEmail? ==>
           && (action.ChangePassword? || action.ResetPassword?)
           && b.users[u] == t.users[u].(passwordHash := Argon2id(action.newPassword, env.salt)))
      && (action.ChangePassword? ==> action.password == t.users[u].passwordHash.password)
  {
  }

  lemma LastChangedRow(cfg: Config, run: Run, u: UserId)
    requires Occurs(cfg, run) && run.Then? && u in After(run.before).users && ChangedLast(run) == Some(u)
    ensures var a, b, action := After(run.before), After(run), run.step.request.action;
      && u in b.users
      && (action.ResetEmail? ==>
           && action.token.Encodes? && Sha256(action.token.raw) in a.emailResets
           && a.emailResets[Sha256(action.token.raw)].userId == u
           && b.users[u] == a.users[u].(email := a.emailResets[Sha256(action.token.raw)].newEmail))
      && (action.ResetPassword? ==>
           && action.token.Encodes? && Sha256(action.token.raw) in a.passwordResets
           && a.passwordResets[Sha256(action.token.raw)].userId == u)
      && (!action.ResetEmail? ==>
           && (action.ChangePassword? || action.ResetPassword?)
           && b.users[u] == a.users[u].(passwordHash := Argon2id(action.newPassword, run.step.env.salt)))
      && (action.ChangePassword? ==> action.password == a.users[u].passwordHash.password)
  {
    var s := run.step;
    LastServed(cfg, run);
    AuthenticateDisturbsNothing(After(run.before), s.env, s.request.cookie);
    ChangedRow(cfg, SeenLast(run), s.env, s.how, run.served.auth, s.request.action, u);
  }

  /** Every address that a user ever has is the one the user signed up with, or one to which the token that set it
      had been mailed. */
  lemma {:induction false} AddressesAreVouchedFor(cfg: Config, run: Run, u: UserId)
    requires Occurs(cfg, run) && Fair(run) && u in After(run).users
    ensures Vouched(cfg, run, u, After(run).users[u].email)
  {
    EarlierOccurs(cfg, run);
    if u !in After(run.before).users {
      LastNewUser(cfg, run, u);
    } else {
      AddressesAreVouchedFor(cfg, run.before, u);
      if ChangedLast(run) != Some(u) {
        OnlyChangesTouchUsers(cfg, run, u);
      } else {
        LastChangedRow(cfg, run, u);
        if run.step.request.action.ResetEmail? {
          EmailTokensGoToTheirAddress(cfg, run.before, After(run).users[u].email,
                                      Sha256(run.step.request.action.token.raw));
        }
      }
    }
  }

  /** The user has, or once had, the address. */
  predicate Held(run: Run, u: UserId, email: string) {
    || (u in After(run).users && After(run).users[u].email == email)
    || (run.Then? && Held(run.before, u, email))
  }

  /** Exactly the addresses so vouched for are ever a user's. */
  lemma {:induction false} HeldIffVouchedFor(cfg: Config, run: Run, u: UserId, email: string)
    requires Occurs(cfg, run) && Fair(run)
    ensures Held(run, u, email) <==> Vouched(cfg, run, u, email)
  {
    if u in After(run).users && After(run).users[u].email == email {
      AddressesAreVouchedFor(cfg, run, u);
    }
    if run.Then? {
      EarlierOccurs(cfg, run);
      HeldIffVouchedFor(cfg, run.before, u, email);
    }
  }

  /** A user's password changes only on the word of someone who runs as that user and knows the old password, or
      who presents an outstanding token that was mailed to nobody but that user. */
  lemma PasswordsChangeOnProofOnly(cfg: Config, run: Run, u: UserId, to: string)
    requires Occurs(cfg, run) && Fair(run) && run.Then? && u in After(run.before).users
    requires u in After(run).users ==>
      After(run).users[u].passwordHash != After(run.before).users[u].passwordHash
    ensures var a, action := After(run.before), run.step.request.action;
      if action.ChangePassword? then
        && action.password == a.users[u].passwordHash.password
        && RunsAs(a, run.step.env, run.served.auth) == Some(u)
      else
        && action.ResetPassword? && action.token.Encodes? && Sha256(action.token.raw) in a.passwordResets
        && a.passwordResets[Sha256(action.token.raw)].userId == u
        && (Posted(run.before, Mail(to, PasswordResetLink(action.token.raw))) ==>
             Lower(to) == Lower(a.users[u].email))
  {
    if ChangedLast(run) != Some(u) {
      OnlyChangesTouchUsers(cfg, run, u);
    } else {
      LastChangedRow(cfg, run, u);
      EarlierOccurs(cfg, run);
      var action := run.step.request.action;
      if action.ResetPassword? && Posted(run.before, Mail(to, PasswordResetLink(action.token.raw))) {
        PasswordTokensGoToTheirUser(cfg, run.before, to, action.token.raw);
      }
    }
  }

  lemma EmailRequestIsProof(cfg: Config, t: Tables, env: Env, u: UserId, row: User, password: string, newEmail: string,
                            d: Digest)
    requires d !in t.emailResets && d in CreateEmailReset(cfg, t, env, u, row, password, newEmail).tables.emailResets
    ensures var r := CreateEmailReset(cfg, t, env, u, row, password, newEmail).tables.emailResets[d];
      && r.userId == u && Normalize(newEmail, cfg.parses) == Some(r.newEmail)
      && row.passwordHash.password == password && !Taken(t.users, r.newEmail, {})
  {
  }

  /** An email request begins only with its user, running as such and giving the right password, asking for just
      that address, which nobody has. */
  lemma EmailRequestsBeginWithThePassword(cfg: Config, run: Run, d: Digest)
    requires Occurs(cfg, run) && run.Then? && d !in After(run.before).emailResets && d in After(run).emailResets
    ensures var a, s, action := After(run.before), run.step, run.step.request.action;
      var row := After(run).emailResets[d];
      && action.RequestEmailReset? && s.how.allowed && RunsAs(a, s.env, run.served.auth) == Some(row.userId)
      && action.password == a.users[row.userId].passwordHash.password
      && Normalize(action.newEmail, cfg.parses) == Some(row.newEmail) && !Taken(a.users, row.newEmail, {})
  {
    var s, action, seen := run.step, run.step.request.action, SeenLast(run);
    LastServed(cfg, run);
    AuthenticateDisturbsNothing(After(run.before), s.env, s.request.cookie);
    if !action.RequestEmailReset? {
      EmailRowsAreAskedFor(cfg, seen, s.env, s.how, run.served.auth, action);
    } else if s.how.allowed && RunsAs(seen, s.env, run.served.auth).Some? {
      var u := RunsAs(seen, s.env, run.served.auth).value;
      EmailRequestIsProof(cfg, seen, s.env, u, seen.users[u], action.password, action.newEmail, d);
    }
  }
}
