/** `user.Service`: sign-up, log-in, the resets and the requests for them, statement by statement. */
module UserService {
  import opened LruCaches
  import opened Emails
  import opened Db
  import opened Accounts

  /** Deleting a user's requests also covers the one that the transaction consumed first. */
  lemma ClearingCoversConsumed(t: Tables, id: Digest)
    requires id in t.passwordResets
    ensures var u := t.passwordResets[id].userId;
      WithoutPasswordResetsOf(t.passwordResets - {id}, u) == WithoutPasswordResetsOf(t.passwordResets, u)
  {
  }

  lemma ClearingCoversConsumedEmail(t: Tables, id: Digest)
    ensures id in t.emailResets ==>
      var u := t.emailResets[id].userId;
      WithoutEmailResetsOf(t.emailResets - {id}, u) == WithoutEmailResetsOf(t.emailResets, u)
  {
  }

  class Service {
    const queries: Queries
    const config: Config
    var outbox: seq<Mail>  // Every SendMail so far, whether or not the mail server took it.
    var hashSlots: nat     // Free slots of the hashing semaphore.

    constructor (queries: Queries, config: Config, maxConcurrentHashes: nat)
      requires maxConcurrentHashes > 0
      ensures this.queries == queries && this.config == config
      ensures outbox == [] && hashSlots == maxConcurrentHashes
    {
      this.queries := queries;
      this.config := config;
      outbox, hashSlots := [], maxConcurrentHashes;
    }

    method SendMail(to: string, body: MailBody, env: Env) returns (sent: bool)
      modifies this`outbox
      ensures outbox == old(outbox) + [Mail(to, body)] && (sent <==> MailFails !in env.faults)
    {
      outbox := outbox + [Mail(to, body)];
      sent := MailFails !in env.faults;
    }

    /** Takes a hashing slot if there is one, and gives it back on every path. */
    method CreatePasswordHash(password: string, env: Env) returns (r: Reply<PasswordHash>)
      modifies this`hashSlots
      ensures hashSlots == old(hashSlots)
      ensures r == if old(hashSlots) == 0 then Failed(HashingBusy)
                   else if HashFails in env.faults then Failed(Internal)
                   else Done(Argon2id(password, env.salt))
    {
      if hashSlots == 0 {
        return Failed(HashingBusy);
      }
      hashSlots := hashSlots - 1;
      r := if HashFails in env.faults then Failed(Internal) else Done(Argon2id(password, env.salt));
      hashSlots := hashSlots + 1;
    }

    method VerifyPassword(password: string, hash: PasswordHash, env: Env) returns (r: Reply<bool>)
      modifies this`hashSlots
      ensures hashSlots == old(hashSlots)
      ensures r == if old(hashSlots) == 0 then Failed(HashingBusy)
                   else if VerifyFails in env.faults then Failed(Internal)
                   else Done(hash.password == password)
    {
      if hashSlots == 0 {
        return Failed(HashingBusy);
      }
      hashSlots := hashSlots - 1;
      r := if VerifyFails in env.faults then Failed(Internal) else Done(hash.password == password);
      hashSlots := hashSlots + 1;
    }

    method VerifyReauthentication(row: User, password: string, env: Env) returns (e: Option<Error>)
      requires env.freeSlots == hashSlots
      modifies this`hashSlots
      ensures hashSlots == old(hashSlots) && e == VerifyError(env, password, row.passwordHash)
    {
      var ok := VerifyPassword(password, row.passwordHash, env);
      e := match ok
        case Failed(error) => Some(error)
        case Done(true) => None
        case Done(false) => Some(InvalidCredentials);
    }

    method SignUp(email: string, password: string, env: Env) returns (r: Reply<UserId>)
      requires queries.Valid() && env.freeSlots == hashSlots
      modifies queries, this`hashSlots
      ensures queries.Valid() && hashSlots == old(hashSlots)
      ensures var o := Accounts.SignUp(config, old(queries.Contents()), env, email, password);
        queries.Contents() == o.tables && r == o.reply && o.mails == []
    {
      var trimmed := Trim(email);
      if trimmed == "" {
        return Failed(EmailBlank);
      }
      var weak := PasswordError(config, password);
      if weak.Some? {
        return Failed(weak.value);
      }
      var address := Normalize(trimmed, config.parses);
      if address.None? {
        return Failed(InvalidEmail);
      }
      var hash := CreatePasswordHash(password, env);
      if hash.Failed? {
        return Failed(hash.error);
      }
      var created := queries.CreateUser(address.value, hash.value, CreateUserFails in env.faults);
      r := match created
        case Ok(id) => Done(id)
        case Err(UniqueViolation) => Failed(EmailTaken)
        case Err(_) => Failed(Internal);
    }

    method LogIn(email: string, password: string, env: Env) returns (r: Reply<UserId>)
      requires queries.Valid() && env.freeSlots == hashSlots
      modifies this`hashSlots
      ensures hashSlots == old(hashSlots)
      ensures r == Accounts.LogIn(config, queries.Contents(), env, email, password)
    {
      var trimmed := Trim(email);
      if trimmed == "" || password == "" {
        return Failed(InvalidLogInInput);
      }
      var address := Normalize(trimmed, config.parses);
      if address.None? {
        return Failed(InvalidEmail);
      }
      var found := queries.GetUserByEmail(address.value, GetUserByEmailFails in env.faults);
      if found.Err? {
        return if found.error == NoRows then Failed(InvalidCredentials) else Failed(Internal);
      }
      FoundUserIsUnique(queries.users, address.value, found.value);
      var row := queries.users[found.value];
      if !row.isActive {
        return Failed(InvalidCredentials);
      }
      var ok := VerifyPassword(password, row.passwordHash, env);
      r := match ok
        case Failed(error) => Failed(error)
        case Done(true) => Done(found.value)
        case Done(false) => Failed(InvalidCredentials);
    }

    /** The end of each transaction: drop the user's sessions and reset requests, then commit. */
    method ClearAndCommit(u: UserId, env: Env) returns (ok: bool)
      requires queries.Valid()
      modifies queries
      ensures queries.Valid() && queries.users == old(queries.users) && queries.nextUserId == old(queries.nextUserId)
      ensures ok <==> !ClearingFails(env)
      ensures ok ==> queries.sessions == WithoutSessionsOf(old(queries.sessions), u)
      ensures ok ==> queries.passwordResets == WithoutPasswordResetsOf(old(queries.passwordResets), u)
      ensures ok ==> queries.emailResets == WithoutEmailResetsOf(old(queries.emailResets), u)
    {
      var r := queries.DeleteAllSessionsForUser(u, DeleteAllSessionsFails in env.faults);
      if r.Err? {
        return false;
      }
      var cleared := DeleteOutstandingResetRequests(u, env);
      ok := cleared && CommitFails !in env.faults;
    }

    method DeleteOutstandingResetRequests(u: UserId, env: Env) returns (ok: bool)
      requires queries.Valid()
      modifies queries`passwordResets, queries`emailResets
      ensures queries.Valid()
      ensures ok <==> DeletePasswordResetsFails !in env.faults && DeleteEmailResetsFails !in env.faults
      ensures ok ==> queries.passwordResets == WithoutPasswordResetsOf(old(queries.passwordResets), u)
      ensures ok ==> queries.emailResets == WithoutEmailResetsOf(old(queries.emailResets), u)
    {
      var r := queries.DeletePasswordResetRequestsForUser(u, DeletePasswordResetsFails in env.faults);
      if r.Err? {
        return false;
      }
      r := queries.DeleteEmailResetRequestsForUser(u, DeleteEmailResetsFails in env.faults);
      ok := r.Ok?;
    }

    /** What both password transactions do once they have a hash. */
    method SetPasswordAndCommit(u: UserId, hash: PasswordHash, env: Env) returns (ok: bool)
      requires queries.Valid()
      modifies queries
      ensures queries.Valid() && queries.nextUserId == old(queries.nextUserId)
      ensures ok <==> UpdateUserFails !in env.faults && !ClearingFails(env)
      ensures ok ==> queries.Contents() == SetPassword(old(queries.Contents()), u, hash)
    {
      var updated := queries.UpdatePasswordHash(u, hash, UpdateUserFails in env.faults);
      if updated.Err? {
        return false;
      }
      ok := ClearAndCommit(u, env);
    }

    method ResetPasswordForAuthenticatedUser(u: UserId, row: User, password: string, newPassword: string, env: Env)
      returns (r: Reply<()>)
      requires queries.Valid() && env.freeSlots == hashSlots
      modifies queries, this`hashSlots, this`outbox
      ensures queries.Valid() && hashSlots == old(hashSlots)
      ensures var o := Accounts.ChangePassword(config, old(queries.Contents()), env, u, row, password, newPassword);
        queries.Contents() == o.tables && outbox == old(outbox) + o.mails && r == o.reply
    {
      var denied := VerifyReauthentication(row, password, env);
      if denied.Some? {
        return Failed(denied.value);
      }
      var weak := PasswordError(config, newPassword);
      if weak.Some? {
        return Failed(weak.value);
      }
      var hash := CreatePasswordHash(newPassword, env);
      if hash.Failed? {
        return Failed(hash.error);
      }
      var snapshot := queries.Contents();
      if BeginFails in env.faults {
        return Failed(Internal);
      }
      var committed := SetPasswordAndCommit(u, hash.value, env);
      if !committed {
        queries.Rollback(snapshot);
        return Failed(Internal);
      }
      var _ := SendMail(row.email, PasswordWasReset, env);
      r := Done(());
    }

    method CreatePasswordResetRequest(email: string, env: Env) returns (r: Reply<()>)
      requires queries.Valid()
      modifies queries, this`outbox
      ensures queries.Valid()
      ensures var o := Accounts.CreatePasswordReset(config, old(queries.Contents()), env, email);
        queries.Contents() == o.tables && outbox == old(outbox) + o.mails && r == o.reply
    {
      var address := Normalize(email, config.parses);
      if address.None? {
        return Failed(InvalidEmail);
      }
      var found := queries.GetUserByEmail(address.value, GetUserByEmailFails in env.faults);
      if found.Err? {
        return if found.error == NoRows then Failed(UserNotFound) else Failed(Internal);
      }
      FoundUserIsUnique(queries.users, address.value, found.value);
      r := IssueResetRequest(found.value, address.value, env);
    }

    /** The rest of it, for the user with the address. */
    method IssueResetRequest(u: UserId, address: string, env: Env) returns (r: Reply<()>)
      requires queries.Valid() && u in queries.users
      modifies queries, this`outbox
      ensures queries.Valid()
      ensures var o := Accounts.IssuePasswordReset(old(queries.Contents()), env, u, address);
        queries.Contents() == o.tables && outbox == old(outbox) + o.mails && r == o.reply
    {
      if RandomFails in env.faults {
        return Failed(Internal);
      }
      var created := queries.CreatePasswordResetRequest(Sha256(env.rawId), u, env.now, CreateRequestFails in env.faults);
      if created.Err? {
        return Failed(Internal);
      }
      var sent := SendMail(address, PasswordResetLink(env.rawId), env);
      r := if sent then Done(()) else Failed(Internal);
    }

    method ResetPasswordFromResetRequest(token: Token, newPassword: string, env: Env) returns (r: Reply<()>)
      requires queries.Valid() && env.freeSlots == hashSlots
      modifies queries, this`hashSlots, this`outbox
      ensures queries.Valid() && hashSlots == old(hashSlots)
      ensures var o := Accounts.ResetPassword(config, old(queries.Contents()), env, token, newPassword);
        queries.Contents() == o.tables && outbox == old(outbox) + o.mails && r == o.reply
    {
      var weak := PasswordError(config, newPassword);
      if weak.Some? {
        return Failed(weak.value);
      }
      if token.Malformed? {
        return Failed(InvalidResetToken);
      }
      var snapshot := queries.Contents();
      if BeginFails in env.faults {
        return Failed(Internal);
      }
      var u: UserId;
      r, u := ResetPasswordInTx(token.raw, newPassword, env);
      if r.Failed? {
        queries.Rollback(snapshot);
        return;
      }
      var found := queries.GetUserByID(u, GetUserByIDFails in env.faults);
      if found.Ok? {
        var _ := SendMail(found.value.email, PasswordWasReset, env);
      }
    }

    /** The body of the transaction, up to and including its commit. */
    method ResetPasswordInTx(raw: Bytes, newPassword: string, env: Env) returns (r: Reply<()>, u: UserId)
      requires queries.Valid() && env.freeSlots == hashSlots
      requires PasswordError(config, newPassword).None?
      requires BeginFails !in env.faults
      modifies queries, this`hashSlots
      ensures queries.Valid() && hashSlots == old(hashSlots) && queries.nextUserId == old(queries.nextUserId)
      ensures var e := ResetPasswordError(config, old(queries.Contents()), env, Encodes(raw), newPassword);
        r == if e.Some? then Failed(e.value) else Done(())
      ensures r.Done? ==>
        && u == old(queries.passwordResets)[Sha256(raw)].userId
        && queries.Contents() == SetPassword(old(queries.Contents()), u, Argon2id(newPassword, env.salt))
    {
      u := 0;
      var consumed := queries.ConsumePasswordResetRequest(Sha256(raw), ConsumeRequestFails in env.faults);
      if consumed.Err? {
        return if consumed.error == NoRows then Failed(InvalidResetToken) else Failed(Internal), u;
      }
      var request := consumed.value;
      if env.now > request.createdAt + TOKEN_DURATION {
        return Failed(InvalidResetToken), u;
      }
      var hash := CreatePasswordHash(newPassword, env);
      if hash.Failed? {
        return Failed(hash.error), u;
      }
      var committed := SetPasswordAndCommit(request.userId, hash.value, env);
      if !committed {
        return Failed(Internal), u;
      }
      ClearingCoversConsumed(old(queries.Contents()), Sha256(raw));
      u := request.userId;
      r := Done(());
    }

    method CreateEmailResetRequest(u: UserId, row: User, password: string, newEmail: string, env: Env)
      returns (r: Reply<()>)
      requires queries.Valid() && env.freeSlots == hashSlots
      modifies queries, this`hashSlots, this`outbox
      ensures queries.Valid() && hashSlots == old(hashSlots)
      ensures var o := Accounts.CreateEmailReset(config, old(queries.Contents()), env, u, row, password, newEmail);
        queries.Contents() == o.tables && outbox == old(outbox) + o.mails && r == o.reply
    {
      var address := Normalize(newEmail, config.parses);
      if address.None? {
        return Failed(InvalidEmail);
      }
      var denied := VerifyReauthentication(row, password, env);
      if denied.Some? {
        return Failed(denied.value);
      }
      if address.value == row.email {
        return Failed(EmailTaken);
      }
      var found := queries.GetUserByEmail(address.value, GetUserByEmailFails in env.faults);
      if found.Ok? {
        return Failed(EmailTaken);
      }
      if found.error != NoRows || RandomFails in env.faults {
        return Failed(Internal);
      }
      var created := queries.CreateEmailResetRequest(Sha256(env.rawId), u, address.value, env.now,
                                                     CreateRequestFails in env.faults);
      if created.Err? {
        return Failed(Internal);
      }
      var sent := SendMail(address.value, EmailResetLink(env.rawId), env);
      if !sent {
        return Failed(Internal);
      }
      var _ := SendMail(row.email, EmailChangeRequested, env);
      r := Done(());
    }

    method ResetEmailFromResetRequest(token: Token, env: Env) returns (r: Reply<()>)
      requires queries.Valid()
      modifies queries
      ensures queries.Valid()
      ensures var o := Accounts.ResetEmail(old(queries.Contents()), env, token);
        queries.Contents() == o.tables && o.mails == [] && r == o.reply
    {
      if token.Malformed? {
        return Failed(InvalidResetToken);
      }
      var snapshot := queries.Contents();
      if BeginFails in env.faults {
        return Failed(Internal);
      }
      r := ResetEmailInTx(token.raw, env);
      if r.Failed? {
        queries.Rollback(snapshot);
      }
    }

    /** The body of the transaction, up to and including its commit. */
    method ResetEmailInTx(raw: Bytes, env: Env) returns (r: Reply<()>)
      requires queries.Valid() && BeginFails !in env.faults
      modifies queries
      ensures queries.Valid() && queries.nextUserId == old(queries.nextUserId)
      ensures var e := ResetEmailError(old(queries.Contents()), env, Encodes(raw));
        r == if e.Some? then Failed(e.value) else Done(())
      ensures r.Done? ==>
        var request := old(queries.emailResets)[Sha256(raw)];
        queries.Contents() == SetEmail(old(queries.Contents()), request.userId, request.newEmail)
    {
      var consumed := queries.ConsumeEmailResetRequest(Sha256(raw), ConsumeRequestFails in env.faults);
      if consumed.Err? {
        return if consumed.error == NoRows then Failed(InvalidResetToken) else Failed(Internal);
      }
      var request := consumed.value;
      if env.now > request.createdAt + TOKEN_DURATION {
        return Failed(InvalidResetToken);
      }
      r := SetEmailAndCommit(request.userId, request.newEmail, env);
      ClearingCoversConsumedEmail(old(queries.Contents()), Sha256(raw));
    }

    method SetEmailAndCommit(u: UserId, email: string, env: Env) returns (r: Reply<()>)
      requires queries.Valid()
      modifies queries
      ensures queries.Valid() && queries.nextUserId == old(queries.nextUserId)
      ensures r == if UpdateUserFails in env.faults then Failed(Internal)
                   else if u in old(queries.users) && Taken(old(queries.users), email, {u}) then Failed(EmailTaken)
                   else if ClearingFails(env) then Failed(Internal) else Done(())
      ensures r.Done? ==> queries.Contents() == SetEmail(old(queries.Contents()), u, email)
    {
      var updated := queries.UpdateEmail(u, email, UpdateUserFails in env.faults);
      if updated.Err? {
        return if updated.error == UniqueViolation then Failed(EmailTaken) else Failed(Internal);
      }
      var committed := ClearAndCommit(u, env);
      r := if committed then Done(()) else Failed(Internal);
    }
  }
}
