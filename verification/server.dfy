/** The whole server, one request after another: session middleware, then the handler that the request is for. */
module Servers {
  import opened Db
  import opened Accounts
  import opened Handlers
  import opened Evolution
  import Limiter
  import SessionService
  import UserService

  class Server {
    const users: UserService.Service
    const sessions: SessionService.Service
    const limiter: Limiter.InMemoryLimiter
    const mux: SessionService.Wrapped

    constructor (users: UserService.Service, sessions: SessionService.Service, limiter: Limiter.InMemoryLimiter,
                 mux: SessionService.Wrapped)
      ensures this.users == users && this.sessions == sessions && this.limiter == limiter && this.mux == mux
    {
      this.users, this.sessions, this.limiter, this.mux := users, sessions, limiter, mux;
    }

    ghost predicate Valid()
      reads users, users.queries, limiter, limiter.warnEvict
    {
      users.queries == sessions.queries && users.queries.Valid() && limiter.Valid()
    }

    // The handlers that ask the limiter, each as a case of Act.

    method LogIn(auth: Auth, email: string, password: string, env: Env) returns (a: Answer, ghost how: Settled)
      requires Valid() && env.freeSlots == users.hashSlots
      modifies users.queries, users, limiter, limiter.warnEvict
      ensures Valid() && users.hashSlots == old(users.hashSlots)
      ensures Asks(old(limiter.Contents()), limiter.Contents(), limiter.size,
                   AsLimited(old(users.queries.Contents()), env, auth, Action.LogIn(email, password)),
                   env.now, how.allowed)
      ensures var e := Act(users.config, old(users.queries.Contents()), env, how, auth,
                           Action.LogIn(email, password));
        users.queries.Contents() == e.tables && users.outbox == old(users.outbox) + e.mails && a == e.answer
    {
      a, how := LogInHandler(users, sessions, limiter, email, password, env);
    }

    method ChangePassword(auth: Auth, password: string, newPassword: string, env: Env) returns (a: Answer, ghost how: Settled)
      requires Valid() && env.freeSlots == users.hashSlots
      modifies users.queries, users, limiter, limiter.warnEvict
      ensures Valid() && users.hashSlots == old(users.hashSlots)
      ensures Asks(old(limiter.Contents()), limiter.Contents(), limiter.size,
                   AsLimited(old(users.queries.Contents()), env, auth, Action.ChangePassword(password, newPassword)),
                   env.now, how.allowed)
      ensures var e := Act(users.config, old(users.queries.Contents()), env, how, auth,
                           Action.ChangePassword(password, newPassword));
        users.queries.Contents() == e.tables && users.outbox == old(users.outbox) + e.mails && a == e.answer
    {
      a, how := ChangePasswordHandler(users, limiter, password, newPassword, auth, env);
    }

    method RequestPasswordReset(auth: Auth, email: string, env: Env) returns (a: Answer, ghost how: Settled)
      requires Valid() && env.freeSlots == users.hashSlots
      modifies users.queries, users, limiter, limiter.warnEvict
      ensures Valid() && users.hashSlots == old(users.hashSlots)
      ensures Asks(old(limiter.Contents()), limiter.Contents(), limiter.size,
                   AsLimited(old(users.queries.Contents()), env, auth, Action.RequestPasswordReset(email)),
                   env.now, how.allowed)
      ensures var e := Act(users.config, old(users.queries.Contents()), env, how, auth,
                           Action.RequestPasswordReset(email));
        users.queries.Contents() == e.tables && users.outbox == old(users.outbox) + e.mails && a == e.answer
    {
      a, how := RequestPasswordResetHandler(users, limiter, email, env);
    }

    method RequestEmailReset(auth: Auth, password: string, newEmail: string, env: Env) returns (a: Answer, ghost how: Settled)
      requires Valid() && env.freeSlots == users.hashSlots
      modifies users.queries, users, limiter, limiter.warnEvict
      ensures Valid() && users.hashSlots == old(users.hashSlots)
      ensures Asks(old(limiter.Contents()), limiter.Contents(), limiter.size,
                   AsLimited(old(users.queries.Contents()), env, auth, Action.RequestEmailReset(password, newEmail)),
                   env.now, how.allowed)
      ensures var e := Act(users.config, old(users.queries.Contents()), env, how, auth,
                           Action.RequestEmailReset(password, newEmail));
        users.queries.Contents() == e.tables && users.outbox == old(users.outbox) + e.mails && a == e.answer
    {
      a, how := RequestEmailResetHandler(users, limiter, password, newEmail, auth, env);
    }

    /** The handler of one action that asks the limiter. */
    method DispatchLimited(auth: Auth, action: Action, env: Env) returns (a: Answer, ghost how: Settled)
      requires Valid() && env.freeSlots == users.hashSlots
      requires action.LogIn? || action.ChangePassword? || action.RequestPasswordReset? || action.RequestEmailReset?
      modifies users.queries, users, limiter, limiter.warnEvict
      ensures Valid() && users.hashSlots == old(users.hashSlots)
      ensures Asks(old(limiter.Contents()), limiter.Contents(), limiter.size,
                   AsLimited(old(users.queries.Contents()), env, auth, action), env.now, how.allowed)
      ensures var e := Act(users.config, old(users.queries.Contents()), env, how, auth, action);
        users.queries.Contents() == e.tables && users.outbox == old(users.outbox) + e.mails && a == e.answer
    {
      match action {
        case LogIn(email, password) => a, how := LogIn(auth, email, password, env);
        case ChangePassword(password, newPassword) => a, how := ChangePassword(auth, password, newPassword, env);
        case RequestPasswordReset(email) => a, how := RequestPasswordReset(auth, email, env);
        case RequestEmailReset(password, newEmail) => a, how := RequestEmailReset(auth, password, newEmail, env);
      }
    }

    /** The handler of one action that does not. */
    method DispatchOther(auth: Auth, action: Action, env: Env) returns (a: Answer, ghost how: Settled)
      requires Valid() && env.freeSlots == users.hashSlots
      requires action.SignUp? || action.LogOut? || action.GetUser? || action.ResetPassword? || action.ResetEmail?
      modifies users.queries, users
      ensures Valid() && users.hashSlots == old(users.hashSlots)
      ensures var e := Act(users.config, old(users.queries.Contents()), env, how, auth, action);
        users.queries.Contents() == e.tables && users.outbox == old(users.outbox) + e.mails && a == e.answer
    {
      how := Settled(true, Sha256(env.rawId));
      match action {
        case SignUp(email, password) =>
          ghost var evicted;
          a, evicted := SignUpHandler(users, sessions, email, password, env);
          how := Settled(true, evicted);
        case LogOut => a := LogOutHandler(sessions, auth, env);
        case GetUser => a := GetUserHandler(users.queries, auth, env);
        case ResetPassword(token, newPassword) => a := ResetPasswordHandler(users, token, newPassword, env);
        case ResetEmail(token) => a := ResetEmailHandler(users, token, env);
      }
    }

    /** The mux. */
    method Dispatch(auth: Auth, action: Action, env: Env) returns (a: Answer, ghost how: Settled)
      requires Valid() && env.freeSlots == users.hashSlots
      modifies users.queries, users, limiter, limiter.warnEvict
      ensures Valid() && users.hashSlots == old(users.hashSlots)
      ensures Asks(old(limiter.Contents()), limiter.Contents(), limiter.size,
                   AsLimited(old(users.queries.Contents()), env, auth, action), env.now, how.allowed)
      ensures var e := Act(users.config, old(users.queries.Contents()), env, how, auth, action);
        users.queries.Contents() == e.tables && users.outbox == old(users.outbox) + e.mails && a == e.answer
    {
      if action.LogIn? || action.ChangePassword? || action.RequestPasswordReset? || action.RequestEmailReset? {
        a, how := DispatchLimited(auth, action, env);
      } else {
        a, how := DispatchOther(auth, action, env);
      }
    }

    /** A request from end to end is one step of Serve, and one call of the limiter if it asks it. */
    method ServeHTTP(r: Request, env: Env) returns (a: Answer, ghost how: Settled)
      requires Valid() && env.freeSlots == users.hashSlots
      modifies users.queries, users, limiter, limiter.warnEvict, mux
      ensures Valid() && users.hashSlots == old(users.hashSlots)
      ensures var (seen, auth) := Authenticate(old(users.queries.Contents()), env, r.cookie);
        Asks(old(limiter.Contents()), limiter.Contents(), limiter.size, AsLimited(seen, env, auth, r.action), env.now,
             how.allowed)
      ensures var p := Serve(users.config, old(users.queries.Contents()), env, how, r);
        && users.queries.Contents() == p.tables && users.outbox == old(users.outbox) + p.mails && a == p.answer
        && mux.calls == old(mux.calls) + [p.auth]
    {
      var _ := SessionService.SessionMiddleware(sessions, mux, r.cookie, env);
      var auth := mux.calls[|mux.calls| - 1];
      a, how := Dispatch(auth, r.action, env);
    }
  }
}
