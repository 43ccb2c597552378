/** `session.Service` and the session middleware, statement by statement. */
module SessionService {
  import opened Db
  import opened Accounts

  class Service {
    const queries: Queries

    constructor (queries: Queries)
      ensures this.queries == queries
    {
      this.queries := queries;
    }

    /** `choice` is the session that the database evicted, if it evicted one. */
    method CreateSession(userId: UserId, env: Env) returns (r: Reply<Bytes>, ghost choice: Digest)
      requires queries.Valid()
      modifies queries
      ensures queries.Valid()
      ensures var o := Accounts.CreateSession(old(queries.Contents()), env, userId, choice);
        queries.Contents() == o.tables && r == o.reply
    {
      choice := Sha256(env.rawId);
      var count := queries.GetSessionCountByUser(userId, CountSessionsFails in env.faults);
      if count.Err? {
        return Failed(Internal), choice;
      }
      if count.value >= MAX_ACTIVE_SESSIONS {
        ghost var victim;
        var evicted;
        evicted, victim := queries.DeleteLeastRecentlyUsedSessionForUser(userId, EvictSessionFails in env.faults);
        if evicted.Err? {
          return Failed(Internal), choice;
        }
        assert SessionsOf(old(queries.sessions), userId) != {};
        choice := victim.value;
      }
      if RandomFails in env.faults {
        return Failed(Internal), choice;
      }
      var inserted := queries.CreateSession(Sha256(env.rawId), userId, env.now, CreateSessionFails in env.faults);
      if inserted.Err? {
        r := if inserted.error == ForeignKeyViolation then Failed(UserNotFound) else Failed(Internal);
        return;
      }
      r := Done(env.rawId);
    }

    method GetSession(rawId: Bytes, env: Env) returns (r: Reply<Session>)
      requires queries.Valid()
      ensures r == if GetSessionFails in env.faults then Failed(Internal)
                   else if Stored(queries.Contents(), Sha256(rawId)) then Done(queries.sessions[Sha256(rawId)])
                   else Failed(SessionNotFound)
    {
      var found := queries.GetSession(Sha256(rawId), GetSessionFails in env.faults);
      r := match found
        case Ok(s) => Done(s)
        case Err(NoRows) => Failed(SessionNotFound)
        case Err(_) => Failed(Internal);
    }

    method DeleteSession(id: Digest, env: Env) returns (r: Reply<()>)
      requires queries.Valid()
      modifies queries
      ensures queries.Valid()
      ensures r == if DeleteSessionFails in env.faults then Failed(Internal) else Done(())
      ensures queries.Contents() == if r.Failed? then old(queries.Contents())
                                    else old(queries.Contents()).(sessions := old(queries.sessions) - {id})
    {
      var deleted := queries.DeleteSession(id, DeleteSessionFails in env.faults);
      r := if deleted.Err? then Failed(Internal) else Done(());
    }

    /** Decides by the session as it was looked up; the row itself may have changed or gone since. */
    method UpdateLastSeen(id: Digest, session: Session, env: Env) returns (r: Reply<()>)
      requires queries.Valid()
      modifies queries
      ensures queries.Valid()
      ensures var row := old(queries.sessions);
        var touches := ShouldUpdateLastSeen(session, env.now);
        var works := TouchSessionFails !in env.faults && id in row && row[id].createdAt <= env.now;
        && (r.Failed? <==> touches && !works)
        && queries.Contents() == old(queries.Contents()).(sessions :=
             if touches && works then row[id := row[id].(lastSeenAt := env.now)] else row)
      ensures id in old(queries.sessions) && old(queries.sessions)[id] == session ==>
        queries.sessions == Touched(old(queries.sessions), id, env)
    {
      r := Done(());
      if ShouldUpdateLastSeen(session, env.now) {
        var touched := queries.UpdateSessionLastSeenToNow(id, env.now, TouchSessionFails in env.faults);
        if touched.Err? {
          r := Failed(Internal);
        }
      }
    }

    method DeleteAllSessionsForUser(userId: UserId, env: Env) returns (r: Reply<()>)
      requires queries.Valid()
      modifies queries
      ensures queries.Valid()
      ensures r == if DeleteAllSessionsFails in env.faults then Failed(Internal) else Done(())
      ensures queries.Contents()
           == if r.Failed? then old(queries.Contents())
              else old(queries.Contents()).(sessions := WithoutSessionsOf(old(queries.sessions), userId))
    {
      var deleted := queries.DeleteAllSessionsForUser(userId, DeleteAllSessionsFails in env.faults);
      r := if deleted.Err? then Failed(Internal) else Done(());
    }
  }

  /** The handler that the middleware wraps, as the middleware sees it: what it was called with, call by call. */
  class Wrapped {
    var calls: seq<Auth>

    constructor ()
      ensures calls == []
    {
      calls := [];
    }

    method ServeHTTP(auth: Auth)
      modifies this
      ensures calls == old(calls) + [auth]
    {
      calls := calls + [auth];
    }
  }

  /** `CreateSessionMiddleware`: on every path `next` is called once, with the session if it is alive, and the
      cookie is cleared just when it is known to be useless. */
  method SessionMiddleware(service: Service, next: Wrapped, cookie: Cookie, env: Env) returns (clearsCookie: bool)
    requires service.queries.Valid()
    modifies service.queries, next
    ensures service.queries.Valid()
    ensures service.queries.Contents() == Authenticate(old(service.queries.Contents()), env, cookie).0
    ensures next.calls == old(next.calls) + [Authenticate(old(service.queries.Contents()), env, cookie).1]
    ensures clearsCookie <==>
      && Authenticate(old(service.queries.Contents()), env, cookie).1.Anonymous?
      && (cookie.NotBase64? || (cookie.Carries? && GetSessionFails !in env.faults))
  {
    if cookie.NoCookie? {
      next.ServeHTTP(Anonymous);
      return false;
    }
    if cookie.NotBase64? {
      next.ServeHTTP(Anonymous);
      return true;
    }
    var found := service.GetSession(cookie.raw, env);
    if found.Failed? {
      next.ServeHTTP(Anonymous);
      return found.error == SessionNotFound;
    }
    var id, session := Sha256(cookie.raw), found.value;
    if IsExpired(session, env.now) {
      var _ := service.DeleteSession(id, env);
      next.ServeHTTP(Anonymous);
      return true;
    }
    var _ := service.UpdateLastSeen(id, session, env);
    next.ServeHTTP(As(id, session));
    clearsCookie := false;
  }

  /** `WithUser`: the handler runs as the user of the session, resolved now. */
  method WithUser(queries: Queries, auth: Auth, env: Env) returns (r: Reply<(UserId, User)>)
    requires queries.Valid()
    ensures r == if auth.Anonymous? then Failed(InvalidCredentials)
                 else if GetUserByIDFails in env.faults || auth.session.userId !in queries.users then Failed(Internal)
                 else Done((auth.session.userId, queries.users[auth.session.userId]))
  {
    if auth.Anonymous? {
      return Failed(InvalidCredentials);
    }
    var found := queries.GetUserByID(auth.session.userId, GetUserByIDFails in env.faults);
    r := if found.Err? then Failed(Internal) else Done((auth.session.userId, found.value));
  }
}
