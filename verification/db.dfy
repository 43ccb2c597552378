/** The four tables, their constraints, and one method per SQL statement. */
module Db {
  import opened TokenBucket
  import opened LruCaches
  import opened Emails

  newtype Byte = b: int | 0 <= b < 256
  type Bytes = seq<Byte>

  // SHA-256 and argon2id, taken as injective: a digest is known by what was hashed.
  datatype Digest = Sha256(preimage: Bytes)
  datatype PasswordHash = Argon2id(password: string, salt: Bytes)

  type UserId = nat

  datatype User = User(email: string, passwordHash: PasswordHash, isActive: bool)
  datatype Session = Session(userId: UserId, createdAt: Time, lastSeenAt: Time)
  datatype PasswordResetRequest = PasswordResetRequest(userId: UserId, createdAt: Time)
  datatype EmailResetRequest = EmailResetRequest(userId: UserId, newEmail: string, createdAt: Time)

  datatype Tables = Rows(
    users: map<UserId, User>,
    nextUserId: UserId,
    sessions: map<Digest, Session>,
    passwordResets: map<Digest, PasswordResetRequest>,
    emailResets: map<Digest, EmailResetRequest>)

  datatype DbError = NoRows | UniqueViolation | ForeignKeyViolation | CheckViolation | QueryFailed

  datatype Result<+T> = Ok(value: T) | Err(error: DbError)

  /** UNIQUE on a CITEXT column: no two addresses are equal up to case. */
  ghost predicate UniqueEmails(users: map<UserId, User>) {
    forall u, v | u in users && v in users && u != v :: Lower(users[u].email) != Lower(users[v].email)
  }

  /** The address is some user's, as CITEXT compares. */
  predicate Taken(users: map<UserId, User>, email: string, except: set<UserId>) {
    exists u :: u in users && u !in except && Lower(users[u].email) == Lower(email)
  }

  ghost predicate UsersFit(users: map<UserId, User>, nextUserId: UserId) {
    UniqueEmails(users) && forall u | u in users :: u < nextUserId
  }

  ghost predicate SessionsFit(sessions: map<Digest, Session>, users: set<UserId>) {
    forall d | d in sessions :: sessions[d].userId in users && sessions[d].createdAt <= sessions[d].lastSeenAt
  }

  ghost predicate PasswordResetsFit(resets: map<Digest, PasswordResetRequest>, users: set<UserId>) {
    forall d | d in resets :: resets[d].userId in users
  }

  ghost predicate EmailResetsFit(resets: map<Digest, EmailResetRequest>, users: set<UserId>) {
    forall d | d in resets :: resets[d].userId in users
  }

  /** The constraints of the schema: the email index, the id sequence, the foreign keys, the session check. */
  ghost predicate Consistent(t: Tables) {
    && UsersFit(t.users, t.nextUserId)
    && SessionsFit(t.sessions, t.users.Keys)
    && PasswordResetsFit(t.passwordResets, t.users.Keys)
    && EmailResetsFit(t.emailResets, t.users.Keys)
  }

  /** The sessions of one user. */
  function SessionsOf(sessions: map<Digest, Session>, u: UserId): set<Digest> {
    set d | d in sessions && sessions[d].userId == u
  }

  /** A session that ORDER BY last_seen_at LIMIT 1 may pick for the user. */
  predicate IsLeastRecent(sessions: map<Digest, Session>, u: UserId, d: Digest) {
    && d in SessionsOf(sessions, u)
    && forall e :: e in SessionsOf(sessions, u) ==> sessions[d].lastSeenAt <= sessions[e].lastSeenAt
  }

  lemma {:induction false} SomeLeastRecent(sessions: map<Digest, Session>, among: set<Digest>) returns (d: Digest)
    requires among != {} && among <= sessions.Keys
    ensures d in among && forall e | e in among :: sessions[d].lastSeenAt <= sessions[e].lastSeenAt
  {
    d :| d in among;
    if among != {d} {
      var rest := SomeLeastRecent(sessions, among - {d});
      if sessions[rest].lastSeenAt < sessions[d].lastSeenAt {
        d := rest;
      }
    }
  }

  /** The row that the eviction statement deletes. Ties may fall either way: `choice` decides them. */
  ghost function LeastRecent(sessions: map<Digest, Session>, u: UserId, choice: Digest): (d: Digest)
    requires SessionsOf(sessions, u) != {}
    ensures IsLeastRecent(sessions, u, d)
    ensures IsLeastRecent(sessions, u, choice) ==> d == choice
  {
    if IsLeastRecent(sessions, u, choice) then choice
    else
      assert exists d :: IsLeastRecent(sessions, u, d) by {
        var d := SomeLeastRecent(sessions, SessionsOf(sessions, u));
        assert IsLeastRecent(sessions, u, d);
      }
      var d :| IsLeastRecent(sessions, u, d);
      d
  }

  lemma CountOneMore(counted: set<Digest>, rest: set<Digest>, d: Digest)
    requires d in rest
    ensures |counted - (rest - {d})| == |counted - rest| + if d in counted then 1 else 0
  {
    assert counted - (rest - {d}) == (counted - rest) + if d in counted then {d} else {};
  }

  function WithoutSessionsOf(sessions: map<Digest, Session>, u: UserId): map<Digest, Session> {
    map d | d in sessions && sessions[d].userId != u :: sessions[d]
  }

  function WithoutPasswordResetsOf(resets: map<Digest, PasswordResetRequest>, u: UserId): map<Digest, PasswordResetRequest> {
    map d | d in resets && resets[d].userId != u :: resets[d]
  }

  function WithoutEmailResetsOf(resets: map<Digest, EmailResetRequest>, u: UserId): map<Digest, EmailResetRequest> {
    map d | d in resets && resets[d].userId != u :: resets[d]
  }

  /** `Queries`: every method is one statement. `fails` says whether the query itself fails. */
  class Queries {
    var users: map<UserId, User>
    var nextUserId: UserId
    var sessions: map<Digest, Session>
    var passwordResets: map<Digest, PasswordResetRequest>
    var emailResets: map<Digest, EmailResetRequest>

    function Contents(): Tables
      reads this
    {
      Rows(users, nextUserId, sessions, passwordResets, emailResets)
    }

    ghost predicate Valid()
      reads this
    {
      Consistent(Contents())
    }

    constructor ()
      ensures Valid() && Contents() == Rows(map[], 0, map[], map[], map[])
    {
      users, nextUserId, sessions, passwordResets, emailResets := map[], 0, map[], map[], map[];
    }

    method CreateUser(email: string, passwordHash: PasswordHash, fails: bool) returns (r: Result<UserId>)
      requires Valid()
      modifies this`users, this`nextUserId
      ensures Valid()
      ensures fails ==> r == Err(QueryFailed) && users == old(users) && nextUserId == old(nextUserId)
      ensures !fails ==> nextUserId == old(nextUserId) + 1
      ensures !fails && Taken(old(users), email, {}) ==> r == Err(UniqueViolation) && users == old(users)
      ensures !fails && !Taken(old(users), email, {}) ==>
        r == Ok(old(nextUserId)) && users == old(users)[old(nextUserId) := User(email, passwordHash, true)]
    {
      if fails {
        return Err(QueryFailed);
      }
      var id := nextUserId;
      nextUserId := nextUserId + 1; // A failed insert uses up its id all the same.
      if Taken(users, email, {}) {
        return Err(UniqueViolation);
      }
      users := users[id := User(email, passwordHash, true)];
      r := Ok(id);
    }

    method GetUserByEmail(email: string, fails: bool) returns (r: Result<UserId>)
      requires Valid()
      ensures fails ==> r == Err(QueryFailed)
      ensures !fails && !Taken(users, email, {}) ==> r == Err(NoRows)
      ensures !fails && Taken(users, email, {}) ==>
        r.Ok? && r.value in users && Lower(users[r.value].email) == Lower(email)
    {
      if fails {
        return Err(QueryFailed);
      }
      if u :| u in users && Lower(users[u].email) == Lower(email) {
        return Ok(u);
      }
      r := Err(NoRows);
    }

    method GetUserByID(id: UserId, fails: bool) returns (r: Result<User>)
      ensures r.Ok? <==> !fails && id in users
      ensures r.Ok? ==> r.value == users[id]
      ensures r == Err(NoRows) <==> !fails && id !in users
      ensures r == Err(QueryFailed) <==> fails
    {
      if fails {
        return Err(QueryFailed);
      }
      r := if id in users then Ok(users[id]) else Err(NoRows);
    }

    method UpdateEmail(id: UserId, email: string, fails: bool) returns (r: Result<()>)
      requires Valid()
      modifies this`users
      ensures Valid()
      ensures fails ==> r == Err(QueryFailed)
      ensures !fails ==> r == if id in users && Taken(old(users), email, {id}) then Err(UniqueViolation) else Ok(())
      ensures users == if r.Ok? && id in old(users) then old(users)[id := old(users)[id].(email := email)] else old(users)
    {
      if fails {
        return Err(QueryFailed);
      }
      if id in users {
        if Taken(users, email, {id}) {
          return Err(UniqueViolation);
        }
        users := users[id := users[id].(email := email)];
      }
      r := Ok(());
    }

    method UpdatePasswordHash(id: UserId, passwordHash: PasswordHash, fails: bool) returns (r: Result<()>)
      requires Valid()
      modifies this`users
      ensures Valid() && r == if fails then Err(QueryFailed) else Ok(())
      ensures users
           == if r.Ok? && id in old(users) then old(users)[id := old(users)[id].(passwordHash := passwordHash)]
              else old(users)
    {
      if fails {
        return Err(QueryFailed);
      }
      if id in users {
        users := users[id := users[id].(passwordHash := passwordHash)];
      }
      r := Ok(());
    }

    method CreateSession(id: Digest, userId: UserId, now: Time, fails: bool) returns (r: Result<Session>)
      requires Valid()
      modifies this`sessions
      ensures Valid()
      ensures fails ==> r == Err(QueryFailed)
      ensures !fails ==> r == if id in old(sessions) then Err(UniqueViolation)
                              else if userId !in users then Err(ForeignKeyViolation)
                              else Ok(Session(userId, now, now))
      ensures sessions == if r.Ok? then old(sessions)[id := r.value] else old(sessions)
    {
      if fails {
        return Err(QueryFailed);
      }
      if id in sessions {
        return Err(UniqueViolation);
      }
      if userId !in users {
        return Err(ForeignKeyViolation);
      }
      sessions := sessions[id := Session(userId, now, now)];
      r := Ok(sessions[id]);
    }

    method DeleteAllSessionsForUser(userId: UserId, fails: bool) returns (r: Result<()>)
      requires Valid()
      modifies this`sessions
      ensures Valid() && r == if fails then Err(QueryFailed) else Ok(())
      ensures sessions == if r.Ok? then WithoutSessionsOf(old(sessions), userId) else old(sessions)
    {
      if fails {
        return Err(QueryFailed);
      }
      sessions := WithoutSessionsOf(sessions, userId);
      r := Ok(());
    }

    /** Also hands back the row it took, which the statement itself does not report. */
    method DeleteLeastRecentlyUsedSessionForUser(userId: UserId, fails: bool)
      returns (r: Result<()>, ghost victim: Option<Digest>)
      requires Valid()
      modifies this`sessions
      ensures Valid() && r == if fails then Err(QueryFailed) else Ok(())
      ensures victim.None? <==> fails || SessionsOf(old(sessions), userId) == {}
      ensures victim.Some? ==> IsLeastRecent(old(sessions), userId, victim.value)
      ensures sessions == if victim.Some? then old(sessions) - {victim.value} else old(sessions)
    {
      if fails {
        return Err(QueryFailed), None;
      }
      r, victim := Ok(()), None;
      var candidates := SessionsOf(sessions, userId);
      if candidates != {} {
        var oldest: Digest :| oldest in candidates;
        var rest := candidates - {oldest};
        while rest != {}
          invariant oldest in candidates && rest <= candidates
          invariant forall e | e in candidates - rest :: sessions[oldest].lastSeenAt <= sessions[e].lastSeenAt
          decreases rest
        {
          var d :| d in rest;
          rest := rest - {d};
          if sessions[d].lastSeenAt < sessions[oldest].lastSeenAt {
            oldest := d;
          }
        }
        victim := Some(oldest);
        sessions := sessions - {oldest};
      }
    }

    method DeleteSession(id: Digest, fails: bool) returns (r: Result<()>)
      requires Valid()
      modifies this`sessions
      ensures Valid() && r == if fails then Err(QueryFailed) else Ok(())
      ensures sessions == if r.Ok? then old(sessions) - {id} else old(sessions)
    {
      if fails {
        return Err(QueryFailed);
      }
      sessions := sessions - {id};
      r := Ok(());
    }

    /** Finds only sessions of active users. */
    method GetSession(id: Digest, fails: bool) returns (r: Result<Session>)
      requires Valid()
      ensures r == if fails then Err(QueryFailed)
                   else if id in sessions && users[sessions[id].userId].isActive then Ok(sessions[id])
                   else Err(NoRows)
    {
      if fails {
        return Err(QueryFailed);
      }
      if id in sessions && users[sessions[id].userId].isActive {
        return Ok(sessions[id]);
      }
      r := Err(NoRows);
    }

    method GetSessionCountByUser(userId: UserId, fails: bool) returns (r: Result<nat>)
      ensures if fails then r == Err(QueryFailed) else r.Ok? && r.value == |SessionsOf(sessions, userId)|
    {
      if fails {
        return Err(QueryFailed);
      }
      var count, rest := 0, sessions.Keys;
      while rest != {}
        invariant rest <= sessions.Keys
        invariant count == |SessionsOf(sessions, userId) - rest|
        decreases rest
      {
        var d :| d in rest;
        CountOneMore(SessionsOf(sessions, userId), rest, d);
        if sessions[d].userId == userId {
          count := count + 1;
        }
        rest := rest - {d};
      }
      assert SessionsOf(sessions, userId) - {} == SessionsOf(sessions, userId);
      r := Ok(count);
    }

    /** The schema demands created_at <= last_seen_at. */
    method UpdateSessionLastSeenToNow(id: Digest, now: Time, fails: bool) returns (r: Result<Session>)
      requires Valid()
      modifies this`sessions
      ensures Valid()
      ensures fails ==> r == Err(QueryFailed)
      ensures !fails ==> r == if id !in old(sessions) then Err(NoRows)
                              else if now < old(sessions)[id].createdAt then Err(CheckViolation)
                              else Ok(old(sessions)[id].(lastSeenAt := now))
      ensures sessions == if r.Ok? then old(sessions)[id := r.value] else old(sessions)
    {
      if fails {
        return Err(QueryFailed);
      }
      if id !in sessions {
        return Err(NoRows);
      }
      if now < sessions[id].createdAt {
        return Err(CheckViolation);
      }
      sessions := sessions[id := sessions[id].(lastSeenAt := now)];
      r := Ok(sessions[id]);
    }

    method CreatePasswordResetRequest(id: Digest, userId: UserId, now: Time, fails: bool) returns (r: Result<()>)
      requires Valid()
      modifies this`passwordResets
      ensures Valid()
      ensures fails ==> r == Err(QueryFailed)
      ensures !fails ==> r == if id in old(passwordResets) then Err(UniqueViolation)
                              else if userId !in users then Err(ForeignKeyViolation) else Ok(())
      ensures passwordResets
           == if r.Ok? then old(passwordResets)[id := PasswordResetRequest(userId, now)] else old(passwordResets)
    {
      if fails {
        return Err(QueryFailed);
      }
      if id in passwordResets {
        return Err(UniqueViolation);
      }
      if userId !in users {
        return Err(ForeignKeyViolation);
      }
      passwordResets := passwordResets[id := PasswordResetRequest(userId, now)];
      r := Ok(());
    }

    /** DELETE ... RETURNING: the row is gone with the answer. */
    method ConsumePasswordResetRequest(id: Digest, fails: bool) returns (r: Result<PasswordResetRequest>)
      requires Valid()
      modifies this`passwordResets
      ensures Valid()
      ensures r == if fails then Err(QueryFailed)
                   else if id in old(passwordResets) then Ok(old(passwordResets)[id]) else Err(NoRows)
      ensures passwordResets == if r.Ok? then old(passwordResets) - {id} else old(passwordResets)
    {
      if fails {
        return Err(QueryFailed);
      }
      if id !in passwordResets {
        return Err(NoRows);
      }
      r := Ok(passwordResets[id]);
      passwordResets := passwordResets - {id};
    }

    method DeletePasswordResetRequestsForUser(userId: UserId, fails: bool) returns (r: Result<()>)
      requires Valid()
      modifies this`passwordResets
      ensures Valid() && r == if fails then Err(QueryFailed) else Ok(())
      ensures passwordResets
           == if r.Ok? then WithoutPasswordResetsOf(old(passwordResets), userId) else old(passwordResets)
    {
      if fails {
        return Err(QueryFailed);
      }
      passwordResets := WithoutPasswordResetsOf(passwordResets, userId);
      r := Ok(());
    }

    method CreateEmailResetRequest(id: Digest, userId: UserId, newEmail: string, now: Time, fails: bool)
      returns (r: Result<()>)
      requires Valid()
      modifies this`emailResets
      ensures Valid()
      ensures fails ==> r == Err(QueryFailed)
      ensures !fails ==> r == if id in old(emailResets) then Err(UniqueViolation)
                              else if userId !in users then Err(ForeignKeyViolation) else Ok(())
      ensures emailResets
           == if r.Ok? then old(emailResets)[id := EmailResetRequest(userId, newEmail, now)] else old(emailResets)
    {
      if fails {
        return Err(QueryFailed);
      }
      if id in emailResets {
        return Err(UniqueViolation);
      }
      if userId !in users {
        return Err(ForeignKeyViolation);
      }
      emailResets := emailResets[id := EmailResetRequest(userId, newEmail, now)];
      r := Ok(());
    }

    method ConsumeEmailResetRequest(id: Digest, fails: bool) returns (r: Result<EmailResetRequest>)
      requires Valid()
      modifies this`emailResets
      ensures Valid()
      ensures r == if fails then Err(QueryFailed)
                   else if id in old(emailResets) then Ok(old(emailResets)[id]) else Err(NoRows)
      ensures emailResets == if r.Ok? then old(emailResets) - {id} else old(emailResets)
    {
      if fails {
        return Err(QueryFailed);
      }
      if id !in emailResets {
        return Err(NoRows);
      }
      r := Ok(emailResets[id]);
      emailResets := emailResets - {id};
    }

    method DeleteEmailResetRequestsForUser(userId: UserId, fails: bool) returns (r: Result<()>)
      requires Valid()
      modifies this`emailResets
      ensures Valid() && r == if fails then Err(QueryFailed) else Ok(())
      ensures emailResets == if r.Ok? then WithoutEmailResetsOf(old(emailResets), userId) else old(emailResets)
    {
      if fails {
        return Err(QueryFailed);
      }
      emailResets := WithoutEmailResetsOf(emailResets, userId);
      r := Ok(());
    }

    /** ROLLBACK: everything the transaction wrote is undone, except that no id is handed out twice. */
    method Rollback(snapshot: Tables)
      requires Consistent(snapshot) && snapshot.nextUserId == nextUserId
      modifies this
      ensures Valid() && Contents() == snapshot
    {
      users, sessions := snapshot.users, snapshot.sessions;
      passwordResets, emailResets := snapshot.passwordResets, snapshot.emailResets;
    }
  }
}
