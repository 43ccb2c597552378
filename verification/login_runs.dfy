/** Where the limiter and the accounts meet: how often a run of the whole server can try a password of one account.
    A request is one step, as in Runs; the limiter serves its calls in that order. */
module LoginRuns {
  import opened Arithmetic
  import opened TokenBucket
  import opened LruCaches
  import opened Emails
  import opened Db
  import opened Accounts
  import opened Runs
  import opened Evolution
  import opened Handlers
  import opened Servers
  import LimiterBounds
  import LimiterRefinement
  import LoginBound

  function EmailsOf(users: map<UserId, User>): map<UserId, string> {
    map u | u in users :: users[u].email
  }

  /** What the last request is to the limiter, if it asks it. */
  function LimitedLast(run: Run): Option<LoginBound.Request>
    requires run.Then?
  {
    AsLimited(SeenLast(run), run.step.env, run.served.auth, run.step.request.action)
  }

  /** The requests of the run that ask the limiter. */
  function TrafficOf(run: Run): LoginBound.Traffic {
    if run.Start? then LoginBound.Quiet
    else match LimitedLast(run)
      case None => TrafficOf(run.before)
      case Some(r) => LoginBound.Served(TrafficOf(run.before), r, run.step.env.now, EmailsOf(After(run.before).users))
  }

  /** The answers in the run are those of one limiter of this size. */
  ghost predicate LimitsHold(size: nat, run: Run)
    requires size >= 1
  {
    run.Then? ==>
      && LimitsHold(size, run.before)
      && (LimitedLast(run).Some? ==>
           run.step.how.allowed == LimiterRefinement.LastOutcome(size, TrafficOf(run).Calls()).allowed)
  }

  /** The three ways in which a request can try a password of an account. */
  datatype Way = ByLogIn | ByChangingPassword | ByChangingEmail

  /** How a request tries a password of this account, if it does: it gets past the limiter, as a log-in that finds the
      account, or running as its user. Guesses shows that all other requests do the same whatever the password is. */
  ghost function TriesAs(cfg: Config, users: map<UserId, User>, allowed: bool, asked: Option<LoginBound.Request>,
                         u: UserId): Option<Way> {
    if !allowed then None
    else match asked
      case Some(LogIn(email)) =>
        if Normalize(Trim(email), cfg.parses).Some?
           && FindUser(users, Normalize(Trim(email), cfg.parses).value) == Some(u)
        then Some(ByLogIn) else None
      case Some(ChangePassword(v)) => if v == u then Some(ByChangingPassword) else None
      case Some(RequestEmailReset(v)) => if v == u then Some(ByChangingEmail) else None
      case _ => None
  }

  ghost function TriesLast(cfg: Config, run: Run, u: UserId): Option<Way>
    requires run.Then?
  {
    TriesAs(cfg, After(run.before).users, run.step.how.allowed, LimitedLast(run), u)
  }

  ghost predicate TriesIn(cfg: Config, run: Run, u: UserId, a: Time, b: Time)
    requires run.Then?
  {
    TriesLast(cfg, run, u).Some? && a <= run.step.env.now <= b
  }

  /** How many passwords the run tries for the account in [a, b]. */
  ghost function Tries(cfg: Config, run: Run, u: UserId, a: Time, b: Time): nat {
    if run.Start? then 0
    else Tries(cfg, run.before, u, a, b) + if TriesIn(cfg, run, u, a, b) then 1 else 0
  }

  /** How many of them in one of the ways. */
  ghost function TriesBy(way: Way, cfg: Config, run: Run, u: UserId, a: Time, b: Time): nat {
    if run.Start? then 0
    else TriesBy(way, cfg, run.before, u, a, b)
         + if TriesIn(cfg, run, u, a, b) && TriesLast(cfg, run, u).value == way then 1 else 0
  }

  lemma {:induction false} ThreeWays(cfg: Config, run: Run, u: UserId, a: Time, b: Time)
    ensures Tries(cfg, run, u, a, b)
         == TriesBy(ByLogIn, cfg, run, u, a, b) + TriesBy(ByChangingPassword, cfg, run, u, a, b)
            + TriesBy(ByChangingEmail, cfg, run, u, a, b)
  {
    if run.Then? {
      ThreeWays(cfg, run.before, u, a, b);
    }
  }

  /** At every request in [a, b], the account's address, if it is there, is one of these up to case. */
  ghost predicate HasOnly(run: Run, u: UserId, addresses: seq<string>, a: Time, b: Time) {
    run.Then? ==>
      && HasOnly(run.before, u, addresses, a, b)
      && (a <= run.step.env.now <= b && u in After(run.before).users ==>
           Lower(After(run.before).users[u].email) in addresses)
  }

  lemma NormalizeTrims(email: string, parses: string -> bool)
    ensures Normalize(Trim(email), parses) == Normalize(email, parses)
  {
    TrimTwice(email);
  }

  lemma {:induction false} TrafficIsInOrder(run: Run)
    requires Fair(run)
    ensures TrafficOf(run).InOrder()
    ensures TrafficOf(run).Served? ==> run.Then? && TrafficOf(run).time <= run.step.env.now
  {
    if run.Then? {
      TrafficIsInOrder(run.before);
    }
  }

  lemma {:induction false} TrafficHasOnly(run: Run, u: UserId, addresses: seq<string>, a: Time, b: Time)
    requires HasOnly(run, u, addresses, a, b)
    ensures TrafficOf(run).HasOnly(u, addresses, a, b)
  {
    if run.Then? {
      TrafficHasOnly(run.before, u, addresses, a, b);
    }
  }

  lemma TryResolves(cfg: Config, run: Run, u: UserId)
    requires run.Then? && TriesLast(cfg, run, u) == Some(ByLogIn)
    ensures LimitedLast(run).Some? && LimitedLast(run).value.LogIn?
    ensures LoginBound.ResolvesTo(LimitedLast(run).value.email, u, EmailsOf(After(run.before).users), cfg.parses)
  {
    NormalizeTrims(LimitedLast(run).value.email, cfg.parses);
  }

  lemma {:induction false} TriesAreLogIns(cfg: Config, size: nat, run: Run, u: UserId, a: Time, b: Time)
    requires size >= 1 && LimitsHold(size, run)
    ensures TriesBy(ByLogIn, cfg, run, u, a, b)
         <= LoginBound.LogInsAgainst(size, TrafficOf(run), u, a, b, cfg.parses)
  {
    if run.Then? {
      TriesAreLogIns(cfg, size, run.before, u, a, b);
      if TriesLast(cfg, run, u) == Some(ByLogIn) && a <= run.step.env.now <= b {
        TryIsLogIn(cfg, size, run, u, a, b);
      }
    }
  }

  lemma TryIsLogIn(cfg: Config, size: nat, run: Run, u: UserId, a: Time, b: Time)
    requires size >= 1 && run.Then? && LimitsHold(size, run) && a <= run.step.env.now <= b
    requires TriesLast(cfg, run, u) == Some(ByLogIn)
    ensures LoginBound.LogInsAgainst(size, TrafficOf(run), u, a, b, cfg.parses)
         == LoginBound.LogInsAgainst(size, TrafficOf(run.before), u, a, b, cfg.parses) + 1
  {
    TryResolves(cfg, run, u);
  }

  /** What a try by someone who is logged in asks of the limiter. */
  function RequestOf(way: Way, u: UserId): LoginBound.Request
    requires !way.ByLogIn?
  {
    if way.ByChangingPassword? then LoginBound.ChangePassword(u) else LoginBound.RequestEmailReset(u)
  }

  lemma {:induction false} TriesAreAdmitted(way: Way, cfg: Config, size: nat, run: Run, u: UserId, a: Time, b: Time)
    requires size >= 1 && LimitsHold(size, run) && !way.ByLogIn?
    ensures TriesBy(way, cfg, run, u, a, b)
         <= LimiterBounds.Admitted(size, TrafficOf(run).Calls(), LoginBound.Key(RequestOf(way, u)), a, b)
  {
    if run.Then? {
      TriesAreAdmitted(way, cfg, size, run.before, u, a, b);
      if TriesLast(cfg, run, u) == Some(way) {
        assert LimitedLast(run) == Some(RequestOf(way, u));
      }
    }
  }

  lemma TriesByAreBounded(way: Way, cfg: Config, size: nat, run: Run, u: UserId, a: Time, b: Time)
    requires size >= 1 && a <= b && Fair(run) && LimitsHold(size, run) && !way.ByLogIn?
    requires TrafficOf(run).Calls().Sparse(size, HOUR)
    ensures TriesBy(way, cfg, run, u, a, b)
         <= if way.ByChangingPassword? then 5 + (b - a) / (12 * MINUTE) else 3 + (b - a) / (20 * MINUTE)
  {
    var r := RequestOf(way, u);
    TriesAreAdmitted(way, cfg, size, run, u, a, b);
    TrafficIsInOrder(run);
    LoginBound.KeyBound(size, TrafficOf(run), LoginBound.Key(r), r, a, b);
    UserLimits(way, u);
  }

  lemma UserLimits(way: Way, u: UserId)
    requires !way.ByLogIn?
    ensures var p := LoginBound.PolicyFor(RequestOf(way, u));
      if way.ByChangingPassword? then p.count == 5 && Interval(p) == 12 * MINUTE
      else p.count == 3 && Interval(p) == 20 * MINUTE
  {
  }

  /** Over any window [a, b] of any run of the whole server, log-ins try at most 10 + (b - a) / 90s passwords for one
      account for each address that it has in the window, whatever spelling, which cookies and which other requests come
      with them, while the limiter has room. */
  lemma LogInTriesAreBounded(cfg: Config, size: nat, run: Run, u: UserId, addresses: seq<string>, a: Time,
                                b: Time)
    requires size >= 1 && a <= b && Fair(run) && LimitsHold(size, run) && HasOnly(run, u, addresses, a, b)
    requires TrafficOf(run).Calls().Sparse(size, HOUR)
    ensures TriesBy(ByLogIn, cfg, run, u, a, b) <= Times(|addresses|, 10 + (b - a) / (3 * MINUTE / 2))
  {
    TrafficIsInOrder(run);
    TrafficHasOnly(run, u, addresses, a, b);
    TriesAreLogIns(cfg, size, run, u, a, b);
    LoginBound.LoginBoundPerAccount(size, TrafficOf(run), u, addresses, a, b, cfg.parses);
  }

  /** All requests together, those of people who are logged in as the account too, try at most so many. */
  lemma PasswordTriesAreBounded(cfg: Config, size: nat, run: Run, u: UserId, addresses: seq<string>, a: Time,
                                b: Time)
    requires size >= 1 && a <= b && Fair(run) && LimitsHold(size, run) && HasOnly(run, u, addresses, a, b)
    requires TrafficOf(run).Calls().Sparse(size, HOUR)
    ensures Tries(cfg, run, u, a, b)
         <= Times(|addresses|, 10 + (b - a) / (3 * MINUTE / 2)) + 5 + (b - a) / (12 * MINUTE) + 3 + (b - a) / (20 * MINUTE)
  {
    ThreeWays(cfg, run, u, a, b);
    LogInTriesAreBounded(cfg, size, run, u, addresses, a, b);
    TriesByAreBounded(ByChangingPassword, cfg, size, run, u, a, b);
    TriesByAreBounded(ByChangingEmail, cfg, size, run, u, a, b);
  }

  // ---- The modelled server makes such runs ----

  /** The run is of these requests, answered so. */
  predicate Records(run: Run, requests: seq<(Request, Env)>, answers: seq<Answer>)
    decreases |requests|
  {
    && |answers| == |requests|
    && if requests == [] then run.Start?
       else
         var n := |requests| - 1;
         && run.Then? && run.step.request == requests[n].0 && run.step.env == requests[n].1
         && run.served.answer == answers[n] && Records(run.before, requests[..n], answers[..n])
  }

  lemma RecordsOneMore(run: Run, next: Run, requests: seq<(Request, Env)>, i: nat, answers: seq<Answer>, a: Answer)
    requires i < |requests| && Records(run, requests[..i], answers)
    requires next.Then? && next.before == run && next.served.answer == a
    requires next.step.request == requests[i].0 && next.step.env == requests[i].1
    ensures Records(next, requests[..i + 1], answers + [a])
  {
    assert requests[..i + 1][..i] == requests[..i] && (answers + [a])[..i] == answers;
  }

  /** Everything the run handed to the mailer, in order. */
  function MailsOf(run: Run): seq<Mail> {
    if run.Start? then [] else MailsOf(run.before) + run.served.mails
  }

  /** The limiter holds what the calls of the run leave in it. */
  ghost predicate Tracks(contents: Lru<Bucket>, size: nat, run: Run)
    requires size >= 1
  {
    contents == LimiterRefinement.CacheAfter(size, TrafficOf(run).Calls())
  }

  /** One more request, served as ServeHTTP serves it. */
  lemma ServedGoesOn(cfg: Config, size: nat, run: Run, s: Step, before: Lru<Bucket>, after: Lru<Bucket>)
    requires size >= 1 && Occurs(cfg, run) && LimitsHold(size, run) && Tracks(before, size, run) && before.Valid(size)
    requires var (seen, auth) := Authenticate(After(run), s.env, s.request.cookie);
      Asks(before, after, size, AsLimited(seen, s.env, auth, s.request.action), s.env.now, s.how.allowed)
    ensures var next := Then(run, s, Serve(cfg, After(run), s.env, s.how, s.request));
      Occurs(cfg, next) && LimitsHold(size, next) && Tracks(after, size, next)
  {
    var next := Then(run, s, Serve(cfg, After(run), s.env, s.how, s.request));
    assert OccursLast(cfg, next);
  }

  /** The server is where the run has brought it. */
  ghost predicate HasServed(server: Server, run: Run)
    reads server.users, server.users.queries, server.limiter, server.limiter.warnEvict
  {
    && server.Valid()
    && Occurs(server.users.config, run) && LimitsHold(server.limiter.size, run)
    && server.users.queries.Contents() == After(run) && server.users.outbox == MailsOf(run)
    && Tracks(server.limiter.Contents(), server.limiter.size, run)
  }

  method ServeNext(server: Server, r: Request, env: Env, ghost run: Run) returns (a: Answer, ghost next: Run)
    requires HasServed(server, run) && env.freeSlots == server.users.hashSlots
    modifies server.users.queries, server.users, server.limiter, server.limiter.warnEvict, server.mux
    ensures HasServed(server, next) && server.users.hashSlots == old(server.users.hashSlots)
    ensures next.Then? && next.before == run && next.step.request == r && next.step.env == env
    ensures next.served.answer == a
  {
    ghost var before, how := server.limiter.Contents(), Settled(true, Sha256(env.rawId));
    a, how := server.ServeHTTP(r, env);
    ghost var s := Step(env, how, r);
    ServedGoesOn(server.users.config, server.limiter.size, run, s, before, server.limiter.Contents());
    next := Then(run, s, Serve(server.users.config, After(run), env, how, r));
  }

  /** Whatever requests a new server is given, one after the other, its answers make a run of the kind that the
      theorems are about, and its limiter keeps to its word throughout. */
  method ServeAll(server: Server, requests: seq<(Request, Env)>) returns (answers: seq<Answer>, ghost run: Run)
    requires server.Valid() && server.users.queries.Contents() == EMPTY
    requires server.limiter.Contents() == Lru([], map[]) && server.users.outbox == []
    requires forall r | r in requests :: r.1.freeSlots == server.users.hashSlots
    modifies server.users.queries, server.users, server.limiter, server.limiter.warnEvict, server.mux
    ensures HasServed(server, run) && Records(run, requests, answers)
  {
    answers, run := [], Start;
    var i := 0;
    while i < |requests|
      invariant i <= |requests| && HasServed(server, run) && Records(run, requests[..i], answers)
      invariant server.users.hashSlots == old(server.users.hashSlots)
    {
      assert requests[i] in requests;
      var a;
      ghost var next;
      a, next := ServeNext(server, requests[i].0, requests[i].1, run);
      RecordsOneMore(run, next, requests, i, answers, a);
      answers, run := answers + [a], next;
      i := i + 1;
    }
    assert requests[..i] == requests;
  }
}
