/** Whole runs from empty tables, one request after another, and the credential epochs of their users.
    A request is one step: nothing of another request comes between its statements. */
module Runs {
  import opened TokenBucket
  import opened LruCaches
  import opened Db
  import opened Accounts
  import opened Handlers
  import opened Evolution
  import opened GoodTables
  import opened Changes

  datatype Step = Step(env: Env, how: Settled, request: Request)

  /** A run records every request together with what the server made of it. */
  datatype Run = Start | Then(before: Run, step: Step, served: Response)

  const EMPTY: Tables := Rows(map[], 0, map[], map[], map[])

  function After(run: Run): Tables {
    if run.Start? then EMPTY else run.served.tables
  }

  /** Every record is what the server makes of the request, from empty tables on. */
  ghost predicate Occurs(cfg: Config, run: Run)
    decreases run, 1
  {
    run.Then? ==> OccursLast(cfg, run)
  }

  ghost predicate OccursLast(cfg: Config, run: Run)
    requires run.Then?
    decreases run, 0
  {
    && Occurs(cfg, run.before)
    && run.served == Serve(cfg, After(run.before), run.step.env, run.step.how, run.step.request)
  }

  /** The random ids drawn so far, as they are stored. */
  function Drawn(run: Run): set<Digest> {
    if run.Start? then {} else Drawn(run.before) + {Sha256(run.step.env.rawId)}
  }

  /** The clock does not go back, and no random id comes up twice. */
  predicate Fair(run: Run) {
    run.Then? ==>
      && Fair(run.before)
      && (run.before.Then? ==> run.before.step.env.now <= run.step.env.now)
      && Sha256(run.step.env.rawId) !in Drawn(run.before)
  }

  /** Run b goes on from run a. */
  predicate Extends(a: Run, b: Run) {
    b == a || (b.Then? && Extends(a, b.before))
  }

  lemma EarlierOccurs(cfg: Config, run: Run)
    requires Occurs(cfg, run) && run.Then?
    ensures Occurs(cfg, run.before)
  {
    assert OccursLast(cfg, run);
  }

  lemma LastServed(cfg: Config, run: Run)
    requires Occurs(cfg, run) && run.Then?
    ensures Occurs(cfg, run.before)
    ensures run.served == Serve(cfg, After(run.before), run.step.env, run.step.how, run.step.request)
  {
    assert OccursLast(cfg, run);
  }

  /** The rules that the write paths enforce hold in every reachable state, and so does the schema. */
  lemma {:induction false} GoodThroughout(cfg: Config, rules: Rules, run: Run)
    requires Occurs(cfg, run) && Enforces(cfg, rules)
    ensures Good(rules, After(run))
  {
    if run.Then? {
      LastServed(cfg, run);
      GoodThroughout(cfg, rules, run.before);
      ServeKeepsGood(cfg, rules, After(run.before), run.step.env, run.step.how, run.step.request);
    }
  }

  lemma ConsistentThroughout(cfg: Config, run: Run)
    requires Occurs(cfg, run)
    ensures Consistent(After(run))
    ensures After(run).nextUserId !in After(run).users
  {
    GoodThroughout(cfg, Rules(_ => true, _ => true), run);
  }

  ghost predicate AllDrawn(t: Tables, drawn: set<Digest>) {
    t.sessions.Keys <= drawn && t.passwordResets.Keys <= drawn && t.emailResets.Keys <= drawn
  }

  lemma EvolvedRowsAreDrawn(a: Tables, b: Tables, auth: Auth, drawn: set<Digest>, id: Digest, now: Time)
    requires AllDrawn(a, drawn) && Evolves(a, b, auth, id, now)
    ensures AllDrawn(b, drawn + {id})
  {
  }

  lemma {:induction false} RowsAreDrawn(cfg: Config, run: Run)
    requires Occurs(cfg, run) && Fair(run)
    ensures AllDrawn(After(run), Drawn(run))
    decreases run, 1
  {
    if run.Then? {
      EarlierOccurs(cfg, run);
      RowsAreDrawn(cfg, run.before);
      StepEvolves(cfg, run);
      EvolvedRowsAreDrawn(After(run.before), After(run), run.served.auth, Drawn(run.before), Sha256(run.step.env.rawId),
                          run.step.env.now);
    }
  }

  /** Every step of a fair run draws an id that no row has, and the tables evolve. */
  lemma StepEvolves(cfg: Config, run: Run)
    requires Occurs(cfg, run) && Fair(run) && run.Then?
    ensures Occurs(cfg, run.before) && Unused(After(run.before), Sha256(run.step.env.rawId))
    ensures Evolves(After(run.before), After(run), run.served.auth, Sha256(run.step.env.rawId), run.step.env.now)
    decreases run, 0
  {
    LastServed(cfg, run);
    RowsAreDrawn(cfg, run.before);
    ConsistentThroughout(cfg, run.before);
    ServeEvolves(cfg, After(run.before), run.step.env, run.step.how, run.step.request);
  }

  // ---- Credential epochs ----

  /** The user whose credentials the last request changed. */
  function ChangedLast(run: Run): Option<UserId>
    requires run.Then?
  {
    Changed(After(run.before), run.step.request, run.served)
  }

  /** The tables as the middleware of the last request left them. */
  function SeenLast(run: Run): Tables
    requires run.Then?
  {
    Authenticate(After(run.before), run.step.env, run.step.request.cookie).0
  }

  /** How often the user's password or address has been changed. */
  function Epoch(run: Run, u: UserId): nat {
    if run.Start? then 0
    else Epoch(run.before, u) + if ChangedLast(run) == Some(u) then 1 else 0
  }

  /** The epoch of the user at the step that drew the id. */
  function EpochWhenDrawn(run: Run, d: Digest, u: UserId): nat {
    if run.Start? then 0
    else if Sha256(run.step.env.rawId) == d then Epoch(run, u)
    else EpochWhenDrawn(run.before, d, u)
  }

  /** The row is a session, a password request or an email request of the user. */
  ghost predicate Owns(t: Tables, u: UserId, d: Digest) {
    || (d in t.sessions && t.sessions[d].userId == u)
    || (d in t.passwordResets && t.passwordResets[d].userId == u)
    || (d in t.emailResets && t.emailResets[d].userId == u)
  }

  lemma OwnedBefore(a: Tables, b: Tables, auth: Auth, id: Digest, now: Time, u: UserId, d: Digest)
    requires Evolves(a, b, auth, id, now) && Owns(b, u, d) && d != id
    ensures Owns(a, u, d)
  {
  }

  lemma NothingOwnedAfterChange(a: Tables, b: Tables, u: UserId, d: Digest)
    requires ChangesOnly(a, b, u)
    ensures !Owns(b, u, d)
  {
  }

  /** What the last step did to credentials and requests, if it changed anyone's credentials and if not. */
  lemma LastStepChanges(cfg: Config, run: Run)
    requires Occurs(cfg, run) && run.Then?
    ensures run.served.auth == Authenticate(After(run.before), run.step.env, run.step.request.cookie).1
    ensures SeenLast(run) == After(run.before).(sessions := SeenLast(run).sessions)
    ensures if ChangedLast(run).Some? then ChangesOnly(SeenLast(run), After(run), ChangedLast(run).value)
            else Undisturbed(After(run.before), After(run))
  {
    var t, s := After(run.before), run.step;
    LastServed(cfg, run);
    ConsistentThroughout(cfg, run.before);
    AuthenticateDisturbsNothing(t, s.env, s.request.cookie);
    if ChangedLast(run).Some? {
      ChangeIsExact(cfg, t, s.env, s.how, s.request);
    } else {
      OtherwiseUndisturbed(cfg, t, s.env, s.how, s.request);
    }
  }

  lemma ChangeLeavesNothing(cfg: Config, run: Run, d: Digest)
    requires Occurs(cfg, run) && run.Then? && ChangedLast(run).Some?
    ensures !Owns(After(run), ChangedLast(run).value, d)
  {
    LastStepChanges(cfg, run);
    NothingOwnedAfterChange(SeenLast(run), After(run), ChangedLast(run).value, d);
  }

  /** In every reachable state, every session and every request of a user was created in the user's current
      epoch: nothing issued before the last password or email change is left. */
  lemma {:induction false} EverythingIsOfThisEpoch(cfg: Config, run: Run, u: UserId, d: Digest)
    requires Occurs(cfg, run) && Fair(run) && Owns(After(run), u, d)
    ensures d in Drawn(run) && EpochWhenDrawn(run, d, u) == Epoch(run, u)
  {
    if run.Then? && d != Sha256(run.step.env.rawId) {
      StepEvolves(cfg, run);
      OwnedBefore(After(run.before), After(run), run.served.auth, Sha256(run.step.env.rawId),
                  run.step.env.now, u, d);
      EverythingIsOfThisEpoch(cfg, run.before, u, d);
      if ChangedLast(run) == Some(u) {
        ChangeLeavesNothing(cfg, run, d);
      }
    }
  }

  lemma {:induction false} ExtensionIsFair(cfg: Config, a: Run, b: Run)
    requires Extends(a, b) && Occurs(cfg, b) && Fair(b)
    ensures Occurs(cfg, a) && Fair(a) && Drawn(a) <= Drawn(b)
  {
    if b != a {
      EarlierOccurs(cfg, b);
      ExtensionIsFair(cfg, a, b.before);
    }
  }

  lemma {:induction false} EpochsGrow(a: Run, b: Run, u: UserId)
    requires Extends(a, b)
    ensures Epoch(a, u) <= Epoch(b, u)
  {
    if b != a {
      EpochsGrow(a, b.before, u);
    }
  }

  lemma {:induction false} DrawnOnce(cfg: Config, a: Run, b: Run, u: UserId, d: Digest)
    requires Extends(a, b) && Occurs(cfg, b) && Fair(b) && d in Drawn(a)
    ensures EpochWhenDrawn(b, d, u) == EpochWhenDrawn(a, d, u)
  {
    if b != a {
      EarlierOccurs(cfg, b);
      ExtensionIsFair(cfg, a, b.before);
      DrawnOnce(cfg, a, b.before, u, d);
    }
  }

  /** What a user owned does not outlive a change of that user's credentials, however long the run goes on. */
  lemma ChangeRevokes(cfg: Config, a: Run, b: Run, u: UserId, d: Digest)
    requires Extends(a, b) && Occurs(cfg, b) && Fair(b) && Owns(After(a), u, d) && Epoch(a, u) < Epoch(b, u)
    ensures !Owns(After(b), u, d)
  {
    if Owns(After(b), u, d) {
      ExtensionIsFair(cfg, a, b);
      EverythingIsOfThisEpoch(cfg, a, u, d);
      EverythingIsOfThisEpoch(cfg, b, u, d);
      DrawnOnce(cfg, a, b, u, d);
    }
  }

  /** A step that does not change a user's credentials leaves the user's row alone. */
  lemma OnlyChangesTouchUsers(cfg: Config, run: Run, u: UserId)
    requires Occurs(cfg, run) && run.Then? && u in After(run.before).users && ChangedLast(run) != Some(u)
    ensures u in After(run).users && After(run).users[u] == After(run.before).users[u]
  {
    LastStepChanges(cfg, run);
  }

  /** A change of one user's credentials leaves every row of every other user alone, but for the middleware's
      touch of the session that the request came with. */
  lemma OthersAreUntouched(cfg: Config, run: Run, u: UserId, d: Digest)
    requires Occurs(cfg, run) && run.Then? && ChangedLast(run).Some? && ChangedLast(run) != Some(u)
    ensures var a, b := SeenLast(run), After(run);
      && (d in a.sessions && a.sessions[d].userId == u ==> d in b.sessions && b.sessions[d] == a.sessions[d])
      && (d in a.passwordResets && a.passwordResets[d].userId == u ==>
           d in b.passwordResets && b.passwordResets[d] == a.passwordResets[d])
      && (d in a.emailResets && a.emailResets[d].userId == u ==>
           d in b.emailResets && b.emailResets[d] == a.emailResets[d])
      && (u in a.users ==> u in b.users && b.users[u] == a.users[u])
  {
    LastStepChanges(cfg, run);
  }
}
