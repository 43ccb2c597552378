/** How many password links a run of the whole server can mail to one address. A request is one step, as in Runs. */
module LinkBound {
  import opened TokenBucket
  import opened Emails
  import opened Db
  import opened Accounts
  import opened Runs
  import opened Provenance
  import opened LoginRuns
  import LimiterBounds
  import LoginBound

  /** How many of the mails are password links to this address, up to case. */
  function Links(mails: seq<Mail>, folded: string): nat {
    if mails == [] then 0
    else Links(mails[1..], folded) + if mails[0].body.PasswordResetLink? && Lower(mails[0].to) == folded then 1 else 0
  }

  /** How many of them the run mails in [a, b]. */
  function LinksIn(run: Run, folded: string, a: Time, b: Time): nat {
    if run.Start? then 0
    else LinksIn(run.before, folded, a, b)
         + if a <= run.step.env.now <= b then Links(run.served.mails, folded) else 0
  }

  lemma {:induction false} LinkIsThere(mails: seq<Mail>, folded: string) returns (m: Mail)
    requires Links(mails, folded) > 0
    ensures m in mails && m.body.PasswordResetLink? && Lower(m.to) == folded
  {
    if mails[0].body.PasswordResetLink? && Lower(mails[0].to) == folded {
      m := mails[0];
    } else {
      m := LinkIsThere(mails[1..], folded);
    }
  }

  lemma RequestMailsOneLink(cfg: Config, t: Tables, env: Env, email: string, folded: string)
    ensures Links(CreatePasswordReset(cfg, t, env, email).mails, folded)
         <= if Normalize(email, cfg.parses).Some? && Lower(Normalize(email, cfg.parses).value) == folded then 1 else 0
  {
  }

  /** A step that mails such a link is one admitted request, with some spelling of the address, and mails one. */
  lemma LinkWasAskedFor(cfg: Config, run: Run, folded: string)
    requires Occurs(cfg, run) && run.Then? && Links(run.served.mails, folded) > 0
    ensures Links(run.served.mails, folded) == 1 && run.step.how.allowed
    ensures var action := run.step.request.action;
      action.RequestPasswordReset? && Lower(Trim(action.email)) == folded
  {
    var s := run.step;
    var m := LinkIsThere(run.served.mails, folded);
    LastServed(cfg, run);
    PasswordLinksAreAskedFor(cfg, SeenLast(run), s.env, s.how, run.served.auth, s.request.action, m.to, m.body.raw);
    RequestMailsOneLink(cfg, SeenLast(run), s.env, s.request.action.email, folded);
    NormalizeKeepsFold(s.request.action.email, cfg.parses);
  }

  lemma {:induction false} LinksAreAdmitted(cfg: Config, size: nat, run: Run, typed: string, a: Time, b: Time)
    requires size >= 1 && Occurs(cfg, run) && LimitsHold(size, run)
    ensures LinksIn(run, Lower(Trim(typed)), a, b)
         <= LimiterBounds.Admitted(size, TrafficOf(run).Calls(), LoginBound.Key(LoginBound.RequestPasswordReset(typed)), a, b)
  {
    if run.Then? {
      LastServed(cfg, run);
      LinksAreAdmitted(cfg, size, run.before, typed, a, b);
      LastLinkIsAdmitted(cfg, size, run, typed, a, b);
    }
  }

  lemma LastLinkIsAdmitted(cfg: Config, size: nat, run: Run, typed: string, a: Time, b: Time)
    requires size >= 1 && Occurs(cfg, run) && LimitsHold(size, run) && run.Then?
    ensures var key := LoginBound.Key(LoginBound.RequestPasswordReset(typed));
      LimiterBounds.Admitted(size, TrafficOf(run.before).Calls(), key, a, b)
      + (if a <= run.step.env.now <= b then Links(run.served.mails, Lower(Trim(typed))) else 0)
      <= LimiterBounds.Admitted(size, TrafficOf(run).Calls(), key, a, b)
  {
    if Links(run.served.mails, Lower(Trim(typed))) > 0 {
      LinkWasAskedFor(cfg, run, Lower(Trim(typed)));
      LoginBound.KeysAreExact(LoginBound.RequestPasswordReset(typed),
                              LoginBound.RequestPasswordReset(run.step.request.action.email));
    }
  }

  /** Over any window [a, b] of any run of the whole server, at most 3 + (b - a) / 20min password links go to one address,
      however it is spelled, padded or capitalised and whoever asks, while the limiter has room. */
  lemma LinksAreBounded(cfg: Config, size: nat, run: Run, typed: string, a: Time, b: Time)
    requires size >= 1 && a <= b && Occurs(cfg, run) && Fair(run) && LimitsHold(size, run)
    requires TrafficOf(run).Calls().Sparse(size, HOUR)
    ensures LinksIn(run, Lower(Trim(typed)), a, b) <= 3 + (b - a) / (20 * MINUTE)
  {
    var r := LoginBound.RequestPasswordReset(typed);
    LinksAreAdmitted(cfg, size, run, typed, a, b);
    TrafficIsInOrder(run);
    LoginBound.KeyBound(size, TrafficOf(run), LoginBound.Key(r), r, a, b);
    LoginBound.LimitsInNumbers(r);
  }
}
