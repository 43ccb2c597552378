/** The keys and policies of the rate-limited handlers, and what they mean for one account. */
module LoginBound {
  import opened Arithmetic
  import opened TokenBucket
  import opened Limiter
  import opened LimiterRefinement
  import opened LimiterBounds
  import opened Emails
  import ConcurrentLimiter
  import ConcurrentBounds
  import ConcurrentHarmless

  /** The four handlers that ask the limiter first, with the value that makes their key. */
  datatype Request =
    | LogIn(email: string)
    | RequestPasswordReset(email: string)
    | ChangePassword(user: nat)
    | RequestEmailReset(user: nat)

  const LOG_IN_LIMIT: Policy := Limit(10, 15 * MINUTE)
  const PASSWORD_RESET_REQUEST_LIMIT: Policy := Limit(3, HOUR)
  const EMAIL_RESET_REQUEST_LIMIT: Policy := Limit(3, HOUR)
  const AUTHED_PASSWORD_RESET_LIMIT: Policy := Limit(5, HOUR)

  /** The route pattern under which the handler is mounted. */
  function Pattern(r: Request): string {
    match r
    case LogIn(_) => "POST /user/login"
    case RequestPasswordReset(_) => "POST /password-reset"
    case ChangePassword(_) => "PUT /user/password"
    case RequestEmailReset(_) => "POST /email-reset"
  }

  function PolicyFor(r: Request): Policy {
    match r
    case LogIn(_) => LOG_IN_LIMIT
    case RequestPasswordReset(_) => PASSWORD_RESET_REQUEST_LIMIT
    case ChangePassword(_) => AUTHED_PASSWORD_RESET_LIMIT
    case RequestEmailReset(_) => EMAIL_RESET_REQUEST_LIMIT
  }

  function Digit(d: nat): char
    requires d < 10
  {
    (d + '0' as int) as char
  }

  /** A user id as it is printed. */
  function Decimal(n: nat): string {
    if n < 10 then [Digit(n)] else Decimal(n / 10) + [Digit(n % 10)]
  }

  /** What limitByField and limitByUser add to the pattern. */
  function Suffix(r: Request): string {
    match r
    case LogIn(email) => ":field:email:" + Lower(Trim(email))
    case RequestPasswordReset(email) => ":field:email:" + Lower(Trim(email))
    case ChangePassword(user) => ":user:" + Decimal(user)
    case RequestEmailReset(user) => ":user:" + Decimal(user)
  }

  function Key(r: Request): string {
    Pattern(r) + Suffix(r)
  }

  /** The policy that belongs to a key, read off the route pattern it starts with. */
  function PolicyOfKey(key: string): Policy {
    if |key| > 6 && key[1] == 'U' then AUTHED_PASSWORD_RESET_LIMIT
    else if |key| > 6 && key[6] == 'u' then LOG_IN_LIMIT
    else PASSWORD_RESET_REQUEST_LIMIT
  }

  /** One key never comes with two policies, whichever handlers the requests went to. */
  lemma KeyHasOnePolicy(r: Request, r': Request)
    requires Key(r) == Key(r')
    ensures PolicyFor(r) == PolicyFor(r')
  {
    KeyGivesPolicy(r);
    KeyGivesPolicy(r');
  }

  lemma KeyGivesPolicy(r: Request)
    ensures PolicyOfKey(Key(r)) == PolicyFor(r)
  {
    var p, k := Pattern(r), Key(r);
    assert |p| > 6 && k[1] == p[1] && k[6] == p[6];
  }

  lemma {:induction false} DecimalIsInjective(n: nat, m: nat)
    requires Decimal(n) == Decimal(m)
    ensures n == m
  {
    var a, b := Decimal(n), Decimal(m);
    assert a[|a| - 1] == Digit(n % 10) && b[|b| - 1] == Digit(m % 10);
    if n >= 10 && m >= 10 {
      assert Decimal(n / 10) == a[..|a| - 1] && Decimal(m / 10) == b[..|b| - 1];
      DecimalIsInjective(n / 10, m / 10);
    } else {
      DecimalLength(n);
      DecimalLength(m);
    }
  }

  lemma DecimalLength(n: nat)
    ensures |Decimal(n)| == 1 <==> n < 10
    ensures |Decimal(n)| >= 1
  {
  }

  lemma SuffixDecides(pattern: string, user: nat, user': nat)
    ensures pattern + (":user:" + Decimal(user)) == pattern + (":user:" + Decimal(user')) <==> user == user'
  {
    var k, k' := pattern + (":user:" + Decimal(user)), pattern + (":user:" + Decimal(user'));
    if k == k' {
      assert k[|pattern| + 6..] == Decimal(user);
      assert k'[|pattern| + 6..] == Decimal(user');
      DecimalIsInjective(user, user');
    }
  }

  /** The same handler, for the same user, or for two spellings of one text up to case and padding. */
  predicate SameCaller(r: Request, r': Request) {
    match (r, r')
    case (LogIn(email), LogIn(email')) => Lower(Trim(email)) == Lower(Trim(email'))
    case (RequestPasswordReset(email), RequestPasswordReset(email')) => Lower(Trim(email)) == Lower(Trim(email'))
    case (ChangePassword(user), ChangePassword(user')) => user == user'
    case (RequestEmailReset(user), RequestEmailReset(user')) => user == user'
    case _ => false
  }

  lemma PatternIsInKey(r: Request)
    ensures |Key(r)| > 6
    ensures r.ChangePassword? <==> Key(r)[1] == 'U'
    ensures r.LogIn? <==> Key(r)[1] == 'O' && Key(r)[6] == 'u'
    ensures r.RequestPasswordReset? <==> Key(r)[1] == 'O' && Key(r)[6] == 'p'
    ensures r.RequestEmailReset? <==> Key(r)[1] == 'O' && Key(r)[6] == 'e'
  {
    var p, k := Pattern(r), Key(r);
    assert |p| > 6 && k[1] == p[1] && k[6] == p[6];
  }

  lemma FoldDecides(pattern: string, folded: string, folded': string)
    ensures pattern + (":field:email:" + folded) == pattern + (":field:email:" + folded') <==> folded == folded'
  {
    var k, k' := pattern + (":field:email:" + folded), pattern + (":field:email:" + folded');
    assert k[|pattern| + 13..] == folded;
    assert k'[|pattern| + 13..] == folded';
  }

  /** Two requests share a key just when they are the same handler's, of the same user or for the same address in any
      spelling. */
  lemma KeysAreExact(r: Request, r': Request)
    ensures Key(r) == Key(r') <==> SameCaller(r, r')
  {
    PatternIsInKey(r);
    PatternIsInKey(r');
    match (r, r')
    case (LogIn(email), LogIn(email')) => FoldDecides(Pattern(r), Lower(Trim(email)), Lower(Trim(email')));
    case (RequestPasswordReset(email), RequestPasswordReset(email')) =>
      FoldDecides(Pattern(r), Lower(Trim(email)), Lower(Trim(email')));
    case (ChangePassword(user), ChangePassword(user')) => SuffixDecides(Pattern(r), user, user');
    case (RequestEmailReset(user), RequestEmailReset(user')) => SuffixDecides(Pattern(r), user, user');
    case _ =>
  }

  /** How many calls each key has at once, and how long each takes to come back: 90 seconds, 20, 12 and 20 minutes. */
  lemma LimitsInNumbers(r: Request)
    ensures PolicyFor(r).count
         == if r.LogIn? then 10 else if r.ChangePassword? then 5 else 3
    ensures Interval(PolicyFor(r))
         == if r.LogIn? then 90_000_000_000 else if r.ChangePassword? then 720_000_000_000 else 1_200_000_000_000
  {
  }

  /** The requests that asked the limiter, oldest first, each with the email column as it was then. */
  datatype Traffic = Quiet | Served(before: Traffic, request: Request, time: Time, emails: map<nat, string>) {
    function Calls(): Run {
      if Quiet? then Start else Then(before.Calls(), Call(Key(request), PolicyFor(request), time))
    }

    ghost predicate InOrder() {
      Served? ==> before.InOrder() && (before.Served? ==> before.time <= time)
    }

    /** In [a, b], whenever the user exists, its address folds to one of these. */
    ghost predicate HasOnly(user: nat, addresses: seq<string>, a: Time, b: Time) {
      Served? ==>
        && before.HasOnly(user, addresses, a, b)
        && (a <= time <= b && user in emails ==> Lower(emails[user]) in addresses)
    }
  }

  /** LogIn would look up this user: the input is a valid address and CITEXT finds it equal to the user's. */
  ghost predicate ResolvesTo(email: string, user: nat, emails: map<nat, string>, parses: string -> bool) {
    var n := Normalize(email, parses);
    n.Some? && user in emails && Lower(n.value) == Lower(emails[user])
  }

  /** How many times LogIn ran against this account in [a, b], under any spelling. */
  ghost function LogInsAgainst(size: nat, tr: Traffic, user: nat, a: Time, b: Time, parses: string -> bool): nat
    requires size >= 1
  {
    if tr.Quiet? then 0
    else
      LogInsAgainst(size, tr.before, user, a, b, parses)
      + if tr.request.LogIn? && ResolvesTo(tr.request.email, user, tr.emails, parses)
           && a <= tr.time <= b && LastOutcome(size, tr.Calls()).allowed then 1 else 0
  }

  lemma {:induction false} CallsAreWellFormed(tr: Traffic)
    requires tr.InOrder()
    ensures tr.Calls().WellFormed(PolicyOfKey) && tr.Calls().Spans(HOUR)
  {
    if tr.Served? {
      CallsAreWellFormed(tr.before);
      KeyGivesPolicy(tr.request);
    }
  }

  /** Every spelling of an account's address gives the same key. */
  lemma SpellingsShareKey(email: string, user: nat, emails: map<nat, string>, parses: string -> bool)
    requires ResolvesTo(email, user, emails, parses)
    ensures Key(LogIn(email)) == LogInKey(Lower(emails[user]))
  {
    NormalizeKeepsFold(email, parses);
  }

  function LogInKey(folded: string): string {
    Pattern(LogIn("")) + (":field:email:" + folded)
  }

  /** What the limiter admitted on the keys of all these addresses. */
  ghost function AdmittedOn(size: nat, run: Run, addresses: seq<string>, a: Time, b: Time): nat
    requires size >= 1
  {
    if addresses == [] then 0
    else Admitted(size, run, LogInKey(addresses[0]), a, b) + AdmittedOn(size, run, addresses[1..], a, b)
  }

  lemma {:induction false} AdmittedGrows(size: nat, run: Run, addresses: seq<string>, a: Time, b: Time)
    requires size >= 1 && run.Then?
    ensures AdmittedOn(size, run.before, addresses, a, b) <= AdmittedOn(size, run, addresses, a, b)
  {
    if addresses != [] {
      AdmittedGrows(size, run, addresses[1..], a, b);
    }
  }

  lemma {:induction false} AdmittedCounts(size: nat, run: Run, addresses: seq<string>, folded: string, a: Time, b: Time)
    requires size >= 1 && run.Then? && folded in addresses
    requires Counts(run.call, LastOutcome(size, run).allowed, LogInKey(folded), a, b)
    ensures AdmittedOn(size, run.before, addresses, a, b) + 1 <= AdmittedOn(size, run, addresses, a, b)
  {
    if addresses[0] == folded {
      AdmittedGrows(size, run, addresses[1..], a, b);
    } else {
      AdmittedCounts(size, run, addresses[1..], folded, a, b);
    }
  }

  lemma {:induction false} LogInsAreAdmissions(size: nat, tr: Traffic, user: nat, addresses: seq<string>, a: Time,
                                               b: Time, parses: string -> bool)
    requires size >= 1 && tr.HasOnly(user, addresses, a, b)
    ensures LogInsAgainst(size, tr, user, a, b, parses) <= AdmittedOn(size, tr.Calls(), addresses, a, b)
  {
    if tr.Served? {
      LogInsAreAdmissions(size, tr.before, user, addresses, a, b, parses);
      AdmittedGrows(size, tr.Calls(), addresses, a, b);
      if tr.request.LogIn? && ResolvesTo(tr.request.email, user, tr.emails, parses)
         && a <= tr.time <= b && LastOutcome(size, tr.Calls()).allowed {
        SpellingsShareKey(tr.request.email, user, tr.emails, parses);
        AdmittedCounts(size, tr.Calls(), addresses, Lower(tr.emails[user]), a, b);
      }
    }
  }

  lemma LogInKeysAreLimited(folded: string)
    ensures PolicyOfKey(LogInKey(folded)) == LOG_IN_LIMIT
    ensures Interval(LOG_IN_LIMIT) == 3 * MINUTE / 2 && LOG_IN_LIMIT.count == 10
  {
    var key := LogInKey(folded);
    assert key[1] == 'O' && key[6] == 'u';
  }

  /** Over any window, the limiter admits requests of one key within the policy of that key. */
  lemma KeyBound(size: nat, tr: Traffic, key: string, r: Request, a: Time, b: Time)
    requires size >= 1 && a <= b && tr.InOrder() && tr.Calls().Sparse(size, HOUR) && key == Key(r)
    ensures Interval(PolicyFor(r)) >= 1
    ensures Admitted(size, tr.Calls(), key, a, b) <= PolicyFor(r).count + (b - a) / Interval(PolicyFor(r))
  {
    KeyGivesPolicy(r);
    AdmissionBoundOf(size, tr, key, a, b, PolicyFor(r));
  }

  lemma AdmissionBoundOf(size: nat, tr: Traffic, key: string, a: Time, b: Time, p: Policy)
    requires size >= 1 && a <= b && tr.InOrder() && tr.Calls().Sparse(size, HOUR)
    requires PolicyOfKey(key) == p && Interval(p) >= 1
    ensures Admitted(size, tr.Calls(), key, a, b) <= p.count + (b - a) / Interval(p)
  {
    CallsAreWellFormed(tr);
    AdmissionBound(size, tr.Calls(), HOUR, key, a, b, PolicyOfKey);
  }

  lemma {:induction false} AdmittedOnIsBounded(size: nat, tr: Traffic, addresses: seq<string>, a: Time, b: Time)
    requires size >= 1 && a <= b && tr.InOrder() && tr.Calls().Sparse(size, HOUR)
    ensures AdmittedOn(size, tr.Calls(), addresses, a, b)
         <= Times(|addresses|, 10 + (b - a) / (3 * MINUTE / 2))
  {
    if addresses != [] {
      AdmittedOnIsBounded(size, tr, addresses[1..], a, b);
      LogInKeysAreLimited(addresses[0]);
      AdmissionBoundOf(size, tr, LogInKey(addresses[0]), a, b, LOG_IN_LIMIT);
    }
  }

  /** Over any window [a, b], LogIn runs against one account at most 10 + (b - a) / 90s times for each address that the
      account has in the window, however it is spelled, padded or capitalised, while the cache has room. */
  lemma LoginBoundPerAccount(size: nat, tr: Traffic, user: nat, addresses: seq<string>, a: Time, b: Time,
                             parses: string -> bool)
    requires size >= 1 && a <= b && tr.InOrder() && tr.HasOnly(user, addresses, a, b)
    requires tr.Calls().Sparse(size, HOUR)
    ensures LogInsAgainst(size, tr, user, a, b, parses) <= Times(|addresses|, 10 + (b - a) / (3 * MINUTE / 2))
  {
    LogInsAreAdmissions(size, tr, user, addresses, a, b, parses);
    AdmittedOnIsBounded(size, tr, addresses, a, b);
  }

  /** The same for interleaved calls of Allow: if the draws on an address come in clock order, at most so many log-ins
      to it get past the limiter in any window. */
  lemma InterleavedLogInBound(x: ConcurrentLimiter.Execution, size: nat, folded: string, a: Time, b: Time)
    requires size >= 1 && ConcurrentHarmless.HarmlessEvictions(x, size, PolicyOfKey) && a <= b
    requires ConcurrentBounds.InClockOrder(ConcurrentLimiter.StateOf(x, size, PolicyOfKey).history.Calls(), LogInKey(folded))
    ensures ConcurrentLimiter.StateOf(x, size, PolicyOfKey).history.GrantedIn(LogInKey(folded), a, b)
         <= 10 + (b - a) / (3 * MINUTE / 2)
  {
    LogInKeysAreLimited(folded);
    ConcurrentHarmless.HarmlessEvictionsKeepBound(x, size, LogInKey(folded), a, b, PolicyOfKey);
  }
}
