/** Text as the handlers and the user service treat it: trimming, case folding, address normalisation. */
module Emails {
  import opened LruCaches

  predicate IsSpace(c: char) {
    c == ' ' || '\t' <= c <= '\r' || c == '\U{0085}' || c == '\U{00A0}'
  }

  function LowerChar(c: char): char {
    if 'A' <= c <= 'Z' then (c as int + 32) as char else c
  }

  /** `strings.ToLower`, on ASCII; also how CITEXT compares. */
  function Lower(s: string): (r: string)
    ensures |r| == |s|
    ensures forall i :: 0 <= i < |s| ==> r[i] == LowerChar(s[i])
  {
    if s == [] then [] else [LowerChar(s[0])] + Lower(s[1..])
  }

  /** `strings.TrimSpace`. */
  function Trim(s: string): string {
    if s == [] then s
    else if IsSpace(s[0]) then Trim(s[1..])
    else if IsSpace(s[|s| - 1]) then Trim(s[..|s| - 1])
    else s
  }

  function CountOf(s: string, c: char): nat {
    if s == [] then 0 else (if s[0] == c then 1 else 0) + CountOf(s[1..], c)
  }

  /** The place of the first '@', or the length. */
  function AtSign(s: string): (i: nat)
    ensures i <= |s|
    ensures i < |s| ==> s[i] == '@'
    ensures forall j :: 0 <= j < i ==> s[j] != '@'
  {
    if s == [] || s[0] == '@' then 0 else 1 + AtSign(s[1..])
  }

  /** `normalizeAndValidateEmail`; `parses` stands for `mail.ParseAddress` giving back the same address. */
  function Normalize(input: string, parses: string -> bool): Option<string> {
    NormalizeTrimmed(Trim(input), parses)
  }

  function NormalizeTrimmed(email: string, parses: string -> bool): Option<string> {
    if email == "" || |email| > 254 then None
    else if !parses(email) then None
    else if CountOf(email, '@') != 1 then None
    else
      SplitAtSign(email);
      var local, domain := email[..AtSign(email)], email[AtSign(email) + 1..];
      if local == "" || domain == "" then None
      else if domain[0] == '.' || domain[|domain| - 1] == '.' then None
      else if '.' !in domain then None
      else Some(local + "@" + Lower(domain))
  }

  /** The parser cares about the case of a domain as little as the mail system does. */
  ghost predicate IgnoresDomainCase(parses: string -> bool) {
    forall local: string, domain: string {:trigger parses(local + "@" + domain)} ::
      parses(local + "@" + domain) ==> parses(local + "@" + Lower(domain))
  }

  lemma {:induction false} TrimIsTrimmed(s: string)
    ensures var t := Trim(s); t != "" ==> !IsSpace(t[0]) && !IsSpace(t[|t| - 1])
  {
    if s != [] {
      if IsSpace(s[0]) {
        TrimIsTrimmed(s[1..]);
      } else if IsSpace(s[|s| - 1]) {
        TrimIsTrimmed(s[..|s| - 1]);
      }
    }
  }

  predicate Blank(s: string) {
    forall c | c in s :: IsSpace(c)
  }

  lemma BlankAppend(a: string, b: string)
    requires Blank(a) && Blank(b)
    ensures Blank(a + b)
  {
  }

  lemma OneMoreInFront(s: string, before: string, kept: string, after: string)
    requires s != [] && s[1..] == before + kept + after
    ensures s == ([s[0]] + before) + kept + after
  {
    assert s == [s[0]] + s[1..];
    assert [s[0]] + (before + kept + after) == ([s[0]] + before) + kept + after;
  }

  lemma OneMoreBehind(s: string, before: string, kept: string, after: string)
    requires s != [] && s[..|s| - 1] == before + kept + after
    ensures s == before + kept + (after + [s[|s| - 1]])
  {
    assert s == s[..|s| - 1] + [s[|s| - 1]];
    assert (before + kept + after) + [s[|s| - 1]] == before + kept + (after + [s[|s| - 1]]);
  }

  /** Only white space goes, and only from the two ends. */
  lemma {:induction false} TrimIsExact(s: string) returns (before: string, after: string)
    ensures s == before + Trim(s) + after && Blank(before) && Blank(after)
    ensures Trim(s) != "" ==> !IsSpace(Trim(s)[0]) && !IsSpace(Trim(s)[|Trim(s)| - 1])
  {
    TrimIsTrimmed(s);
    before, after := "", "";
    if s != [] {
      if IsSpace(s[0]) {
        before, after := TrimIsExact(s[1..]);
        OneMoreInFront(s, before, Trim(s), after);
        BlankAppend([s[0]], before);
        before := [s[0]] + before;
      } else if IsSpace(s[|s| - 1]) {
        before, after := TrimIsExact(s[..|s| - 1]);
        OneMoreBehind(s, before, Trim(s), after);
        BlankAppend(after, [s[|s| - 1]]);
        after := after + [s[|s| - 1]];
      }
    }
  }

  lemma {:induction false} TrimTwice(s: string)
    ensures Trim(Trim(s)) == Trim(s)
  {
    if s != [] {
      if IsSpace(s[0]) {
        TrimTwice(s[1..]);
      } else if IsSpace(s[|s| - 1]) {
        TrimTwice(s[..|s| - 1]);
      }
    }
  }

  lemma {:induction false} AppendCount(a: string, b: string, c: char)
    ensures CountOf(a + b, c) == CountOf(a, c) + CountOf(b, c)
  {
    if a == [] {
      assert a + b == b;
    } else {
      AppendCount(a[1..], b, c);
      assert (a + b)[1..] == a[1..] + b;
    }
  }

  lemma {:induction false} NoneCounted(s: string, c: char)
    ensures CountOf(s, c) == 0 <==> c !in s
  {
    if s != [] {
      NoneCounted(s[1..], c);
      assert s == [s[0]] + s[1..];
    }
  }

  /** One letter, in its two cases. */
  predicate SameLetter(c: char, d: char) {
    || c == d || ('A' <= c <= 'Z' && d as int == c as int + 32) || ('A' <= d <= 'Z' && c as int == d as int + 32)
  }

  lemma LowerCharIsExact(c: char, d: char)
    ensures LowerChar(c) == LowerChar(d) <==> SameLetter(c, d)
  {
  }

  lemma FoldedIsExact(a: string, b: string, folded: string, folded': string)
    requires |folded| == |a| && |folded'| == |b|
    requires forall i | 0 <= i < |a| :: folded[i] == LowerChar(a[i])
    requires forall i | 0 <= i < |b| :: folded'[i] == LowerChar(b[i])
    ensures folded == folded' <==> |a| == |b| && forall i | 0 <= i < |a| :: SameLetter(a[i], b[i])
  {
    if |a| == |b| {
      forall i | 0 <= i < |a|
        ensures folded[i] == folded'[i] <==> SameLetter(a[i], b[i])
      {
        LowerCharIsExact(a[i], b[i]);
      }
    }
  }

  /** Two texts are one up to case just when they are so letter by letter. */
  lemma LowerIsExact(a: string, b: string)
    ensures Lower(a) == Lower(b) <==> |a| == |b| && forall i | 0 <= i < |a| :: SameLetter(a[i], b[i])
  {
    FoldedIsExact(a, b, Lower(a), Lower(b));
  }

  lemma LowerTwice(s: string)
    ensures Lower(Lower(s)) == Lower(s)
  {
  }

  lemma LowerAppend(a: string, b: string)
    ensures Lower(a + b) == Lower(a) + Lower(b)
  {
  }

  lemma LowerKeeps(s: string, c: char)
    requires !('A' <= c <= 'Z') && !('a' <= c <= 'z')
    ensures c in Lower(s) <==> c in s
  {
    forall i | 0 <= i < |s|
      ensures s[i] == c <==> Lower(s)[i] == c
    {
    }
    if c in s {
      var i :| 0 <= i < |s| && s[i] == c;
      assert Lower(s)[i] == c;
    }
  }

  /** With one '@' in all, the first one parts the address. */
  lemma {:induction false} SplitAtSign(email: string)
    requires CountOf(email, '@') == 1
    ensures AtSign(email) < |email|
    ensures '@' !in email[..AtSign(email)] && '@' !in email[AtSign(email) + 1..]
  {
    if email[0] == '@' {
      NoneCounted(email[1..], '@');
    } else {
      SplitAtSign(email[1..]);
      assert email[AtSign(email) + 1..] == email[1..][AtSign(email[1..]) + 1..];
    }
  }

  lemma JoinAtSign(local: string, domain: string)
    requires '@' !in local && '@' !in domain
    ensures var email := local + "@" + domain;
      && CountOf(email, '@') == 1 && AtSign(email) == |local|
      && email[..|local|] == local && email[|local| + 1..] == domain
  {
    var email := local + "@" + domain;
    assert ("@" + domain)[1..] == domain;
    assert email == local + ("@" + domain);
    AppendCount(local, "@" + domain, '@');
    NoneCounted(local, '@');
    NoneCounted(domain, '@');
    assert email[|local|] == '@';
    assert forall j :: 0 <= j < |local| ==> email[j] == local[j] && local[j] in local;
  }

  lemma JoinEnds(local: string, domain: string)
    requires local != "" && domain != ""
    ensures var email := local + "@" + domain;
      email[0] == local[0] && email[|email| - 1] == domain[|domain| - 1]
  {
  }

  /** The two halves of an address that normalisation accepts. */
  ghost predicate Halves(local: string, domain: string) {
    && local != "" && domain != "" && '@' !in local && '@' !in domain && |local| + |domain| < 254
    && domain[0] != '.' && domain[|domain| - 1] != '.' && '.' in domain
    && !IsSpace(local[0]) && !IsSpace(domain[|domain| - 1])
  }

  lemma AcceptedTrimmed(email: string, parses: string -> bool) returns (local: string, domain: string)
    requires NormalizeTrimmed(email, parses).Some?
    ensures email == local + "@" + domain && parses(email) && |email| <= 254
    ensures local != "" && domain != "" && '@' !in local && '@' !in domain
    ensures domain[0] != '.' && domain[|domain| - 1] != '.' && '.' in domain
    ensures NormalizeTrimmed(email, parses) == Some(local + "@" + Lower(domain))
  {
    SplitAtSign(email);
    local, domain := email[..AtSign(email)], email[AtSign(email) + 1..];
  }

  /** An accepted input is local@domain after trimming, with the one '@' between them. */
  lemma Accepted(input: string, parses: string -> bool) returns (local: string, domain: string)
    requires Normalize(input, parses).Some?
    ensures Trim(input) == local + "@" + domain && Halves(local, domain) && parses(local + "@" + domain)
    ensures Normalize(input, parses) == Some(local + "@" + Lower(domain))
  {
    local, domain := AcceptedTrimmed(Trim(input), parses);
    TrimIsTrimmed(input);
    JoinEnds(local, domain);
  }

  /** What normalisation does to an address that is already split and trimmed. */
  lemma NormalizeJoined(local: string, domain: string, parses: string -> bool)
    requires Halves(local, domain) && parses(local + "@" + domain)
    ensures Normalize(local + "@" + domain, parses) == Some(local + "@" + Lower(domain))
  {
    var email := local + "@" + domain;
    JoinEnds(local, domain);
    JoinAtSign(local, domain);
  }

  lemma LowerKeepsHalves(local: string, domain: string)
    requires Halves(local, domain)
    ensures Halves(local, Lower(domain))
  {
    LowerKeeps(domain, '@');
    LowerKeeps(domain, '.');
  }

  /** Normalisation is idempotent: what it returns is canonical. */
  lemma NormalizeIsIdempotent(input: string, parses: string -> bool)
    requires Normalize(input, parses).Some? && IgnoresDomainCase(parses)
    ensures Normalize(Normalize(input, parses).value, parses) == Normalize(input, parses)
  {
    var local, domain := Accepted(input, parses);
    LowerKeepsHalves(local, domain);
    LowerTwice(domain);
    NormalizeJoined(local, Lower(domain), parses);
  }

  /** Normalisation never changes what an address folds to: the trimmed input, in lower case. */
  lemma NormalizeKeepsFold(input: string, parses: string -> bool)
    requires Normalize(input, parses).Some?
    ensures Lower(Normalize(input, parses).value) == Lower(Trim(input))
    ensures 1 <= |Normalize(input, parses).value| <= 254
  {
    var local, domain := Accepted(input, parses);
    LowerAppend(local + "@", domain);
    LowerAppend(local + "@", Lower(domain));
    LowerTwice(domain);
  }
}
