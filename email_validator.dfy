/**
 * The e-mail shape check and the domain handed to the MX lookup
 * (backend/src/utils/emailValidator.ts).
 */
module EmailValidator {
  import opened Wrappers
  import JsString

  /** A character of the class `[^\s@]`. */
  predicate Plain(c: char) { c != '@' && !JsString.IsWhitespace(c) }

  predicate AllPlain(s: string) { forall i :: 0 <= i < |s| ==> Plain(s[i]) }

  /** The first position of `c` in `s`. */
  function IndexOf(s: string, c: char): (r: Option<nat>)
    ensures r.Some? ==> r.value < |s| && s[r.value] == c && c !in s[..r.value]
    ensures r.None? ==> c !in s
    decreases |s|
  {
    if |s| == 0 then None
    else if s[0] == c then Some(0)
    else match IndexOf(s[1..], c)
      case Some(k) =>
        assert s[..k + 1] == [s[0]] + s[1..][..k];
        Some(k + 1)
      case None =>
        assert s == [s[0]] + s[1..];
        None
  }

  /** What may follow the '@': `[^\s@]+\.[^\s@]+`. */
  predicate IsDomainShape(d: string)
  {
    AllPlain(d) && exists i :: 0 < i < |d| - 1 && d[i] == '.'
  }

  /**
   * `validateEmail`, the recogniser of /^[^\s@]+@[^\s@]+\.[^\s@]+$/: a
   * non-empty local part free of white space and '@', one '@', and a domain
   * free of both with an inner '.'.
   */
  function ValidateEmail(email: string): (ok: bool)
    ensures ok ==> '@' in email && |email| >= 5
  {
    match IndexOf(email, '@')
    case None => false
    case Some(k) => 0 < k && AllPlain(email[..k]) && IsDomainShape(email[k + 1..])
  }

  /** The strings the regular expression describes, built from its three `[^\s@]+` runs. */
  function Compose(local: string, host: string, tld: string): string
  {
    local + "@" + host + "." + tld
  }

  ghost predicate MatchesPattern(email: string)
  {
    exists local, host, tld ::
      && local != "" && host != "" && tld != ""
      && AllPlain(local) && AllPlain(host) && AllPlain(tld)
      && email == Compose(local, host, tld)
  }

  /** Every accepted address splits into the regular expression's three runs. */
  lemma AcceptedMatchesPattern(email: string)
    requires ValidateEmail(email)
    ensures MatchesPattern(email)
  {
    var k := IndexOf(email, '@').value;
    var d := email[k + 1..];
    var i :| 0 < i < |d| - 1 && d[i] == '.';
    var local, host, tld := email[..k], d[..i], d[i + 1..];
    assert email == Compose(local, host, tld) by {
      assert d == host + "." + tld;
      assert email == email[..k] + "@" + d;
    }
    assert AllPlain(host) by {
      forall j | 0 <= j < |host| ensures Plain(host[j]) { assert host[j] == d[j]; }
    }
    assert AllPlain(tld) by {
      forall j | 0 <= j < |tld| ensures Plain(tld[j]) { assert tld[j] == d[i + 1 + j]; }
    }
  }

  /** The '@' after a run without one is the first '@'. */
  lemma IndexAfterPlainRun(local: string, rest: string)
    requires AllPlain(local)
    ensures IndexOf(local + "@" + rest, '@') == Some(|local|)
  {
    var email := local + "@" + rest;
    var r := IndexOf(email, '@');
    assert email[|local|] == '@';
    assert forall j :: 0 <= j < |local| ==> email[j] == local[j] && Plain(local[j]);
  }

  /** Every string of the regular expression is accepted. */
  lemma PatternAccepted(local: string, host: string, tld: string)
    requires local != "" && host != "" && tld != ""
    requires AllPlain(local) && AllPlain(host) && AllPlain(tld)
    ensures ValidateEmail(Compose(local, host, tld))
  {
    var email := Compose(local, host, tld);
    var rest := host + "." + tld;
    assert email == local + "@" + rest;
    IndexAfterPlainRun(local, rest);
    var k := |local|;
    assert email[..k] == local;
    assert email[k + 1..] == rest;
    assert rest[|host|] == '.';
    assert AllPlain(rest) by {
      forall j | 0 <= j < |rest| ensures Plain(rest[j]) {
        if j < |host| { assert rest[j] == host[j]; }
        else if j > |host| { assert rest[j] == tld[j - |host| - 1]; }
      }
    }
  }

  /** The recogniser accepts exactly the strings of the regular expression. */
  lemma ValidateEmailMatchesPattern(email: string)
    ensures ValidateEmail(email) <==> MatchesPattern(email)
  {
    if ValidateEmail(email) {
      AcceptedMatchesPattern(email);
    }
    if MatchesPattern(email) {
      var local, host, tld :|
        && local != "" && host != "" && tld != ""
        && AllPlain(local) && AllPlain(host) && AllPlain(tld)
        && email == Compose(local, host, tld);
      PatternAccepted(local, host, tld);
    }
  }

  /**
   * An accepted address has exactly one '@', no white space, a non-empty
   * local part, and a domain with a '.' that is neither its first nor its last
   * character.
   */
  lemma AcceptedShape(email: string)
    requires ValidateEmail(email)
    ensures var k := IndexOf(email, '@').value;
      && 0 < k
      && (forall j :: 0 <= j < |email| && email[j] == '@' ==> j == k)
      && (forall j :: 0 <= j < |email| ==> !JsString.IsWhitespace(email[j]))
      && (exists i :: k + 1 < i < |email| - 1 && email[i] == '.')
  {
    var k := IndexOf(email, '@').value;
    var d := email[k + 1..];
    forall j | 0 <= j < |email|
      ensures email[j] == '@' ==> j == k
      ensures !JsString.IsWhitespace(email[j])
    {
      if j < k {
        assert email[j] == email[..k][j];
      } else if j > k {
        assert email[j] == d[j - k - 1];
      }
    }
    var i :| 0 < i < |d| - 1 && d[i] == '.';
    assert email[k + 1 + i] == '.';
  }

  /** `email.split("@")[1]`: the domain handed to the MX lookup, if there is one. */
  function EmailDomain(email: string): (domain: Option<string>)
    ensures domain.Some? <==> '@' in email
    ensures domain.Some? ==>
      var k := IndexOf(email, '@').value;
      && '@' !in domain.value
      && k + 1 + |domain.value| <= |email|
      && email[k + 1..k + 1 + |domain.value|] == domain.value
      && (k + 1 + |domain.value| == |email| || email[k + 1 + |domain.value|] == '@')
  {
    var parts := JsString.Split(email, '@');
    assert '@' in email ==> |parts| >= 2 && parts[1] == JsString.Split(email[IndexOf(email, '@').value + 1..], '@')[0] by {
      if '@' in email {
        var k := IndexOf(email, '@').value;
        var rest := email[k + 1..];
        assert email == email[..k] + ['@'] + rest;
        JsString.SplitAtFirst(email[..k], '@', rest);
      }
    }
    assert '@' !in email ==> parts == [email] by {
      if '@' !in email { JsString.SplitNoSeparator(email, '@'); }
    }
    if |parts| >= 2 then
      JsString.SplitFirstPart(email[IndexOf(email, '@').value + 1..], '@');
      Some(parts[1])
    else None
  }

  /** For an accepted address the MX lookup is asked about exactly the text after the '@'. */
  lemma DomainOfAccepted(email: string)
    requires ValidateEmail(email)
    ensures EmailDomain(email) == Some(email[IndexOf(email, '@').value + 1..])
  {
    var k := IndexOf(email, '@').value;
    var local, d := email[..k], email[k + 1..];
    assert email == local + ['@'] + d;
    assert '@' !in d by {
      assert forall j :: 0 <= j < |d| ==> Plain(d[j]);
    }
    JsString.SplitAtFirst(local, '@', d);
    JsString.SplitNoSeparator(d, '@');
  }

  /**
   * `checkEmailDomain`: true when the DNS reports MX records for the domain.
   * The lookup itself is I/O, given here as `hasMxRecords`. Without a domain,
   * `dns.resolveMx` throws inside the promise, the promise rejects, and a
   * handler awaiting it would answer its generic 500; the model answers false
   * there. The only caller asks only about addresses that passed
   * `ValidateEmail`, which always have a domain, so the difference is never
   * seen.
   */
  function CheckEmailDomain(email: string, hasMxRecords: string -> bool): (ok: bool)
    ensures ValidateEmail(email) ==> (ok <==> hasMxRecords(email[IndexOf(email, '@').value + 1..]))
  {
    assert ValidateEmail(email) ==> EmailDomain(email) == Some(email[IndexOf(email, '@').value + 1..]) by {
      if ValidateEmail(email) { DomainOfAccepted(email); }
    }
    match EmailDomain(email)
    case None => false
    case Some(domain) => hasMxRecords(domain)
  }
}
