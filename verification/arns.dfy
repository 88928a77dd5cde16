/**
 * The assumed-role ARN grammar of `Projects.extract_emails`:
 *
 *   arn:aws:sts::<account_id>:assumed-role/<role_name>/<session_name>
 *
 * with account_id in [0-9]+, role_name in [^/]+ and session_name an email
 * local@domain.tld where local is in [A-Za-z0-9._%+-]+, domain in [A-Za-z0-9.-]+
 * and tld in [A-Z|a-z]{2,} (the class of the top-level domain also admits '|').
 * `FullMatch` states when the whole string matches, as a decomposition into
 * those parts; `ParseArn` finds the session name deterministically, and
 * `ParseArnCorrect` proves the two agree.
 */
module Arns {
  import opened Wrappers
  import opened Text

  const ArnPrefix: string := "arn:aws:sts::"
  const RoleMarker: string := ":assumed-role/"

  predicate IsDigit(c: char) { '0' <= c <= '9' }
  predicate IsLetter(c: char) { 'A' <= c <= 'Z' || 'a' <= c <= 'z' }
  predicate IsLocalChar(c: char) { IsLetter(c) || IsDigit(c) || c in "._%+-" }
  predicate IsDomainChar(c: char) { IsLetter(c) || IsDigit(c) || c in ".-" }
  predicate IsTldChar(c: char) { IsLetter(c) || c == '|' }

  predicate AllDigits(s: string) { forall i :: 0 <= i < |s| ==> IsDigit(s[i]) }
  predicate AllLocal(s: string) { forall i :: 0 <= i < |s| ==> IsLocalChar(s[i]) }
  predicate AllDomain(s: string) { forall i :: 0 <= i < |s| ==> IsDomainChar(s[i]) }
  predicate AllTld(s: string) { forall i :: 0 <= i < |s| ==> IsTldChar(s[i]) }

  /** The three groups of an email session name, each matching its class. */
  predicate EmailParts(local: string, domain: string, tld: string) {
    local != [] && AllLocal(local) && domain != [] && AllDomain(domain) && |tld| >= 2 && AllTld(tld)
  }

  /** The session name with the given groups. */
  function EmailOf(local: string, domain: string, tld: string): string {
    local + "@" + HostOf(domain, tld)
  }

  /** The host part of a session name. */
  function HostOf(domain: string, tld: string): string {
    domain + "." + tld
  }

  /** The session-name group matches the whole of `e`. */
  ghost predicate IsEmail(e: string) {
    exists local, domain, tld :: EmailParts(local, domain, tld) && e == EmailOf(local, domain, tld)
  }

  /** The account and role groups, each matching its class. */
  predicate RoleParts(account: string, role: string) {
    account != [] && AllDigits(account) && role != [] && '/' !in role
  }

  /** The `<role_name>/<session_name>` tail of an ARN. */
  function RolePath(role: string, email: string): string {
    role + "/" + email
  }

  /** The assumed-role ARN with the given groups. */
  function ArnOf(account: string, role: string, email: string): string {
    ArnPrefix + (account + (RoleMarker + RolePath(role, email)))
  }

  /** `fullmatch(arn)` succeeds with `email` as its session-name group. */
  ghost predicate FullMatch(arn: string, email: string) {
    exists account, role :: RoleParts(account, role) && IsEmail(email) && arn == ArnOf(account, role, email)
  }

  /** The parse of every ARN of `arns`, in order. */
  function Sessions(arns: seq<string>): (ps: seq<Option<string>>)
    ensures |ps| == |arns|
  {
    seq(|arns|, i requires 0 <= i < |arns| => ParseArn(arns[i]))
  }

  /** `fullmatch(arn)` succeeds. */
  ghost predicate Matches(arn: string) {
    exists email :: FullMatch(arn, email)
  }

  /** Length of the run of digits that starts `s`. */
  function DigitRun(s: string): (n: nat)
    ensures n <= |s| && AllDigits(s[..n]) && (n < |s| ==> !IsDigit(s[n]))
  {
    if s == [] || !IsDigit(s[0]) then 0
    else
      var n := 1 + DigitRun(s[1..]);
      assert forall i :: 1 <= i < n ==> s[..n][i] == s[1..][..n - 1][i - 1];
      n
  }

  /** Splits a host at its last '.'. */
  function SplitHost(host: string): Option<(string, string)> {
    if '.' !in host then None
    else Some((host[..LastIndexOf(host, '.')], host[LastIndexOf(host, '.') + 1..]))
  }

  /** Splits `e` at its first '@' and at the last '.' after it. */
  function SplitEmail(e: string): Option<(string, string, string)> {
    if '@' !in e then None
    else
      match SplitHost(e[IndexOf(e, '@') + 1..])
      case None => None
      case Some((domain, tld)) => Some((e[..IndexOf(e, '@')], domain, tld))
  }

  /** Whether `e` is a valid session name. */
  predicate ValidEmail(e: string) {
    SplitEmail(e).Some? && EmailParts(SplitEmail(e).value.0, SplitEmail(e).value.1, SplitEmail(e).value.2)
  }

  /** Splits a role path at its first '/'. */
  function SplitRolePath(path: string): Option<(string, string)> {
    if '/' !in path then None
    else Some((path[..IndexOf(path, '/')], path[IndexOf(path, '/') + 1..]))
  }

  /** Splits what follows the ARN prefix into the leading digits and the role path after the role marker. */
  function SplitAccount(s: string): Option<(string, string, string)> {
    var n := DigitRun(s);
    if !StartsWith(s[n..], RoleMarker) then None
    else
      match SplitRolePath(s[n + |RoleMarker|..])
      case None => None
      case Some((role, email)) => Some((s[..n], role, email))
  }

  /**
   * Splits `arn` into the digits after the prefix, the text between the role
   * marker and the next '/', and the rest, or None when a separator is missing.
   */
  function SplitArn(arn: string): Option<(string, string, string)> {
    if !StartsWith(arn, ArnPrefix) then None else SplitAccount(arn[|ArnPrefix|..])
  }

  /** The session name of a matching ARN, or None. */
  function ParseArn(arn: string): Option<string> {
    match SplitArn(arn)
    case None => None
    case Some((account, role, email)) =>
      if account != [] && role != [] && ValidEmail(email) then Some(email) else None
  }

  lemma DigitRunConcat(a: string, b: string)
    requires AllDigits(a) && b != [] && !IsDigit(b[0])
    ensures DigitRun(a + b) == |a|
  {
    var s := a + b;
    var n := DigitRun(s);
    DigitRunDigits(s);
    assert forall i :: 0 <= i < |a| ==> s[i] == a[i];
    assert s[|a|] == b[0];
  }

  /** Every character before the end of the digit run is a digit. */
  lemma DigitRunDigits(s: string)
    ensures forall i :: 0 <= i < DigitRun(s) ==> IsDigit(s[i])
  {
    var n := DigitRun(s);
    assert forall i :: 0 <= i < n ==> s[..n][i] == s[i];
  }

  lemma LastIndexOfIs(s: string, c: char, k: nat)
    requires k < |s| && s[k] == c && c !in s[k + 1..]
    ensures LastIndexOf(s, c) == k
  {
    var j := LastIndexOf(s, c);
    assert forall i :: k + 1 <= i < |s| ==> s[k + 1..][i - k - 1] == s[i];
    assert forall i :: j + 1 <= i < |s| ==> s[j + 1..][i - j - 1] == s[i];
  }

  /** Splitting a string around one of its characters and joining the pieces gives it back. */
  lemma SplitAround(s: string, i: nat)
    requires i < |s|
    ensures s == s[..i] + [s[i]] + s[i + 1..]
  {
  }

  lemma SplitHostJoins(host: string)
    requires SplitHost(host).Some?
    ensures host == HostOf(SplitHost(host).value.0, SplitHost(host).value.1)
  {
    SplitAround(host, LastIndexOf(host, '.'));
  }

  lemma SplitHostOf(domain: string, tld: string)
    requires '.' !in tld
    ensures SplitHost(HostOf(domain, tld)) == Some((domain, tld))
  {
    var host := HostOf(domain, tld);
    assert host[|domain| + 1..] == tld;
    LastIndexOfIs(host, '.', |domain|);
    assert host[..|domain|] == domain;
  }

  /** The pieces of a split rejoin to the session name. */
  lemma SplitEmailJoins(e: string)
    requires SplitEmail(e).Some?
    ensures e == EmailOf(SplitEmail(e).value.0, SplitEmail(e).value.1, SplitEmail(e).value.2)
  {
    var at := IndexOf(e, '@');
    SplitHostJoins(e[at + 1..]);
    SplitAround(e, at);
  }

  /** An email whose local part has no '@' and whose top-level domain has no '.' splits into its parts. */
  lemma SplitEmailOf(local: string, domain: string, tld: string)
    requires '@' !in local && '.' !in tld
    ensures SplitEmail(EmailOf(local, domain, tld)) == Some((local, domain, tld))
  {
    var e := EmailOf(local, domain, tld);
    assert e[..|local|] == local;
    IndexOfIs(e, '@', |local|);
    assert e[|local| + 1..] == HostOf(domain, tld);
    SplitHostOf(domain, tld);
  }

  lemma ValidEmailSound(e: string)
    requires ValidEmail(e)
    ensures IsEmail(e)
  {
    SplitEmailJoins(e);
  }

  lemma ValidEmailComplete(local: string, domain: string, tld: string)
    requires EmailParts(local, domain, tld)
    ensures ValidEmail(EmailOf(local, domain, tld))
  {
    assert '@' !in local by {
      assert forall i :: 0 <= i < |local| ==> IsLocalChar(local[i]);
    }
    assert '.' !in tld by {
      assert forall i :: 0 <= i < |tld| ==> IsTldChar(tld[i]);
    }
    SplitEmailOf(local, domain, tld);
  }

  lemma SplitRolePathJoins(path: string)
    requires SplitRolePath(path).Some?
    ensures '/' !in SplitRolePath(path).value.0
    ensures path == RolePath(SplitRolePath(path).value.0, SplitRolePath(path).value.1)
  {
    var k := IndexOf(path, '/');
    SplitAround(path, k);
  }

  lemma SplitRolePathOf(role: string, email: string)
    requires '/' !in role
    ensures SplitRolePath(RolePath(role, email)) == Some((role, email))
  {
    var path := RolePath(role, email);
    assert path[..|role|] == role;
    IndexOfIs(path, '/', |role|);
    assert path[|role| + 1..] == email;
  }

  lemma PrefixJoin(s: string, prefix: string)
    requires StartsWith(s, prefix)
    ensures s == prefix + s[|prefix|..]
  {
    assert s == s[..|prefix|] + s[|prefix|..];
  }

  /** A string whose suffix from `n` starts with `marker` is its head, the marker and what follows. */
  lemma SplitAtMarker(s: string, n: nat, marker: string)
    requires n <= |s| && StartsWith(s[n..], marker)
    ensures s == s[..n] + (marker + s[n + |marker|..])
  {
    var rest := s[n..];
    assert rest == rest[..|marker|] + rest[|marker|..];
    assert rest[|marker|..] == s[n + |marker|..];
  }

  lemma SplitAccountJoins(s: string)
    requires SplitAccount(s).Some?
    ensures var (account, role, email) := SplitAccount(s).value;
      AllDigits(account) && '/' !in role && s == account + (RoleMarker + RolePath(role, email))
  {
    var n := DigitRun(s);
    SplitAtMarker(s, n, RoleMarker);
    SplitRolePathJoins(s[n + |RoleMarker|..]);
  }

  lemma SplitAccountOf(account: string, path: string)
    requires AllDigits(account)
    ensures SplitAccount(account + (RoleMarker + path)) ==
      if SplitRolePath(path).None? then None
      else Some((account, SplitRolePath(path).value.0, SplitRolePath(path).value.1))
  {
    var s := account + (RoleMarker + path);
    assert RoleMarker[0] == ':';
    DigitRunConcat(account, RoleMarker + path);
    assert s[|account|..] == RoleMarker + path;
    assert (RoleMarker + path)[..|RoleMarker|] == RoleMarker;
    assert (RoleMarker + path)[|RoleMarker|..] == path;
    assert s[..|account|] == account;
  }

  /** The pieces of an ARN split rejoin to it, the account being digits and the role slash-free. */
  lemma SplitArnJoins(arn: string)
    requires SplitArn(arn).Some?
    ensures var (account, role, email) := SplitArn(arn).value;
      AllDigits(account) && '/' !in role && arn == ArnOf(account, role, email)
  {
    var s := arn[|ArnPrefix|..];
    assert SplitArn(arn) == SplitAccount(s);
    SplitAccountJoins(s);
    PrefixJoin(arn, ArnPrefix);
  }

  /** An ARN built from a digit account and a slash-free role splits back into its pieces. */
  lemma SplitArnOf(account: string, role: string, email: string)
    requires AllDigits(account) && '/' !in role
    ensures SplitArn(ArnOf(account, role, email)) == Some((account, role, email))
  {
    var arn := ArnOf(account, role, email);
    assert arn[..|ArnPrefix|] == ArnPrefix;
    assert arn[|ArnPrefix|..] == account + (RoleMarker + RolePath(role, email));
    SplitRolePathOf(role, email);
    SplitAccountOf(account, RolePath(role, email));
  }

  /** Every ARN built from matching groups parses to its session name. */
  lemma ParseArnComplete(account: string, role: string, email: string)
    requires RoleParts(account, role) && ValidEmail(email)
    ensures ParseArn(ArnOf(account, role, email)) == Some(email)
  {
    SplitArnOf(account, role, email);
  }

  /** The parser agrees with the regex: it returns the session name exactly when the whole ARN matches. */
  lemma ParseArnCorrect(arn: string, email: string)
    ensures ParseArn(arn) == Some(email) <==> FullMatch(arn, email)
  {
    if ParseArn(arn) == Some(email) {
      SplitArnJoins(arn);
      var (account, role, e) := SplitArn(arn).value;
      ValidEmailSound(email);
      assert RoleParts(account, role) && arn == ArnOf(account, role, email);
    }
    if FullMatch(arn, email) {
      var account, role :| RoleParts(account, role) && IsEmail(email) && arn == ArnOf(account, role, email);
      var local, domain, tld :| EmailParts(local, domain, tld) && email == EmailOf(local, domain, tld);
      ValidEmailComplete(local, domain, tld);
      ParseArnComplete(account, role, email);
    }
  }

  /** The parse of an ARN in a list agrees with the regex. */
  lemma SessionsMatch(arns: seq<string>, i: nat, email: string)
    requires i < |arns|
    ensures Sessions(arns)[i] == Some(email) <==> FullMatch(arns[i], email)
  {
    ParseArnCorrect(arns[i], email);
  }

  /** The top-level-domain class also admits '|', so jane@example.c| is a valid session name. */
  lemma ExampleBarInTld()
    ensures ValidEmail(EmailOf("jane", "example", "c|"))
  {
    assert AllTld("c|") by {
      assert "c|"[0] == 'c' && "c|"[1] == '|';
    }
    ValidEmailComplete("jane", "example", "c|");
  }

  /** An ARN whose session name has no '@' is refused. */
  lemma SessionNeedsAt(account: string, role: string, email: string)
    requires RoleParts(account, role) && '@' !in email
    ensures ParseArn(ArnOf(account, role, email)).None?
  {
    SplitArnOf(account, role, email);
  }
}
