/**
 * The connection URL of `Monitor.__init__`: a trailing `/` is added, then
 * the pattern
 *
 *   (?:ftp://)?(?:([^:]*):([^@]*)@|([^@]*)@)?([^/]*)(?:/(.*))?
 *
 * is searched for. Every part of it is optional, so it always matches at
 * the start, and because the tail `([^/]*)(?:/(.*))?` always matches, the
 * regex engine never backtracks into an earlier choice: each greedy class
 * runs to the first character it excludes, the first alternative is taken
 * when its `:` and `@` are both found, the second when its `@` is. That
 * makes the match a function of the string, written out here.
 */
module Url {
  import opened Wrappers

  /** `url += '/' if url[-1] != '/' else ''`; an empty URL has no last character. */
  function NormalizeUrl(url: string): (r: Option<string>)
    ensures r.None? <==> url == []
    ensures r.Some? ==> url <= r.value && |r.value| <= |url| + 1 && r.value[|r.value| - 1] == '/'
  {
    if url == [] then None
    else if url[|url| - 1] != '/' then Some(url + ['/'])
    else Some(url)
  }

  /** Normalising twice changes nothing more. */
  lemma NormalizeIdempotent(url: string)
    requires url != []
    ensures NormalizeUrl(NormalizeUrl(url).value) == NormalizeUrl(url)
  {
  }

  /** Where the first `c` in `s` is, or `|s|` when there is none. */
  function FirstIndex(s: string, c: char): (i: nat)
    ensures i <= |s| && (i < |s| ==> s[i] == c)
    ensures forall k :: 0 <= k < i ==> s[k] != c
  {
    if s == [] || s[0] == c then 0 else 1 + FirstIndex(s[1..], c)
  }

  /** Only one index answers that description. */
  lemma FirstIndexUnique(s: string, c: char, i: nat)
    requires i <= |s| && (i < |s| ==> s[i] == c)
    requires forall k :: 0 <= k < i ==> s[k] != c
    ensures FirstIndex(s, c) == i
  {
  }

  /**
   * `s` cut at its first `c`: what precedes it, and what follows it if
   * there is one. A greedy `[^c]*` followed by `c` matches exactly the
   * first part.
   */
  function Cut(s: string, c: char): (r: (string, Option<string>))
    ensures c !in r.0
    ensures r.1.None? ==> r.0 == s
    ensures r.1.Some? ==> s == r.0 + [c] + r.1.value
  {
    var i := FirstIndex(s, c);
    if i < |s| then
      assert s == s[..i] + [c] + s[i + 1..];
      (s[..i], Some(s[i + 1..]))
    else (s, None)
  }

  /** The cut is the only one: a split of `s` at a `c` with no `c` before it is the one `Cut` finds. */
  lemma CutAt(x: string, c: char, y: string)
    requires c !in x
    ensures Cut(x + [c] + y, c) == (x, Some(y))
  {
    var s := x + [c] + y;
    FirstIndexUnique(s, c, |x|);
    assert s[..|x|] == x && s[|x| + 1..] == y;
  }

  lemma CutNone(x: string, c: char)
    requires c !in x
    ensures Cut(x, c) == (x, None)
  {
    FirstIndexUnique(x, c, |x|);
  }

  /** Cutting skips over a part without `c`. */
  lemma CutSkip(x: string, y: string, c: char)
    requires c !in x
    ensures Cut(x + y, c) == (x + Cut(y, c).0, Cut(y, c).1)
  {
    var s := x + y;
    var f := FirstIndex(y, c);
    forall k | 0 <= k < |x| + f ensures s[k] != c {
      if k < |x| {
        assert s[k] == x[k];
      } else {
        assert s[k] == y[k - |x|];
      }
    }
    FirstIndexUnique(s, c, |x| + f);
    assert s[..|x| + f] == x + y[..f];
    if f < |y| {
      assert s[|x| + f + 1..] == y[f + 1..];
    }
  }

  /** The groups of the match; `scheme` says whether `ftp://` was matched. */
  datatype Groups = Groups(
    scheme: bool,
    g1: Option<string>,
    g2: Option<string>,
    g3: Option<string>,
    host: string,
    g5: Option<string>)

  /** What follows an optional leading `ftp://`. */
  function AfterScheme(url: string): (r: string)
    ensures ("ftp://" <= url ==> url == "ftp://" + r) && (!("ftp://" <= url) ==> r == url)
  {
    if "ftp://" <= url then url[6..] else url
  }

  /** The text of the credential groups. */
  function CredentialSpan(m: Groups): string {
    if m.g1.Some? && m.g2.Some? then m.g1.value + ":" + m.g2.value + "@"
    else if m.g3.Some? then m.g3.value + "@"
    else ""
  }

  function PathText(g5: Option<string>): string {
    if g5.Some? then "/" + g5.value else ""
  }

  function PathSpan(m: Groups): string {
    PathText(m.g5)
  }

  /** The text of the scheme and credential groups. */
  function Lead(m: Groups): string {
    (if m.scheme then "ftp://" else "") + CredentialSpan(m)
  }

  /** The text a match of these groups spans. */
  function Spanned(m: Groups): string {
    Lead(m) + (m.host + PathSpan(m))
  }

  /** The credential groups and the text left for host and path. */
  datatype CredentialGroups = CredentialGroups(g1: Option<string>, g2: Option<string>, g3: Option<string>, rest: string)

  /**
   * The credential groups found after the optional scheme, and what is left
   * for host and path: `([^:]*):([^@]*)@` if both its `:` and its `@` are
   * found, else `([^@]*)@` if its `@` is, else nothing.
   */
  function MatchCredentials(text: string): (r: CredentialGroups)
    ensures r.g1.Some? <==> r.g2.Some?
    ensures r.g1.Some? ==> r.g3.None?
    ensures r.g1.Some? ==> ':' !in r.g1.value && '@' !in r.g2.value
    ensures r.g3.Some? ==> '@' !in r.g3.value
  {
    var colon := Cut(text, ':');
    var at := if colon.1.Some? then Cut(colon.1.value, '@') else ([], None);
    if colon.1.Some? && at.1.Some? then
      CredentialGroups(Some(colon.0), Some(at.0), None, at.1.value)
    else
      var name := Cut(text, '@');
      if name.1.Some? then CredentialGroups(None, None, Some(name.0), name.1.value)
      else CredentialGroups(None, None, None, text)
  }

  /** The credential groups and what is left make up the text after the scheme. */
  lemma CredentialsSplit(text: string)
    ensures var r := MatchCredentials(text);
      text == CredentialSpan(Groups(false, r.g1, r.g2, r.g3, "", None)) + r.rest
  {
    var colon := Cut(text, ':');
    if colon.1.Some? {
      var at := Cut(colon.1.value, '@');
      if at.1.Some? {
        JoinCredentials(colon.0, at.0, at.1.value);
      }
    }
  }

  lemma JoinCredentials(user: string, pass: string, after: string)
    ensures user + [':'] + (pass + ['@'] + after) == user + ":" + pass + "@" + after
  {
  }

  /** `([^/]*)(?:/(.*))?`: the host, and the rest of the line after a `/` if there is one. */
  function MatchHostPath(tail: string): (r: (string, Option<string>))
    ensures '/' !in r.0
    ensures r.1.Some? ==> '\n' !in r.1.value
  {
    var slash := Cut(tail, '/');
    (slash.0, if slash.1.Some? then Some(Cut(slash.1.value, '\n').0) else None)
  }

  /** `re.search` of the URL pattern against `url`. */
  function MatchUrl(url: string): (m: Groups)
    ensures m.scheme <==> "ftp://" <= url
    ensures m.g1.Some? <==> m.g2.Some?
    ensures m.g1.Some? ==> m.g3.None?
    ensures m.g1.Some? ==> ':' !in m.g1.value && '@' !in m.g2.value
    ensures m.g3.Some? ==> '@' !in m.g3.value
    ensures '/' !in m.host
    ensures m.g5.Some? ==> '\n' !in m.g5.value
  {
    var c := MatchCredentials(AfterScheme(url));
    var h := MatchHostPath(c.rest);
    Groups("ftp://" <= url, c.g1, c.g2, c.g3, h.0, h.1)
  }

  /**
   * The match spans a prefix of the URL: all of it when there is no path
   * group, else up to the end of the line.
   */
  lemma MatchSpans(url: string)
    ensures Spanned(MatchUrl(url)) <= url
    ensures MatchUrl(url).g5.None? ==> Spanned(MatchUrl(url)) == url
    ensures MatchUrl(url).g5.Some? ==>
      |Spanned(MatchUrl(url))| == |url| || url[|Spanned(MatchUrl(url))|] == '\n'
  {
    var rest := MatchCredentials(AfterScheme(url)).rest;
    LeadSplit(url);
    TailSpan(rest);
    SpanBehindLead(MatchUrl(url), rest, url);
  }

  /** The scheme and the credential groups come first in the URL. */
  lemma LeadSplit(url: string)
    ensures url == Lead(MatchUrl(url)) + MatchCredentials(AfterScheme(url)).rest
  {
    var m := MatchUrl(url);
    var text := AfterScheme(url);
    var c := MatchCredentials(text);
    CredentialsSplit(text);
    assert CredentialSpan(Groups(false, m.g1, m.g2, m.g3, "", None)) == CredentialSpan(m);
    Regroup(if m.scheme then "ftp://" else "", CredentialSpan(m), c.rest);
  }

  /** A span of the tail is one of the whole URL behind the lead. */
  lemma SpanBehindLead(m: Groups, tail: string, url: string)
    requires url == Lead(m) + tail
    requires m.host + PathSpan(m) <= tail
    requires m.g5.None? ==> m.host + PathSpan(m) == tail
    requires m.g5.Some? ==> |m.host + PathSpan(m)| == |tail| || tail[|m.host + PathSpan(m)|] == '\n'
    ensures Spanned(m) <= url
    ensures m.g5.None? ==> Spanned(m) == url
    ensures m.g5.Some? ==> |Spanned(m)| == |url| || url[|Spanned(m)|] == '\n'
  {
    PrefixUnder(Lead(m), m.host + PathSpan(m), tail);
  }

  /** Host and path span the start of what follows the credentials. */
  lemma TailSpan(tail: string)
    ensures var (host, g5) := MatchHostPath(tail);
      var hp := host + PathText(g5);
      && hp <= tail
      && (g5.None? ==> hp == tail)
      && (g5.Some? ==> |hp| == |tail| || tail[|hp|] == '\n')
  {
    var slash := Cut(tail, '/');
    if slash.1.Some? {
      LineSpan(slash.0, slash.1.value, tail);
    }
  }

  /** The first line after a lead and a `/`, and the character that ends it. */
  lemma LineSpan(lead: string, av: string, whole: string)
    requires whole == lead + ['/'] + av
    ensures var hp := lead + ("/" + Cut(av, '\n').0);
      hp <= whole && (|hp| == |whole| || whole[|hp|] == '\n')
  {
    var (line, more) := Cut(av, '\n');
    var x := lead + ['/'];
    assert lead + ("/" + line) == x + line;
    if more.Some? {
      var y := ['\n'] + more.value;
      Regroup(line, ['\n'], more.value);
      Regroup(x, line, y);
      ConcatPrefix(x + line, y);
    } else {
      assert whole == x + line;
    }
  }

  lemma ConcatPrefix(x: string, y: string)
    ensures x <= x + y
    ensures |y| > 0 ==> (x + y)[|x|] == y[0]
  {
  }

  lemma Regroup(a: string, b: string, c: string)
    ensures a + (b + c) == (a + b) + c
  {
  }

  /** A prefix stays one, with the same next character, behind a common lead. */
  lemma PrefixUnder(lead: string, x: string, y: string)
    requires x <= y
    ensures lead + x <= lead + y
    ensures |x| < |y| ==> (lead + y)[|lead + x|] == y[|x|]
  {
    assert (lead + y)[..|lead + x|] == lead + x;
  }

  /** The first alternative is taken exactly when a `:` is followed, somewhere later, by an `@`. */
  lemma FirstAlternative(url: string)
    ensures var rest := AfterScheme(url);
      MatchUrl(url).g1.Some? <==> exists i, j :: 0 <= i < j < |rest| && rest[i] == ':' && rest[j] == '@'
  {
    ColonThenAt(AfterScheme(url));
  }

  lemma ColonThenAt(text: string)
    ensures MatchCredentials(text).g1.Some? <==> exists i, j :: 0 <= i < j < |text| && text[i] == ':' && text[j] == '@'
  {
    var colon := Cut(text, ':');
    if colon.1.Some? {
      var after := colon.1.value;
      var at := Cut(after, '@');
      var u := |colon.0|;
      if at.1.Some? {
        assert text[u] == ':';
        assert text[u + 1 + |at.0|] == after[|at.0|];
      } else {
        forall i, j | 0 <= i < j < |text| && text[i] == ':' ensures text[j] != '@' {
          assert i >= u;
          assert text[j] == after[j - u - 1];
        }
      }
    } else {
      forall i | 0 <= i < |text| ensures text[i] != ':' {
        assert text[i] in colon.0;
      }
    }
  }

  /** The second alternative is taken exactly when the first is not and there is an `@`. */
  lemma SecondAlternative(url: string)
    ensures var m := MatchUrl(url);
      m.g3.Some? <==> m.g1.None? && '@' in AfterScheme(url)
  {
    var rest := AfterScheme(url);
    var m := MatchUrl(url);
    if m.g1.None? {
      var (name, tail) := Cut(rest, '@');
      assert tail.None? ==> '@' !in rest;
      assert tail.Some? ==> rest[|name|] == '@';
    }
  }

  /** Line 25: an empty or missing group 1 gives way to group 3. */
  function Username(m: Groups): Option<string> {
    if m.g1.None? || m.g1.value == "" then m.g3 else m.g1
  }

  /** Line 30: `if username and not password`. */
  predicate NeedsPassword(username: Option<string>, password: Option<string>) {
    && username.Some? && username.value != ""
    && (password.None? || password.value == "")
  }

  /** What the URL yields before any prompt: user, password, server and remote path. */
  datatype Endpoint = Endpoint(
    username: Option<string>,
    password: Option<string>,
    server: string,
    remotePath: Option<string>)

  function Parse(url: string): (r: Option<Endpoint>)
    ensures r.None? <==> url == []
  {
    match NormalizeUrl(url)
    case None => None
    case Some(u) =>
      var m := MatchUrl(u);
      Some(Endpoint(Username(m), m.g2, m.host, m.g5))
  }

  /**
   * Lines 18-31: the endpoint the session connects to; `prompted` is the
   * answer `getpass` would give, used only when it is asked for.
   */
  function Configure(url: string, prompted: string): (r: Option<Endpoint>)
    ensures r.None? <==> url == []
    ensures r.Some? ==> var e := Parse(url).value;
      && r.value.password == (if NeedsPassword(e.username, e.password) then Some(prompted) else e.password)
      && r.value == e.(password := r.value.password)
  {
    match Parse(url)
    case None => None
    case Some(e) =>
      if NeedsPassword(e.username, e.password) then Some(e.(password := Some(prompted))) else Some(e)
  }

  /**
   * After the trailing `/` is added the path group is always there, so
   * `ftp.cwd` gets a string, except for the URL `ftp://` alone, where
   * nothing is left after the scheme.
   */
  lemma RemotePathPresent(url: string)
    requires url != []
    ensures Parse(url).value.remotePath.None? <==> url == "ftp://"
  {
    var n := NormalizeUrl(url).value;
    assert n == "ftp://" <==> url == "ftp://";
    SchemeLeavesSlash(n);
    var text := AfterScheme(n);
    if text != [] {
      PathGroupPresent(text);
    } else {
      assert MatchCredentials(text).rest == [];
      CutNone([], '/');
    }
  }

  /** Behind the scheme of a URL ending in `/`, either nothing or a text ending in `/` is left. */
  lemma SchemeLeavesSlash(n: string)
    requires n != [] && n[|n| - 1] == '/'
    ensures AfterScheme(n) == [] <==> n == "ftp://"
    ensures AfterScheme(n) != [] ==> AfterScheme(n)[|AfterScheme(n)| - 1] == '/'
  {
  }

  /** A text ending in `/` keeps that `/` for the host and path groups. */
  lemma PathGroupPresent(text: string)
    requires text != [] && text[|text| - 1] == '/'
    ensures MatchHostPath(MatchCredentials(text).rest).1.Some?
  {
    var c := MatchCredentials(text);
    CredentialsSplit(text);
    var cs := CredentialSpan(Groups(false, c.g1, c.g2, c.g3, "", None));
    assert cs != [] ==> cs[|cs| - 1] == '@';
    assert c.rest != [] && c.rest[|c.rest| - 1] == '/';
    assert c.rest[|c.rest| - 1] in c.rest;
  }

  /** The credential forms a URL can carry. */
  datatype Credentials = Anonymous | UserOnly(user: string) | UserPass(user: string, pass: string)

  function CredentialText(c: Credentials): string {
    match c
    case Anonymous => ""
    case UserOnly(u) => u + "@"
    case UserPass(u, p) => u + ":" + p + "@"
  }

  function SchemeText(scheme: bool): string {
    if scheme then "ftp://" else ""
  }

  /** `[ftp://][credentials]host[/path]`. */
  function Compose(scheme: bool, c: Credentials, host: string, path: Option<string>): string {
    SchemeText(scheme) + (CredentialText(c) + (host + PathText(path)))
  }

  /** No `:`, `@` or `/`: a component the URL's separators cannot be confused with. */
  predicate Plain(s: string) {
    ':' !in s && '@' !in s && '/' !in s
  }

  /** The remote path the parse is meant to give: the path with a trailing `/`. */
  function ExpectedPath(path: Option<string>): string {
    match path
    case None => ""
    case Some(p) => if p == "" || p[|p| - 1] == '/' then p else p + "/"
  }

  /** The user and password the parse is meant to give. */
  function ExpectedLogin(c: Credentials): (Option<string>, Option<string>) {
    match c
    case Anonymous => (None, None)
    case UserOnly(u) => (Some(u), None)
    case UserPass(u, p) => (if u == "" then None else Some(u), Some(p))
  }

  /** What the regex sees once the trailing `/` is in place. */
  lemma NormalizedCompose(scheme: bool, c: Credentials, host: string, path: Option<string>)
    requires host != [] && '/' !in host
    ensures NormalizeUrl(Compose(scheme, c, host, path)) == Some(Compose(scheme, c, host, Some(ExpectedPath(path))))
  {
    ExpectedTail(host, path);
    NormalizeNested(SchemeText(scheme), CredentialText(c), host + PathText(path));
  }

  /** Normalising looks only at the last part of the URL. */
  lemma NormalizeNested(a: string, b: string, t: string)
    requires t != []
    ensures NormalizeUrl(a + (b + t)) == if t[|t| - 1] == '/' then Some(a + (b + t)) else Some(a + (b + (t + "/")))
  {
    var u := a + (b + t);
    assert u[|u| - 1] == t[|t| - 1];
    Regroup(b, t, "/");
    Regroup(a, b + t, "/");
  }

  /** Host and path end in `/` exactly when the path already does; otherwise the expected path adds it. */
  lemma ExpectedTail(host: string, path: Option<string>)
    requires host != [] && '/' !in host
    ensures var t := host + PathText(path);
      var e := host + PathText(Some(ExpectedPath(path)));
      t != [] && (if t[|t| - 1] == '/' then e == t else e == t + "/")
  {
    var t := host + PathText(path);
    assert host[|host| - 1] in host;
    match path {
      case None =>
        assert t == host;
      case Some(q) =>
        var pt := "/" + q;
        assert t[|t| - 1] == pt[|pt| - 1];
        Regroup(host, pt, "/");
        Regroup("/", q, "/");
    }
  }

  /**
   * A URL put together from plain parts parses back into those parts: the
   * user (an empty one reads as none, the way line 25 treats it), the
   * password, the host and the path with a trailing `/`.
   */
  lemma ParseCompose(scheme: bool, c: Credentials, host: string, path: Option<string>)
    requires host != [] && Plain(host)
    requires path.Some? ==> '\n' !in path.value
    requires c.UserOnly? || c.UserPass? ==> Plain(c.user)
    requires c.UserPass? ==> Plain(c.pass)
    requires c.UserOnly? || c.Anonymous? ==> path.Some? ==> '@' !in path.value
    ensures Parse(Compose(scheme, c, host, path)) ==
      Some(Endpoint(ExpectedLogin(c).0, ExpectedLogin(c).1, host, Some(ExpectedPath(path))))
  {
    var ep := ExpectedPath(path);
    var n := Compose(scheme, c, host, Some(ep));
    assert NormalizeUrl(Compose(scheme, c, host, path)) == Some(n) by {
      NormalizedCompose(scheme, c, host, path);
    }
    assert MatchUrl(n) == ComposedGroups(scheme, c, host, ep) by {
      ExpectedPathChars(path);
      MatchComposed(scheme, c, host, ep);
    }
    ParseThrough(Compose(scheme, c, host, path), n, ComposedGroups(scheme, c, host, ep));
    ComposedLogin(scheme, c, host, ep);
  }

  /** Group 1, group 3 and line 25 give back the user and password composed in. */
  lemma ComposedLogin(scheme: bool, c: Credentials, host: string, ep: string)
    ensures var m := ComposedGroups(scheme, c, host, ep);
      Endpoint(Username(m), m.g2, m.host, m.g5) == Endpoint(ExpectedLogin(c).0, ExpectedLogin(c).1, host, Some(ep))
  {
  }

  /** `Parse` is the match of the normalised URL. */
  lemma ParseThrough(url: string, n: string, m: Groups)
    requires NormalizeUrl(url) == Some(n) && MatchUrl(n) == m
    ensures Parse(url) == Some(Endpoint(Username(m), m.g2, m.host, m.g5))
  {
  }

  /** The groups a composed URL is meant to produce. */
  function ComposedGroups(scheme: bool, c: Credentials, host: string, ep: string): Groups {
    match c
    case Anonymous => Groups(scheme, None, None, None, host, Some(ep))
    case UserOnly(u) => Groups(scheme, None, None, Some(u), host, Some(ep))
    case UserPass(u, p) => Groups(scheme, Some(u), Some(p), None, host, Some(ep))
  }

  /** The regex finds in a composed URL the parts it was composed of. */
  lemma MatchComposed(scheme: bool, c: Credentials, host: string, ep: string)
    requires Plain(host) && '\n' !in ep
    requires c.UserOnly? || c.UserPass? ==> Plain(c.user)
    requires c.UserPass? ==> Plain(c.pass)
    requires c.UserOnly? || c.Anonymous? ==> '@' !in ep
    ensures MatchUrl(Compose(scheme, c, host, Some(ep))) == ComposedGroups(scheme, c, host, ep)
  {
    var tail := host + ("/" + ep);
    SchemeOf(scheme, c, host, ep);
    assert c.UserOnly? || c.Anonymous? ==> '@' !in tail;
    CredentialsOf(c, tail);
    HostPathOf(host, ep);
  }

  /** The trailing `/` is the only character the expected path adds. */
  lemma ExpectedPathChars(path: Option<string>)
    ensures forall ch :: ch in ExpectedPath(path) ==> ch == '/' || (path.Some? && ch in path.value)
  {
  }

  /** The scheme is matched exactly when it was written, and the rest follows it. */
  lemma SchemeOf(scheme: bool, c: Credentials, host: string, ep: string)
    requires Plain(host)
    requires c.UserOnly? || c.UserPass? ==> Plain(c.user)
    requires c.UserPass? ==> Plain(c.pass)
    ensures var n := Compose(scheme, c, host, Some(ep));
      ("ftp://" <= n <==> scheme) && AfterScheme(n) == CredentialText(c) + (host + ("/" + ep))
  {
    if !scheme {
      NoSchemeInside(c, host, ep);
    }
  }

  /**
   * A string whose first `/` is not preceded by a `:` right before it does
   * not start with `ftp://`.
   */
  lemma NoSchemeBefore(a: string, b: string)
    requires '/' !in a
    requires forall i :: 0 <= i < |a| && a[i] == ':' ==> i + 1 < |a|
    ensures !("ftp://" <= a + ("/" + b))
  {
    var s := a + ("/" + b);
    if |a| > 4 {
      assert s[4] == a[4];
    } else if |a| == 4 {
      assert s[3] == a[3];
    } else {
      assert s[|a|] == '/';
    }
  }

  /** In `user:pass@host` with plain parts, the only `:` is the separator. */
  lemma OnlyColon(u: string, pw: string, host: string)
    requires Plain(u) && Plain(pw) && Plain(host)
    ensures var a := u + ":" + pw + "@" + host;
      forall i :: 0 <= i < |a| && i != |u| ==> a[i] != ':'
  {
    var a := u + ":" + pw + "@" + host;
    forall i | 0 <= i < |a| && i != |u| ensures a[i] != ':' {
      if i < |u| {
        assert a[i] == u[i];
      } else if i < |u| + 1 + |pw| {
        assert a[i] == pw[i - |u| - 1];
      } else if i > |u| + 1 + |pw| {
        assert a[i] == host[i - |u| - |pw| - 2];
      }
    }
  }

  /** Without the scheme, a composed URL does not start with `ftp://` either. */
  lemma NoSchemeInside(c: Credentials, host: string, ep: string)
    requires Plain(host)
    requires c.UserOnly? || c.UserPass? ==> Plain(c.user)
    requires c.UserPass? ==> Plain(c.pass)
    ensures !("ftp://" <= CredentialText(c) + (host + ("/" + ep)))
  {
    var a := CredentialText(c) + host;
    match c {
      case UserPass(u, pw) =>
        OnlyColon(u, pw, host);
      case UserOnly(u) =>
        assert ':' !in a;
      case Anonymous =>
        assert ':' !in a;
    }
    NoSchemeBefore(a, ep);
    Regroup(CredentialText(c), host, "/" + ep);
  }

  /** The credentials part parses as the form it was written in. */
  lemma CredentialsOf(c: Credentials, tail: string)
    requires c.UserOnly? || c.UserPass? ==> Plain(c.user)
    requires c.UserPass? ==> Plain(c.pass)
    requires c.UserOnly? || c.Anonymous? ==> '@' !in tail
    ensures var r := MatchCredentials(CredentialText(c) + tail);
      match c
      case Anonymous => r == CredentialGroups(None, None, None, tail)
      case UserOnly(u) => r == CredentialGroups(None, None, Some(u), tail)
      case UserPass(u, p) => r == CredentialGroups(Some(u), Some(p), None, tail)
  {
    match c {
      case Anonymous =>
        assert CredentialText(c) + tail == tail;
        AnonymousGroups(tail);
      case UserOnly(u) =>
        UserGroups(u, tail);
      case UserPass(u, p) =>
        UserPassGroups(u, p, tail);
    }
  }

  /** Without an `@`, there is none after the first `:` either. */
  lemma NoAtAfterColon(tail: string)
    requires '@' !in tail
    ensures Cut(tail, ':').1.Some? ==> Cut(Cut(tail, ':').1.value, '@') == (Cut(tail, ':').1.value, None)
  {
    var colon := Cut(tail, ':');
    if colon.1.Some? {
      assert forall k :: 0 <= k < |colon.1.value| ==> colon.1.value[k] == tail[|colon.0| + 1 + k];
      CutNone(colon.1.value, '@');
    }
  }

  /** Without an `@`, neither alternative is taken. */
  lemma AnonymousGroups(tail: string)
    requires '@' !in tail
    ensures MatchCredentials(tail) == CredentialGroups(None, None, None, tail)
  {
    NoAtAfterColon(tail);
    CutNone(tail, '@');
  }

  /** `user@tail`: the second alternative. */
  lemma UserGroups(u: string, tail: string)
    requires Plain(u) && '@' !in tail
    ensures MatchCredentials(u + "@" + tail) == CredentialGroups(None, None, Some(u), tail)
  {
    CutSkip(u + "@", tail, ':');
    NoAtAfterColon(tail);
    CutAt(u, '@', tail);
  }

  /** `user:pass@tail`: the first alternative. */
  lemma UserPassGroups(u: string, p: string, tail: string)
    requires ':' !in u && '@' !in p
    ensures MatchCredentials(u + ":" + p + "@" + tail) == CredentialGroups(Some(u), Some(p), None, tail)
  {
    assert u + ":" + p + "@" + tail == u + [':'] + (p + ['@'] + tail);
    CutAt(u, ':', p + ['@'] + tail);
    CutAt(p, '@', tail);
  }

  /** `host/path`: the host, and the path up to the end of the line. */
  lemma HostPathOf(host: string, ep: string)
    requires '/' !in host && '\n' !in ep
    ensures MatchHostPath(host + ("/" + ep)) == (host, Some(ep))
  {
    assert host + ("/" + ep) == host + ['/'] + ep;
    CutAt(host, '/', ep);
    CutNone(ep, '\n');
  }

  /** Line 30 for the composed forms: a prompt is needed exactly for a named user without a password. */
  lemma PromptCompose(scheme: bool, c: Credentials, host: string, path: Option<string>)
    requires host != [] && Plain(host)
    requires path.Some? ==> '\n' !in path.value
    requires c.UserOnly? || c.UserPass? ==> Plain(c.user)
    requires c.UserPass? ==> Plain(c.pass)
    requires c.UserOnly? || c.Anonymous? ==> path.Some? ==> '@' !in path.value
    ensures var e := Parse(Compose(scheme, c, host, path)).value;
      NeedsPassword(e.username, e.password) <==>
        match c
        case Anonymous => false
        case UserOnly(u) => u != ""
        case UserPass(u, p) => u != "" && p == ""
  {
    ParseCompose(scheme, c, host, path);
  }
}
