/** Which hosts a model download may talk to, and how redirects are resolved. */
module Urls {
  import opened Basics
  import opened Numerals

  function LowerAll(s: Bytes): (r: Bytes)
    ensures |r| == |s|
  {
    seq(|s|, i requires 0 <= i < |s| => Lower(s[i]))
  }

  predicate EndsWith(s: Bytes, tail: Bytes) {
    |s| >= |tail| && s[|s| - |tail|..] == tail
  }

  predicate HostIsAllowed(host: Bytes) {
    && host != "" && host[0] != '.'
    && var h := LowerAll(host);
       || h in {"huggingface.co", "cdn-lfs.huggingface.co", "cdn-lfs.hf.co", "cas-bridge.xethub.hf.co"}
       || EndsWith(h, ".huggingface.co") || EndsWith(h, ".hf.co")
  }

  // ----- Which hosts are allowed -----

  const Alphabet: Bytes := "abcdefghijklmnopqrstuvwxyz"
  const Capitals: Bytes := "ABCDEFGHIJKLMNOPQRSTUVWXYZ"

  /** The capital letters of ASCII change, and nothing else. */
  lemma LowerTable(c: char, d: nat)
    requires d < 26
    ensures Capitals[d] as int == 'A' as int + d && Alphabet[d] as int == 'a' as int + d
    ensures Lower(Capitals[d]) == Alphabet[d]
    ensures Lower(c) == c || c in Capitals
  {
    CapitalAt(d);
    if 'A' <= c <= 'Z' {
      CapitalAt(c as int - 'A' as int);
    }
  }

  lemma CapitalAt(d: nat)
    requires d < 26
    ensures Capitals[d] as int == 'A' as int + d && Alphabet[d] as int == 'a' as int + d
  {
    hide *;
    UpperAt(d);
    LowerAt(d);
  }

  lemma UpperAt(d: nat)
    requires d < 26
    ensures Capitals[d] as int == 'A' as int + d
  {
    match d
    case 0 =>
    case 1 =>
    case 2 =>
    case 3 =>
    case 4 =>
    case 5 =>
    case 6 =>
    case 7 =>
    case 8 =>
    case 9 =>
    case 10 =>
    case 11 =>
    case 12 =>
    case 13 =>
    case 14 =>
    case 15 =>
    case 16 =>
    case 17 =>
    case 18 =>
    case 19 =>
    case 20 =>
    case 21 =>
    case 22 =>
    case 23 =>
    case 24 =>
    case _ => assert d == 25;
  }

  lemma LowerAt(d: nat)
    requires d < 26
    ensures Alphabet[d] as int == 'a' as int + d
  {
    match d
    case 0 =>
    case 1 =>
    case 2 =>
    case 3 =>
    case 4 =>
    case 5 =>
    case 6 =>
    case 7 =>
    case 8 =>
    case 9 =>
    case 10 =>
    case 11 =>
    case 12 =>
    case 13 =>
    case 14 =>
    case 15 =>
    case 16 =>
    case 17 =>
    case 18 =>
    case 19 =>
    case 20 =>
    case 21 =>
    case 22 =>
    case 23 =>
    case 24 =>
    case _ => assert d == 25;
  }

  lemma EndsWithWritten(s: Bytes, tail: Bytes)
    ensures EndsWith(s, tail) <==> exists l :: s == l + tail
  {
    if EndsWith(s, tail) {
      assert s == s[..|s| - |tail|] + tail;
    }
    if l :| s == l + tail {
      assert s[|l|..] == tail;
    }
  }

  /** What the allow list says, in full. */
  ghost predicate Allowed(host: Bytes) {
    && host != "" && host[0] != '.'
    && var h := LowerAll(host);
       || h == "huggingface.co" || h == "cdn-lfs.huggingface.co" || h == "cdn-lfs.hf.co" || h == "cas-bridge.xethub.hf.co"
       || (exists l: Bytes :: h == l + ".huggingface.co")
       || (exists l: Bytes :: h == l + ".hf.co")
  }

  lemma HostIsAllowedIff(host: Bytes)
    ensures HostIsAllowed(host) <==> Allowed(host)
  {
    hide EndsWith;
    EndsWithWritten(LowerAll(host), ".huggingface.co");
    EndsWithWritten(LowerAll(host), ".hf.co");
  }

  /** A name that only ends like an allowed one, without the dot, is refused. */
  lemma LookalikesAreRefused(x: Bytes, suffix: Bytes)
    requires suffix == "hf.co" || suffix == "huggingface.co"
    requires x != "" && x[|x| - 1] != '.'
    ensures !HostIsAllowed(x + suffix)
  {
    hide HostIsAllowed;
    var host := x + suffix;
    var h := LowerAll(host);
    HostIsAllowedIff(host);
    if Allowed(host) {
      AllowedEnds(host);
      NoSuchEnd(x, suffix);
    }
  }

  /** The listed names but one end like the suffixes. */
  lemma AllowedEnds(host: Bytes)
    requires Allowed(host)
    ensures var h := LowerAll(host);
            h == "huggingface.co" || (exists l: Bytes :: h == l + ".huggingface.co") || (exists l: Bytes :: h == l + ".hf.co")
  {
    var h := LowerAll(host);
    assert "cdn-lfs.huggingface.co" == "cdn-lfs" + ".huggingface.co";
    assert "cdn-lfs.hf.co" == "cdn-lfs" + ".hf.co";
    assert "cas-bridge.xethub.hf.co" == "cas-bridge.xethub" + ".hf.co";
  }

  lemma FromTheEnd(h: Bytes, l: Bytes, t: Bytes, k: nat)
    requires h == l + t && k < |t|
    ensures |h| >= |t| && h[|h| - |t| + k] == t[k]
  { }

  lemma NoSuchEnd(x: Bytes, suffix: Bytes)
    requires suffix == "hf.co" || suffix == "huggingface.co"
    requires x != "" && x[|x| - 1] != '.'
    ensures var h := LowerAll(x + suffix);
            h != "huggingface.co" && (forall l: Bytes :: h != l + ".huggingface.co") && forall l: Bytes :: h != l + ".hf.co"
  {
    var h := LowerAll(x + suffix);
    var n := |x|;
    assert h[n - 1] == Lower(x[n - 1]) != '.';
    if suffix == "hf.co" {
      assert h[n] == Lower((x + suffix)[n]) == 'h';
    } else {
      assert h[n] == Lower((x + suffix)[n]) == 'h' && h[n + 8] == Lower((x + suffix)[n + 8]) == 'a';
    }
    var k: nat := if suffix == "hf.co" then 10 else 0;
    forall l: Bytes ensures h != l + ".huggingface.co" {
      if h == l + ".huggingface.co" {
        FromTheEnd(h, l, ".huggingface.co", k);
      }
    }
    forall l: Bytes ensures h != l + ".hf.co" {
      if h == l + ".hf.co" {
        FromTheEnd(h, l, ".hf.co", 0);
      }
    }
  }

  /** The index of the first occurrence of `pat`. */
  function FindText(s: Bytes, pat: Bytes): (r: Option<nat>)
    ensures r.Some? ==> r.value + |pat| <= |s| && s[r.value..r.value + |pat|] == pat
    decreases |s|
  {
    if |s| >= |pat| && s[..|pat|] == pat then Some(0)
    else if s == "" then None
    else
      match FindText(s[1..], pat)
      case None => None
      case Some(i) =>
        assert s[i + 1..i + 1 + |pat|] == s[1..][i..i + |pat|];
        Some(i + 1)
  }

  predicate EndsAuthority(c: char) {
    c == '/' || c == '?' || c == '#'
  }

  function AuthorityOf(rest: Bytes): Bytes {
    if rest == "" || EndsAuthority(rest[0]) then "" else [rest[0]] + AuthorityOf(rest[1..])
  }

  /** What follows the last `@`, or everything. */
  function AfterUserinfo(authority: Bytes): Bytes {
    if authority == "" then ""
    else if '@' in authority then AfterUserinfo(authority[1..])
    else authority
  }

  function AfterScheme(url: Bytes): Option<Bytes> {
    match FindText(url, "://")
    case None => None
    case Some(i) => Some(url[i + 3..])
  }

  /** The host a text names when it is read as an authority and what follows. */
  function HostAtStart(rest: Bytes): Bytes {
    Before(AfterUserinfo(AuthorityOf(rest)), ':')
  }

  function HostOf(url: Bytes): Option<Bytes> {
    match AfterScheme(url)
    case None => None
    case Some(rest) => Some(HostAtStart(rest))
  }

  predicate ValidateRedirect(url: Bytes) {
    HostOf(url).Some? && HostIsAllowed(HostOf(url).value)
  }

  function LastSlash(s: Bytes): (n: nat)
    ensures n <= |s|
    ensures n < |s| ==> s[n] == '/'
    ensures forall i :: n < i < |s| ==> s[i] != '/'
    ensures n == |s| ==> '/' !in s
  {
    if s == "" then 0
    else if s[|s| - 1] == '/' then |s| - 1
    else
      var n := LastSlash(s[..|s| - 1]);
      if n == |s| - 1 then |s| else n
  }

  predicate StartsWith(s: Bytes, head: Bytes) {
    head <= s
  }

  /** A redirect target against the URL that was asked for. */
  function Absolutise(base: Bytes, location: Bytes): Bytes {
    if StartsWith(location, "http://") || StartsWith(location, "https://") then location
    else if StartsWith(location, "//") then
      (match FindText(base, "://") { case Some(i) => base[..i] case None => "" }) + ":" + location
    else if StartsWith(location, "/") then
      var rest := match AfterScheme(base) { case Some(r) => r case None => base };
      var scheme := match FindText(base, "://") { case Some(i) => base[..i] case None => base };
      scheme + "://" + Before(rest, '/') + location
    else base[..LastSlash(base)] + "/" + location
  }

  // ----- Which host a URL is checked for -----

  lemma {:induction false} FindTextFirst(a: Bytes, rest: Bytes)
    requires ':' !in a
    ensures FindText(a + "://" + rest, "://") == Some(|a|)
  {
    var s := a + "://" + rest;
    if a == "" {
      assert s[..3] == "://";
    } else {
      assert s[0] == a[0] && a[0] in a && s[..3][0] == a[0];
      assert s[1..] == a[1..] + "://" + rest;
      FindTextFirst(a[1..], rest);
    }
  }

  lemma {:induction false} AuthorityOfWritten(authority: Bytes, tail: Bytes)
    requires forall c :: c in authority ==> !EndsAuthority(c)
    requires tail == "" || EndsAuthority(tail[0])
    ensures AuthorityOf(authority + tail) == authority
  {
    if authority == "" {
      assert authority + tail == tail;
    } else {
      assert authority[0] in authority;
      assert (authority + tail)[1..] == authority[1..] + tail;
      AuthorityOfWritten(authority[1..], tail);
    }
  }

  lemma {:induction false} AfterUserinfoWritten(userinfo: Bytes, host: Bytes)
    requires '@' !in host
    ensures AfterUserinfo(userinfo + "@" + host) == host
  {
    var s := userinfo + "@" + host;
    assert s[|userinfo|] == '@';
    if userinfo == "" {
      assert s[1..] == host;
      assert AfterUserinfo(host) == host;
    } else {
      assert s[1..] == userinfo[1..] + "@" + host;
      AfterUserinfoWritten(userinfo[1..], host);
    }
  }

  /**
   For every URL written as scheme, optional user information, host, optional port and
   the rest (RFC 3986, section 3.2), the check looks at exactly the host.
   */
  lemma HostOfWritten(scheme: Bytes, userinfo: Option<Bytes>, host: Bytes, port: Option<Bytes>, tail: Bytes)
    requires ':' !in scheme
    requires forall c :: c in host ==> !EndsAuthority(c) && c != '@' && c != ':'
    requires port.Some? ==> forall c :: c in port.value ==> !EndsAuthority(c) && c != '@'
    requires userinfo.Some? ==> forall c :: c in userinfo.value ==> !EndsAuthority(c)
    requires tail == "" || EndsAuthority(tail[0])
    ensures var hostport := match port { case None => host case Some(p) => host + ":" + p };
            var authority := match userinfo { case None => hostport case Some(u) => u + "@" + hostport };
            HostOf(scheme + "://" + (authority + tail)) == Some(host)
  {
    hide FindText, AuthorityOf, Before;
    var hostport := match port { case None => host case Some(p) => host + ":" + p };
    var authority := match userinfo { case None => hostport case Some(u) => u + "@" + hostport };
    FindTextFirst(scheme, authority + tail);
    assert (scheme + "://" + (authority + tail))[|scheme| + 3..] == authority + tail;
    AuthorityOfWritten(authority, tail);
    if userinfo.Some? {
      AfterUserinfoWritten(userinfo.value, hostport);
    }
    assert AfterUserinfo(authority) == hostport;
    BeforeWritten(host, ':', match port { case None => "" case Some(p) => p });
    if port.Some? {
      assert host + [':'] + port.value == hostport;
    }
  }

  /** The position of the delimiter depends on nothing behind it. */
  lemma {:induction false} FindTextKept(a: Bytes, x: Bytes, y: Bytes)
    requires FindText(a + "://" + x, "://") == Some(|a|)
    ensures FindText(a + "://" + y, "://") == Some(|a|)
  {
    var s, t := a + "://" + x, a + "://" + y;
    if a == "" {
      assert t[..3] == "://";
    } else {
      assert s[..3] == t[..3] by {
        assert forall k :: 0 <= k < 3 ==> s[k] == t[k];
      }
      assert s[1..] == a[1..] + "://" + x && t[1..] == a[1..] + "://" + y;
      FindTextKept(a[1..], x, y);
    }
  }

  lemma {:induction false} AuthorityUpToSlash(rest: Bytes, tail: Bytes)
    requires tail != "" && tail[0] == '/'
    ensures AuthorityOf(Before(rest, '/') + tail) == AuthorityOf(rest)
  {
    var front := Before(rest, '/');
    if rest == "" || rest[0] == '/' {
      assert front + tail == tail;
    } else {
      assert front == [rest[0]] + Before(rest[1..], '/') by {
        BeforeStep(rest);
      }
      assert (front + tail)[1..] == Before(rest[1..], '/') + tail;
      AuthorityUpToSlash(rest[1..], tail);
    }
  }

  lemma BeforeStep(rest: Bytes)
    requires rest != "" && rest[0] != '/'
    ensures Before(rest, '/') == [rest[0]] + Before(rest[1..], '/')
  {
    assert rest == [rest[0]] + rest[1..];
  }

  /**
   A redirect to an absolute path stays on the host it came from, whatever user
   information, port or query the URL carries.
   */
  lemma AbsolutePathKeepsHost(base: Bytes, location: Bytes)
    requires HostOf(base).Some?
    requires StartsWith(location, "/") && !StartsWith(location, "//")
    ensures HostOf(Absolutise(base, location)) == HostOf(base)
  {
    hide FindText, AuthorityOf, Before, AfterUserinfo;
    var i := FindText(base, "://").value;
    var scheme, rest := base[..i], base[i + 3..];
    assert base == scheme + "://" + rest;
    var x := Before(rest, '/') + location;
    var url := scheme + "://" + Before(rest, '/') + location;
    assert url == scheme + "://" + x;
    FindTextKept(scheme, rest, x);
    assert url[|scheme| + 3..] == x;
    AuthorityUpToSlash(rest, location);
    assert location[0] == '/';
    assert Absolutise(base, location) == url;
  }

  /** The redirect target itself, for each form of a location. */
  lemma AbsoluteForms(scheme: Bytes, authority: Bytes, path: Bytes, location: Bytes)
    requires ':' !in scheme && '/' !in authority && (path == "" || path[0] == '/')
    ensures var base := scheme + "://" + (authority + path);
            && Absolutise(base, "http://" + location) == "http://" + location
            && Absolutise(base, "https://" + location) == "https://" + location
            && Absolutise(base, "//" + location) == scheme + "://" + location
            && ((location == "" || location[0] != '/') ==> Absolutise(base, "/" + location) == scheme + "://" + authority + "/" + location)
  {
    hide FindText, Before;
    var base := scheme + "://" + (authority + path);
    FindTextFirst(scheme, authority + path);
    assert base[..|scheme|] == scheme && base[|scheme| + 3..] == authority + path;
    BeforeWritten(authority, '/', if path == "" then "" else path[1..]);
    if path == "" {
      assert authority + path == authority;
    } else {
      assert authority + path == authority + ['/'] + path[1..];
    }
    SchemeRelativeForm(base, location);
    if location == "" || location[0] != '/' {
      RootedForm(base, location);
    }
    assert scheme + ":" + ("//" + location) == scheme + "://" + location;
    assert scheme + "://" + authority + ("/" + location) == scheme + "://" + authority + "/" + location;
  }

  lemma SchemeRelativeForm(base: Bytes, location: Bytes)
    requires FindText(base, "://").Some?
    ensures Absolutise(base, "//" + location) == base[..FindText(base, "://").value] + ":" + ("//" + location)
  {
    hide FindText;
    assert ("//" + location)[0] == '/';
  }

  lemma RootedForm(base: Bytes, location: Bytes)
    requires FindText(base, "://").Some? && (location == "" || location[0] != '/')
    ensures var i := FindText(base, "://").value;
            Absolutise(base, "/" + location) == base[..i] + "://" + Before(base[i + 3..], '/') + ("/" + location)
  {
    hide FindText, Before;
    var l := "/" + location;
    assert l[0] == '/' && (|l| > 1 ==> l[1] == location[0]);
  }

  /** A relative location takes the place of whatever follows the last slash. */
  lemma RelativeForm(front: Bytes, last: Bytes, location: Bytes)
    requires '/' !in last && IsRelative(location)
    ensures Absolutise(front + "/" + last, location) == front + "/" + location
  {
    var base := front + "/" + last;
    RelativeIsAppended(base, location);
    assert base[|front|] == '/' && forall i :: |front| < i < |base| ==> base[i] == last[i - |front| - 1];
    assert LastSlash(base) == |front| && base[..|front|] == front;
  }

  lemma {:induction false} AuthorityUpTo(rest: Bytes, k: nat, tail: Bytes)
    requires k < |rest| && rest[k] == '/'
    ensures AuthorityOf(rest[..k] + "/" + tail) == AuthorityOf(rest)
  {
    var s := rest[..k] + "/" + tail;
    if k > 0 {
      assert s[0] == rest[0] && s[1..] == rest[1..][..k - 1] + "/" + tail;
      AuthorityUpTo(rest[1..], k - 1, tail);
    }
  }

  /** The base has a slash behind its delimiter. */
  predicate HasPath(base: Bytes)
    requires HostOf(base).Some?
  {
    LastSlash(base) > FindText(base, "://").value + 2
  }

  predicate IsRelative(location: Bytes) {
    !StartsWith(location, "/") && !StartsWith(location, "http://") && !StartsWith(location, "https://")
  }

  lemma BaseParts(base: Bytes) returns (scheme: Bytes, rest: Bytes)
    requires HostOf(base).Some?
    ensures base == scheme + "://" + rest && FindText(base, "://") == Some(|scheme|)
    ensures HostOf(base) == Some(HostAtStart(rest)) && LastSlash(base) < |base| && LastSlash(base) >= |scheme| + 2
  {
    hide FindText, AuthorityOf, Before, AfterUserinfo;
    var i := FindText(base, "://").value;
    scheme, rest := base[..i], base[i + 3..];
    assert base[i..i + 3] == "://" && base[i + 2] == base[i..i + 3][2];
  }

  lemma HostBehind(scheme: Bytes, rest: Bytes, x: Bytes)
    requires FindText(scheme + "://" + rest, "://") == Some(|scheme|)
    ensures HostOf(scheme + "://" + x) == Some(HostAtStart(x))
  {
    hide FindText, AuthorityOf, Before, AfterUserinfo;
    FindTextKept(scheme, rest, x);
    assert (scheme + "://" + x)[|scheme| + 3..] == x;
  }

  lemma OneSlash(location: Bytes)
    requires StartsWith(location, "//")
    ensures StartsWith(location, "/")
  {
    assert location[..1] == "/";
  }

  lemma RelativeIsAppended(base: Bytes, location: Bytes)
    requires IsRelative(location)
    ensures Absolutise(base, location) == base[..LastSlash(base)] + "/" + location
  {
    if StartsWith(location, "//") {
      OneSlash(location);
    }
  }

  /**
   A redirect to a relative location stays on its host if and only if the base has a slash
   behind the delimiter or the location happens to name that host itself.
   */
  lemma RelativeKeepsHostIff(base: Bytes, location: Bytes)
    requires HostOf(base).Some? && IsRelative(location)
    ensures HostOf(Absolutise(base, location)) == HostOf(base)
       <==> HasPath(base) || Some(HostAtStart(location)) == HostOf(base)
  {
    hide FindText, HostOf, HostAtStart, Absolutise, IsRelative;
    var scheme, rest := BaseParts(base);
    var n := LastSlash(base);
    RelativeIsAppended(base, location);
    var url := base[..n] + "/" + location;
    if HasPath(base) {
      var k := n - (|scheme| + 3);
      assert rest[k] == '/' && base[..n] == scheme + "://" + rest[..k];
      var x := rest[..k] + "/" + location;
      assert url == scheme + "://" + x;
      HostBehind(scheme, rest, x);
      SameHost(rest, k, location);
    } else {
      assert base[..n] == scheme + ":/";
      assert url == scheme + "://" + location;
      HostBehind(scheme, rest, location);
    }
  }

  lemma SameHost(rest: Bytes, k: nat, tail: Bytes)
    requires k < |rest| && rest[k] == '/'
    ensures HostAtStart(rest[..k] + "/" + tail) == HostAtStart(rest)
  {
    AuthorityUpTo(rest, k, tail);
  }

  /** The host is the whole base behind the delimiter, and a relative location takes its place. */
  lemma BareHostIsReplaced()
    ensures Absolutise("https://here", "there/x") == "https://there/x"
    ensures HostOf("https://here") == Some("here") && HostOf("https://there/x") == Some("there")
  {
    hide FindText, HostOf, Absolutise;
    var base, location := "https://here", "there/x";
    assert location[0] == 't' && "http://"[0] == 'h' && "https://"[0] == 'h' && "/"[0] == '/';
    RelativeIsAppended(base, location);
    assert base[7] == '/' && forall i :: 7 < i < |base| ==> base[i] != '/';
    assert LastSlash(base) == 7;
    assert base[..7] + "/" + location == "https://there/x";
    HostOfWritten("https", None, "here", None, "");
    HostOfWritten("https", None, "there", None, "/x");
    assert "https" + "://" + ("here" + "") == base && "https" + "://" + ("there" + "/x") == "https://there/x";
  }
}
