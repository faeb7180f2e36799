/** The split-then-check validator accepts exactly the absolute-URI grammar. */
module UriCorrect {
  import opened Common
  import opened Strings
  import opened Uri

  // ---------------------------------------------------------------- characters of a concatenation

  lemma AllAppend(a: string, b: string, p: char -> bool)
    requires All(a, p) && All(b, p)
    ensures All(a + b, p)
  {
  }

  lemma AllAbsent(s: string, p: char -> bool, c: char)
    requires All(s, p) && !p(c)
    ensures c !in s
  {
  }

  /** FirstOfSplits for a prefix whose character class excludes every stop. */
  lemma ClassSplits(a: string, b: string, p: char -> bool, stops: set<char>)
    requires All(a, p) && forall c | c in stops :: !p(c)
    requires b == "" || b[0] in stops
    ensures FirstOf(a + b, stops) == |a| && (a + b)[..|a|] == a && (a + b)[|a|..] == b
  {
    forall i | 0 <= i < |a| ensures a[i] !in stops {
      assert p(a[i]);
    }
    FirstOfSplits(a, b, stops);
  }

  // ---------------------------------------------------------------- pct-encoded repetition

  lemma {:induction false} PctAppend(f: char -> bool, a: string, b: string)
    requires PctStar(f, a) && PctStar(f, b)
    ensures PctStar(f, a + b)
  {
    if a == "" {
      assert a + b == b;
    } else if f(a[0]) && PctStar(f, a[1..]) {
      PctAppend(f, a[1..], b);
      assert (a + b)[1..] == a[1..] + b && (a + b)[0] == a[0];
    } else {
      PctAppend(f, a[3..], b);
      assert (a + b)[3..] == a[3..] + b && (a + b)[..3] == a[..3];
    }
  }

  /** A character that is no part of a percent triple cuts a repetition into two. */
  lemma {:induction false} PctCut(f: char -> bool, a: string, c: char, b: string)
    requires c != '%' && !HexDig(c) && PctStar(f, a + [c] + b)
    ensures PctStar(f, a) && PctStar(f, b)
  {
    var s := a + [c] + b;
    if a == "" {
      assert s[0] == c && s[1..] == b;
    } else if f(s[0]) && PctStar(f, s[1..]) {
      assert s[1..] == a[1..] + [c] + b;
      PctCut(f, a[1..], c, b);
    } else {
      assert |a| >= 3 by {
        assert s[|a|] == c && HexDig(s[1]) && HexDig(s[2]);
      }
      assert s[3..] == a[3..] + [c] + b;
      PctCut(f, a[3..], c, b);
    }
  }

  lemma {:induction false} PctWiden(f: char -> bool, g: char -> bool, s: string)
    requires PctStar(f, s)
    requires forall i | 0 <= i < |s| :: f(s[i]) ==> g(s[i])
    ensures PctStar(g, s)
  {
    if s == "" {
    } else if f(s[0]) && PctStar(f, s[1..]) {
      PctWiden(f, g, s[1..]);
    } else {
      PctWiden(f, g, s[3..]);
    }
  }

  lemma {:induction false} PctChars(f: char -> bool, p: char -> bool, s: string)
    requires PctStar(f, s)
    requires forall c: char :: f(c) ==> p(c)
    requires p('%') && forall c: char :: HexDig(c) ==> p(c)
    ensures All(s, p)
  {
    if s == "" {
    } else if f(s[0]) && PctStar(f, s[1..]) {
      PctChars(f, p, s[1..]);
      assert s == [s[0]] + s[1..];
    } else {
      PctChars(f, p, s[3..]);
      assert s == s[..3] + s[3..];
    }
  }

  // ---------------------------------------------------------------- path and segments

  function SplitPath(path: string): (r: seq<string>)
    requires path == "" || path[0] == '/'
    decreases |path|
  {
    if path == "" then []
    else
      var n := FirstOf(path[1..], {'/'});
      [path[1..1 + n]] + SplitPath(path[1 + n..])
  }

  /** The first segment of a path and what follows it. */
  lemma FirstSegment(body: string, n: nat)
    requires PctStar(PathChar, body) && n == FirstOf(body, {'/'})
    ensures PctStar(PChar, body[..n]) && PctStar(PathChar, body[n..])
  {
    var segment, rest := body[..n], body[n..];
    assert PctStar(PathChar, segment) && PctStar(PathChar, rest) by {
      if rest == "" {
        assert body == segment;
      } else {
        assert body == segment + ['/'] + rest[1..];
        PctCut(PathChar, segment, '/', rest[1..]);
      }
    }
    PctWiden(PathChar, PChar, segment);
  }

  lemma {:induction false} SplitPathSegments(path: string)
    requires path == "" || path[0] == '/'
    requires PctStar(PathChar, path)
    ensures Segments(SplitPath(path)) && Slashed(SplitPath(path)) == path
    decreases |path|
  {
    if path != "" {
      var body := path[1..];
      assert PctStar(PathChar, body);
      hide PctStar, FirstOf;
      var n := FirstOf(body, {'/'});
      FirstSegment(body, n);
      SplitPathSegments(body[n..]);
      SegmentInFront(body[..n], SplitPath(body[n..]));
      SplitPathStep(path, n);
      CutRejoins(path, n);
      hide *;
    }
  }

  lemma SplitPathStep(path: string, n: nat)
    requires path != "" && path[0] == '/' && n == FirstOf(path[1..], {'/'})
    ensures (path[1..][n..] == "" || path[1..][n..][0] == '/')
            && SplitPath(path) == [path[1..][..n]] + SplitPath(path[1..][n..])
  {
    hide FirstOf;
    CutBehindSlash(path, n);
  }

  lemma CutBehindSlash(path: string, n: nat)
    requires n < |path|
    ensures path[1..][n..] == path[1 + n..] && path[1..][..n] == path[1..1 + n]
  {
  }

  lemma CutRejoins(path: string, n: nat)
    requires n < |path| && path[0] == '/'
    ensures path == "/" + path[1..][..n] + path[1..][n..]
  {
    var body := path[1..];
    assert body == body[..n] + body[n..];
    assert path == ['/'] + body;
  }

  lemma SegmentInFront(segment: string, segments: seq<string>)
    requires PctStar(PChar, segment) && Segments(segments)
    ensures Segments([segment] + segments) && Slashed([segment] + segments) == "/" + segment + Slashed(segments)
  {
    hide PctStar;
    assert ([segment] + segments)[1..] == segments;
  }

  lemma {:induction false} SlashedIsPath(segments: seq<string>)
    requires Segments(segments)
    ensures PctStar(PathChar, Slashed(segments))
    ensures Slashed(segments) == "" || Slashed(segments)[0] == '/'
  {
    if segments != [] {
      SlashedIsPath(segments[1..]);
      PctWiden(PChar, PathChar, segments[0]);
      SlashIsPath();
      hide PctStar;
      PctAppend(PathChar, segments[0], Slashed(segments[1..]));
      PctAppend(PathChar, "/", segments[0] + Slashed(segments[1..]));
      assert "/" + segments[0] + Slashed(segments[1..]) == "/" + (segments[0] + Slashed(segments[1..]));
    }
  }

  lemma SlashIsPath()
    ensures PctStar(PathChar, "/")
  {
    assert "/"[1..] == "";
  }

  // ---------------------------------------------------------------- host and authority, completeness

  predicate HostChar(c: char) { UserinfoChar(c) || c == '%' || c == '[' || c == ']' }

  predicate AuthorityChar(c: char) { HostChar(c) || c == '@' }

  predicate NameChar(c: char) { RegNameChar(c) || c == '%' }

  predicate LoginChar(c: char) { UserinfoChar(c) || c == '%' }

  lemma HostChars(h: Host)
    requires h.Valid()
    ensures All(h.Render(), HostChar) && BracketsPaired(h.Render())
    ensures h.RegName? ==> All(h.Render(), NameChar)
  {
    match h
    case IPv6Literal(a) => IPv6Chars(a);
    case IPvFuture(v, n, t) =>
    case RegName(n) => PctChars(RegNameChar, NameChar, n);
  }

  lemma LiteralAccepted(a: string)
    requires IPv6Address(a)
    ensures IsValidHost("[" + a + "]")
  {
    IPv6Chars(a);
    hide IPv6Address, PctStar, FirstOf;
    var s := "[" + a + "]";
    assert s[1..|s| - 1] == a;
  }

  lemma FutureAccepted(v: char, n: string, t: string)
    requires (v == 'v' || v == 'V') && n != "" && All(n, HexDig) && t != "" && All(t, UserinfoChar)
    ensures IsValidHost("[" + [v] + n + "." + t + "]")
  {
    hide IPv6Address, PctStar, FirstOf;
    var s, inner := "[" + [v] + n + "." + t + "]", [v] + n + "." + t;
    assert s == "[" + inner + "]";
    assert s[1..|s| - 1] == inner;
    assert forall i | 0 <= i < |[v] + n| :: ([v] + n)[i] != '.';
    FirstOfSplits([v] + n, "." + t, {'.'});
    assert inner == ([v] + n) + ("." + t);
    assert inner[1..|n| + 1] == n && inner[|n| + 2..] == t;
  }

  lemma HostAccepted(h: Host)
    requires h.Valid()
    ensures IsValidHost(h.Render())
  {
    hide IPv6Address, PctStar;
    match h
    case IPv6Literal(a) => LiteralAccepted(a);
    case IPvFuture(v, n, t) => FutureAccepted(v, n, t);
    case RegName(n) =>
      HostChars(h);
      assert n != "" ==> n[0] != '[';
  }

  lemma NamePortAccepted(host: string, port: Option<string>)
    requires All(host, NameChar) && IsValidHost(host)
    requires port.Some? ==> All(port.value, Digit)
    ensures IsValidHostPort(host + if port.Some? then ":" + port.value else "")
  {
    hide IsValidHost;
    if port.Some? {
      var rest := host + [':'] + port.value;
      assert host + (":" + port.value) == rest;
      assert rest[0] != '[' by {
        if host != "" { assert rest[0] == host[0]; }
      }
      LastOfSplits(host, ':', port.value);
      assert rest[|host| + 1..] == port.value;
      assert rest[..|host|] == host;
    } else {
      assert host + "" == host;
      AllAbsent(host, NameChar, ':');
    }
  }

  lemma LiteralPortAccepted(host: string, port: Option<string>)
    requires IsValidHost(host) && |host| >= 2 && host[0] == '[' && host[|host| - 1] == ']'
    requires forall i | 0 <= i < |host| - 1 :: host[i] != ']'
    requires port.Some? ==> All(port.value, Digit)
    ensures IsValidHostPort(host + if port.Some? then ":" + port.value else "")
  {
    hide IsValidHost;
    var after := if port.Some? then ":" + port.value else "";
    var rest := host + after;
    var body := host[..|host| - 1];
    FirstOfSplits(body, "]" + after, {']'});
    assert host == body + "]";
    assert rest == body + ("]" + after);
    assert rest[..|body| + 1] == host && rest[|body| + 1..] == after;
    assert after != "" ==> after[1..] == port.value;
  }

  lemma HostPortAccepted(a: Authority)
    requires a.Valid()
    ensures IsValidHostPort(a.RenderHostPort())
  {
    hide IsValidHost, IsValidHostPort, PctStar;
    HostChars(a.host);
    HostAccepted(a.host);
    if a.host.RegName? {
      NamePortAccepted(a.host.Render(), a.port);
    } else {
      LiteralEnds(a.host);
      LiteralPortAccepted(a.host.Render(), a.port);
    }
  }

  lemma LiteralEnds(h: Host)
    requires h.Valid() && !h.RegName?
    ensures var s := h.Render(); |s| >= 2 && s[0] == '[' && s[|s| - 1] == ']'
    ensures forall i | 0 <= i < |h.Render()| - 1 :: h.Render()[i] != ']'
  {
    if h.IPv6Literal? {
      IPv6Chars(h.address);
    }
  }

  lemma HostPortChars(a: Authority)
    requires a.Valid()
    ensures All(a.RenderHostPort(), HostChar) && BracketsPaired(a.RenderHostPort())
  {
    var host := a.host.Render();
    var after := if a.port.Some? then ":" + a.port.value else "";
    HostChars(a.host);
    AllAppend(host, after, HostChar);
    assert '[' !in after && ']' !in after;
  }

  lemma AuthorityAccepted(a: Authority)
    requires a.Valid()
    ensures All(a.Render(), AuthorityChar) && BracketsPaired(a.Render())
    ensures IsValidAuthority(a.Render())
  {
    hide PctStar, IsValidHostPort;
    var hostPort := a.RenderHostPort();
    HostPortChars(a);
    HostPortAccepted(a);
    if a.userinfo.Some? {
      var user := a.userinfo.value;
      PctChars(UserinfoChar, LoginChar, user);
      LoginAccepted(user, hostPort);
    } else {
      hide *;
      PlainAccepted(hostPort);
      assert a.Render() == hostPort by { NoUserinfo(a); }
    }
  }

  lemma NoUserinfo(a: Authority)
    requires a.userinfo.None?
    ensures a.Render() == a.RenderHostPort()
  {
  }

  lemma PlainAccepted(hostPort: string)
    requires All(hostPort, HostChar) && IsValidHostPort(hostPort)
    ensures All(hostPort, AuthorityChar) && IsValidAuthority(hostPort)
  {
    AllAbsent(hostPort, HostChar, '@');
    hide IsValidHostPort, PctStar;
  }

  lemma LoginAccepted(user: string, hostPort: string)
    requires PctStar(UserinfoChar, user) && All(user, LoginChar)
    requires All(hostPort, HostChar) && BracketsPaired(hostPort) && IsValidHostPort(hostPort)
    ensures var s := user + "@" + hostPort; All(s, AuthorityChar) && BracketsPaired(s) && IsValidAuthority(s)
  {
    hide PctStar, IsValidHostPort, LastOf;
    var s := user + "@" + hostPort;
    AllAppend(user, "@", AuthorityChar);
    AllAppend(user + "@", hostPort, AuthorityChar);
    AllAbsent(hostPort, HostChar, '@');
    AllAbsent(user, LoginChar, '[');
    AllAbsent(user, LoginChar, ']');
    LastOfSplits(user, '@', hostPort);
    assert s[..|user|] == user && s[|user| + 1..] == hostPort;
  }

  // ---------------------------------------------------------------- host and authority, soundness

  lemma HostDerived(host: string) returns (h: Host)
    requires IsValidHost(host)
    ensures h.Valid() && h.Render() == host
  {
    hide PctStar, FirstOf, IPv6Address;
    if |host| >= 1 && host[0] == '[' && host[|host| - 1] == ']' {
      var inner := host[1..|host| - 1];
      assert host == "[" + inner + "]";
      if inner != "" && (inner[0] == 'v' || inner[0] == 'V') {
        var dot := FirstOf(inner, {'.'});
        h := IPvFuture(inner[0], inner[1..dot], inner[dot + 1..]);
        FutureRejoins(inner, dot);
      } else {
        h := IPv6Literal(inner);
      }
    } else {
      h := RegName(host);
    }
  }

  lemma FutureRejoins(inner: string, dot: nat)
    requires 1 <= dot < |inner| && inner[dot] == '.'
    ensures "[" + inner + "]" == "[" + [inner[0]] + inner[1..dot] + "." + inner[dot + 1..] + "]"
  {
    assert inner == [inner[0]] + inner[1..dot] + "." + inner[dot + 1..];
    var a, b, c, d := [inner[0]], inner[1..dot], ".", inner[dot + 1..];
    assert "[" + (a + b + c + d) + "]" == "[" + a + b + c + d + "]";
  }

  lemma HostPortDerived(rest: string) returns (h: Host, port: Option<string>)
    requires IsValidHostPort(rest)
    ensures Authority(None, h, port).Valid() && Authority(None, h, port).RenderHostPort() == rest
  {
    hide IsValidHost, FirstOf, LastOf;
    if |rest| >= 1 && rest[0] == '[' {
      var end := FirstOf(rest, {']'});
      h := HostDerived(rest[..end + 1]);
      var after := rest[end + 1..];
      port := if after == "" then None else Some(after[1..]);
      assert rest == rest[..end + 1] + after;
    } else {
      var colon := LastOf(rest, ':');
      if colon >= 0 {
        h := HostDerived(rest[..colon]);
        port := Some(rest[colon + 1..]);
        assert rest == rest[..colon] + (":" + rest[colon + 1..]);
      } else {
        h := HostDerived(rest);
        port := None;
      }
    }
  }

  lemma AuthorityDerived(authority: string) returns (a: Authority)
    requires IsValidAuthority(authority)
    ensures a.Valid() && a.Render() == authority
  {
    hide PctStar, IsValidHostPort, LastOf;
    var at := LastOf(authority, '@');
    if at >= 0 {
      var h, port := HostPortDerived(authority[at + 1..]);
      a := Authority(Some(authority[..at]), h, port);
      assert a.RenderHostPort() == authority[at + 1..];
      assert authority == authority[..at] + "@" + authority[at + 1..];
    } else {
      var h, port := HostPortDerived(authority);
      a := Authority(None, h, port);
    }
  }

  // ---------------------------------------------------------------- the whole URI, completeness

  function QuerySuffix(query: Option<string>): string {
    if query.Some? then "?" + query.value else ""
  }

  /** A path that holds neither '?' nor '#', followed by an optional query, splits where it should. */
  lemma PathQuerySplit(path: string, query: Option<string>)
    requires PctStar(PathChar, path)
    requires query.Some? ==> PctStar(QueryChar, query.value)
    ensures var tail := path + QuerySuffix(query);
            && Partition(tail, '#') == (tail, "")
            && Partition(tail, '?') == (path, if query.Some? then query.value else "")
            && All(tail, QueryOrPercent)
  {
    hide PctStar, FirstOf;
    var suffix := QuerySuffix(query);
    var tail := path + suffix;
    PctChars(PathChar, PathOrPercent, path);
    if query.Some? {
      PctChars(QueryChar, QueryOrPercent, query.value);
      AllAppend("?", query.value, QueryOrPercent);
      assert tail[|path| + 1..] == query.value;
    }
    ClassSplits(path, suffix, PathOrPercent, {'?'});
    AllAppend(path, suffix, QueryOrPercent);
    ClassSplits(tail, "", QueryOrPercent, {'#'});
    assert tail + "" == tail;
  }

  predicate PathOrPercent(c: char) { PathChar(c) || c == '%' }

  predicate QueryOrPercent(c: char) { QueryChar(c) || c == '%' }

  lemma SchemeSplit(scheme: string, rest: string)
    requires ValidScheme(scheme)
    ensures SplitScheme(scheme + ":" + rest) == (scheme, rest)
    ensures ValidScheme(Lower(scheme))
  {
    FirstOfSplits(scheme, ":" + rest, {':'});
    var value := scheme + ":" + rest;
    assert value == scheme + (":" + rest);
    assert value[..|scheme|] == scheme && value[|scheme| + 1..] == rest;
    assert value[0] == scheme[0];
  }

  lemma NetlocSplit(netloc: string, tail: string)
    requires All(netloc, AuthorityChar)
    requires tail == "" || tail[0] == '/' || tail[0] == '?'
    ensures SplitNetloc("//" + netloc + tail) == (netloc, tail)
  {
    var rest := "//" + netloc + tail;
    ClassSplits(netloc, tail, AuthorityChar, {'/', '?', '#'});
    assert rest[2..] == netloc + tail;
  }

  lemma SchemeChars(scheme: string, rest: string)
    requires ValidScheme(scheme) && All(rest, RestChar)
    ensures var value := scheme + ":" + rest; All(value, UriChar) && '#' !in value
  {
    AllAppend(scheme, ":", RestChar);
    AllAppend(scheme + ":", rest, RestChar);
    AllAbsent(scheme + ":" + rest, RestChar, '#');
  }

  predicate RestChar(c: char) { UriChar(c) && c != '#' }

  /** The split of a rendered URI is its components. */
  lemma SplitOfRendered(scheme: string, rest: string, netloc: string, path: string, query: Option<string>)
    requires ValidScheme(scheme) && BracketsPaired(netloc)
    requires SplitNetloc(rest) == (netloc, path + QuerySuffix(query))
    requires PctStar(PathChar, path) && (query.Some? ==> PctStar(QueryChar, query.value))
    ensures UrlSplit(scheme + ":" + rest)
            == Some(Parts(Lower(scheme), netloc, path, if query.Some? then query.value else "", ""))
    ensures ValidScheme(Lower(scheme))
  {
    SchemeSplit(scheme, rest);
    PathQuerySplit(path, query);
  }

  lemma ComponentsAccepted(value: string, parts: Parts)
    requires value != "" && All(value, UriChar) && '#' !in value
    requires UrlSplit(value) == Some(parts) && ComponentsValid(parts)
    ensures IsValidResourceIndicator(value)
  {
  }

  lemma NetChars(scheme: string, netloc: string, tail: string)
    requires ValidScheme(scheme) && All(netloc, AuthorityChar) && All(tail, QueryOrPercent)
    ensures var value := scheme + ":" + ("//" + netloc + tail); All(value, UriChar) && '#' !in value
  {
    AllAppend("//", netloc, RestChar);
    AllAppend("//" + netloc, tail, RestChar);
    SchemeChars(scheme, "//" + netloc + tail);
  }

  lemma NetAccepted(scheme: string, a: Authority, path: string, query: Option<string>)
    requires ValidScheme(scheme) && a.Valid() && PctStar(PathChar, path) && (path == "" || path[0] == '/')
    requires query.Some? ==> PctStar(QueryChar, query.value)
    ensures IsValidResourceIndicator(scheme + ":" + ("//" + a.Render() + (path + QuerySuffix(query))))
  {
    var netloc, tail := a.Render(), path + QuerySuffix(query);
    var rest := "//" + netloc + tail;
    PathQuerySplit(path, query);
    AuthorityAccepted(a);
    NetlocSplit(netloc, tail);
    SplitOfRendered(scheme, rest, netloc, path, query);
    NetChars(scheme, netloc, tail);
    ComponentsAccepted(scheme + ":" + rest,
                       Parts(Lower(scheme), netloc, path, if query.Some? then query.value else "", ""));
  }

  lemma OpaqueChars(scheme: string, tail: string)
    requires ValidScheme(scheme) && All(tail, QueryOrPercent)
    ensures var value := scheme + ":" + tail; All(value, UriChar) && '#' !in value
  {
    SchemeChars(scheme, tail);
  }

  lemma NoDoubleSlash(path: string, query: Option<string>)
    requires !StartsWith(path, "//")
    ensures !StartsWith(path + QuerySuffix(query), "//")
  {
    var tail := path + QuerySuffix(query);
    if |path| >= 2 {
      assert tail[..2] == path[..2];
    } else if |tail| >= 2 {
      assert tail[|path|] == '?' && tail[..2][|path|] == '?';
    }
  }

  lemma OpaqueAccepted(scheme: string, path: string, query: Option<string>)
    requires ValidScheme(scheme) && PctStar(PathChar, path) && !StartsWith(path, "//")
    requires query.Some? ==> PctStar(QueryChar, query.value)
    ensures IsValidResourceIndicator(scheme + ":" + (path + QuerySuffix(query)))
  {
    var tail := path + QuerySuffix(query);
    PathQuerySplit(path, query);
    NoDoubleSlash(path, query);
    SplitOfRendered(scheme, tail, "", path, query);
    OpaqueChars(scheme, tail);
    ComponentsAccepted(scheme + ":" + tail,
                       Parts(Lower(scheme), "", path, if query.Some? then query.value else "", ""));
  }

  /** The three alternatives of hier-part without an authority render a path with no leading "//". */
  lemma OpaquePath(h: HierPart)
    requires h.Valid() && !h.Net?
    ensures PctStar(PathChar, h.Render()) && !StartsWith(h.Render(), "//")
  {
    SlashIsPath();
    assert PctStar(PathChar, "");
    hide PctStar;
    var path := h.Render();
    match h
    case Absolute(segs) =>
      SlashedIsPath(segs);
      if segs != [] {
        PctChars(PChar, PCharOrPercent, segs[0]);
        assert path == "/" + segs[0] + Slashed(segs[1..]);
        assert path[..2][1] == segs[0][0];
      }
    case Rootless(segs) =>
      SlashedIsPath(segs[1..]);
      PctWiden(PChar, PathChar, segs[0]);
      PctAppend(PathChar, segs[0], Slashed(segs[1..]));
      PctChars(PChar, PCharOrPercent, segs[0]);
      assert path[0] == segs[0][0];
    case Empty =>
  }

  lemma RenderedNet(t: AbsoluteUri)
    requires t.hier.Net?
    ensures t.Render() == t.scheme + ":"
            + ("//" + t.hier.authority.Render() + (Slashed(t.hier.segments) + QuerySuffix(t.query)))
  {
    var net, path, suffix := "//" + t.hier.authority.Render(), Slashed(t.hier.segments), QuerySuffix(t.query);
    assert net + path + suffix == net + (path + suffix);
  }

  lemma RenderedOpaque(t: AbsoluteUri)
    ensures t.Render() == t.scheme + ":" + (t.hier.Render() + QuerySuffix(t.query))
  {
  }

  lemma Complete(t: AbsoluteUri)
    requires t.Valid()
    ensures IsValidResourceIndicator(t.Render())
  {
    if t.hier.Net? {
      SlashedIsPath(t.hier.segments);
      NetAccepted(t.scheme, t.hier.authority, Slashed(t.hier.segments), t.query);
      RenderedNet(t);
    } else {
      OpaquePath(t.hier);
      OpaqueAccepted(t.scheme, t.hier.Render(), t.query);
      RenderedOpaque(t);
    }
  }

  predicate PCharOrPercent(c: char) { PChar(c) || c == '%' }

  // ---------------------------------------------------------------- the whole URI, soundness

  /** Any path the split leaves when there is no "//" is derived by one of the three other alternatives. */
  lemma PathDerived(path: string) returns (h: HierPart)
    requires PctStar(PathChar, path) && !StartsWith(path, "//")
    ensures h.Valid() && h.Render() == path
  {
    if path == "" {
      h := Empty;
    } else if path[0] == '/' {
      h := AbsoluteDerived(path);
    } else {
      h := RootlessDerived(path);
    }
  }

  lemma AbsoluteDerived(path: string) returns (h: HierPart)
    requires PctStar(PathChar, path) && !StartsWith(path, "//") && path != "" && path[0] == '/'
    ensures h.Valid() && h.Render() == path
  {
    hide PctStar, Slashed;
    if path == "/" {
      h := Absolute([]);
    } else {
      assert path[1] != '/' by {
        assert path[..2] == [path[0], path[1]];
      }
      SplitPathSegments(path);
      var segs := SplitPath(path);
      assert segs[0] != "" by {
        assert FirstOf(path[1..], {'/'}) > 0;
      }
      h := Absolute(segs);
      hide SplitPath;
    }
  }

  lemma RootlessDerived(path: string) returns (h: HierPart)
    requires PctStar(PathChar, path) && path != "" && path[0] != '/'
    ensures h.Valid() && h.Render() == path
  {
    hide PctStar, SplitPath, Slashed;
    var n := FirstOf(path, {'/'});
    var head, rest := path[..n], path[n..];
    assert path == head + rest;
    FirstSegment(path, n);
    PathRest(path, n);
    SplitPathSegments(rest);
    var segs := [head] + SplitPath(rest);
    assert segs[1..] == SplitPath(rest) && segs[0] == head;
    assert Segments(segs) by {
      forall i | 0 <= i < |segs| ensures PctStar(PChar, segs[i]) {
        assert i > 0 ==> segs[i] == SplitPath(rest)[i - 1];
      }
    }
    h := Rootless(segs);
  }

  lemma PathRest(path: string, n: nat)
    requires n == FirstOf(path, {'/'}) && path != "" && path[0] != '/'
    ensures n > 0 && (path[n..] == "" || path[n..][0] == '/')
  {
  }

  lemma SchemeRejoins(value: string)
    requires SplitScheme(value).0 != ""
    ensures var (scheme, rest) := SplitScheme(value); ValidScheme(scheme) && value == scheme + ":" + rest
  {
    var i := FirstOf(value, {':'});
    assert value == value[..i] + ":" + value[i + 1..];
  }

  lemma NetlocRejoins(rest: string)
    ensures var (netloc, tail) := SplitNetloc(rest);
            if StartsWith(rest, "//") then
              rest == "//" + netloc + tail && (tail == "" || tail[0] == '/' || tail[0] == '?' || tail[0] == '#')
            else
              netloc == "" && tail == rest
  {
    hide FirstOf;
    if StartsWith(rest, "//") {
      var body := rest[2..];
      var n := FirstOf(body, {'/', '?', '#'});
      assert rest == rest[..2] + body;
      assert body == body[..n] + body[n..];
    }
  }

  lemma PartitionRejoins(s: string, mark: char)
    ensures var (before, after) := Partition(s, mark);
            && mark !in before
            && (before != "" ==> s != "" && s[0] == before[0])
            && (if mark in s then s == before + [mark] + after else s == before && after == "")
  {
    hide FirstOf;
    var n := FirstOf(s, {mark});
    if n < |s| {
      assert s == s[..n] + [mark] + s[n + 1..];
    } else {
      assert s[..n] == s;
    }
  }

  lemma NetDerived(netloc: string, path: string) returns (hier: HierPart)
    requires netloc != "" ==> IsValidAuthority(netloc)
    requires PctStar(PathChar, path) && (path == "" || path[0] == '/')
    ensures hier.Valid() && hier.Render() == "//" + netloc + path
  {
    assert PctStar(RegNameChar, "");
    hide PctStar, IsValidAuthority;
    var a := Authority(None, RegName(""), None);
    if netloc != "" {
      a := AuthorityDerived(netloc);
    }
    SplitPathSegments(path);
    hier := Net(a, SplitPath(path));
  }

  lemma HierDerived(rest: string, netloc: string, path: string, tail: string) returns (hier: HierPart)
    requires (netloc, tail) == SplitNetloc(rest) && '#' !in tail
    requires |path| <= |tail| && path == tail[..|path|] && (tail != "" && tail[0] == '?' ==> path == "")
    requires netloc != "" ==> IsValidAuthority(netloc)
    requires PctStar(PathChar, path)
    ensures hier.Valid()
    ensures hier.Render() == if StartsWith(rest, "//") then "//" + netloc + path else path
  {
    hide PctStar, SplitNetloc, IsValidAuthority;
    NetlocRejoins(rest);
    if StartsWith(rest, "//") {
      hier := NetDerived(netloc, path);
    } else {
      assert !StartsWith(path, "//") by {
        if |path| >= 2 { assert path[..2] == rest[..2]; }
      }
      hier := PathDerived(path);
    }
  }

  /** A fragment-free value with a scheme is its split, rejoined. */
  lemma SplitRejoins(value: string)
    requires '#' !in value && SplitScheme(value).0 != "" && UrlSplit(value).Some?
    ensures var (scheme, rest) := SplitScheme(value);
            var (netloc, tail) := SplitNetloc(rest);
            var (path, query) := Partition(tail, '?');
            && ValidScheme(scheme) && value == scheme + ":" + rest
            && '#' !in tail
            && UrlSplit(value) == Some(Parts(Lower(scheme), netloc, path, query, ""))
  {
    hide FirstOf;
    var (scheme, rest) := SplitScheme(value);
    var (netloc, tail) := SplitNetloc(rest);
    SchemeRejoins(value);
    NetlocRejoins(rest);
    assert '#' !in rest && '#' !in tail;
    PartitionRejoins(tail, '#');
  }

  lemma PathInFront(tail: string)
    ensures var (path, query) := Partition(tail, '?');
            && |path| <= |tail| && path == tail[..|path|]
            && (tail != "" && tail[0] == '?' ==> path == "")
  {
    hide FirstOf;
  }

  lemma QueryBehind(tail: string)
    ensures var (path, query) := Partition(tail, '?');
            tail == path + QuerySuffix(if '?' in tail then Some(query) else None)
  {
    PartitionRejoins(tail, '?');
    hide Partition;
    var (path, query) := Partition(tail, '?');
    if '?' in tail {
      assert path + ['?'] + query == path + ("?" + query);
    } else {
      assert path + "" == path;
    }
  }

  lemma AcceptedComponents(value: string, parts: Parts)
    requires IsValidResourceIndicator(value) && UrlSplit(value) == Some(parts)
    ensures '#' !in value && parts.scheme != ""
    ensures parts.netloc != "" ==> IsValidAuthority(parts.netloc)
    ensures PctStar(PathChar, parts.path) && PctStar(QueryChar, parts.query)
  {
  }

  /** The text behind the scheme, rebuilt from its hierarchical part and query. */
  lemma RestDerived(rest: string, netloc: string, tail: string, path: string, text: string)
    returns (hier: HierPart, query: Option<string>)
    requires (netloc, tail) == SplitNetloc(rest) && (path, text) == Partition(tail, '?') && '#' !in tail
    requires netloc != "" ==> IsValidAuthority(netloc)
    requires PctStar(PathChar, path) && PctStar(QueryChar, text)
    ensures hier.Valid() && (query.Some? ==> PctStar(QueryChar, query.value))
    ensures rest == hier.Render() + QuerySuffix(query)
  {
    PathInFront(tail);
    QueryBehind(tail);
    hier := HierDerived(rest, netloc, path, tail);
    query := if '?' in tail then Some(text) else None;
    NetlocRejoins(rest);
    PrefixRejoins(rest, netloc, path, QuerySuffix(query));
  }

  lemma PrefixRejoins(rest: string, netloc: string, path: string, suffix: string)
    requires if StartsWith(rest, "//") then rest == "//" + netloc + (path + suffix) else rest == path + suffix
    ensures rest == (if StartsWith(rest, "//") then "//" + netloc + path else path) + suffix
  {
    if StartsWith(rest, "//") {
      assert "//" + netloc + (path + suffix) == "//" + netloc + path + suffix;
    }
  }

  lemma Sound(value: string)
    requires IsValidResourceIndicator(value)
    ensures IsAbsoluteUri(value)
  {
    hide PctStar, SplitScheme, SplitNetloc, Partition, IsValidAuthority;
    AcceptedComponents(value, UrlSplit(value).value);
    SplitRejoins(value);
    var (scheme, rest) := SplitScheme(value);
    var (netloc, tail) := SplitNetloc(rest);
    var (path, text) := Partition(tail, '?');
    var hier, query := RestDerived(rest, netloc, tail, path, text);
    var t := AbsoluteUri(scheme, hier, query);
    RenderedOpaque(t);
    assert t.Valid() && t.Render() == value;
  }

  /** section 4.3 of RFC 3986: the validator accepts a string exactly when the grammar derives it. */
  lemma AcceptsExactlyAbsoluteUris(value: string)
    ensures IsValidResourceIndicator(value) <==> IsAbsoluteUri(value)
  {
    if IsValidResourceIndicator(value) {
      Sound(value);
    }
    if IsAbsoluteUri(value) {
      var t: AbsoluteUri :| t.Valid() && t.Render() == value;
      Complete(t);
    }
  }
}
