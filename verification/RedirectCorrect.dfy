/** The matcher relaxes the port of a loopback URI and nothing else. */
module RedirectCorrect {
  import opened Common
  import opened Strings
  import opened Uri
  import opened UriCorrect
  import opened Redirect

  // ---------------------------------------------------------------- what urlsplit drops

  lemma {:induction false} RemoveNothing(s: string)
    requires NoneStripped(s)
    ensures Remove(s) == s
  {
    if s != "" {
      RemoveNothing(s[1..]);
      assert s == [s[0]] + s[1..];
    }
  }

  lemma {:induction false} RemoveLeavesNone(s: string)
    ensures NoneStripped(Remove(s)) && (forall c | c in Remove(s) :: c in s)
  {
    if s != "" {
      RemoveLeavesNone(s[1..]);
    }
  }

  lemma {:induction false} RemoveAppend(a: string, b: string)
    ensures Remove(a + b) == Remove(a) + Remove(b)
  {
    if a == "" {
      assert a + b == b;
    } else {
      assert (a + b)[0] == a[0] && (a + b)[1..] == a[1..] + b;
      RemoveAppend(a[1..], b);
    }
  }

  lemma {:induction false} LeftStripAppend(a: string, b: string)
    ensures LeftStrip(a + b) == if LeftStrip(a) == "" then LeftStrip(b) else LeftStrip(a) + b
    ensures forall c | c in LeftStrip(a) :: c in a
    ensures LeftStrip(a) != "" ==> !Blank(LeftStrip(a)[0])
  {
    if a == "" {
      assert a + b == b;
    } else if Blank(a[0]) {
      assert (a + b)[1..] == a[1..] + b;
      LeftStripAppend(a[1..], b);
    }
  }

  /** Cleaning works on the two sides of a seam separately, once something stands before it. */
  lemma CleanAppend(a: string, b: string)
    ensures Clean(a) != "" ==> Clean(a + b) == Clean(a) + Remove(b)
    ensures Clean(a) == "" ==> Clean(a + b) == Clean(b)
    ensures forall c | c in Clean(a) :: c in a
  {
    LeftStripAppend(a, b);
    RemoveAppend(LeftStrip(a), b);
    RemoveLeavesNone(LeftStrip(a));
  }

  lemma CleanOfDelimiter(b: string)
    requires b != "" && b[0] == '/'
    ensures Clean(b) == Remove(b)
  {
  }

  lemma {:induction false} DoubleSlashAfter(a: string, b: string)
    requires '/' !in a
    ensures FindDoubleSlash(a + "//" + b) == |a|
  {
    var s := a + "//" + b;
    if a != "" {
      assert s[0] == a[0];
      assert s[1..] == a[1..] + "//" + b;
      DoubleSlashAfter(a[1..], b);
    }
  }

  // ---------------------------------------------------------------- reading a written URI

  function SchemeOf(prefix: string): string
    requires HttpPrefix(prefix)
  {
    Clean(prefix)[..4]
  }

  lemma HttpIsScheme(prefix: string)
    requires HttpPrefix(prefix)
    ensures Clean(prefix) == SchemeOf(prefix) + ":" && Lower(SchemeOf(prefix)) == "http"
            && ValidScheme(SchemeOf(prefix))
  {
    var c := Clean(prefix);
    assert |c| == 5 && Lower(c)[0] == 'h' && Lower(c)[1] == 't' && Lower(c)[2] == 't' && Lower(c)[3] == 'p'
           && Lower(c)[4] == ':';
    assert c[4] == ':';
  }

  lemma NetlocOf(netloc: string, rest: string)
    requires AuthorityText(netloc) && Delimited(rest)
    ensures SplitNetloc("//" + netloc + rest) == (netloc, rest)
  {
    var tail := "//" + netloc + rest;
    FirstOfSplits(netloc, rest, {'/', '?', '#'});
    assert tail[2..] == netloc + rest;
    assert (netloc + rest)[..|netloc|] == netloc && (netloc + rest)[|netloc|..] == rest;
  }

  lemma CleanWritten(prefix: string, netloc: string, rest: string)
    requires HttpPrefix(prefix) && NoneStripped(netloc)
    ensures Clean(HttpUri(prefix, netloc, rest)) == SchemeOf(prefix) + ":" + ("//" + netloc + Remove(rest))
  {
    HttpIsScheme(prefix);
    var after := "//" + netloc + rest;
    assert HttpUri(prefix, netloc, rest) == prefix + after;
    CleanAppend(prefix, after);
    RemoveAppend("//" + netloc, rest);
    RemoveNothing("//" + netloc);
  }

  lemma ReadWritten(prefix: string, netloc: string, rest: string)
    requires HttpPrefix(prefix) && AuthorityText(netloc) && NoneStripped(netloc) && Delimited(Remove(rest))
    requires BracketsPaired(netloc)
    ensures var parsed := UrlParse(HttpUri(prefix, netloc, rest));
            parsed.Some? && parsed.value.netloc == netloc && parsed.value.scheme == "http"
  {
    HttpIsScheme(prefix);
    CleanWritten(prefix, netloc, rest);
    SchemeSplit(SchemeOf(prefix), "//" + netloc + Remove(rest));
    NetlocOf(netloc, Remove(rest));
  }

  // ---------------------------------------------------------------- host and port of an authority

  lemma PlainHostPort(hostinfo: string, digits: string)
    requires '[' !in hostinfo && ':' !in hostinfo && '[' !in digits
    ensures SplitHostPort(hostinfo + [':'] + digits) == (SplitHostPort(hostinfo).0, digits)
  {
    hide FirstOf, LastOf;
    PartitionFresh(hostinfo, ':', digits);
    PartitionRejoins(hostinfo, ':');
  }

  lemma BracketedHostPort(hostinfo: string, digits: string)
    requires '[' in hostinfo && NoPortColon(hostinfo)
    ensures SplitHostPort(hostinfo + [':'] + digits) == (SplitHostPort(hostinfo).0, digits)
  {
    hide FirstOf, LastOf, Partition;
    var port := [':'] + digits;
    assert hostinfo + [':'] + digits == hostinfo + port;
    var bracketed := Partition(hostinfo, '[').1;
    PartitionExtends(hostinfo, '[', port);
    PartitionExtends(bracketed, ']', port);
    var after := Partition(bracketed, ']').1;
    assert after + port == after + [':'] + digits;
    PartitionFresh(after, ':', digits);
  }

  /** Appending a port component to a host that has none adds exactly that port. */
  lemma HostWithPort(host: string, port: string)
    requires NoPortColon(AfterUserinfo(host))
    requires port != "" && port[0] == ':' && All(port[1..], Digit)
    ensures HostInfo(host + port) == (HostInfo(host).0, port[1..])
  {
    hide FirstOf, LastOf, SplitHostPort, Partition;
    AtUnmoved(host, port);
    var hostinfo, digits := AfterUserinfo(host), port[1..];
    AllAbsent(digits, Digit, '[');
    assert AfterUserinfo(host + port) == hostinfo + [':'] + digits;
    if '[' in hostinfo {
      BracketedHostPort(hostinfo, digits);
    } else {
      PlainHostPort(hostinfo, digits);
    }
  }

  /** The port component appended to a host starts at the last colon and adds no bracket or delimiter. */
  lemma PortAppended(host: string, port: string)
    requires port != "" && port[0] == ':' && All(port[1..], Digit)
    ensures LastOf(host + port, ':') == |host| && (host + port)[..|host|] == host
    ensures BracketsPaired(host + port) <==> BracketsPaired(host)
    ensures AuthorityText(host) ==> AuthorityText(host + port)
  {
    hide LastOf;
    assert host + port == host + [':'] + port[1..];
    LastOfSplits(host, ':', port[1..]);
    AllAbsent(port[1..], Digit, '[');
    AllAbsent(port[1..], Digit, ']');
  }

  lemma NoPort(host: string)
    requires NoPortColon(AfterUserinfo(host))
    ensures HostInfo(host).1 == ""
  {
  }

  lemma AtUnmoved(host: string, port: string)
    requires port != "" && port[0] == ':' && All(port[1..], Digit)
    ensures LastOf(host + port, '@') == LastOf(host, '@')
  {
    hide LastOf;
    var at, s := LastOf(host, '@'), host + port;
    AllAbsent(port[1..], Digit, '@');
    if at >= 0 {
      var tail := host[at + 1..] + port;
      assert s == host[..at] + ['@'] + tail;
      LastOfSplits(host[..at], '@', tail);
    } else {
      assert forall i | 0 <= i < |s| :: s[i] != '@';
    }
  }

  lemma PartitionExtends(s: string, mark: char, more: string)
    requires mark in s
    ensures Partition(s + more, mark) == (Partition(s, mark).0, Partition(s, mark).1 + more)
  {
    hide FirstOf;
    var n := FirstOf(s, {mark});
    FirstOfSplits(s[..n], s[n..] + more, {mark});
    assert s + more == s[..n] + (s[n..] + more);
    assert (s + more)[n + 1..] == s[n + 1..] + more;
  }

  lemma PartitionFresh(s: string, mark: char, after: string)
    requires mark !in s
    ensures Partition(s + [mark] + after, mark) == (s, after)
  {
    hide FirstOf;
    FirstOfSplits(s, [mark] + after, {mark});
    assert s + [mark] + after == s + ([mark] + after);
    assert (s + [mark] + after)[|s| + 1..] == after;
  }

  // ---------------------------------------------------------------- the matcher on written URIs

  lemma CutWritten(prefix: string, netloc: string, rest: string, port: string)
    requires '/' !in prefix
    ensures var colon := LastOf(netloc, ':');
            CutPort(HttpUri(prefix, netloc, rest), netloc, port)
            == if port == "" then Some(HttpUri(prefix, netloc, rest))
               else if colon < 0 then None
               else Some(HttpUri(prefix, netloc[..colon], rest))
  {
    hide LastOf, FindDoubleSlash;
    assert HttpUri(prefix, netloc, rest) == prefix + "//" + (netloc + rest);
    DoubleSlashAfter(prefix, netloc + rest);
    SliceAround(prefix + "//", netloc, rest);
    var colon := LastOf(netloc, ':');
    if colon >= 0 {
      SliceWithin(prefix + "//", netloc, rest, colon);
    }
  }

  /** The stripped form, spelled out on a written URI. */
  lemma StripWritten(prefix: string, netloc: string, rest: string)
    requires HttpPrefix(prefix) && netloc != "" && NoneStripped(netloc)
    requires AuthorityText(netloc) && Delimited(Remove(rest)) && BracketsPaired(netloc)
    ensures var port, colon := HostInfo(netloc).1, LastOf(netloc, ':');
            StripLoopbackPort(HttpUri(prefix, netloc, rest))
            == if port == "" then Some(HttpUri(prefix, netloc, rest))
               else if !PortInRange(port) || colon < 0 then None
               else Some(HttpUri(prefix, netloc[..colon], rest))
  {
    hide LastOf, UrlParse, HostInfo, Clean, Remove, DecimalValue;
    ReadWritten(prefix, netloc, rest);
    CutWritten(prefix, netloc, rest, HostInfo(netloc).1);
  }

  lemma SliceWithin(a: string, b: string, c: string, k: nat)
    requires k <= |b|
    ensures (a + b + c)[..|a| + k] == a + b[..k]
  {
  }

  lemma LoopbackWritten(prefix: string, netloc: string, rest: string)
    requires HttpPrefix(prefix) && AuthorityText(netloc) && NoneStripped(netloc) && Delimited(Remove(rest))
    requires BracketsPaired(netloc)
    ensures IsLoopback(HttpUri(prefix, netloc, rest)) <==> LoopbackHost(Hostname(netloc))
  {
    ReadWritten(prefix, netloc, rest);
  }

  lemma InsertedNetloc(host: string, p: string)
    requires AuthorityText(host) && BracketsPaired(host) && NoPortColon(AfterUserinfo(host))
    requires p != "" && PortComponent(p)
    ensures var netloc := host + p;
            && AuthorityText(netloc) && BracketsPaired(netloc) && HostInfo(netloc) == (HostInfo(host).0, p[1..])
            && LastOf(netloc, ':') == |host| && netloc[..|host|] == host
  {
    hide LastOf, DecimalValue, HostInfo, AfterUserinfo;
    HostWithPort(host, p);
    PortAppended(host, p);
  }

  lemma PortIsNotStripped(host: string, p: string)
    requires PortComponent(p)
    ensures NoneStripped(host + p) <==> NoneStripped(host)
  {
    assert forall i | 0 <= i < |p| :: p[i] == ':' || Digit(p[i]);
    assert forall i | 0 <= i < |host| :: (host + p)[i] == host[i];
  }

  /** What an authority with a valid loopback host makes of its URI. */
  lemma LoopbackStrips(prefix: string, netloc: string, rest: string)
    requires HttpPrefix(prefix) && AuthorityText(netloc) && NoneStripped(netloc) && Delimited(Remove(rest))
    requires BracketsPaired(netloc) && LoopbackHost(Hostname(netloc))
    ensures IsLoopback(HttpUri(prefix, netloc, rest))
    ensures var port, colon := HostInfo(netloc).1, LastOf(netloc, ':');
            StripLoopbackPort(HttpUri(prefix, netloc, rest))
            == if port == "" then Some(HttpUri(prefix, netloc, rest))
               else if !PortInRange(port) || colon < 0 then None
               else Some(HttpUri(prefix, netloc[..colon], rest))
  {
    hide LastOf, UrlParse, HostInfo, Clean, DecimalValue, Hostname, StripLoopbackPort, IsLoopback;
    LoopbackNonEmpty(netloc);
    LoopbackWritten(prefix, netloc, rest);
    StripWritten(prefix, netloc, rest);
  }

  /** A portless loopback URI, with any port component put in, is a loopback URI that strips back to it. */
  lemma InsertedPort(prefix: string, host: string, p: string, rest: string)
    requires PortlessLoopback(prefix, host, rest) && PortComponent(p)
    ensures IsLoopback(HttpUri(prefix, host + p, rest))
    ensures StripLoopbackPort(HttpUri(prefix, host + p, rest)) == Some(HttpUri(prefix, host, rest))
  {
    PortIsNotStripped(host, p);
    if p == "" {
      assert host + p == host;
      NoPort(host);
    } else {
      InsertedNetloc(host, p);
    }
    LoopbackStrips(prefix, host + p, rest);
  }

  lemma LoopbackNonEmpty(netloc: string)
    requires LoopbackHost(Hostname(netloc))
    ensures netloc != ""
  {
    HostnameShrinks(netloc);
    hide Hostname;
  }

  lemma HostnameShrinks(netloc: string)
    ensures |Hostname(netloc)| <= |netloc|
  {
    hide LowerToZone, SplitHostPort, LastOf;
    SplitHostPortShrinks(AfterUserinfo(netloc));
  }

  lemma SplitHostPortShrinks(hostinfo: string)
    ensures |LowerToZone(SplitHostPort(hostinfo).0)| <= |hostinfo|
  {
    hide FirstOf, LastOf;
  }

  lemma SliceAround(a: string, b: string, c: string)
    ensures var s := a + b + c; s[|a|..|a| + |b|] == b && s[..|a| + |b|] == a + b && s[|a| + |b|..] == c
  {
  }

  // ---------------------------------------------------------------- main results

  lemma BracketedCut(head: string, name: string, junk: string)
    requires '[' !in head && ']' !in name && ':' !in junk
    ensures NoPortColon(head + ['['] + (name + [']'] + junk))
  {
    PartitionFresh(head, '[', name + [']'] + junk);
    PartitionFresh(name, ']', junk);
  }

  lemma BracketedPieces(hostinfo: string) returns (head: string, name: string, junk: string)
    requires '[' in hostinfo && SplitHostPort(hostinfo).1 != ""
    ensures '[' !in head && ']' !in name && ':' !in junk
    ensures hostinfo == head + ['['] + (name + [']'] + (junk + [':'] + SplitHostPort(hostinfo).1))
  {
    var (h, bracketed) := Partition(hostinfo, '[');
    var (n, after) := Partition(bracketed, ']');
    var (j, port) := Partition(after, ':');
    head, name, junk := h, n, j;
    PartitionRejoins(hostinfo, '[');
    PartitionRejoins(bracketed, ']');
    PartitionRejoins(after, ':');
  }

  lemma FlattenPieces(head: string, name: string, junk: string, digits: string)
    ensures head + ['['] + (name + [']'] + (junk + [':'] + digits))
            == head + ['['] + (name + [']'] + junk) + [':'] + digits
  {
  }

  lemma HostInfoCut(hostinfo: string, digits: string) returns (short: string)
    requires digits == SplitHostPort(hostinfo).1 && digits != ""
    ensures hostinfo == short + [':'] + digits && NoPortColon(short)
  {
    hide FirstOf, LastOf, Partition;
    if '[' in hostinfo {
      var head, name, junk := BracketedPieces(hostinfo);
      short := head + ['['] + (name + [']'] + junk);
      BracketedCut(head, name, junk);
      FlattenPieces(head, name, junk, digits);
    } else {
      short := Partition(hostinfo, ':').0;
      PartitionRejoins(hostinfo, ':');
    }
  }

  predicate UserinfoPrefix(u: string) { u == "" || u[|u| - 1] == '@' }

  lemma AfterUserinfoIs(u: string, v: string)
    requires UserinfoPrefix(u) && '@' !in v
    ensures AfterUserinfo(u + v) == v
  {
    hide LastOf;
    if u == "" {
      assert u + v == v;
    } else {
      var init := u[..|u| - 1];
      assert u == init + ['@'];
      LastOfSplits(init, '@', v);
    }
  }

  lemma CutAfter(s: string, at: int, c: char)
    requires -1 <= at < |s| && forall i | at < i < |s| :: s[i] != c
    ensures s == s[..at + 1] + s[at + 1..] && c !in s[at + 1..]
  {
    var rest := s[at + 1..];
    forall i | 0 <= i < |rest| ensures rest[i] != c {
      assert rest[i] == s[at + 1 + i];
    }
  }

  lemma UserinfoSplit(netloc: string) returns (u: string)
    ensures netloc == u + AfterUserinfo(netloc) && UserinfoPrefix(u) && '@' !in AfterUserinfo(netloc)
  {
    hide LastOf;
    var at := LastOf(netloc, '@');
    u := netloc[..at + 1];
    CutAfter(netloc, at, '@');
  }

  lemma Reassociate(u: string, short: string, digits: string)
    ensures u + (short + [':'] + digits) == u + short + ([':'] + digits)
    ensures ([':'] + digits)[1..] == digits
  {
  }

  /** What a valid explicit port leaves when it is cut off: a portless host of the same name. */
  lemma PortCut(netloc: string) returns (host: string, p: string)
    requires PortInRange(HostInfo(netloc).1)
    ensures netloc == host + p && p != "" && PortComponent(p)
    ensures NoPortColon(AfterUserinfo(host))
  {
    hide LastOf, DecimalValue, SplitHostPort;
    var digits := HostInfo(netloc).1;
    var u := UserinfoSplit(netloc);
    var short := HostInfoCut(AfterUserinfo(netloc), digits);
    host, p := u + short, [':'] + digits;
    Reassociate(u, short, digits);
    AfterUserinfoIs(u, short);
  }

  lemma PortlessPart(host: string, p: string)
    requires AuthorityText(host + p) && BracketsPaired(host + p) && p != "" && PortComponent(p)
    ensures AuthorityText(host) && BracketsPaired(host)
  {
    PortAppended(host, p);
    forall i | 0 <= i < |host| ensures host[i] == (host + p)[i] {}
  }

  // ---------------------------------------------------------------- any string that strips

  /** The stripped form of a string written as prefix, authority and rest. */
  predicate Strips(uri: string, prefix: string, netloc: string, rest: string) {
    var port, colon := HostInfo(netloc).1, LastOf(netloc, ':');
    && (port != "" ==> PortInRange(port) && colon >= 0)
    && StripLoopbackPort(uri) == Some(if port == "" then uri else HttpUri(prefix, netloc[..colon], rest))
  }

  /** Where the port was cut: the string around the authority, found behind the first `//`. */
  lemma StripParts(uri: string) returns (prefix: string, netloc: string, rest: string)
    requires StripLoopbackPort(uri).Some?
    ensures netloc == UrlParse(uri).value.netloc && netloc != "" && uri == HttpUri(prefix, netloc, rest)
    ensures FindDoubleSlash(uri) == |prefix| && Strips(uri, prefix, netloc, rest)
  {
    hide UrlParse, HostInfo, PortInRange, FindDoubleSlash;
    netloc := UrlParse(uri).value.netloc;
    var at := FindDoubleSlash(uri);
    var start, end := at + 2, at + 2 + |netloc|;
    prefix, rest := uri[..at], uri[end..];
    DoubleSlashFound(uri);
    Around(uri, at, end);
    CutAround(prefix, netloc, rest);
  }

  lemma Around(uri: string, at: nat, end: nat)
    requires at + 2 <= end <= |uri| && uri[at..at + 2] == "//"
    ensures uri == HttpUri(uri[..at], uri[at + 2..end], uri[end..])
  {
    assert uri == uri[..at] + uri[at..at + 2] + uri[at + 2..end] + uri[end..];
  }

  lemma CutAround(prefix: string, netloc: string, rest: string)
    ensures var colon, uri := LastOf(netloc, ':'), HttpUri(prefix, netloc, rest);
            colon >= 0 ==>
              uri[..|prefix| + 2 + colon] + uri[|prefix| + 2 + |netloc|..] == HttpUri(prefix, netloc[..colon], rest)
  {
    hide LastOf;
    var colon := LastOf(netloc, ':');
    if colon >= 0 {
      SliceAround(prefix + "//", netloc, rest);
      SliceWithin(prefix + "//", netloc, rest, colon);
    }
  }

  lemma {:induction false} DoubleSlashFound(s: string)
    requires FindDoubleSlash(s) >= 0
    ensures s[FindDoubleSlash(s)..FindDoubleSlash(s) + 2] == "//"
  {
    if !(s[0] == '/' && s[1] == '/') {
      DoubleSlashFound(s[1..]);
    }
  }

  /** The first `//` does not depend on what follows it. */
  lemma {:induction false} DoubleSlashKept(a: string, b: string, c: string)
    requires FindDoubleSlash(a + "//" + b) == |a|
    ensures FindDoubleSlash(a + "//" + c) == |a|
  {
    if a != "" {
      assert (a + "//" + b)[1..] == a[1..] + "//" + b && (a + "//" + c)[1..] == a[1..] + "//" + c;
      assert (a + "//" + b)[0] == (a + "//" + c)[0] && (a + "//" + b)[1] == (a + "//" + c)[1];
      DoubleSlashKept(a[1..], b, c);
    }
  }

  lemma {:induction false} KeptByRemove(s: string, c: char)
    requires c in s && !Stripped(c)
    ensures c in Remove(s)
  {
    if s[0] != c {
      assert c in s[1..];
      KeptByRemove(s[1..], c);
    } else {
      assert Remove(s)[0] == c;
    }
  }

  lemma {:induction false} KeptByLeftStrip(s: string, c: char)
    requires c in s && !Blank(c)
    ensures c in LeftStrip(s)
  {
    if Blank(s[0]) {
      assert c in s[1..];
      KeptByLeftStrip(s[1..], c);
    }
  }

  lemma SlashKept(prefix: string)
    ensures '/' in prefix <==> '/' in Clean(prefix)
  {
    if '/' in prefix {
      KeptByLeftStrip(prefix, '/');
      KeptByRemove(LeftStrip(prefix), '/');
    }
    CleanAppend(prefix, "");
  }

  lemma SlashIsNoScheme(c: string)
    requires c != "" && c[0] == '/'
    ensures Lower(SplitScheme(c).0) != "http"
  {
    assert SplitScheme(c).0 == "";
  }

  /** urlsplit, on the cleaned string. */
  lemma ParsedOf(uri: string)
    requires UrlParse(uri).Some?
    ensures var (scheme, after) := SplitScheme(Clean(uri));
            && UrlParse(uri).value.scheme == Lower(scheme) && UrlParse(uri).value.netloc == SplitNetloc(after).0
            && BracketsPaired(UrlParse(uri).value.netloc)
  {
    hide Clean, SplitScheme, SplitNetloc, Partition, Lower, BracketsPaired;
  }

  lemma RemoveSlashes(b: string)
    ensures Remove("//" + b) == "//" + Remove(b)
  {
    RemoveAppend("//", b);
    RemoveNothing("//");
    hide Remove;
  }

  /** The cleaned URI, when urlsplit finds the http scheme in it: the cleaned prefix stays in front. */
  lemma CleanHttp(prefix: string, b: string)
    requires UrlParse(prefix + "//" + b).Some? && UrlParse(prefix + "//" + b).value.scheme == "http"
    ensures Clean(prefix) != "" && Clean(prefix + "//" + b) == Clean(prefix) + "//" + Remove(b)
  {
    ParsedOf(prefix + "//" + b);
    RemoveSlashes(b);
    CleanSeam(prefix, b);
    hide UrlParse, SplitScheme, Clean, Remove, Lower, SplitNetloc, BracketsPaired;
    HttpSeam(Clean(prefix), Remove(b), Clean(prefix + "//" + b));
  }

  lemma HttpSeam(front: string, rest: string, c: string)
    requires c == if front == "" then "//" + rest else front + ("//" + rest)
    requires Lower(SplitScheme(c).0) == "http"
    ensures front != "" && c == front + "//" + rest
  {
    if front == "" {
      SlashIsNoScheme(c);
    }
    hide SplitScheme, Lower;
  }

  lemma CleanSeam(prefix: string, b: string)
    ensures Clean(prefix + "//" + b)
            == if Clean(prefix) == "" then Remove("//" + b) else Clean(prefix) + Remove("//" + b)
  {
    var after := "//" + b;
    assert prefix + "//" + b == prefix + after;
    CleanAppend(prefix, after);
    CleanOfDelimiter(after);
    hide Clean, Remove;
  }

  lemma HttpScheme(c: string)
    requires Lower(SplitScheme(c).0) == "http"
    ensures |c| >= 5 && SplitScheme(c) == (c[..4], c[5..]) && c[4] == ':' && forall i | 0 <= i < 5 :: c[i] != '/'
  {
    hide FirstOf;
    SchemeRejoins(c);
    var scheme := SplitScheme(c).0;
    assert |Lower(scheme)| == 4;
    assert c == scheme + ":" + SplitScheme(c).1;
    assert c[..4] == scheme && c[5..] == SplitScheme(c).1;
    forall i | 0 <= i < 4 ensures c[i] != '/' {
      assert SchemeChar(scheme[i]);
    }
  }

  /** When the first `//` comes only after the slashes urlsplit saw, the authority lies in the prefix. */
  lemma NetlocInPrefix(head: string, b: string)
    requires Lower(SplitScheme(head + "//" + b).0) == "http" && '/' in head
    requires SplitNetloc(SplitScheme(head + "//" + b).1).0 != ""
    ensures |head| >= 7 && SplitNetloc(SplitScheme(head + "//" + b).1).0
            == head[7..][..FirstOf(head[7..], {'/', '?', '#'})]
  {
    hide SplitScheme, FirstOf, Lower;
    var c := head + "//" + b;
    HttpScheme(c);
    var i :| 0 <= i < |head| && head[i] == '/';
    assert c[i] == '/' && i >= 5;
    var rest := c[5..];
    assert StartsWith(rest, "//");
    assert c[5] == '/' && c[6] == '/';
    if |rest| > 2 && rest[2] == '/' {
      DelimiterFirst(rest[2..]);
    }
    if |head| >= 7 {
      FirstOfHead(head[7..], "//" + b);
      assert rest[2..] == head[7..] + ("//" + b);
    }
  }

  lemma DelimiterFirst(s: string)
    requires s != "" && s[0] == '/'
    ensures FirstOf(s, {'/', '?', '#'}) == 0
  {
  }

  lemma FirstOfHead(a: string, b: string)
    requires b != "" && b[0] == '/'
    ensures FirstOf(a + b, {'/', '?', '#'}) == FirstOf(a, {'/', '?', '#'})
  {
    var n := FirstOf(a, {'/', '?', '#'});
    var s := a + b;
    assert s == a[..n] + (a[n..] + b);
    FirstOfSplits(a[..n], a[n..] + b, {'/', '?', '#'});
  }

  /** Two such strings with the same text before the first `//` have the same authority. */
  lemma SlashedPrefix(prefix: string, b1: string, b2: string)
    requires '/' in prefix
    requires UrlParse(prefix + "//" + b1).Some? && UrlParse(prefix + "//" + b2).Some?
    requires UrlParse(prefix + "//" + b1).value.scheme == UrlParse(prefix + "//" + b2).value.scheme == "http"
    requires UrlParse(prefix + "//" + b1).value.netloc != "" && UrlParse(prefix + "//" + b2).value.netloc != ""
    ensures UrlParse(prefix + "//" + b1).value.netloc == UrlParse(prefix + "//" + b2).value.netloc
  {
    SlashKept(prefix);
    CleanHttp(prefix, b1);
    CleanHttp(prefix, b2);
    NetlocInPrefix(Clean(prefix), Remove(b1));
    NetlocInPrefix(Clean(prefix), Remove(b2));
  }

  /** Otherwise the text before `//` is the scheme, and the authority is read where it stands. */
  lemma PlainPrefix(prefix: string, netloc: string, rest: string)
    requires '/' !in prefix && netloc != ""
    requires var parsed := UrlParse(HttpUri(prefix, netloc, rest));
             parsed.Some? && parsed.value.scheme == "http" && parsed.value.netloc == netloc
    ensures HttpPrefix(prefix) && AuthorityText(netloc) && NoneStripped(netloc) && Delimited(Remove(rest))
    ensures BracketsPaired(netloc)
  {
    hide *;
    var b := netloc + rest;
    HttpUriParts(prefix, netloc, rest);
    ParsedOf(HttpUri(prefix, netloc, rest));
    CleanHttp(prefix, b);
    SlashKept(prefix);
    PlainParts(Clean(prefix), netloc, rest);
    IsHttpPrefix(prefix);
  }

  lemma IsHttpPrefix(prefix: string)
    requires '/' !in prefix && Lower(Clean(prefix)) == "http:"
    ensures HttpPrefix(prefix)
  {
  }

  lemma HttpUriParts(prefix: string, netloc: string, rest: string)
    ensures HttpUri(prefix, netloc, rest) == prefix + "//" + (netloc + rest)
  {
  }

  lemma PlainParts(head: string, netloc: string, rest: string)
    requires '/' !in head && netloc != ""
    requires Lower(SplitScheme(head + "//" + Remove(netloc + rest)).0) == "http"
    requires SplitNetloc(SplitScheme(head + "//" + Remove(netloc + rest)).1).0 == netloc
    ensures Lower(head) == "http:" && AuthorityText(netloc) && NoneStripped(netloc) && Delimited(Remove(rest))
  {
    var b := netloc + rest;
    var c := head + "//" + Remove(b);
    HttpScheme(c);
    var after := SplitScheme(c).1;
    NetlocRejoins(after);
    hide SplitScheme, Remove, FirstOf;
    NetlocNeedsSlashes(after);
    FirstSlash(head, c);
    RemoveLeavesNone(b);
    var tail := SplitNetloc(after).1;
    NetlocHasNoDelimiter(after);
    hide SplitNetloc;
    assert c[|head|..] == "//" + Remove(b);
    SamePieces(after, netloc, tail, Remove(b));
    NetlocStandsAlone(netloc, rest, tail);
  }

  lemma NetlocNeedsSlashes(after: string)
    requires SplitNetloc(after).0 != ""
    ensures StartsWith(after, "//") && |after| >= 2 && after[0] == '/'
  {
  }

  lemma SamePieces(after: string, netloc: string, tail: string, b: string)
    requires after == "//" + netloc + tail && after == "//" + b
    ensures b == netloc + tail
  {
    assert ("//" + b)[2..] == b && ("//" + netloc + tail)[2..] == netloc + tail;
  }

  lemma NetlocHasNoDelimiter(after: string)
    ensures forall i | 0 <= i < |SplitNetloc(after).0| :: SplitNetloc(after).0[i] !in {'/', '?', '#'}
  {
  }

  lemma FirstSlash(head: string, c: string)
    requires '/' !in head && |c| >= |head| + 2 && c[..|head|] == head && c[|head|] == '/'
    requires |c| >= 7 && c[4] == ':' && c[5] == '/' && forall i | 0 <= i < 5 :: c[i] != '/'
    requires Lower(c[..4]) == "http"
    ensures |head| == 5 && Lower(head) == "http:" && c[5..] == c[|head|..]
  {
    assert forall i | 0 <= i < |head| :: c[i] == head[i];
    assert |head| == 5;
    assert head[..4] == c[..4] && Lower(head)[..4] == Lower(c[..4]);
  }

  /** The authority is cut out of the raw and of the cleaned string alike, so nothing was dropped inside it. */
  lemma NetlocStandsAlone(netloc: string, rest: string, tail: string)
    requires Remove(netloc + rest) == netloc + tail && Delimited(tail)
    requires NoneStripped(netloc + tail) && (forall i | 0 <= i < |netloc| :: netloc[i] !in {'/', '?', '#'})
    ensures AuthorityText(netloc) && NoneStripped(netloc) && Delimited(Remove(rest))
  {
    forall i | 0 <= i < |netloc| ensures !Stripped(netloc[i]) {
      assert (netloc + tail)[i] == netloc[i];
    }
    RemoveAppend(netloc, rest);
    RemoveNothing(netloc);
    assert (netloc + Remove(rest))[|netloc|..] == Remove(rest) && (netloc + tail)[|netloc|..] == tail;
  }

  lemma PortlessHost(netloc: string) returns (host: string, p: string)
    requires AuthorityText(netloc) && BracketsPaired(netloc) && LoopbackHost(Hostname(netloc))
    requires PortInRange(HostInfo(netloc).1)
    ensures netloc == host + p && p != "" && PortComponent(p) && netloc[..|host|] == host
    ensures AuthorityText(host) && BracketsPaired(host) && LoopbackHost(Hostname(host))
    ensures NoPortColon(AfterUserinfo(host)) && LastOf(netloc, ':') == |host|
  {
    host, p := PortCut(netloc);
    PortlessPart(host, p);
    InsertedNetloc(host, p);
  }

  /** The portless form of a loopback URI with a valid explicit port. */
  lemma ExplicitPort(uri: string, prefix: string, netloc: string, rest: string) returns (host: string, p: string)
    requires IsLoopback(uri) && uri == HttpUri(prefix, netloc, rest) && netloc == UrlParse(uri).value.netloc
    requires '/' !in prefix && netloc != "" && HostInfo(netloc).1 != "" && StripLoopbackPort(uri).Some?
    ensures PortlessLoopback(prefix, host, rest) && PortComponent(p)
    ensures uri == HttpUri(prefix, host + p, rest) && StripLoopbackPort(uri) == Some(HttpUri(prefix, host, rest))
  {
    PlainPrefix(prefix, netloc, rest);
    LoopbackStrips(prefix, netloc, rest);
    host, p := PortlessHost(netloc);
    PortIsNotStripped(host, p);
  }

  /** A portless loopback URI reads only one way. */
  lemma PortlessUnique(prefix: string, h1: string, r1: string, h2: string, r2: string)
    requires PortlessLoopback(prefix, h1, r1) && PortlessLoopback(prefix, h2, r2)
    requires HttpUri(prefix, h1, r1) == HttpUri(prefix, h2, r2)
    ensures h1 == h2 && r1 == r2
  {
    hide FirstOf, Clean, Remove, Hostname, AfterUserinfo, BracketsPaired, AuthorityText, NoneStripped, Delimited;
    HostEnds(h1, r1);
    HostEnds(h2, r2);
    assert (prefix + "//" + h1 + r1)[|prefix| + 2..] == h1 + r1;
    assert (prefix + "//" + h2 + r2)[|prefix| + 2..] == h2 + r2;
    assert (h1 + r1)[..|h1|] == h1 && (h2 + r2)[..|h2|] == h2;
    assert (h1 + r1)[|h1|..] == r1 && (h2 + r2)[|h2|..] == r2;
  }

  lemma HostEnds(host: string, rest: string)
    requires AuthorityText(host) && NoneStripped(host) && Delimited(Remove(rest))
    ensures FirstOf(host + rest, {'/', '?', '#', '\t', '\r', '\n'}) == |host|
  {
    FirstOfSplits(host, rest, {'/', '?', '#', '\t', '\r', '\n'});
  }

  /** One of two different matching strings has an explicit port; the other is that one but for the port. */
  lemma OnlyPortDiffers(a: string, b: string, prefix: string, n1: string, r1: string, n2: string, r2: string)
    requires IsLoopback(a) && IsLoopback(b) && StripLoopbackPort(a).Some?
             && StripLoopbackPort(a) == StripLoopbackPort(b)
    requires a == HttpUri(prefix, n1, r1) && n1 == UrlParse(a).value.netloc
    requires b == HttpUri(prefix, n2, r2) && n2 == UrlParse(b).value.netloc
    requires '/' !in prefix && n1 != "" && n2 != "" && HostInfo(n1).1 != ""
    requires HostInfo(n2).1 == "" ==> StripLoopbackPort(b) == Some(b)
    ensures exists host, rest, p, q ::
              PortlessLoopback(prefix, host, rest) && PortComponent(p) && PortComponent(q)
              && a == HttpUri(prefix, host + p, rest) && b == HttpUri(prefix, host + q, rest)
  {
    hide LastOf, HostInfo, UrlParse, StripLoopbackPort, IsLoopback, HttpPrefix;
    var host, p := ExplicitPort(a, prefix, n1, r1);
    if HostInfo(n2).1 != "" {
      var host', q := ExplicitPort(b, prefix, n2, r2);
      PortlessUnique(prefix, host, r1, host', r2);
    } else {
      assert host + "" == host && PortComponent("");
      assert b == HttpUri(prefix, host + "", r1);
    }
  }

  lemma MatchedUpToPort(requested: string, registered: string)
    requires Matches(requested, registered) && requested != registered
    ensures DifferOnlyInPort(requested, registered)
  {
    var p1, n1, r1 := StripParts(requested);
    var p2, n2, r2 := StripParts(registered);
    StrippedPrefix(requested, p1, n1, r1);
    StrippedPrefix(registered, p2, n2, r2);
    var s := StripLoopbackPort(requested).value;
    assert s[..|p1|] == p1 && s[..|p2|] == p2;
    if '/' in p1 {
      SameAuthority(requested, registered, p1, n1, r1, n2, r2);
    } else if HostInfo(n1).1 != "" {
      OnlyPortDiffers(requested, registered, p1, n1, r1, n2, r2);
    } else {
      OnlyPortDiffers(registered, requested, p1, n2, r2, n1, r1);
    }
  }

  /** The stripped string has its first `//` where the string itself has it. */
  lemma StrippedPrefix(uri: string, prefix: string, netloc: string, rest: string)
    requires uri == HttpUri(prefix, netloc, rest) && FindDoubleSlash(uri) == |prefix|
             && Strips(uri, prefix, netloc, rest)
    ensures var s := StripLoopbackPort(uri).value;
            |s| >= |prefix| && s[..|prefix|] == prefix && FindDoubleSlash(s) == |prefix|
  {
    hide StripLoopbackPort, HostInfo, FindDoubleSlash, PortInRange;
    var colon := LastOf(netloc, ':');
    assert uri == prefix + "//" + (netloc + rest);
    if HostInfo(netloc).1 != "" {
      DoubleSlashKept(prefix, netloc + rest, netloc[..colon] + rest);
      assert HttpUri(prefix, netloc[..colon], rest) == prefix + "//" + (netloc[..colon] + rest);
    }
  }

  lemma LoopbackIsHttp(uri: string)
    requires IsLoopback(uri)
    ensures UrlParse(uri).Some? && UrlParse(uri).value.scheme == "http"
  {
    hide UrlParse, Hostname;
  }

  lemma Regrouped(prefix: string, netloc: string, rest: string)
    ensures HttpUri(prefix, netloc, rest) == prefix + "//" + (netloc + rest)
  {
  }

  lemma SameAuthority(a: string, b: string, prefix: string, n1: string, r1: string, n2: string, r2: string)
    requires IsLoopback(a) && IsLoopback(b) && StripLoopbackPort(a) == StripLoopbackPort(b)
    requires a == HttpUri(prefix, n1, r1) && n1 == UrlParse(a).value.netloc && n1 != ""
    requires b == HttpUri(prefix, n2, r2) && n2 == UrlParse(b).value.netloc && n2 != ""
    requires '/' in prefix && Strips(a, prefix, n1, r1) && Strips(b, prefix, n2, r2)
    ensures a == b
  {
    LoopbackIsHttp(a);
    LoopbackIsHttp(b);
    hide IsLoopback, StripLoopbackPort, Strips, UrlParse, HttpUri;
    Regrouped(prefix, n1, r1);
    Regrouped(prefix, n2, r2);
    SlashedPrefix(prefix, n1 + r1, n2 + r2);
    SameStripped(a, b, prefix, n1, r1, r2);
  }

  lemma SameStripped(a: string, b: string, prefix: string, netloc: string, r1: string, r2: string)
    requires Strips(a, prefix, netloc, r1) && Strips(b, prefix, netloc, r2)
             && StripLoopbackPort(a) == StripLoopbackPort(b)
    requires a == HttpUri(prefix, netloc, r1) && b == HttpUri(prefix, netloc, r2)
    ensures a == b
  {
    hide StripLoopbackPort, HostInfo, PortInRange, HttpUri;
    if HostInfo(netloc).1 != "" {
      SameRest(prefix, netloc[..LastOf(netloc, ':')], r1, r2);
    }
  }

  lemma SameRest(prefix: string, netloc: string, r1: string, r2: string)
    requires HttpUri(prefix, netloc, r1) == HttpUri(prefix, netloc, r2)
    ensures r1 == r2
  {
    var n := |prefix| + 2 + |netloc|;
    assert HttpUri(prefix, netloc, r1)[n..] == r1 && HttpUri(prefix, netloc, r2)[n..] == r2;
  }

  /** section 7.3 of RFC 8252: two strings match exactly when they are equal or are loopback URIs that differ in nothing
      but the port component as written, whatever else they contain. */
  lemma MatchesExactlyUpToPort(requested: string, registered: string)
    ensures Matches(requested, registered) <==> requested == registered || DifferOnlyInPort(requested, registered)
  {
    hide StripLoopbackPort, IsLoopback, Clean, HttpPrefix, Hostname, AfterUserinfo, LastOf;
    if Matches(requested, registered) && requested != registered {
      MatchedUpToPort(requested, registered);
    }
    if DifferOnlyInPort(requested, registered) {
      var prefix, host, rest, p, q :|
        PortlessLoopback(prefix, host, rest) && PortComponent(p) && PortComponent(q)
        && requested == HttpUri(prefix, host + p, rest) && registered == HttpUri(prefix, host + q, rest);
      InsertedPort(prefix, host, p, rest);
      InsertedPort(prefix, host, q, rest);
    }
  }

  /** Matching is an equivalence relation on all strings, whichever side is the registered one. */
  lemma MatchesIsEquivalence(a: string, b: string, c: string)
    ensures Matches(a, a)
    ensures Matches(a, b) ==> Matches(b, a)
    ensures Matches(a, b) && Matches(b, c) ==> Matches(a, c)
  {
  }
}
