/** services/redirect_uri.py: registration matching, with the loopback port as its one exception. */
module Redirect {
  import opened Common
  import opened Strings
  import opened Uri

  // ---------------------------------------------------------------- urlparse

  predicate Blank(c: char) { c <= ' ' }

  predicate Stripped(c: char) { c == '\t' || c == '\r' || c == '\n' }

  function LeftStrip(s: string): string {
    if s != "" && Blank(s[0]) then LeftStrip(s[1..]) else s
  }

  function Remove(s: string): string {
    if s == "" then ""
    else if Stripped(s[0]) then Remove(s[1..])
    else [s[0]] + Remove(s[1..])
  }

  /** What urlsplit does to its input before it looks for components. */
  function Clean(url: string): string { Remove(LeftStrip(url)) }

  function UrlParse(url: string): Option<Parts> { UrlSplit(Clean(url)) }

  function AfterUserinfo(netloc: string): string { netloc[LastOf(netloc, '@') + 1..] }

  /** The text of the host and of the port behind the userinfo; an absent port is empty. */
  function SplitHostPort(hostinfo: string): (string, string) {
    if '[' in hostinfo then
      var (hostname, after) := Partition(Partition(hostinfo, '[').1, ']');
      (hostname, Partition(after, ':').1)
    else
      Partition(hostinfo, ':')
  }

  /** _hostinfo */
  function HostInfo(netloc: string): (string, string) { SplitHostPort(AfterUserinfo(netloc)) }

  /** Lower-cased up to a zone id. */
  function LowerToZone(raw: string): string {
    var n := FirstOf(raw, {'%'});
    Lower(raw[..n]) + raw[n..]
  }

  /** `.hostname` */
  function Hostname(netloc: string): string { LowerToZone(HostInfo(netloc).0) }

  function DecimalValue(digits: string): nat
    requires All(digits, Digit)
  {
    if digits == "" then 0
    else 10 * DecimalValue(digits[..|digits| - 1]) + (digits[|digits| - 1] as int - '0' as int)
  }

  predicate PortInRange(digits: string) {
    digits != "" && All(digits, Digit) && DecimalValue(digits) <= 65535
  }

  // ---------------------------------------------------------------- the matcher

  predicate LoopbackHost(hostname: string) { hostname == "127.0.0.1" || hostname == "::1" }

  /** is_loopback_redirect_uri */
  predicate IsLoopback(uri: string) {
    match UrlParse(uri)
    case None => false
    case Some(parsed) => parsed.scheme == "http" && LoopbackHost(Hostname(parsed.netloc))
  }

  /** str.find("//"), -1 when absent. */
  function FindDoubleSlash(s: string): (r: int)
    ensures -1 <= r && (r >= 0 ==> r + 2 <= |s|)
  {
    if |s| < 2 then -1
    else if s[0] == '/' && s[1] == '/' then 0
    else
      var r := FindDoubleSlash(s[1..]);
      if r < 0 then -1 else r + 1
  }

  /** _strip_loopback_port: None is "unusable". */
  function StripLoopbackPort(uri: string): Option<string> {
    match UrlParse(uri)
    case None => None
    case Some(parsed) =>
      var port := HostInfo(parsed.netloc).1;
      if port != "" && !PortInRange(port) then None
      else if parsed.netloc == "" then None
      else CutPort(uri, parsed.netloc, port)
  }

  /** Cuts the port as written out of the string, once the authority is where it should be. */
  function CutPort(uri: string, netloc: string, port: string): Option<string> {
    var at := FindDoubleSlash(uri);
    if at < 0 then None
    else
      var start, end := at + 2, at + 2 + |netloc|;
      if end > |uri| || uri[start..end] != netloc then None
      else if port == "" then Some(uri)
      else
        var colon := LastOf(netloc, ':');
        if colon < 0 then None  // a netloc that carries a port carries a colon
        else Some(uri[..start + colon] + uri[end..])
  }

  /** redirect_uri_matches */
  predicate Matches(requested: string, registered: string) {
    if requested == registered then true
    else if !IsLoopback(registered) then false
    else if !IsLoopback(requested) then false
    else
      var stripped, wanted := StripLoopbackPort(requested), StripLoopbackPort(registered);
      if stripped.None? || wanted.None? then false else stripped == wanted
  }

  // ---------------------------------------------------------------- the reference reading

  predicate NoneStripped(s: string) { forall i | 0 <= i < |s| :: !Stripped(s[i]) }

  /** What stands before `//`: the http scheme and its colon, with whatever urlsplit drops. */
  predicate HttpPrefix(prefix: string) { '/' !in prefix && Lower(Clean(prefix)) == "http:" }

  predicate AuthorityText(netloc: string) {
    forall i | 0 <= i < |netloc| :: netloc[i] != '/' && netloc[i] != '?' && netloc[i] != '#'
  }

  predicate Delimited(rest: string) { rest == "" || rest[0] == '/' || rest[0] == '?' || rest[0] == '#' }

  /** The http scheme, `//`, a host naming a loopback address with its bracket closed and no colon after it, and a path,
      query or fragment. */
  predicate PortlessLoopback(prefix: string, host: string, rest: string) {
    HttpPrefix(prefix)
    && AuthorityText(host) && NoneStripped(host) && Delimited(Remove(rest))
    && ('[' in host <==> ']' in host)
    && LoopbackHost(Hostname(host))
    && NoPortColon(AfterUserinfo(host))
  }

  predicate NoPortColon(hostinfo: string) {
    if '[' in hostinfo then
      var bracketed := Partition(hostinfo, '[').1;
      ']' in bracketed && ':' !in Partition(bracketed, ']').1
    else
      ':' !in hostinfo
  }

  /** The port component of section 3.2.3 of RFC 3986 as written, colon included; empty when there is none. */
  predicate PortComponent(p: string) {
    p == "" || (p[0] == ':' && PortInRange(p[1..]))
  }

  function HttpUri(prefix: string, netloc: string, rest: string): string { prefix + "//" + netloc + rest }

  /** Two loopback URIs that are the same, character by character, but for the port component. */
  ghost predicate DifferOnlyInPort(a: string, b: string) {
    exists prefix, host, rest, p, q ::
      PortlessLoopback(prefix, host, rest) && PortComponent(p) && PortComponent(q)
      && a == HttpUri(prefix, host + p, rest) && b == HttpUri(prefix, host + q, rest)
  }
}
