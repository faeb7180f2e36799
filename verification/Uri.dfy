/** The RFC 3986 absolute-URI grammar as parse trees, the hand-written validator of
    services/resource.py as the branching code it is, and the proof that they agree. */
module Uri {
  import opened Common
  import opened Strings

  // ---------------------------------------------------------------- Appendix A terminals

  predicate Alpha(c: char) { 'a' <= c <= 'z' || 'A' <= c <= 'Z' }

  predicate Digit(c: char) { '0' <= c <= '9' }

  predicate HexDig(c: char) { Digit(c) || 'a' <= c <= 'f' || 'A' <= c <= 'F' }

  predicate Unreserved(c: char) { Alpha(c) || Digit(c) || c == '-' || c == '.' || c == '_' || c == '~' }

  predicate SubDelim(c: char) {
    c == '!' || c == '$' || c == '&' || c == '\'' || c == '(' || c == ')' || c == '*' || c == '+'
    || c == ',' || c == ';' || c == '='
  }

  predicate RegNameChar(c: char) { Unreserved(c) || SubDelim(c) }

  predicate UserinfoChar(c: char) { RegNameChar(c) || c == ':' }

  predicate PChar(c: char) { UserinfoChar(c) || c == '@' }

  predicate PathChar(c: char) { PChar(c) || c == '/' }

  predicate QueryChar(c: char) { PathChar(c) || c == '?' }

  predicate SchemeChar(c: char) { Alpha(c) || Digit(c) || c == '+' || c == '-' || c == '.' }

  predicate All(s: string, p: char -> bool) { forall i | 0 <= i < |s| :: p(s[i]) }

  /** `*( allowed / pct-encoded )`, where `allowed` never admits a percent sign. */
  predicate PctStar(allowed: char -> bool, s: string) {
    s == ""
    || (allowed(s[0]) && PctStar(allowed, s[1..]))
    || (s[0] == '%' && |s| >= 3 && HexDig(s[1]) && HexDig(s[2]) && PctStar(allowed, s[3..]))
  }

  // ---------------------------------------------------------------- IPv6address

  predicate H16(s: string) { 1 <= |s| <= 4 && All(s, HexDig) }

  predicate DecOctet(s: string) {
    1 <= |s| <= 3 && All(s, Digit) && (|s| > 1 ==> s[0] != '0')
    && (|s| == 3 ==> s[0] == '1' || (s[0] == '2' && (s[1] < '5' || (s[1] == '5' && s[2] <= '5'))))
  }

  /** The pieces of `s` between separators; one more than there are separators. */
  function Pieces(s: string, sep: char): (r: seq<string>)
    ensures |r| >= 1
  {
    var n := FirstOf(s, {sep});
    if n == |s| then [s] else [s[..n]] + Pieces(s[n + 1..], sep)
  }

  /** A property of every character of every piece holds of every character but the separators. */
  lemma {:induction false} PiecesCover(s: string, sep: char, p: char -> bool)
    requires p(sep) && forall k | 0 <= k < |Pieces(s, sep)| :: All(Pieces(s, sep)[k], p)
    ensures All(s, p)
  {
    var n := FirstOf(s, {sep});
    var pieces := Pieces(s, sep);
    assert All(pieces[0], p);
    if n < |s| {
      var rest := Pieces(s[n + 1..], sep);
      assert forall k | 0 <= k < |rest| :: rest[k] == pieces[k + 1];
      PiecesCover(s[n + 1..], sep, p);
      assert s == s[..n] + [sep] + s[n + 1..];
    }
  }

  predicate IPv4Address(s: string) {
    var octets := Pieces(s, '.');
    |octets| == 4 && forall k | 0 <= k < 4 :: DecOctet(octets[k])
  }

  /** Number of 16-bit groups `s` spells, an IPv4 tail counting for two; -1 when it is not a group list. */
  function GroupCount(s: string, tail: bool): int {
    if s == "" then 0
    else
      var groups := Pieces(s, ':');
      var last := groups[|groups| - 1];
      if !(forall k | 0 <= k < |groups| - 1 :: H16(groups[k])) then -1
      else if H16(last) then |groups|
      else if tail && IPv4Address(last) then |groups| + 1
      else -1
  }

  predicate HasDoubleColonAt(s: string, i: nat) { i + 1 < |s| && s[i] == ':' && s[i + 1] == ':' }

  predicate CompressedAt(s: string, i: nat) {
    HasDoubleColonAt(s, i)
    && GroupCount(s[..i], false) >= 0 && GroupCount(s[i + 2..], true) >= 0
    && GroupCount(s[..i], false) + GroupCount(s[i + 2..], true) <= 7
  }

  /** IPv6address: eight groups, or fewer around one "::". */
  predicate IPv6Address(s: string) {
    if exists i | 0 <= i < |s| :: HasDoubleColonAt(s, i) then
      exists i | 0 <= i < |s| :: CompressedAt(s, i)
    else
      GroupCount(s, true) == 8
  }

  predicate IPv6Char(c: char) { HexDig(c) || c == ':' || c == '.' }

  lemma IPv4Chars(s: string)
    requires IPv4Address(s)
    ensures All(s, IPv6Char)
  {
    PiecesCover(s, '.', IPv6Char);
  }

  lemma GroupChars(s: string, tail: bool)
    requires GroupCount(s, tail) >= 0
    ensures All(s, IPv6Char)
  {
    if s != "" {
      var groups := Pieces(s, ':');
      forall k | 0 <= k < |groups| ensures All(groups[k], IPv6Char) {
        if !H16(groups[k]) {
          IPv4Chars(groups[k]);
        }
      }
      PiecesCover(s, ':', IPv6Char);
    }
  }

  lemma CompressedChars(s: string, i: nat)
    requires CompressedAt(s, i)
    ensures All(s, IPv6Char)
  {
    GroupChars(s[..i], false);
    GroupChars(s[i + 2..], true);
    var left, right := s[..i], s[i + 2..];
    assert s == left + "::" + right;
  }

  lemma IPv6Chars(s: string)
    requires IPv6Address(s)
    ensures All(s, IPv6Char)
  {
    if exists i | 0 <= i < |s| :: HasDoubleColonAt(s, i) {
      var i :| 0 <= i < |s| && CompressedAt(s, i);
      CompressedChars(s, i);
    } else {
      GroupChars(s, true);
    }
  }

  // ---------------------------------------------------------------- derivations (RFC 3986, Appendix A)

  datatype Host =
    | IPv6Literal(address: string)
    | IPvFuture(v: char, version: string, tail: string)
    | RegName(name: string)  // IPv4address derives nothing that reg-name does not
  {
    predicate Valid() {
      match this
      case IPv6Literal(a) => IPv6Address(a)
      case IPvFuture(v, n, t) =>
        (v == 'v' || v == 'V') && n != "" && All(n, HexDig) && t != "" && All(t, UserinfoChar)
      case RegName(n) => PctStar(RegNameChar, n)
    }

    function Render(): string {
      match this
      case IPv6Literal(a) => "[" + a + "]"
      case IPvFuture(v, n, t) => "[" + [v] + n + "." + t + "]"
      case RegName(n) => n
    }
  }

  datatype Authority = Authority(userinfo: Option<string>, host: Host, port: Option<string>) {
    predicate Valid() {
      (userinfo.Some? ==> PctStar(UserinfoChar, userinfo.value))
      && host.Valid()
      && (port.Some? ==> All(port.value, Digit))
    }

    function RenderHostPort(): string {
      host.Render() + if port.Some? then ":" + port.value else ""
    }

    function Render(): string {
      (if userinfo.Some? then userinfo.value + "@" else "") + RenderHostPort()
    }
  }

  /** `*( "/" segment )` */
  function Slashed(segments: seq<string>): string {
    if segments == [] then "" else "/" + segments[0] + Slashed(segments[1..])
  }

  predicate Segments(segments: seq<string>) {
    forall i | 0 <= i < |segments| :: PctStar(PChar, segments[i])
  }

  datatype HierPart =
    | Net(authority: Authority, segments: seq<string>)  // "//" authority path-abempty
    | Absolute(segments: seq<string>)                   // "/" [ segment-nz *( "/" segment ) ]
    | Rootless(segments: seq<string>)                   // segment-nz *( "/" segment )
    | Empty                                             // path-empty
  {
    predicate Valid() {
      match this
      case Net(a, segs) => a.Valid() && Segments(segs)
      case Absolute(segs) => Segments(segs) && (segs != [] ==> segs[0] != "")
      case Rootless(segs) => Segments(segs) && segs != [] && segs[0] != ""
      case Empty => true
    }

    function Render(): string {
      match this
      case Net(a, segs) => "//" + a.Render() + Slashed(segs)
      case Absolute(segs) => if segs == [] then "/" else Slashed(segs)
      case Rootless(segs) => if segs == [] then "" else segs[0] + Slashed(segs[1..])
      case Empty => ""
    }
  }

  datatype AbsoluteUri = AbsoluteUri(scheme: string, hier: HierPart, query: Option<string>) {
    predicate Valid() {
      ValidScheme(scheme) && hier.Valid() && (query.Some? ==> PctStar(QueryChar, query.value))
    }

    function Tail(): string {
      hier.Render() + if query.Some? then "?" + query.value else ""
    }

    function Render(): string { scheme + ":" + Tail() }
  }

  predicate ValidScheme(s: string) { s != "" && Alpha(s[0]) && All(s, SchemeChar) }

  /** section 4.3 derives `value`. */
  ghost predicate IsAbsoluteUri(value: string) {
    exists t: AbsoluteUri :: t.Valid() && t.Render() == value
  }

  // ---------------------------------------------------------------- urlsplit

  datatype Parts = Parts(scheme: string, netloc: string, path: string, query: string, fragment: string)

  predicate BracketsPaired(netloc: string) { '[' in netloc <==> ']' in netloc }

  /** The scheme as written, and what follows its colon; no scheme leaves the text whole. */
  function SplitScheme(url: string): (string, string) {
    var i := FirstOf(url, {':'});
    if 0 < i < |url| && Alpha(url[0]) && All(url[..i], SchemeChar) then (url[..i], url[i + 1..])
    else ("", url)
  }

  /** The network location behind a leading "//", and what follows it. */
  function SplitNetloc(rest: string): (string, string) {
    if StartsWith(rest, "//") then
      var n := FirstOf(rest[2..], {'/', '?', '#'});
      (rest[2..][..n], rest[2..][n..])
    else
      ("", rest)
  }

  /** Text before and after the first `mark`; nothing after it when there is none. */
  function Partition(s: string, mark: char): (string, string) {
    var n := FirstOf(s, {mark});
    (s[..n], if n < |s| then s[n + 1..] else "")
  }

  /** The plain component split; None is the ValueError of an unpaired bracket. */
  function UrlSplit(url: string): Option<Parts> {
    var (scheme, rest) := SplitScheme(url);
    var (netloc, tail) := SplitNetloc(rest);
    if !BracketsPaired(netloc) then None
    else
      var (before, fragment) := Partition(tail, '#');
      var (path, query) := Partition(before, '?');
      Some(Parts(Lower(scheme), netloc, path, query, fragment))
  }

  // ---------------------------------------------------------------- the validator

  /** _RFC3986_CHARS */
  predicate UriChar(c: char) {
    Unreserved(c) || SubDelim(c) || c == ':' || c == '/' || c == '?' || c == '#' || c == '[' || c == ']'
    || c == '@' || c == '%'
  }

  /** _IPVFUTURE_RE, whose version digits stop at the first dot. */
  predicate MatchesIPvFuture(inner: string) {
    var dot := FirstOf(inner, {'.'});
    1 < dot < |inner| - 1
    && (inner[0] == 'v' || inner[0] == 'V')
    && All(inner[1..dot], HexDig)
    && All(inner[dot + 1..], UserinfoChar)
  }

  predicate IsValidHost(host: string) {
    if |host| >= 1 && host[0] == '[' && host[|host| - 1] == ']' then
      // "[" alone cannot end with "]", so there are two characters to strip
      var inner := host[1..|host| - 1];
      if inner != "" && (inner[0] == 'v' || inner[0] == 'V') then MatchesIPvFuture(inner)
      else if '%' in inner then false
      else IPv6Address(inner)
    else
      PctStar(RegNameChar, host)
  }

  predicate IsValidHostPort(rest: string) {
    if |rest| >= 1 && rest[0] == '[' then
      var end := FirstOf(rest, {']'});
      if end == |rest| then false
      else
        var host, after := rest[..end + 1], rest[end + 1..];
        if after == "" then IsValidHost(host)
        else if after[0] == ':' then All(after[1..], Digit) && IsValidHost(host)
        else false
    else
      var colon := LastOf(rest, ':');
      if colon >= 0 then All(rest[colon + 1..], Digit) && IsValidHost(rest[..colon])
      else IsValidHost(rest)
  }

  predicate IsValidAuthority(authority: string) {
    var at := LastOf(authority, '@');
    if at >= 0 then PctStar(UserinfoChar, authority[..at]) && IsValidHostPort(authority[at + 1..])
    else IsValidHostPort(authority)
  }

  /** is_valid_resource_indicator, branch for branch. */
  predicate IsValidResourceIndicator(value: string) {
    if value == "" then false
    else if !All(value, UriChar) then false
    else if '#' in value then false
    else
      match UrlSplit(value)
      case None => false
      case Some(parts) => ComponentsValid(parts)
  }

  /** The checks after the split, in the order the code makes them. */
  predicate ComponentsValid(parts: Parts) {
    if !ValidScheme(parts.scheme) then false
    else if parts.query != "" && !PctStar(QueryChar, parts.query) then false
    else if parts.netloc != "" && !IsValidAuthority(parts.netloc) then false
    else if parts.netloc != "" && parts.path != "" && parts.path[0] != '/' then false
    else if parts.path != "" && !PctStar(PathChar, parts.path) then false
    else true
  }
}
