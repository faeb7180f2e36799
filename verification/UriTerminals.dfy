/** The terminals of RFC 3986 spelled out, and its IPv6address as derivations of their own: what the grammar and the
    validator both stand on. */
module UriTerminals {
  import opened Common
  import opened Strings
  import opened Uri

  // ---------------------------------------------------------------- characters

  const LOWER := "abcdefghijklmnopqrstuvwxyz"
  const UPPER := "ABCDEFGHIJKLMNOPQRSTUVWXYZ"
  const DIGITS := "0123456789"
  const UNRESERVED_MARKS := "-._~"
  const SUB_DELIMS := "!$&'()*+,;="

  predicate Letter(c: char) { c in LOWER || c in UPPER || c in DIGITS }

  lemma LettersSpelledOut(c: char)
    ensures Alpha(c) <==> c in LOWER || c in UPPER
    ensures Digit(c) <==> c in DIGITS
    ensures HexDig(c) <==> c in "0123456789abcdefABCDEF"
  {
  }

  /** Sections 2.2, 2.3, 3.1, 3.3 and 3.4: which characters stand for themselves where. */
  lemma CharactersSpelledOut(c: char)
    ensures Unreserved(c) <==> Letter(c) || c in "-._~"
    ensures SubDelim(c) <==> c in "!$&'()*+,;="
    ensures RegNameChar(c) <==> Letter(c) || c in "-._~" || c in "!$&'()*+,;="
    ensures UserinfoChar(c) <==> RegNameChar(c) || c in ":"
    ensures PChar(c) <==> RegNameChar(c) || c in ":@"
    ensures QueryChar(c) <==> RegNameChar(c) || c in ":@/?"
    ensures SchemeChar(c) <==> Letter(c) || c in "+-."
    ensures UriChar(c) <==> RegNameChar(c) || c in ":/?#[]@%"
  {
    LettersSpelledOut(c);
    hide Alpha, Digit;
  }

  // ---------------------------------------------------------------- runs of characters

  /** One allowed character, or a percent sign and two hexadecimal digits. */
  predicate Unit(allowed: char -> bool, u: string) {
    (|u| == 1 && allowed(u[0]))
    || (|u| == 3 && u[0] == '%' && u[1] in "0123456789abcdefABCDEF" && u[2] in "0123456789abcdefABCDEF")
  }

  function Concat(units: seq<string>): string { if units == [] then "" else units[0] + Concat(units[1..]) }

  predicate Units(allowed: char -> bool, units: seq<string>) { forall i | 0 <= i < |units| :: Unit(allowed, units[i]) }

  lemma {:induction false} UnitsAccepted(allowed: char -> bool, units: seq<string>)
    requires Units(allowed, units)
    ensures PctStar(allowed, Concat(units))
  {
    if units != [] {
      var u, rest := units[0], Concat(units[1..]);
      UnitsAccepted(allowed, units[1..]);
      if |u| == 1 {
        assert (u + rest)[1..] == rest;
      } else {
        LettersSpelledOut(u[1]);
        LettersSpelledOut(u[2]);
        assert (u + rest)[3..] == rest;
      }
    }
  }

  lemma {:induction false} UnitsDerived(allowed: char -> bool, s: string) returns (units: seq<string>)
    requires PctStar(allowed, s)
    ensures Units(allowed, units) && Concat(units) == s
  {
    units := [];
    if s != "" {
      var n := if allowed(s[0]) && PctStar(allowed, s[1..]) then 1 else 3;
      if n == 3 {
        LettersSpelledOut(s[1]);
        LettersSpelledOut(s[2]);
      }
      var rest := UnitsDerived(allowed, s[n..]);
      units := [s[..n]] + rest;
      assert units[1..] == rest && s == s[..n] + s[n..];
    }
  }

  /** A run is accepted exactly when it is made of allowed characters and percent-encoded octets. */
  lemma RunsExactly(allowed: char -> bool, s: string)
    ensures PctStar(allowed, s) <==> exists units :: Units(allowed, units) && Concat(units) == s
  {
    if PctStar(allowed, s) {
      var units := UnitsDerived(allowed, s);
    }
    if units :| Units(allowed, units) && Concat(units) == s {
      UnitsAccepted(allowed, units);
    }
  }

  // ---------------------------------------------------------------- separated pieces

  function Join(pieces: seq<string>, sep: char): string {
    if pieces == [] then ""
    else if |pieces| == 1 then pieces[0]
    else pieces[0] + [sep] + Join(pieces[1..], sep)
  }

  predicate Free(pieces: seq<string>, sep: char) { forall k | 0 <= k < |pieces| :: sep !in pieces[k] }

  lemma {:induction false} JoinOfPieces(s: string, sep: char)
    ensures Join(Pieces(s, sep), sep) == s && Free(Pieces(s, sep), sep)
  {
    var n := FirstOf(s, {sep});
    if n < |s| {
      var rest := Pieces(s[n + 1..], sep);
      JoinOfPieces(s[n + 1..], sep);
      assert ([s[..n]] + rest)[1..] == rest;
      assert s == s[..n] + [sep] + s[n + 1..];
    }
  }

  lemma {:induction false} PiecesOfJoin(pieces: seq<string>, sep: char)
    requires pieces != [] && Free(pieces, sep)
    ensures Pieces(Join(pieces, sep), sep) == pieces
  {
    var p := pieces[0];
    if |pieces| == 1 {
      FirstOfSplits(p, "", {sep});
      assert p + "" == p;
    } else {
      var rest := [sep] + Join(pieces[1..], sep);
      PiecesOfJoin(pieces[1..], sep);
      FirstOfSplits(p, rest, {sep});
      var s := p + rest;
      assert Join(pieces, sep) == s && s[..|p|] == p && s[|p| + 1..] == Join(pieces[1..], sep);
    }
  }

  // ---------------------------------------------------------------- dotted octets

  function Decimal(n: nat): string {
    if n < 10 then [('0' as int + n) as char] else Decimal(n / 10) + [('0' as int + n % 10) as char]
  }

  lemma OctetText(n: nat)
    requires n <= 255
    ensures DecOctet(Decimal(n))
  {
    if n >= 100 {
      assert Decimal(n / 10) == Decimal(n / 100) + [('0' as int + (n / 10) % 10) as char];
    }
  }

  function DigitOf(c: char): int { c as int - '0' as int }

  lemma OneMoreDigit(n: nat, c: char)
    requires n > 0 && Digit(c)
    ensures Decimal(10 * n + DigitOf(c)) == Decimal(n) + [c]
  {
  }

  lemma OctetValue(s: string) returns (n: nat)
    requires DecOctet(s)
    ensures n <= 255 && Decimal(n) == s
  {
    assert forall i | 0 <= i < |s| :: Digit(s[i]);
    n := DigitOf(s[0]);
    assert Decimal(n) == [s[0]];
    if |s| >= 2 {
      OneMoreDigit(n, s[1]);
      n := 10 * n + DigitOf(s[1]);
      assert s[..2] == [s[0]] + [s[1]];
    }
    if |s| == 3 {
      OneMoreDigit(n, s[2]);
      n := 10 * n + DigitOf(s[2]);
    }
  }

  predicate Octets(octets: seq<nat>) { |octets| == 4 && forall k | 0 <= k < 4 :: octets[k] <= 255 }

  function Dotted(octets: seq<nat>): string
    requires |octets| == 4
  {
    Join([Decimal(octets[0]), Decimal(octets[1]), Decimal(octets[2]), Decimal(octets[3])], '.')
  }

  lemma DottedAccepted(octets: seq<nat>)
    requires Octets(octets)
    ensures IPv4Address(Dotted(octets))
  {
    var pieces := [Decimal(octets[0]), Decimal(octets[1]), Decimal(octets[2]), Decimal(octets[3])];
    forall k | 0 <= k < 4 ensures DecOctet(pieces[k]) && '.' !in pieces[k] {
      OctetText(octets[k]);
    }
    hide Decimal, DecOctet, Join;
    PiecesOfJoin(pieces, '.');
  }

  lemma DottedDerived(s: string) returns (octets: seq<nat>)
    requires IPv4Address(s)
    ensures Octets(octets) && Dotted(octets) == s
  {
    var pieces := Pieces(s, '.');
    JoinOfPieces(s, '.');
    hide Decimal, DecOctet, Join;
    var a := OctetValue(pieces[0]);
    var b := OctetValue(pieces[1]);
    var c := OctetValue(pieces[2]);
    var d := OctetValue(pieces[3]);
    octets := [a, b, c, d];
    assert pieces == [Decimal(a), Decimal(b), Decimal(c), Decimal(d)];
  }

  // ---------------------------------------------------------------- IPv6address

  predicate Group(g: string) { 1 <= |g| <= 4 && forall i | 0 <= i < |g| :: g[i] in "0123456789abcdefABCDEF" }

  predicate Groups(groups: seq<string>) { forall k | 0 <= k < |groups| :: Group(groups[k]) }

  lemma GroupExactly(g: string)
    ensures H16(g) <==> Group(g)
  {
    if i :| 0 <= i < |g| && !HexDig(g[i]) {
      LettersSpelledOut(g[i]);
    }
    forall i | 0 <= i < |g| ensures HexDig(g[i]) <==> g[i] in "0123456789abcdefABCDEF" {
      LettersSpelledOut(g[i]);
    }
    hide HexDig;
  }

  /** Groups of hexadecimal digits, the last two of them possibly written as four octets. */
  datatype Bits = Bits(groups: seq<string>, octets: Option<seq<nat>>) {
    predicate Valid() { Groups(groups) && (octets.Some? ==> Octets(octets.value)) }

    function Count(): nat { |groups| + if octets.Some? then 2 else 0 }

    function Texts(): seq<string>
      requires Valid()
    {
      groups + if octets.Some? then [Dotted(octets.value)] else []
    }

    function Render(): string
      requires Valid()
    {
      Join(Texts(), ':')
    }
  }

  /** All eight groups, or at most seven around a "::"; octets only at the end. */
  datatype Address = Full(all: Bits) | Elided(left: seq<string>, right: Bits) {
    predicate Valid() {
      match this
      case Full(all) => all.Valid() && all.Count() == 8
      case Elided(left, right) => Groups(left) && right.Valid() && |left| + right.Count() <= 7
    }

    function Render(): string
      requires Valid()
    {
      match this
      case Full(all) => all.Render()
      case Elided(left, right) => Join(left, ':') + "::" + right.Render()
    }
  }

  lemma DottedText(octets: seq<nat>)
    requires Octets(octets)
    ensures ':' !in Dotted(octets) && Dotted(octets) != "" && !H16(Dotted(octets))
  {
    var s := Dotted(octets);
    DottedAccepted(octets);
    JoinOfPieces(s, '.');
    hide Dotted, Join;
    assert '.' !in s ==> Pieces(s, '.') == [s];
    forall k | 0 <= k < 4 ensures All(Pieces(s, '.')[k], NoColon) {
    }
    PiecesCover(s, '.', NoColon);
  }

  predicate NoColon(c: char) { c != ':' }

  /** The texts between the colons: none is empty, none holds a colon. */
  lemma TextsAreSolid(b: Bits)
    requires b.Valid()
    ensures Free(b.Texts(), ':') && forall k | 0 <= k < |b.Texts()| :: b.Texts()[k] != ""
  {
    if b.octets.Some? {
      DottedText(b.octets.value);
    }
    hide Dotted;
    forall k | 0 <= k < |b.groups| ensures ':' !in b.groups[k] && b.groups[k] != "" {
      assert Group(b.groups[k]);
    }
  }

  lemma BitsAccepted(b: Bits, tail: bool)
    requires b.Valid() && (b.octets.Some? ==> tail)
    ensures GroupCount(b.Render(), tail) == b.Count()
  {
    var texts := b.Texts();
    if texts != [] {
      TextsAreSolid(b);
      PiecesOfJoin(texts, ':');
      NotEmpty(texts, ':');
      forall k | 0 <= k < |b.groups| ensures H16(texts[k]) {
        GroupExactly(b.groups[k]);
      }
      if b.octets.Some? {
        DottedText(b.octets.value);
        DottedAccepted(b.octets.value);
      }
      hide H16, Dotted, IPv4Address, Join, Pieces;
    }
  }

  lemma NotEmpty(texts: seq<string>, sep: char)
    requires texts != [] && texts[0] != ""
    ensures Join(texts, sep) != "" && Join(texts, sep)[0] == texts[0][0]
  {
  }

  lemma GroupsRead(s: string, tail: bool)
    requires s != "" && GroupCount(s, tail) >= 0
    ensures var texts := Pieces(s, ':');
            var last := texts[|texts| - 1];
            && Groups(texts[..|texts| - 1])
            && if Group(last) then GroupCount(s, tail) == |texts|
               else tail && IPv4Address(last) && GroupCount(s, tail) == |texts| + 1
  {
    var texts := Pieces(s, ':');
    forall k | 0 <= k < |texts| ensures H16(texts[k]) <==> Group(texts[k]) {
      GroupExactly(texts[k]);
    }
    hide H16, Group, Pieces, IPv4Address;
  }

  lemma PlainBits(texts: seq<string>)
    requires Groups(texts)
    ensures var b := Bits(texts, None); b.Valid() && b.Render() == Join(texts, ':') && b.Count() == |texts|
  {
    assert texts + [] == texts;
    hide Join, Groups;
  }

  lemma DottedBits(init: seq<string>, octets: seq<nat>)
    requires Groups(init) && Octets(octets)
    ensures var b := Bits(init, Some(octets));
            b.Valid() && b.Render() == Join(init + [Dotted(octets)], ':') && b.Count() == |init| + 2
  {
    hide Join, Groups, Octets, Dotted;
  }

  lemma BitsDerived(s: string, tail: bool) returns (b: Bits)
    requires GroupCount(s, tail) >= 0
    ensures b.Valid() && b.Render() == s && b.Count() == GroupCount(s, tail) && (b.octets.Some? ==> tail)
  {
    if s == "" {
      PlainBits([]);
      return Bits([], None);
    }
    var texts := Pieces(s, ':');
    var init, last := texts[..|texts| - 1], texts[|texts| - 1];
    assert texts == init + [last];
    GroupsRead(s, tail);
    JoinOfPieces(s, ':');
    assert Group(last) ==> Groups(texts);
    hide *;
    if Group(last) {
      PlainBits(texts);
      return Bits(texts, None);
    }
    var octets := DottedDerived(last);
    DottedBits(init, octets);
    return Bits(init, Some(octets));
  }

  lemma {:induction false} NoDoubleColon(texts: seq<string>, i: nat)
    requires Free(texts, ':') && forall k | 0 <= k < |texts| :: texts[k] != ""
    ensures !HasDoubleColonAt(Join(texts, ':'), i)
  {
    if |texts| > 1 {
      var first, rest := texts[0], Join(texts[1..], ':');
      assert Join(texts, ':') == first + ":" + rest;
      NotEmpty(texts[1..], ':');
      if i > |first| {
        NoDoubleColon(texts[1..], i - |first| - 1);
      }
    }
  }

  lemma AddressAccepted(t: Address)
    requires t.Valid()
    ensures IPv6Address(t.Render())
  {
    var s := t.Render();
    match t
    case Full(all) =>
      TextsAreSolid(all);
      forall i: nat ensures !HasDoubleColonAt(s, i) {
        NoDoubleColon(all.Texts(), i);
      }
      BitsAccepted(all, true);
    case Elided(left, right) =>
      var head := Bits(left, None);
      assert left + [] == left;
      BitsAccepted(head, false);
      BitsAccepted(right, true);
      var l, r := head.Render(), right.Render();
      hide GroupCount, Join, Groups;
      assert s == l + "::" + r && s[..|l|] == l && s[|l| + 2..] == r;
      assert CompressedAt(s, |l|);
  }

  lemma ElidedAddress(left: Bits, right: Bits)
    requires left.Valid() && left.octets == None && right.Valid() && left.Count() + right.Count() <= 7
    ensures var t := Elided(left.groups, right); t.Valid() && t.Render() == left.Render() + "::" + right.Render()
  {
    assert left.groups + [] == left.groups;
    hide Join, Groups, Octets, Dotted;
  }

  lemma AddressDerived(s: string) returns (t: Address)
    requires IPv6Address(s)
    ensures t.Valid() && t.Render() == s
  {
    hide GroupCount, Join, Groups, Octets, Dotted, Pieces, H16, IPv4Address;
    if exists i | 0 <= i < |s| :: HasDoubleColonAt(s, i) {
      var i :| 0 <= i < |s| && CompressedAt(s, i);
      assert s == s[..i] + "::" + s[i + 2..];
      var left := BitsDerived(s[..i], false);
      var right := BitsDerived(s[i + 2..], true);
      ElidedAddress(left, right);
      hide *;
      t := Elided(left.groups, right);
    } else {
      var all := BitsDerived(s, true);
      t := Full(all);
    }
  }

  /** IPv6address of section 3.2.2: what the validator takes for one is exactly what its derivations render. */
  lemma IPv6Exactly(s: string)
    ensures IPv6Address(s) <==> exists t: Address :: t.Valid() && t.Render() == s
  {
    hide IPv6Address;
    if IPv6Address(s) {
      var t := AddressDerived(s);
    }
    if t: Address :| t.Valid() && t.Render() == s {
      AddressAccepted(t);
    }
  }
}
