/** serialization.py, expand_env_vars: what a string with placeholders expands to, by how it is written. */
module Expansion {
  import opened Common
  import opened Strings
  import opened Scope
  import opened Yaml

  predicate Letter(c: char) { 'A' <= c <= 'Z' || 'a' <= c <= 'z' || c == '_' }

  /** A variable's name: a letter or underscore, then letters, digits and underscores. */
  predicate IsName(name: string) {
    name != "" && Letter(name[0]) && forall i | 0 <= i < |name| :: Letter(name[i]) || '0' <= name[i] <= '9'
  }

  function Tail(default: Option<string>): string { if default.Some? then ":" + default.value + "}" else "}" }

  /** A placeholder as written: `${NAME}`, or `${NAME:default}` with a default that has no closing brace. */
  function Text(name: string, default: Option<string>): string { "${" + name + Tail(default) }

  predicate IsPlaceholder(name: string, default: Option<string>) {
    IsName(name) && (default.Some? ==> '}' !in default.value)
  }

  ghost predicate Opens(s: string) {
    exists name, default, rest :: IsPlaceholder(name, default) && s == Text(name, default) + rest
  }

  /** The variable, else the default, else nothing. */
  function Meaning(env: Environment, name: string, default: Option<string>): string {
    if name in env then env[name] else if default == None then "" else default.value
  }

  // ---------------------------------------------------------------- reading a placeholder

  lemma Pieces(name: string, tail: string, rest: string)
    requires name != ""
    ensures var s, n := "${" + name + tail + rest, |name|;
            && |s| == 2 + n + |tail| + |rest| && s[0] == '$' && s[1] == '{' && s[2] == name[0]
            && s[2..] == name + (tail + rest) && s[2..2 + n] == name && s[2 + n..] == tail + rest
            && s[2 + n + |tail|..] == rest
  {
  }

  lemma DefaultPieces(default: string, rest: string)
    ensures var t := ":" + default + "}" + rest;
            t[0] == ':' && t[1..] == default + ("}" + rest) && t[1..1 + |default|] == default && t[1 + |default|] == '}'
  {
  }

  lemma CloseFound(s: string, name: string, default: string, rest: string)
    requires IsName(name) && '}' !in default && s == "${" + name + (":" + default + "}") + rest
    ensures PlaceholderAt(s) == Some(Placeholder(name, Some(default), |name| + |default| + 4))
  {
    var tail := ":" + default + "}";
    Pieces(name, tail, rest);
    NameEnds(name, tail + rest);
    assert tail + rest == ":" + default + "}" + rest;
    DefaultPieces(default, rest);
    FirstOfSplits(default, "}" + rest, {'}'});
    var end := 2 + |name|;
    assert s[end..][1..] == s[end + 1..] && s[end] == s[end..][0];
    assert s[end + 1..][..|default|] == s[end + 1..end + 1 + |default|];
    hide NameEnd, FirstOf, IsName;
  }

  lemma BraceFound(s: string, name: string, rest: string)
    requires IsName(name) && s == "${" + name + "}" + rest
    ensures PlaceholderAt(s) == Some(Placeholder(name, None, |name| + 3))
  {
    Pieces(name, "}", rest);
    NameEnds(name, "}" + rest);
    assert s[2 + |name|] == s[2 + |name|..][0];
    hide NameEnd, FirstOf, IsName;
  }

  lemma ReadsAsWritten(s: string, name: string, default: Option<string>, rest: string)
    requires IsPlaceholder(name, default) && s == Text(name, default) + rest
    ensures PlaceholderAt(s) == Some(Placeholder(name, default, |Text(name, default)|))
    ensures s[|Text(name, default)|..] == rest
  {
    hide PlaceholderAt, IsName;
    if default.Some? {
      CloseFound(s, name, default.value, rest);
    } else {
      BraceFound(s, name, rest);
    }
  }

  lemma NameRead(s: string, end: nat)
    requires |s| >= 3 && NameStart(s[2]) && end == 2 + NameEnd(s[2..])
    ensures end <= |s| && IsName(s[2..end])
  {
    hide NameEnd;
    var name := s[2..end];
    assert forall i | 0 <= i < |name| :: name[i] == s[2..][i];
    assert s[2..][0] == s[2] && NameChar(s[2]);
    NameEndIsPositive(s[2..]);
  }

  lemma NameEndIsPositive(s: string)
    requires s != "" && NameChar(s[0])
    ensures NameEnd(s) > 0
  {
  }

  lemma DefaultRead(s: string, from: nat, close: nat)
    requires from <= |s| && close == from + FirstOf(s[from..], {'}'}) && close < |s|
    ensures '}' !in s[from..close] && s[close] == '}'
  {
    hide FirstOf;
    assert forall i | 0 <= i < close - from :: s[from..close][i] == s[from..][i];
    assert s[close] == s[from..][close - from];
  }

  lemma RejoinsWithDefault(s: string, end: nat, close: nat)
    requires 2 <= end < close < |s| && s[0] == '$' && s[1] == '{' && s[end] == ':' && s[close] == '}'
    ensures s == "${" + s[2..end] + (":" + s[end + 1..close] + "}") + s[close + 1..]
  {
  }

  lemma Rejoins(s: string, end: nat)
    requires 2 <= end < |s| && s[0] == '$' && s[1] == '{' && s[end] == '}'
    ensures s == "${" + s[2..end] + "}" + s[end + 1..]
  {
  }

  lemma WrittenAsRead(s: string)
    requires PlaceholderAt(s).Some?
    ensures var p := PlaceholderAt(s).value;
            IsPlaceholder(p.name, p.default) && s == Text(p.name, p.default) + s[p.length..]
  {
    hide NameEnd, FirstOf, IsName, Letter;
    var end := 2 + NameEnd(s[2..]);
    NameRead(s, end);
    if s[end] == '}' {
      Rejoins(s, end);
    } else {
      var close := end + 1 + FirstOf(s[end + 1..], {'}'});
      DefaultRead(s, end + 1, close);
      RejoinsWithDefault(s, end, close);
    }
  }

  lemma OpensExactly(s: string)
    ensures PlaceholderAt(s).Some? <==> Opens(s)
  {
    hide PlaceholderAt, Text, IsPlaceholder;
    if PlaceholderAt(s).Some? {
      WrittenAsRead(s);
    }
    if Opens(s) {
      var name, default, rest :| IsPlaceholder(name, default) && s == Text(name, default) + rest;
      ReadsAsWritten(s, name, default, rest);
    }
  }

  // ---------------------------------------------------------------- the laws

  /** A placeholder expands to its meaning, whatever is written behind it, and that is expanded on its own: what a
      variable holds is not looked at again. */
  lemma PlaceholderExpands(env: Environment, name: string, default: Option<string>, rest: string)
    requires IsPlaceholder(name, default)
    ensures ExpandString(env, Text(name, default) + rest) == Meaning(env, name, default) + ExpandString(env, rest)
  {
    var s := Text(name, default) + rest;
    ReadsAsWritten(s, name, default, rest);
    hide PlaceholderAt, Text, IsPlaceholder;
    assert s != "";
  }

  /** Where no placeholder opens, the character is copied: so are `$`, `${` and unfinished or misnamed placeholders. */
  lemma OthersAreCopied(env: Environment, s: string)
    requires s != "" && !Opens(s)
    ensures ExpandString(env, s) == [s[0]] + ExpandString(env, s[1..])
  {
    OpensExactly(s);
    hide PlaceholderAt, Opens;
  }

  /** Text without `${` stays as it is, in front of anything. */
  lemma {:induction false} TextExpands(env: Environment, a: string, rest: string)
    requires forall i | 0 <= i < |a| - 1 :: !(a[i] == '$' && a[i + 1] == '{')
    requires a != "" && rest != "" ==> !(a[|a| - 1] == '$' && rest[0] == '{')
    ensures ExpandString(env, a + rest) == a + ExpandString(env, rest)
  {
    if a == "" {
      assert a + rest == rest;
    } else {
      var s := a + rest;
      assert |s| >= 2 ==> !(s[0] == '$' && s[1] == '{');
      assert s[1..] == a[1..] + rest;
      TextExpands(env, a[1..], rest);
      assert ExpandString(env, s) == [s[0]] + ExpandString(env, s[1..]);
    }
  }

  /** The composition law: literal text, a placeholder, and the rest. */
  lemma ExpandsInOrder(env: Environment, a: string, name: string, default: Option<string>, rest: string)
    requires forall i | 0 <= i < |a| - 1 :: !(a[i] == '$' && a[i + 1] == '{')
    requires IsPlaceholder(name, default)
    ensures ExpandString(env, a + Text(name, default) + rest)
            == a + Meaning(env, name, default) + ExpandString(env, rest)
  {
    var behind := Text(name, default) + rest;
    assert a + Text(name, default) + rest == a + behind;
    assert behind[0] == '$';
    TextExpands(env, a, behind);
    PlaceholderExpands(env, name, default, rest);
    hide ExpandString, Text;
  }

  /** Only strings are expanded, at any depth; keys, numbers and nulls are not. */
  lemma ExpandsLeaves(env: Environment, y: Yaml)
    ensures match y
            case Str(s) => Expand(env, y) == Str(ExpandString(env, s))
            case List(items) =>
              Expand(env, y).List? && |Expand(env, y).items| == |items|
              && forall i | 0 <= i < |items| :: Expand(env, y).items[i] == Expand(env, items[i])
            case Map(entries) =>
              Expand(env, y).Map? && Expand(env, y).entries.Keys == entries.Keys
              && forall k | k in entries :: Expand(env, y).entries[k] == Expand(env, entries[k])
            case _ => Expand(env, y) == y
  {
    hide ExpandString;
  }

  // ---------------------------------------------------------------- numbers and blanks

  /** The decimal digits of a number. */
  function Decimal(n: nat): string {
    if n < 10 then [('0' as int + n) as char] else Decimal(n / 10) + [('0' as int + n % 10) as char]
  }

  function DecimalInt(n: int): string { if n < 0 then "-" + Decimal(-n) else Decimal(n) }

  lemma {:induction false} DecimalDigits(n: nat)
    ensures Decimal(n) != "" && forall i | 0 <= i < |Decimal(n)| :: '0' <= Decimal(n)[i] <= '9'
  {
    if n >= 10 {
      DecimalDigits(n / 10);
    }
  }

  lemma {:induction false} DigitsAppend(a: string, d: char, value: nat)
    requires a != "" && (forall i | 0 <= i < |a| :: Digit(a[i])) && Digit(d)
    ensures Digits(a, value).Some?
    ensures Digits(a + [d], value) == Some(10 * Digits(a, value).value + (d as int - '0' as int))
    decreases |a|
  {
    var value' := 10 * value + (a[0] as int - '0' as int);
    if |a| == 1 {
      assert (a + [d])[1..] == [d];
    } else {
      assert (a + [d])[1..] == a[1..] + [d] && a[1] != '_';
      DigitsAppend(a[1..], d, value');
    }
  }

  lemma {:induction false} DigitsOfDecimal(n: nat)
    ensures Digits(Decimal(n), 0) == Some(n)
  {
    if n >= 10 {
      DigitsOfDecimal(n / 10);
      DecimalDigits(n / 10);
      DigitsAppend(Decimal(n / 10), ('0' as int + n % 10) as char, 0);
    }
  }

  /** A number written out in decimal, with or without a sign, is read back as itself. */
  lemma ParsesDecimal(n: int)
    ensures ParseInt(DecimalInt(n)) == Some(n)
  {
    var m: nat := if n < 0 then -n else n;
    DecimalDigits(m);
    DigitsOfDecimal(m);
    var s := DecimalInt(n);
    assert !IsSpace(s[0]) && !IsSpace(s[|s| - 1]);
    StripOfSolid(s);
    if n < 0 {
      assert s[1..] == Decimal(m);
    }
    hide Decimal, Digits, Strip;
  }
}
