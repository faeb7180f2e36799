/** What the loader makes of a text in the settings file, by how it is written: integers, booleans, lists and the
    issuer. */
module Loading {
  import opened Common
  import opened Strings
  import opened Scope
  import opened Yaml
  import opened SettingsLens
  import E = Expansion

  // ---------------------------------------------------------------- integers

  predicate Mark(c: char) { c == '_' }

  /** Digits, with single underscores between digits only. */
  predicate Separated(s: string) {
    && s != "" && Digit(s[0]) && Digit(s[|s| - 1])
    && (forall i | 0 <= i < |s| :: Digit(s[i]) || Mark(s[i]))
    && forall i | 0 <= i < |s| - 1 :: !(Mark(s[i]) && Mark(s[i + 1]))
  }

  function Unmarked(s: string): string {
    if s == "" then "" else (if Mark(s[0]) then "" else [s[0]]) + Unmarked(s[1..])
  }

  lemma SeparatedTail(s: string)
    requires |s| >= 2 && Digit(s[0])
    ensures Separated(s) <==> if Mark(s[1]) then Separated(s[2..]) else Separated(s[1..])
  {
    var t := if Mark(s[1]) then s[2..] else s[1..];
    if Separated(s) {
      assert t != "" && forall i | 0 <= i < |t| :: t[i] == s[|s| - |t| + i];
    }
    if Separated(t) {
      assert forall i | 0 <= i < |t| :: s[|s| - |t| + i] == t[i];
      assert t[0] == s[|s| - |t|];
    }
  }

  lemma DigitInFront(c: char, u: string, value: nat)
    requires Digit(c) && u != "" && Digit(u[0])
    ensures Digits([c] + u, value) == Digits(u, 10 * value + (c as int - '0' as int))
  {
    assert ([c] + u)[1..] == u;
  }

  lemma UnmarkedFirst(s: string)
    requires |s| >= 2 && Digit(s[0])
    ensures Unmarked(s) == [s[0]] + Unmarked(if Mark(s[1]) then s[2..] else s[1..])
  {
    if Mark(s[1]) {
      MarkGone(s[1..]);
      assert s[1..][1..] == s[2..];
    }
  }

  lemma MarkGone(s: string)
    requires s != "" && Mark(s[0])
    ensures Unmarked(s) == Unmarked(s[1..])
  {
    var u := Unmarked(s[1..]);
    assert "" + u == u;
  }

  /** Which texts are digits, and what number they are: underscores are allowed between digits, and mean nothing. */
  lemma {:induction false} DigitsExactly(s: string, value: nat)
    ensures Digits(s, value).Some? <==> Separated(s)
    ensures Separated(s) ==>
              && Unmarked(s) != "" && Unmarked(s)[0] == s[0]
              && Digits(s, value) == Digits(Unmarked(s), value)
    decreases |s|
  {
    if |s| >= 2 && Digit(s[0]) {
      SeparatedTail(s);
      UnmarkedFirst(s);
      var rest := if Mark(s[1]) then s[2..] else s[1..];
      var value' := 10 * value + (s[0] as int - '0' as int);
      assert Digits(s, value) == Digits(rest, value');
      DigitsExactly(rest, value');
      if Separated(s) {
        assert Digit(rest[0]);
        DigitInFront(s[0], Unmarked(rest), value);
      }
      hide Separated, Unmarked, Digits;
    } else {
      assert |s| == 1 && Digit(s[0]) ==> Unmarked(s) == s;
    }
  }

  /** A signed decimal, with blanks around it, loads as its number. */
  lemma IntegerRead(left: string, n: int, right: string, default: Value)
    requires (forall i | 0 <= i < |left| :: IsSpace(left[i])) && forall i | 0 <= i < |right| :: IsSpace(right[i])
    ensures Coerced(NumberKind, default, Str(left + E.DecimalInt(n) + right)) == Some(Number(n))
  {
    var s := E.DecimalInt(n);
    E.DecimalDigits(if n < 0 then -n else n);
    assert !IsSpace(s[0]) && !IsSpace(s[|s| - 1]);
    E.ParsesDecimal(n);
    StripOfSolid(s);
    hide E.DecimalInt, Digits, Strip;
    BlanksStripped(left, s, right);
  }

  lemma {:induction false} BlanksStripped(left: string, s: string, right: string)
    requires s != "" && !IsSpace(s[0]) && !IsSpace(s[|s| - 1])
    requires (forall i | 0 <= i < |left| :: IsSpace(left[i])) && forall i | 0 <= i < |right| :: IsSpace(right[i])
    ensures Strip(left + s + right) == s
    decreases |left| + |right|
  {
    var all := left + s + right;
    if left != "" {
      assert all[1..] == left[1..] + s + right;
      BlanksStripped(left[1..], s, right);
    } else if right != "" {
      var init := right[..|right| - 1];
      assert all[..|all| - 1] == left + s + init;
      assert all[0] == s[0] && all[|all| - 1] == right[|right| - 1];
      BlanksStripped(left, s, init);
    } else {
      assert all == s;
    }
  }

  // ---------------------------------------------------------------- booleans

  const TRUE_WORDS := ["1", "on", "t", "true", "y", "yes"]
  const FALSE_WORDS := ["0", "off", "f", "false", "n", "no"]

  /** The same letters, in either case. */
  predicate Spells(s: string, word: string) { |s| == |word| && forall i | 0 <= i < |s| :: LowerChar(s[i]) == word[i] }

  /** A text loads as a boolean exactly when it spells one of twelve words. */
  lemma FlagsExactly(s: string)
    ensures ReadFlag(s) == Some(true) <==> exists word | word in TRUE_WORDS :: Spells(s, word)
    ensures ReadFlag(s) == Some(false) <==> exists word | word in FALSE_WORDS :: Spells(s, word)
  {
    forall word ensures Spells(s, word) <==> Lower(s) == word {
      SpellsExactly(s, word);
    }
    hide Spells, Lower;
    assert ReadFlag(s) == Some(true) <==> Lower(s) in TRUE_WORDS;
    assert ReadFlag(s) == Some(false) <==> Lower(s) in FALSE_WORDS;
  }

  lemma SpellsExactly(s: string, word: string)
    ensures Spells(s, word) <==> Lower(s) == word
  {
  }

  // ---------------------------------------------------------------- lists and the issuer

  function Solid(s: string): seq<string> { if s == "" then [] else [s] }

  lemma FirstOfTexts(s: string, rest: seq<string>)
    ensures NonBlanks([s] + rest) == Solid(s) + NonBlanks(rest)
  {
    var all := [s] + rest;
    assert all[1..] == rest;
  }

  lemma {:induction false} BlanksDropped(a: seq<string>, s: string, b: seq<string>)
    ensures NonBlanks(a + [s] + b) == NonBlanks(a) + Solid(s) + NonBlanks(b)
  {
    hide NonBlanks, Solid;
    if a == [] {
      FirstOfTexts(s, b);
      NoTexts();
      assert a + [s] + b == [s] + b && [] + Solid(s) + NonBlanks(b) == Solid(s) + NonBlanks(b);
    } else {
      BlanksDropped(a[1..], s, b);
      FirstOfTexts(a[0], a[1..]);
      FirstOfTexts(a[0], a[1..] + [s] + b);
      assert a == [a[0]] + a[1..];
      assert a + [s] + b == [a[0]] + (a[1..] + [s] + b);
      Regrouped(Solid(a[0]), NonBlanks(a[1..]), Solid(s), NonBlanks(b));
    }
  }

  lemma NoTexts()
    ensures NonBlanks([]) == []
  {
  }

  lemma Regrouped(a: seq<string>, b: seq<string>, c: seq<string>, d: seq<string>)
    ensures a + (b + c + d) == a + b + c + d
  {
  }

  /** A list of a client entry: a single text stands for a list of one, nothing and a blank for an empty list; in a list
      of texts each is kept in its place unless it is blank. Nothing else is a list. */
  lemma ListsExactly(y: Yaml, default: Value)
    ensures Coerced(LooseTexts, default, y)
            == match y
               case Null => Some(Texts([]))
               case Str(s) => Some(Texts(if s == "" then [] else [s]))
               case List(items) => if AllStrings(items) then Some(Texts(NonBlanks(StringsOf(items)))) else None
               case _ => None
  {
    hide NonBlanks, StringsOf, AllStrings;
  }

  /** An issuer is an http or https URL. */
  lemma IssuersExactly(y: Yaml, default: Value)
    ensures Coerced(IssuerKind, default, y).Some?
            <==> exists rest :: y == Str("http://" + rest) || y == Str("https://" + rest)
  {
    hide TrimSlashes;
    if y.Str? && StartsWith(y.s, "http://") {
      assert y == Str("http://" + y.s[7..]);
    }
    if y.Str? && StartsWith(y.s, "https://") {
      assert y == Str("https://" + y.s[8..]);
    }
  }
}
