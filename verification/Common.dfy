/** Small value types and string helpers shared by the other modules. */
module Common {

  datatype Option<+T> = None | Some(value: T)

  /** `value or default`, the Python idiom over an optional string: absent and empty both fall back. */
  function OrElse(value: Option<string>, default: Option<string>): Option<string> {
    if value.Some? && value.value != "" then value else default
  }

  /** Python truthiness of an optional string. */
  predicate Truthy(value: Option<string>) {
    value.Some? && value.value != ""
  }

  predicate NoDuplicates<T(==)>(s: seq<T>) {
    forall i, j | 0 <= i < j < |s| :: s[i] != s[j]
  }
}

/** The Python string operations the validators use, each pinned down by its contract. */
module Strings {

  /** Index of the first character in `stops`, or the length when there is none. */
  function FirstOf(s: string, stops: set<char>): (n: nat)
    ensures n <= |s|
    ensures forall i | 0 <= i < n :: s[i] !in stops
    ensures n < |s| ==> s[n] in stops
  {
    if s == "" || s[0] in stops then 0 else 1 + FirstOf(s[1..], stops)
  }

  /** Index of the last occurrence of `c`, or -1 when there is none. */
  function LastOf(s: string, c: char): (n: int)
    ensures -1 <= n < |s|
    ensures forall i | n < i < |s| :: s[i] != c
    ensures n >= 0 ==> s[n] == c
  {
    if s == "" then -1
    else if s[|s| - 1] == c then |s| - 1
    else LastOf(s[..|s| - 1], c)
  }

  /** A prefix free of stops, followed by nothing or by a stop, is exactly what FirstOf delimits. */
  lemma FirstOfSplits(a: string, b: string, stops: set<char>)
    requires forall i | 0 <= i < |a| :: a[i] !in stops
    requires b == "" || b[0] in stops
    ensures FirstOf(a + b, stops) == |a|
  {
    var s := a + b;
    assert forall i | 0 <= i < |a| :: s[i] == a[i];
    assert b != "" ==> s[|a|] == b[0];
  }

  /** A suffix free of `c`, preceded by `c`, is exactly what LastOf delimits. */
  lemma {:induction false} LastOfSplits(a: string, c: char, b: string)
    requires forall i | 0 <= i < |b| :: b[i] != c
    ensures LastOf(a + [c] + b, c) == |a|
  {
    if b != "" {
      var init := b[..|b| - 1];
      assert (a + [c] + b)[..|a| + |b|] == a + [c] + init;
      LastOfSplits(a, c, init);
    }
  }

  predicate StartsWith(s: string, prefix: string) {
    |prefix| <= |s| && s[..|prefix|] == prefix
  }

  function LowerChar(c: char): char {
    if 'A' <= c <= 'Z' then (c as int + 32) as char else c
  }

  /** ASCII lower-casing. */
  function Lower(s: string): (r: string)
    ensures |r| == |s|
    ensures forall i | 0 <= i < |s| :: r[i] == LowerChar(s[i])
  {
    seq(|s|, i requires 0 <= i < |s| => LowerChar(s[i]))
  }
}
