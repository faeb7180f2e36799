/** A YAML document as nested maps, and the placeholder and comparison rules of serialization.py. */
module Yaml {
  import opened Common
  import opened Strings
  import opened Scope

  /** The keys this code manages are named; every other key is Other. */
  datatype Key =
    | Server | OAuth | Saml | Logging | Login
    | Host | Port | RateLimitEnabled | RateLimitTokenEndpoint
    | Issuer | IssuerFromRequest | IssuerAllowlist | DeviceVerificationBaseUrl | IssuerFromProxyHeaders | Audience
    | TokenExpiryMinutes | RefreshTokenRotation | RequirePkce | LogosDir | Clients
    | EntityId | SsoUrl | DefaultAcsUrl | SignResponses | ExportRoles | ExportGroups | RolesAttrName | GroupsAttrName
    | C14nAlgorithm | StrictBinding | WantAuthnRequestsSigned | SpCertificates
    | VerboseLogging
    | AuthorityPrefixes | AllowedIdentityClasses | SecurityProfile
    | Mode | AutoLogin | TwoStep
    | ClientId | ClientSecret | TokenEndpointAuthMethod | Layout | Description | BackgroundColor | HeaderColor
    | FooterColor | ShowClientId | ShowDescription | AdditionalAudiences | RedirectUris | AllowedScopes
    | AllowedResources
    | Other(name: string)

  /** A YAML boolean is the number Python compares it equal to: True == 1. */
  datatype Yaml =
    | Null
    | Num(n: int)
    | Str(s: string)
    | List(items: seq<Yaml>)
    | Map(entries: map<Key, Yaml>)

  /** A Python value about to be written. */
  datatype Value =
    | NoValue
    | Flag(b: bool)
    | Number(n: int)
    | Text(s: string)
    | Texts(texts: seq<string>)
    | Table(table: map<string, string>)

  predicate IsTruthy(v: Value) {
    match v
    case NoValue => false
    case Flag(b) => b
    case Number(n) => n != 0
    case Text(s) => s != ""
    case Texts(t) => t != []
    case Table(t) => t != map[]
  }

  function Encode(v: Value): Yaml {
    match v
    case NoValue => Null
    case Flag(b) => Num(if b then 1 else 0)
    case Number(n) => Num(n)
    case Text(s) => Str(s)
    case Texts(t) => List(seq(|t|, i requires 0 <= i < |t| => Str(t[i])))
    case Table(t) => Map(map k | k in TableKeys(t) && k.Other? && k.name in t :: Str(t[k.name]))
  }

  function TableKeys(t: map<string, string>): set<Key> { set name | name in t :: Other(name) }

  // ---------------------------------------------------------------- ${NAME} and ${NAME:default}

  type Environment = map<string, string>

  predicate NameStart(c: char) { 'A' <= c <= 'Z' || 'a' <= c <= 'z' || c == '_' }

  predicate NameChar(c: char) { NameStart(c) || '0' <= c <= '9' }

  function NameEnd(s: string): (n: nat)
    ensures n <= |s| && forall i | 0 <= i < n :: NameChar(s[i])
  {
    if s == "" || !NameChar(s[0]) then 0 else 1 + NameEnd(s[1..])
  }

  datatype Placeholder = Placeholder(name: string, default: Option<string>, length: nat)

  /** A placeholder at the very start of the string. */
  function PlaceholderAt(s: string): (p: Option<Placeholder>)
    ensures p.Some? ==> 3 <= p.value.length <= |s| && s[0] == '$' && s[1] == '{'
  {
    if |s| < 3 || s[0] != '$' || s[1] != '{' || !NameStart(s[2]) then None
    else
      var end := 2 + NameEnd(s[2..]);
      if end >= |s| then None
      else if s[end] == '}' then Some(Placeholder(s[2..end], None, end + 1))
      else if s[end] != ':' then None
      else
        var close := end + 1 + FirstOf(s[end + 1..], {'}'});
        if close >= |s| then None else Some(Placeholder(s[2..end], Some(s[end + 1..close]), close + 1))
  }

  function Substituted(env: Environment, p: Placeholder): string {
    if p.name in env then env[p.name] else if p.default.Some? then p.default.value else ""
  }

  function ExpandString(env: Environment, s: string): string
    decreases |s|
  {
    if s == "" then ""
    else
      var p := PlaceholderAt(s);
      if p.Some? then Substituted(env, p.value) + ExpandString(env, s[p.value.length..])
      else [s[0]] + ExpandString(env, s[1..])
  }

  /** A string without `${` is what it says in every environment. */
  lemma {:induction false} NoPlaceholder(env: Environment, s: string)
    requires forall i | 0 <= i < |s| - 1 :: !(s[i] == '$' && s[i + 1] == '{')
    ensures ExpandString(env, s) == s
  {
    if s != "" {
      NoPlaceholder(env, s[1..]);
    }
  }

  /** A value that is nothing but one placeholder is its variable, or the default, which may itself look like a
      placeholder's beginning: expansion is a single pass. */
  lemma LonePlaceholder(env: Environment, name: string, default: string)
    requires name != "" && NameStart(name[0]) && forall i | 0 <= i < |name| :: NameChar(name[i])
    requires '}' !in default
    ensures ExpandString(env, "${" + name + ":" + default + "}") == if name in env then env[name] else default
  {
    var s := "${" + name + ":" + default + "}";
    PlaceholderReads(name, default);
    hide PlaceholderAt;
    assert s[|s|..] == "";
  }

  lemma PlaceholderReads(name: string, default: string)
    requires name != "" && NameStart(name[0]) && forall i | 0 <= i < |name| :: NameChar(name[i])
    requires '}' !in default
    ensures var s := "${" + name + ":" + default + "}"; PlaceholderAt(s) == Some(Placeholder(name, Some(default), |s|))
  {
    var s := "${" + name + ":" + default + "}";
    NameEnds(name, ":" + default + "}");
    FirstOfSplits(default, "}", {'}'});
    hide NameEnd, FirstOf;
    PlaceholderPieces(name, default);
  }

  lemma PlaceholderPieces(name: string, default: string)
    requires name != ""
    ensures var s, n := "${" + name + ":" + default + "}", |name|;
            && |s| == n + |default| + 4 && s[0] == '$' && s[1] == '{' && s[2] == name[0]
            && s[2..] == name + (":" + default + "}") && s[2..2 + n] == name && s[2 + n] == ':'
            && s[3 + n..] == default + "}" && s[3 + n..3 + n + |default|] == default
  {
  }

  lemma {:induction false} NameEnds(name: string, rest: string)
    requires (forall i | 0 <= i < |name| :: NameChar(name[i])) && rest != "" && !NameChar(rest[0])
    ensures NameEnd(name + rest) == |name|
  {
    if name == "" {
      assert name + rest == rest;
    } else {
      assert (name + rest)[1..] == name[1..] + rest;
      NameEnds(name[1..], rest);
    }
  }

  /** expand_env_vars */
  function Expand(env: Environment, y: Yaml): Yaml {
    match y
    case Str(s) => Str(ExpandString(env, s))
    case List(items) => List(seq(|items|, i requires 0 <= i < |items| => Expand(env, items[i])))
    case Map(entries) => Map(map k | k in entries :: Expand(env, entries[k]))
    case _ => y
  }

  /** The value reads back as itself: no placeholder in it changes anything. */
  predicate Plain(env: Environment, v: Value) { Expand(env, Encode(v)) == Encode(v) }

  // ---------------------------------------------------------------- strings read as numbers and booleans

  function Strip(s: string): string
    decreases |s|
  {
    if s == "" then ""
    else if IsSpace(s[0]) then Strip(s[1..])
    else if IsSpace(s[|s| - 1]) then Strip(s[..|s| - 1])
    else s
  }

  predicate Digit(c: char) { '0' <= c <= '9' }

  /** Digits, with single underscores between them. */
  function Digits(s: string, value: nat): Option<nat>
    decreases |s|
  {
    if s == "" || !Digit(s[0]) then None
    else
      var value' := 10 * value + (s[0] as int - '0' as int);
      if |s| == 1 then Some(value')
      else if s[1] == '_' then Digits(s[2..], value')
      else Digits(s[1..], value')
  }

  /** int(s) */
  function ParseInt(s: string): Option<int> {
    var t := Strip(s);
    if t == "" then None
    else
      var magnitude := Digits(if t[0] == '-' || t[0] == '+' then t[1..] else t, 0);
      if magnitude.None? then None
      else
        var n: int := magnitude.value;
        Some(if t[0] == '-' then -n else n)
  }

  /** The writer's reading of a boolean string. */
  predicate SaysTrue(s: string) { Lower(Strip(s)) in ["true", "1", "yes", "on"] }

  /** The loader's reading of a boolean string. */
  function ReadFlag(s: string): Option<bool> {
    if Lower(s) in ["1", "on", "t", "true", "y", "yes"] then Some(true)
    else if Lower(s) in ["0", "off", "f", "false", "n", "no"] then Some(false)
    else None
  }

  /** An expanded node against the value to be written; a string is read as what the value is. */
  predicate SameNode(expanded: Yaml, v: Value) {
    if expanded.Str? && v.Flag? then SaysTrue(expanded.s) == v.b
    else if expanded.Str? && v.Number? then ParseInt(expanded.s) == Some(v.n)
    else expanded == Encode(v)
  }

  /** is_unchanged */
  predicate IsUnchanged(env: Environment, raw: Yaml, v: Value) { SameNode(Expand(env, raw), v) }

  /** Python's `mapping.get(key)`. */
  function GetOrNull(raw: Option<Yaml>): Yaml { if raw.Some? then raw.value else Null }

  /** Leave the raw value alone when nothing changed, otherwise write, or drop the key for None. */
  function Merged(env: Environment, raw: Option<Yaml>, compare: Value, write: Option<Value>): Option<Yaml> {
    if IsUnchanged(env, GetOrNull(raw), compare) then raw
    else if write.Some? then Some(Encode(write.value))
    else None
  }

  /** A merge repeated changes nothing more. */
  lemma MergedTwice(env: Environment, raw: Option<Yaml>, compare: Value, write: Option<Value>)
    ensures var once := Merged(env, raw, compare, write); Merged(env, once, compare, write) == once
  {
  }

  // ---------------------------------------------------------------- where the two readings of a boolean differ

  /** "t" and "y", in either case, unstripped. */
  predicate ReadsTrueOnly(s: string) { Lower(s) in ["t", "y"] }

  lemma StripOfSolid(s: string)
    requires s != "" && !IsSpace(s[0]) && !IsSpace(s[|s| - 1])
    ensures Strip(s) == s
  {
  }

  lemma LowerKeepsSpace(s: string, i: nat)
    requires i < |s| && ('a' <= Lower(s)[i] <= 'z' || '0' <= Lower(s)[i] <= '9')
    ensures !IsSpace(s[i])
  {
  }

  lemma FlagWordsAreSolid(s: string)
    requires ReadFlag(s).Some?
    ensures Strip(s) == s
  {
    var t := Lower(s);
    assert s != "" && (t[0] == '0' || t[0] == '1' || 'a' <= t[0] <= 'z');
    assert t[|t| - 1] == '0' || t[|t| - 1] == '1' || 'a' <= t[|t| - 1] <= 'z';
    LowerKeepsSpace(s, 0);
    LowerKeepsSpace(s, |s| - 1);
    StripOfSolid(s);
  }

  /** On a string the loader accepts, the writer reads the same boolean except for "t" and "y". */
  lemma ReadingsDiffer(s: string)
    requires ReadFlag(s).Some?
    ensures SaysTrue(s) == ReadFlag(s).value <==> !ReadsTrueOnly(s)
    ensures ReadsTrueOnly(s) ==> ReadFlag(s) == Some(true) && !SaysTrue(s)
  {
    FlagWordsAreSolid(s);
  }
}
