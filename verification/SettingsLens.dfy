/** One owned settings key: how serialization.py writes it, how config_documents.py and models.py load it. */
module SettingsLens {
  import opened Common
  import opened Strings
  import opened Yaml

  datatype Kind = TextKind | FlagKind | NumberKind | OptionalText | BlankIsNone | TextsKind | OptionalTexts | AttrName
                | TableKind | IssuerKind | SecretKind | LooseTexts

  datatype Mode = Plainly | OmitWhenFalsy | OmitWhenNone | OmitAtDefault

  const SERVER_ROWS := [Host, Port, RateLimitEnabled, RateLimitTokenEndpoint]

  const OAUTH_ROWS := [
    Issuer, IssuerFromRequest, IssuerAllowlist, DeviceVerificationBaseUrl, IssuerFromProxyHeaders, Audience,
    TokenExpiryMinutes, RefreshTokenRotation, RequirePkce, LogosDir]

  const SAML_ROWS := [
    EntityId, SsoUrl, DefaultAcsUrl, SignResponses, ExportRoles, ExportGroups, RolesAttrName, GroupsAttrName,
    C14nAlgorithm, StrictBinding, WantAuthnRequestsSigned, SpCertificates]

  const OTHER_ROWS := [VerboseLogging, AuthorityPrefixes, AllowedIdentityClasses]

  /** OWNED_SETTINGS, in the table's order. */
  const OWNED_SETTINGS := SERVER_ROWS + OAUTH_ROWS + SAML_ROWS + OTHER_ROWS

  /** The keys apply_settings_document handles after the table. */
  const DEFAULTED_SETTINGS := [SecurityProfile, Mode, AutoLogin, TwoStep]

  predicate Owned(k: Key) { k in OWNED_SETTINGS || k in DEFAULTED_SETTINGS }

  /** The section a key lives in; None is the top level. */
  function Section(k: Key): Option<Key> {
    match k
    case Host => Some(Server) case Port => Some(Server) case RateLimitEnabled => Some(Server)
    case RateLimitTokenEndpoint => Some(Server)
    case Issuer => Some(OAuth) case IssuerFromRequest => Some(OAuth) case IssuerAllowlist => Some(OAuth)
    case DeviceVerificationBaseUrl => Some(OAuth) case IssuerFromProxyHeaders => Some(OAuth)
    case Audience => Some(OAuth)
    case TokenExpiryMinutes => Some(OAuth) case RefreshTokenRotation => Some(OAuth) case RequirePkce => Some(OAuth)
    case LogosDir => Some(OAuth) case Clients => Some(OAuth)
    case EntityId => Some(Saml) case SsoUrl => Some(Saml) case DefaultAcsUrl => Some(Saml)
    case SignResponses => Some(Saml) case ExportRoles => Some(Saml) case ExportGroups => Some(Saml)
    case RolesAttrName => Some(Saml) case GroupsAttrName => Some(Saml) case C14nAlgorithm => Some(Saml)
    case StrictBinding => Some(Saml) case WantAuthnRequestsSigned => Some(Saml) case SpCertificates => Some(Saml)
    case VerboseLogging => Some(Logging)
    case Mode => Some(Login) case AutoLogin => Some(Login) case TwoStep => Some(Login)
    case _ => None
  }

  function ModeOf(k: Key): Mode {
    match k
    case IssuerAllowlist => OmitWhenFalsy
    case DeviceVerificationBaseUrl => OmitWhenFalsy
    case LogosDir => OmitWhenFalsy
    case RolesAttrName => OmitWhenFalsy
    case GroupsAttrName => OmitWhenFalsy
    case SpCertificates => OmitWhenFalsy
    case AllowedIdentityClasses => OmitWhenFalsy
    case EntityId => OmitWhenNone
    case SsoUrl => OmitWhenNone
    case SecurityProfile => OmitAtDefault
    case Mode => OmitAtDefault
    case AutoLogin => OmitAtDefault
    case TwoStep => OmitAtDefault
    case _ => Plainly
  }

  /** The table's falsy stand-in. */
  function EmptyOf(k: Key): Value {
    match k
    case IssuerAllowlist => Texts([])
    case SpCertificates => Texts([])
    case AllowedIdentityClasses => Texts([])
    case DeviceVerificationBaseUrl => Text("")
    case LogosDir => Text("")
    case RolesAttrName => Text("")
    case GroupsAttrName => Text("")
    case _ => NoValue
  }

  /** Settings keys and the keys of a client entry. */
  function KindOf(k: Key): Kind {
    match k
    case Port => NumberKind
    case TokenExpiryMinutes => NumberKind
    case Issuer => IssuerKind
    case IssuerAllowlist => OptionalTexts
    case SpCertificates => OptionalTexts
    case AllowedIdentityClasses => TextsKind
    case DeviceVerificationBaseUrl => OptionalText
    case LogosDir => OptionalText
    case EntityId => BlankIsNone
    case SsoUrl => BlankIsNone
    case RolesAttrName => AttrName
    case GroupsAttrName => AttrName
    case AuthorityPrefixes => TableKind
    case Host => TextKind
    case RateLimitTokenEndpoint => TextKind
    case Audience => TextKind
    case DefaultAcsUrl => TextKind
    case C14nAlgorithm => TextKind
    case SecurityProfile => TextKind
    case Mode => TextKind
    case ClientId => TextKind
    case ClientSecret => SecretKind
    case TokenEndpointAuthMethod => TextKind
    case Layout => TextKind
    case Description => TextKind
    case BackgroundColor => OptionalText
    case HeaderColor => OptionalText
    case FooterColor => OptionalText
    case AdditionalAudiences => LooseTexts
    case RedirectUris => LooseTexts
    case AllowedScopes => LooseTexts
    case AllowedResources => LooseTexts
    case _ => FlagKind
  }

  function DefaultOf(k: Key): Value {
    match k
    case Host => Text("127.0.0.1")
    case Port => Number(8000)
    case RateLimitTokenEndpoint => Text("10/minute")
    case Issuer => Text("http://localhost:8000")
    case IssuerAllowlist => Texts([])
    case DeviceVerificationBaseUrl => NoValue
    case Audience => Text("default")
    case TokenExpiryMinutes => Number(60)
    case LogosDir => NoValue
    case EntityId => NoValue
    case SsoUrl => NoValue
    case DefaultAcsUrl => Text("http://localhost:8080/login/saml2/sso/samlIdp")
    case SignResponses => Flag(true)
    case RolesAttrName => Text("roles")
    case GroupsAttrName => Text("groups")
    case C14nAlgorithm => Text("exc_c14n")
    case SpCertificates => Texts([])
    case VerboseLogging => Flag(true)
    case AuthorityPrefixes => Table(map[])
    case AllowedIdentityClasses => Texts([])
    case SecurityProfile => Text("dev")
    case Mode => Text("password")
    case ClientId => Text("")
    case ClientSecret => NoValue
    case TokenEndpointAuthMethod => Text("client_secret_basic")
    case Layout => Text("vertical")
    case Description => Text("")
    case BackgroundColor => NoValue
    case HeaderColor => NoValue
    case FooterColor => NoValue
    case ShowClientId => Flag(true)
    case AdditionalAudiences => Texts([])
    case RedirectUris => Texts([])
    case AllowedScopes => Texts([])
    case AllowedResources => Texts([])
    case _ => Flag(false)
  }

  // ---------------------------------------------------------------- loading

  /** What the settings validators refuse (ranges, notations, enumerations) is a parameter. */
  type Validator = (Key, Value) -> bool

  predicate AllStrings(items: seq<Yaml>) { forall i | 0 <= i < |items| :: items[i].Str? }

  function StringsOf(items: seq<Yaml>): seq<string>
    requires AllStrings(items)
  {
    seq(|items|, i requires 0 <= i < |items| => items[i].s)
  }

  predicate IsTable(entries: map<Key, Yaml>) { forall k | k in entries :: k.Other? && entries[k].Str? }

  function TableOf(entries: map<Key, Yaml>): map<string, string>
    requires IsTable(entries)
  {
    map k: Key | k in entries :: k.name := entries[k].s
  }

  function TrimSlashes(s: string): string {
    if s != "" && s[|s| - 1] == '/' then TrimSlashes(s[..|s| - 1]) else s
  }

  function AttrNameOf(s: string, default: Value): Value { if Strip(s) == "" then default else Text(Strip(s)) }

  /** The value of an expanded node, or None when the loader refuses it. */
  function Coerced(kind: Kind, default: Value, y: Yaml): Option<Value> {
    match kind
    case TextKind => if y.Str? then Some(Text(y.s)) else None
    case IssuerKind =>
      if y.Str? && (StartsWith(y.s, "http://") || StartsWith(y.s, "https://")) then Some(Text(TrimSlashes(y.s)))
      else None
    case FlagKind =>
      if y == Num(0) then Some(Flag(false))
      else if y == Num(1) then Some(Flag(true))
      else if y.Str? && ReadFlag(y.s).Some? then Some(Flag(ReadFlag(y.s).value))
      else None
    case NumberKind =>
      if y.Num? then Some(Number(y.n))
      else if y.Str? && ParseInt(y.s).Some? then Some(Number(ParseInt(y.s).value))
      else None
    case OptionalText => if y.Null? then Some(NoValue) else if y.Str? then Some(Text(y.s)) else None
    case BlankIsNone =>
      if y.Null? || y == Str("") then Some(NoValue) else if y.Str? then Some(Text(y.s)) else None
    case TextsKind => if y.List? && AllStrings(y.items) then Some(Texts(StringsOf(y.items))) else None
    case OptionalTexts =>
      if y.Null? then Some(Texts([]))
      else if y.List? && AllStrings(y.items) then Some(Texts(StringsOf(y.items)))
      else None
    case AttrName =>
      if y.Null? then Some(default) else if y.Str? then Some(AttrNameOf(y.s, default)) else None
    case TableKind => if y.Map? && IsTable(y.entries) then Some(Table(TableOf(y.entries))) else None
    case SecretKind => if y.Str? then Some(if y.s == "" then NoValue else Text(y.s)) else None
    case LooseTexts =>
      if y.Null? || y == Str("") then Some(Texts([]))
      else if y.Str? then Some(Texts([y.s]))
      else if y.List? && AllStrings(y.items) then Some(Texts(NonBlanks(StringsOf(y.items))))
      else None
  }

  function NonBlanks(texts: seq<string>): seq<string> {
    if texts == [] then []
    else (if texts[0] != "" then [texts[0]] else []) + NonBlanks(texts[1..])
  }

  function LoadKey(env: Environment, accepts: Validator, k: Key, raw: Option<Yaml>): Option<Value> {
    if raw.None? then Some(DefaultOf(k))
    else
      var v := Coerced(KindOf(k), DefaultOf(k), Expand(env, raw.value));
      if v.Some? && accepts(k, v.value) then v else None
  }

  /** A value the settings object can hold: the validators leave it as it is. */
  predicate Canonical(accepts: Validator, k: Key, v: Value) {
    accepts(k, v)
    && if KindOf(k).SecretKind? then v.NoValue? || (v.Text? && v.s != "")
       else Coerced(KindOf(k), DefaultOf(k), Encode(v)) == Some(v)
  }

  // ---------------------------------------------------------------- writing

  /** What apply_settings_document makes of one key. */
  function Written(env: Environment, k: Key, raw: Option<Yaml>, v: Value): Option<Yaml> {
    match ModeOf(k)
    case Plainly => Merged(env, raw, v, Some(v))
    case OmitWhenFalsy => Merged(env, raw, if IsTruthy(v) then v else EmptyOf(k), if IsTruthy(v) then Some(v) else None)
    case OmitWhenNone => if v.NoValue? then None else Merged(env, raw, v, Some(v))
    case OmitAtDefault =>
      if IsUnchanged(env, if raw.Some? then raw.value else Encode(DefaultOf(k)), v) then raw
      else if v != DefaultOf(k) then Some(Encode(v))
      else None
  }

  /** What the form writer, _mutate_settings_section, makes of a provided value. */
  function Submitted(env: Environment, k: Key, raw: Option<Yaml>, v: Value): Option<Yaml> {
    if v.NoValue? then raw
    else
      var kept := ModeOf(k).Plainly? || IsTruthy(v);
      Merged(env, raw, if kept then v else EmptyOf(k), if kept then Some(v) else None)
  }

  /** Blank values of an omit-when-falsy key are one value: absent, null and empty. */
  predicate Same(k: Key, a: Value, b: Value) {
    a == b || (ModeOf(k).OmitWhenFalsy? && !IsTruthy(a) && !IsTruthy(b))
  }

  /** False is saved over a string the loader reads as true and the writer does not. */
  predicate Misread(env: Environment, k: Key, raw: Option<Yaml>, v: Value) {
    KindOf(k).FlagKind? && v == Flag(false) && raw.Some?
    && Expand(env, raw.value).Str? && ReadsTrueOnly(Expand(env, raw.value).s)
  }

  predicate Loads(env: Environment, accepts: Validator, k: Key, raw: Option<Yaml>) {
    LoadKey(env, accepts, k, raw).Some?
  }

  // ---------------------------------------------------------------- write, then load

  /** What counts as unchanged loads as the value, except where the readings of a boolean differ. */
  lemma UnchangedLoads(env: Environment, accepts: Validator, k: Key, y: Yaml, v: Value)
    requires Canonical(accepts, k, v) && IsUnchanged(env, y, v) && Loads(env, accepts, k, Some(y))
    ensures LoadKey(env, accepts, k, Some(y)) == Some(v) <==> !Misread(env, k, Some(y), v)
  {
    var e := Expand(env, y);
    hide Strip, SaysTrue, ReadFlag, ReadsTrueOnly, ParseInt, Expand, TrimSlashes;
    if e.Str? && KindOf(k).FlagKind? {
      ReadingsDiffer(e.s);
    }
  }

  lemma WrittenLoads(env: Environment, accepts: Validator, k: Key, v: Value)
    requires Canonical(accepts, k, v) && Plain(env, v) && (KindOf(k).SecretKind? ==> !v.NoValue?)
    ensures LoadKey(env, accepts, k, Some(Encode(v))) == Some(v)
  {
    if KindOf(k).SecretKind? {
      return;
    }
    hide Encode, Expand, Coerced;
  }

  lemma MisreadIsUnchanged(env: Environment, k: Key, raw: Option<Yaml>, v: Value)
    requires Misread(env, k, raw, v)
    ensures raw.Some? && IsUnchanged(env, raw.value, v)
  {
    var s := Expand(env, raw.value).s;
    assert Lower(s) == "t" || Lower(s) == "y";
    FlagWordsAreSolid(s);
  }

  /** A merge that writes a changed value, or drops the key when the value is the default. */
  lemma MergedLoads(env: Environment, accepts: Validator, k: Key, raw: Option<Yaml>, v: Value, write: Option<Value>)
    requires Canonical(accepts, k, v) && Plain(env, v) && Loads(env, accepts, k, raw)
    requires write == Some(v) || (write == None && v == DefaultOf(k))
    requires raw.None? && v.NoValue? ==> DefaultOf(k) == v
    requires KindOf(k).SecretKind? && write.Some? ==> !v.NoValue?
    ensures var w := Merged(env, raw, v, write);
            Loads(env, accepts, k, w) && (LoadKey(env, accepts, k, w) == Some(v) <==> !Misread(env, k, raw, v))
  {
    NothingWritten(env, accepts, k);
    if Misread(env, k, raw, v) {
      MisreadIsUnchanged(env, k, raw, v);
    }
    hide Coerced, LoadKey, Misread, Canonical, Plain;
    if IsUnchanged(env, GetOrNull(raw), v) {
      if raw.Some? {
        UnchangedLoads(env, accepts, k, raw.value, v);
      } else {
        assert v.NoValue? by {
          hide *;
          NullIsNoValue(env, v);
        }
        NoneIsNoMisread(env, k, v);
      }
    } else {
      if write.Some? {
        WrittenLoads(env, accepts, k, v);
      }
    }
  }

  lemma NullIsNoValue(env: Environment, v: Value)
    requires IsUnchanged(env, Null, v)
    ensures v.NoValue?
  {
  }

  lemma NoneIsNoMisread(env: Environment, k: Key, v: Value)
    ensures !Misread(env, k, None, v)
  {
  }

  // ---------------------------------------------------------------- what the tables say of a key

  /** Not one of the two kinds only client entries use. */
  predicate OfSettings(k: Key) { !KindOf(k).SecretKind? && !KindOf(k).LooseTexts? }

  /** The keys that are no row of the table although they have a kind or a mode of their own. */
  predicate NoRow(k: Key) {
    k.SecurityProfile? || k.Mode? || k.AutoLogin? || k.TwoStep? || k.Clients? || k.Other?
    || k.Server? || k.OAuth? || k.Saml? || k.Logging? || k.Login?
    || k.ClientSecret? || k.BackgroundColor? || k.HeaderColor? || k.FooterColor?
    || k.AdditionalAudiences? || k.RedirectUris? || k.AllowedScopes? || k.AllowedResources?
  }

  lemma ServerRows(k: Key)
    requires k in SERVER_ROWS || k in OTHER_ROWS
    ensures !NoRow(k)
  {
  }

  lemma OAuthRows(k: Key)
    requires k in OAUTH_ROWS
    ensures !NoRow(k)
  {
  }

  lemma SamlRows(k: Key)
    requires k in SAML_ROWS
    ensures !NoRow(k)
  {
  }

  lemma RowsAreRows(k: Key)
    requires k in OWNED_SETTINGS
    ensures !NoRow(k)
  {
    hide NoRow;
    if k in OAUTH_ROWS {
      OAuthRows(k);
    } else if k in SAML_ROWS {
      SamlRows(k);
    } else {
      ServerRows(k);
    }
  }

  lemma DefaultedRows(k: Key)
    requires k in DEFAULTED_SETTINGS
    ensures k == SecurityProfile || k == Mode || k == AutoLogin || k == TwoStep
  {
  }

  lemma ModesByKey(k: Key)
    ensures ModeOf(k).OmitAtDefault? <==> k.SecurityProfile? || k.Mode? || k.AutoLogin? || k.TwoStep?
    ensures ModeOf(k).OmitWhenNone? <==> k.EntityId? || k.SsoUrl?
    ensures ModeOf(k).OmitWhenFalsy? <==>
              k.IssuerAllowlist? || k.DeviceVerificationBaseUrl? || k.LogosDir? || k.RolesAttrName?
              || k.GroupsAttrName? || k.SpCertificates? || k.AllowedIdentityClasses?
  {
  }

  lemma KindsByKey(k: Key)
    ensures KindOf(k).OptionalText? <==>
              k.DeviceVerificationBaseUrl? || k.LogosDir? || k.BackgroundColor? || k.HeaderColor? || k.FooterColor?
    ensures KindOf(k).BlankIsNone? <==> k.EntityId? || k.SsoUrl?
    ensures KindOf(k).AttrName? <==> k.RolesAttrName? || k.GroupsAttrName?
    ensures KindOf(k).OptionalTexts? <==> k.IssuerAllowlist? || k.SpCertificates?
    ensures KindOf(k).TextsKind? <==> k.AllowedIdentityClasses?
    ensures KindOf(k).SecretKind? <==> k.ClientSecret?
    ensures KindOf(k).LooseTexts? <==>
              k.AdditionalAudiences? || k.RedirectUris? || k.AllowedScopes? || k.AllowedResources?
    ensures k.SecurityProfile? || k.Mode? ==> KindOf(k).TextKind?
    ensures k.AutoLogin? || k.TwoStep? ==> KindOf(k).FlagKind?
  {
  }

  lemma TableModes(k: Key)
    requires k in OWNED_SETTINGS
    ensures !ModeOf(k).OmitAtDefault? && OfSettings(k)
    ensures KindOf(k).FlagKind? ==> ModeOf(k).Plainly?
    ensures ModeOf(k).Plainly? ==> !KindOf(k).OptionalText? && !KindOf(k).BlankIsNone?
    ensures ModeOf(k).OmitWhenNone? ==> KindOf(k).BlankIsNone?
    ensures KindOf(k).OptionalText? ==> ModeOf(k).OmitWhenFalsy?
    ensures KindOf(k).BlankIsNone? ==> ModeOf(k).OmitWhenNone?
  {
    RowsAreRows(k);
    ModesByKey(k);
    KindsByKey(k);
    hide ModeOf, KindOf, Section;
  }

  lemma DefaultedModes(k: Key)
    requires k in DEFAULTED_SETTINGS
    ensures ModeOf(k).OmitAtDefault? && (KindOf(k).TextKind? || KindOf(k).FlagKind?)
  {
    DefaultedRows(k);
    ModesByKey(k);
    KindsByKey(k);
    hide ModeOf, KindOf, Section;
  }

  lemma BlankIsNoneDefault(k: Key)
    requires KindOf(k).BlankIsNone?
    ensures DefaultOf(k) == NoValue
  {
    KindsByKey(k);
    hide KindOf;
  }

  lemma ModesOfKeys(k: Key)
    requires Owned(k)
    ensures OfSettings(k)
    ensures ModeOf(k).OmitAtDefault? <==> k in DEFAULTED_SETTINGS
    ensures KindOf(k).FlagKind? ==> ModeOf(k).Plainly? || ModeOf(k).OmitAtDefault?
    ensures ModeOf(k).Plainly? ==> !KindOf(k).OptionalText? && !KindOf(k).BlankIsNone?
    ensures ModeOf(k).OmitWhenNone? ==> KindOf(k).BlankIsNone? && DefaultOf(k) == NoValue
    ensures KindOf(k).OptionalText? ==> ModeOf(k).OmitWhenFalsy?
    ensures KindOf(k).BlankIsNone? ==> ModeOf(k).OmitWhenNone?
  {
    hide KindOf, ModeOf, DefaultOf;
    if k in DEFAULTED_SETTINGS {
      DefaultedModes(k);
    } else {
      TableModes(k);
    }
    if KindOf(k).BlankIsNone? {
      BlankIsNoneDefault(k);
    }
  }

  // ---------------------------------------------------------------- omitted values

  lemma FalsyDefault(k: Key)
    requires ModeOf(k).OmitWhenFalsy? && !KindOf(k).AttrName?
    ensures !IsTruthy(DefaultOf(k)) && !IsTruthy(EmptyOf(k)) && EmptyOf(k) != NoValue
  {
    ModesByKey(k);
    KindsByKey(k);
    hide ModeOf, KindOf;
  }

  lemma AttrNamesAreTruthy(accepts: Validator, k: Key, v: Value)
    requires KindOf(k).AttrName? && Canonical(accepts, k, v)
    ensures IsTruthy(v)
  {
    AttrDefaultsAreSolid(k);
    hide Strip, KindOf, DefaultOf;
  }

  /** An empty text or list loads as a falsy value. */
  lemma EmptyLoads(env: Environment, accepts: Validator, k: Key, y: Yaml)
    requires ModeOf(k).OmitWhenFalsy? && !KindOf(k).AttrName? && !IsTruthy(EmptyOf(k))
             && Loads(env, accepts, k, Some(y))
    requires Expand(env, y) == Encode(EmptyOf(k))
    ensures !IsTruthy(LoadKey(env, accepts, k, Some(y)).value)
  {
    ModesByKey(k);
    KindsByKey(k);
    hide Expand, Strip, ModeOf, KindOf, DefaultOf;
  }

  lemma UnchangedEmpty(env: Environment, y: Yaml, v: Value)
    requires !v.Flag? && !v.Number?
    ensures IsUnchanged(env, y, v) <==> Expand(env, y) == Encode(v)
  {
    hide Expand, Encode;
  }

  lemma FalsyLoads(env: Environment, accepts: Validator, k: Key, raw: Option<Yaml>, v: Value)
    requires ModeOf(k).OmitWhenFalsy? && Canonical(accepts, k, v) && !IsTruthy(v) && Loads(env, accepts, k, raw)
    ensures var w := Written(env, k, raw, v); Loads(env, accepts, k, w) && !IsTruthy(LoadKey(env, accepts, k, w).value)
  {
    assert !KindOf(k).AttrName? by {
      if KindOf(k).AttrName? {
        AttrNamesAreTruthy(accepts, k, v);
      }
    }
    FalsyDefault(k);
    NothingWritten(env, accepts, k);
    EmptyKinds(k);
    UnchangedEmpty(env, GetOrNull(raw), EmptyOf(k));
    hide IsUnchanged, Encode, Expand, EmptyOf, DefaultOf, LoadKey, KindOf, ModeOf, IsTruthy;
    if raw.Some? && IsUnchanged(env, raw.value, EmptyOf(k)) {
      EmptyLoads(env, accepts, k, raw.value);
    }
  }

  lemma EmptyKinds(k: Key)
    ensures !EmptyOf(k).Flag? && !EmptyOf(k).Number?
  {
  }

  lemma TextDefaults(k: Key)
    requires k == SecurityProfile || k == Mode
    ensures KindOf(k).TextKind? && (DefaultOf(k) == Text("dev") || DefaultOf(k) == Text("password"))
  {
  }

  lemma FlagDefaults(k: Key)
    requires k == AutoLogin || k == TwoStep
    ensures KindOf(k).FlagKind? && DefaultOf(k) == Flag(false)
  {
  }

  lemma PlainTextDefault(env: Environment, d: string)
    requires d == "dev" || d == "password"
    ensures Expand(env, Str(d)) == Str(d)
  {
    assert forall i | 0 <= i < |d| :: d[i] != '$';
    NoPlaceholder(env, d);
    hide ExpandString;
  }

  /** The expansion of the default equals the value only when they are the same. */
  lemma UnchangedDefault(env: Environment, accepts: Validator, k: Key, v: Value)
    requires k in DEFAULTED_SETTINGS && Canonical(accepts, k, v)
    ensures IsUnchanged(env, Encode(DefaultOf(k)), v) <==> v == DefaultOf(k)
  {
    DefaultedRows(k);
    if k == SecurityProfile || k == Mode {
      TextDefaults(k);
      PlainTextDefault(env, DefaultOf(k).s);
      CanonicalText(accepts, k, v);
    } else {
      FlagDefaults(k);
      CanonicalFlag(accepts, k, v);
    }
    hide KindOf, DefaultOf, Canonical, ExpandString;
  }

  lemma CanonicalText(accepts: Validator, k: Key, v: Value)
    requires KindOf(k).TextKind? && Canonical(accepts, k, v)
    ensures v.Text?
  {
    hide KindOf, DefaultOf;
  }

  lemma CanonicalFlag(accepts: Validator, k: Key, v: Value)
    requires KindOf(k).FlagKind? && Canonical(accepts, k, v)
    ensures v.Flag?
  {
    hide KindOf, DefaultOf, ReadFlag;
  }

  lemma AtDefaultLoads(env: Environment, accepts: Validator, k: Key, raw: Option<Yaml>, v: Value)
    requires k in DEFAULTED_SETTINGS && ModeOf(k).OmitAtDefault?
    requires Canonical(accepts, k, v) && Plain(env, v) && Loads(env, accepts, k, raw)
    ensures var w := Written(env, k, raw, v);
            Loads(env, accepts, k, w) && (LoadKey(env, accepts, k, w) == Some(v) <==> !Misread(env, k, raw, v))
  {
    UnchangedDefault(env, accepts, k, v);
    WrittenLoads(env, accepts, k, v);
    if raw.None? {
      assert !Misread(env, k, raw, v);
    } else {
      if Misread(env, k, raw, v) {
        MisreadIsUnchanged(env, k, raw, v);
      }
      if IsUnchanged(env, raw.value, v) {
        UnchangedLoads(env, accepts, k, raw.value, v);
      }
    }
    hide Coerced, Canonical, Plain, Expand, IsUnchanged, Misread, Encode, KindOf, ModeOf, DefaultOf;
  }

  /** Write then load returns what was saved, over every raw text the loader accepts, exactly unless a boolean is
      misread. */
  lemma WriteThenLoad(env: Environment, accepts: Validator, k: Key, raw: Option<Yaml>, v: Value)
    requires Owned(k) && Canonical(accepts, k, v) && Plain(env, v) && Loads(env, accepts, k, raw)
    ensures var w := Written(env, k, raw, v);
            && Loads(env, accepts, k, w)
            && (Same(k, LoadKey(env, accepts, k, w).value, v) <==> !Misread(env, k, raw, v))
  {
    ModesOfKeys(k);
    hide *;
    if ModeOf(k).Plainly? {
      PlainlyLoads(env, accepts, k, raw, v);
    } else if ModeOf(k).OmitAtDefault? {
      AtDefaultSame(env, accepts, k, raw, v);
    } else {
      OmittingLoads(env, accepts, k, raw, v);
    }
  }

  lemma PlainlyLoads(env: Environment, accepts: Validator, k: Key, raw: Option<Yaml>, v: Value)
    requires ModeOf(k).Plainly? && OfSettings(k) && !KindOf(k).OptionalText? && !KindOf(k).BlankIsNone?
    requires Canonical(accepts, k, v) && Plain(env, v) && Loads(env, accepts, k, raw)
    ensures var w := Written(env, k, raw, v);
            Loads(env, accepts, k, w) && (Same(k, LoadKey(env, accepts, k, w).value, v) <==> !Misread(env, k, raw, v))
  {
    if KindOf(k).AttrName? {
      AttrDefaultsAreSolid(k);
    }
    NotNone(accepts, k, v);
    MergedLoads(env, accepts, k, raw, v, Some(v));
    hide Coerced, Expand, IsUnchanged, Encode, Misread, LoadKey, Canonical, KindOf, DefaultOf, Merged;
  }

  lemma AtDefaultSame(env: Environment, accepts: Validator, k: Key, raw: Option<Yaml>, v: Value)
    requires k in DEFAULTED_SETTINGS && ModeOf(k).OmitAtDefault?
    requires Canonical(accepts, k, v) && Plain(env, v) && Loads(env, accepts, k, raw)
    ensures var w := Written(env, k, raw, v);
            Loads(env, accepts, k, w) && (Same(k, LoadKey(env, accepts, k, w).value, v) <==> !Misread(env, k, raw, v))
  {
    AtDefaultLoads(env, accepts, k, raw, v);
    hide Coerced, Expand, IsUnchanged, Encode, Misread, LoadKey, Canonical, KindOf, DefaultOf, Written;
  }

  lemma OmittingLoads(env: Environment, accepts: Validator, k: Key, raw: Option<Yaml>, v: Value)
    requires ModeOf(k).OmitWhenFalsy? || (ModeOf(k).OmitWhenNone? && DefaultOf(k) == NoValue)
    requires !KindOf(k).FlagKind? && OfSettings(k)
    requires Canonical(accepts, k, v) && Plain(env, v) && Loads(env, accepts, k, raw)
    ensures var w := Written(env, k, raw, v);
            Loads(env, accepts, k, w) && (Same(k, LoadKey(env, accepts, k, w).value, v) <==> !Misread(env, k, raw, v))
  {
    NotAFlag(env, k, raw, v);
    NothingWritten(env, accepts, k);
    if ModeOf(k).OmitWhenFalsy? && !IsTruthy(v) {
      FalsyLoads(env, accepts, k, raw, v);
    } else if !v.NoValue? {
      MergedLoads(env, accepts, k, raw, v, Some(v));
    }
    hide Coerced, Expand, IsUnchanged, Encode, Misread, LoadKey, Canonical, KindOf, DefaultOf, Merged, EmptyOf;
  }

  lemma NotNone(accepts: Validator, k: Key, v: Value)
    requires Canonical(accepts, k, v) && !KindOf(k).OptionalText? && !KindOf(k).BlankIsNone? && OfSettings(k)
    requires KindOf(k).AttrName? ==> DefaultOf(k) != NoValue
    ensures !v.NoValue?
  {
  }

  lemma NotAFlag(env: Environment, k: Key, raw: Option<Yaml>, v: Value)
    requires !KindOf(k).FlagKind?
    ensures !Misread(env, k, raw, v)
  {
  }

  lemma NothingWritten(env: Environment, accepts: Validator, k: Key)
    ensures LoadKey(env, accepts, k, None) == Some(DefaultOf(k))
  {
  }

  /** The counterexample: with `auto_login: t` in the file the loader says true; saving false leaves the file as it
      is. */
  lemma SavingFalseOverT(env: Environment, accepts: Validator)
    requires accepts(AutoLogin, Flag(true))
    ensures Written(env, AutoLogin, Some(Str("t")), Flag(false)) == Some(Str("t"))
    ensures LoadKey(env, accepts, AutoLogin, Written(env, AutoLogin, Some(Str("t")), Flag(false))) == Some(Flag(true))
  {
    NoPlaceholder(env, "t");
    assert Expand(env, Str("t")) == Str("t");
    assert Lower("t") == "t";
    FlagWordsAreSolid("t");
  }

  // ---------------------------------------------------------------- idempotent, minimal, and the same for both writers

  /** Saving twice is saving once. */
  lemma WriteTwice(env: Environment, k: Key, raw: Option<Yaml>, v: Value)
    ensures var once := Written(env, k, raw, v); Written(env, k, once, v) == once
  {
    hide IsUnchanged, Encode;
  }

  /** The loader changed the value it read: trailing slashes, surrounding blanks, a null, or a "t" for true. */
  predicate RenormalisedNode(kind: Kind, e: Yaml) {
    match kind
    case FlagKind => e.Str? && ReadsTrueOnly(e.s)
    case IssuerKind => e.Str? && TrimSlashes(e.s) != e.s
    case AttrName => e.Null? || (e.Str? && (Strip(e.s) != e.s || e.s == ""))
    case BlankIsNone => e.Null? || e == Str("")
    case OptionalText => e.Null?
    case OptionalTexts => e.Null?
    case _ => false
  }

  predicate Renormalised(env: Environment, k: Key, raw: Yaml) { RenormalisedNode(KindOf(k), Expand(env, raw)) }

  lemma EncodeStrings(items: seq<Yaml>)
    requires AllStrings(items)
    ensures Encode(Texts(StringsOf(items))) == List(items)
  {
    assert Encode(Texts(StringsOf(items))).items == items;
  }

  lemma EncodeTable(entries: map<Key, Yaml>)
    requires IsTable(entries)
    ensures Encode(Table(TableOf(entries))) == Map(entries)
  {
    var t := TableOf(entries);
    forall k | k in entries ensures k.name in t && Str(t[k.name]) == entries[k] {
      assert k == Other(k.name);
    }
    forall name | name in t ensures Other(name) in entries && Str(t[name]) == entries[Other(name)] {
      var k :| k in entries && k.name == name;
      assert k == Other(name);
    }
    var m := Encode(Table(t)).entries;
    forall k | k in entries ensures k in m && m[k] == entries[k] {
      assert k == Other(k.name) && k.name in t;
    }
    assert m == entries;
  }

  predicate SolidText(v: Value) { v.Text? && v.s != "" && Strip(v.s) == v.s }

  predicate SolidDefault(k: Key) { SolidText(DefaultOf(k)) }

  lemma ListUnchanged(kind: Kind, default: Value, items: seq<Yaml>)
    requires Coerced(kind, default, List(items)).Some? && !kind.SecretKind? && !kind.LooseTexts?
    ensures SameNode(List(items), Coerced(kind, default, List(items)).value) && !RenormalisedNode(kind, List(items))
  {
    hide Encode, StringsOf;
    EncodeStrings(items);
  }

  lemma MapUnchanged(kind: Kind, default: Value, entries: map<Key, Yaml>)
    requires Coerced(kind, default, Map(entries)).Some?
    ensures SameNode(Map(entries), Coerced(kind, default, Map(entries)).value) && !RenormalisedNode(kind, Map(entries))
  {
    hide Encode, TableOf;
    EncodeTable(entries);
  }

  lemma FlagTextUnchanged(default: Value, s: string)
    requires Coerced(FlagKind, default, Str(s)).Some?
    ensures SameNode(Str(s), Coerced(FlagKind, default, Str(s)).value) <==> !RenormalisedNode(FlagKind, Str(s))
  {
    ReadingsDiffer(s);
    hide SaysTrue, ReadFlag, ReadsTrueOnly;
  }

  lemma TextUnchanged(kind: Kind, default: Value, s: string)
    requires Coerced(kind, default, Str(s)).Some? && !kind.SecretKind? && !kind.LooseTexts? && !kind.FlagKind?
    requires kind.AttrName? ==> SolidText(default)
    ensures SameNode(Str(s), Coerced(kind, default, Str(s)).value) <==> !RenormalisedNode(kind, Str(s))
  {
    hide Strip, ParseInt, TrimSlashes, ReadFlag, SaysTrue;
  }

  lemma ScalarUnchanged(kind: Kind, default: Value, e: Yaml)
    requires Coerced(kind, default, e).Some? && !kind.SecretKind? && !kind.LooseTexts? && (e.Null? || e.Num?)
    requires kind.AttrName? ==> SolidText(default)
    ensures SameNode(e, Coerced(kind, default, e).value)
            <==> !RenormalisedNode(kind, e) || ((kind.BlankIsNone? || kind.OptionalText?) && e.Null?)
  {
    hide Strip, ParseInt, TrimSlashes, ReadFlag, SaysTrue;
  }

  /** A loaded value counts as unchanged exactly when the loader did not have to change it. */
  lemma UnchangedExactly(kind: Kind, default: Value, e: Yaml)
    requires Coerced(kind, default, e).Some? && !kind.SecretKind? && !kind.LooseTexts?
    requires kind.AttrName? ==> SolidText(default)
    ensures SameNode(e, Coerced(kind, default, e).value)
            <==> !RenormalisedNode(kind, e) || ((kind.BlankIsNone? || kind.OptionalText?) && e.Null?)
  {
    match e
    case List(items) => ListUnchanged(kind, default, items);
    case Map(entries) => MapUnchanged(kind, default, entries);
    case Str(s) =>
      if kind.FlagKind? {
        FlagTextUnchanged(default, s);
      } else {
        TextUnchanged(kind, default, s);
      }
    case _ => ScalarUnchanged(kind, default, e);
    hide Coerced, SameNode, RenormalisedNode;
  }

  /** A value saved back as it was loaded keeps its text to the letter, placeholders included, exactly unless the
      loader had to change it. */
  lemma LoadedThenSavedIsVerbatim(env: Environment, accepts: Validator, k: Key, raw: Yaml)
    requires Owned(k) && Loads(env, accepts, k, Some(raw)) && Plain(env, LoadKey(env, accepts, k, Some(raw)).value)
    ensures Written(env, k, Some(raw), LoadKey(env, accepts, k, Some(raw)).value) == Some(raw)
            <==> !Renormalised(env, k, raw)
  {
    ModesOfKeys(k);
    var v := LoadKey(env, accepts, k, Some(raw)).value;
    hide *;
    if KindOf(k).AttrName? {
      AttrDefaultsAreSolid(k);
    }
    if ModeOf(k).OmitWhenFalsy? && !IsTruthy(v) {
      FalsyVerbatim(env, accepts, k, raw);
    } else {
      LoadedUnchanged(env, accepts, k, raw);
      OthersVerbatim(env, k, raw, v);
    }
  }

  lemma LoadedUnchanged(env: Environment, accepts: Validator, k: Key, raw: Yaml)
    requires Loads(env, accepts, k, Some(raw)) && OfSettings(k) && (KindOf(k).AttrName? ==> SolidDefault(k))
    ensures var v := LoadKey(env, accepts, k, Some(raw)).value;
            && (IsUnchanged(env, raw, v) <==>
                  !Renormalised(env, k, raw) || ((KindOf(k).BlankIsNone? || KindOf(k).OptionalText?) && v.NoValue?
                                                 && Expand(env, raw).Null?))
            && (v.NoValue? ==> KindOf(k).BlankIsNone? || KindOf(k).OptionalText?)
            && (v.NoValue? && KindOf(k).BlankIsNone? ==> Renormalised(env, k, raw))
            && (Expand(env, raw).Null? && KindOf(k).BlankIsNone? ==> v.NoValue?)
            && (Expand(env, raw).Null? && KindOf(k).OptionalText? ==> v.NoValue?)
  {
    UnchangedExactly(KindOf(k), DefaultOf(k), Expand(env, raw));
    if LoadKey(env, accepts, k, Some(raw)).value.NoValue? {
      NoValueKinds(env, accepts, k, raw);
    }
    hide Expand, RenormalisedNode, SameNode, KindOf, DefaultOf, Strip, ParseInt, ReadFlag, TrimSlashes, StringsOf,
        TableOf;
  }

  lemma OthersVerbatim(env: Environment, k: Key, raw: Yaml, v: Value)
    requires Plain(env, v) && (ModeOf(k).OmitWhenFalsy? ==> IsTruthy(v))
    requires IsUnchanged(env, raw, v) <==>
               !Renormalised(env, k, raw) || ((KindOf(k).BlankIsNone? || KindOf(k).OptionalText?) && v.NoValue?
                                              && Expand(env, raw).Null?)
    requires v.NoValue? ==> KindOf(k).BlankIsNone? || KindOf(k).OptionalText?
    requires v.NoValue? && KindOf(k).BlankIsNone? ==> Renormalised(env, k, raw)
    requires KindOf(k).OptionalText? ==> ModeOf(k).OmitWhenFalsy?
    requires KindOf(k).BlankIsNone? ==> ModeOf(k).OmitWhenNone?
    ensures Written(env, k, Some(raw), v) == Some(raw) <==> !Renormalised(env, k, raw)
  {
    if raw == Encode(v) {
      PlainIsUnchanged(env, raw, v);
    }
    assert v.NoValue? ==> !IsTruthy(v);
    hide IsUnchanged, Renormalised, Expand, Encode, KindOf, ModeOf, DefaultOf, EmptyOf, Plain, IsTruthy;
  }

  /** Writing a plain value changes the text unless it counted as unchanged. */
  lemma PlainIsUnchanged(env: Environment, raw: Yaml, v: Value)
    requires Plain(env, v) && raw == Encode(v)
    ensures IsUnchanged(env, raw, v)
  {
    hide Expand;
  }

  lemma NoValueKinds(env: Environment, accepts: Validator, k: Key, raw: Yaml)
    requires Loads(env, accepts, k, Some(raw)) && LoadKey(env, accepts, k, Some(raw)).value.NoValue? && OfSettings(k)
    requires KindOf(k).AttrName? ==> DefaultOf(k).Text?
    ensures KindOf(k).BlankIsNone? || KindOf(k).OptionalText?
    ensures KindOf(k).BlankIsNone? ==> Renormalised(env, k, raw)
  {
    hide Expand, Strip, ParseInt, ReadFlag, KindOf, DefaultOf;
  }

  lemma FalsyVerbatim(env: Environment, accepts: Validator, k: Key, raw: Yaml)
    requires ModeOf(k).OmitWhenFalsy? && Loads(env, accepts, k, Some(raw))
             && !IsTruthy(LoadKey(env, accepts, k, Some(raw)).value)
    ensures Written(env, k, Some(raw), LoadKey(env, accepts, k, Some(raw)).value) == Some(raw)
            <==> !Renormalised(env, k, raw)
  {
    ModesByKey(k);
    KindsByKey(k);
    if KindOf(k).AttrName? {
      AttrDefaultsAreSolid(k);
    }
    EmptyKinds(k);
    UnchangedEmpty(env, raw, EmptyOf(k));
    hide IsUnchanged, Expand, Strip, ParseInt, ReadFlag, KindOf, ModeOf, DefaultOf;
  }

  lemma AttrDefaultsAreSolid(k: Key)
    requires KindOf(k).AttrName?
    ensures SolidDefault(k)
  {
    StripOfSolid("roles");
    StripOfSolid("groups");
  }

  /** The form writer and the whole-document writer put down texts that load to the same value. */
  lemma WritersAgree(env: Environment, accepts: Validator, k: Key, raw: Option<Yaml>, v: Value)
    requires k in OWNED_SETTINGS && !v.NoValue? && Loads(env, accepts, k, raw)
    requires ModeOf(k).OmitWhenNone? ==> v.Text? && accepts(k, NoValue)
    ensures LoadKey(env, accepts, k, Submitted(env, k, raw, v)) == LoadKey(env, accepts, k, Written(env, k, raw, v))
  {
    TableModes(k);
    if ModeOf(k).OmitWhenNone? && v == Text("") {
      BlankIsNoneDefault(k);
      BlankSubmitted(env, accepts, k, raw);
    } else {
      hide LoadKey, IsUnchanged, Encode, Expand, KindOf, EmptyOf;
    }
  }

  lemma BlankSubmitted(env: Environment, accepts: Validator, k: Key, raw: Option<Yaml>)
    requires ModeOf(k).OmitWhenNone? && KindOf(k).BlankIsNone? && DefaultOf(k) == NoValue
    requires Loads(env, accepts, k, raw) && accepts(k, NoValue)
    ensures LoadKey(env, accepts, k, Submitted(env, k, raw, Text(""))) == Some(NoValue)
    ensures LoadKey(env, accepts, k, Written(env, k, raw, Text(""))) == Some(NoValue)
  {
    NoPlaceholder(env, "");
    assert Expand(env, Str("")) == Str("");
    assert EmptyOf(k) == NoValue;
  }
}
