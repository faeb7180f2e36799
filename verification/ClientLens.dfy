/** The client list: client_to_yaml, merge_client_entry, merge_oauth_clients, save_client, and ClientEntry.to_client. */
module ClientLens {
  import opened Common
  import opened Yaml
  import opened SettingsLens

  type Entry = map<Key, Yaml>

  /** The keys of an entry, in the order merge_client_entry visits them. */
  const CLIENT_KEYS := [
    ClientId, ClientSecret, Description, BackgroundColor, HeaderColor, FooterColor, TokenEndpointAuthMethod, Layout,
    ShowClientId, ShowDescription, AdditionalAudiences, RedirectUris, AllowedScopes, AllowedResources]

  predicate IsClientKey(k: Key) {
    k.ClientId? || k.ClientSecret? || k.Description? || k.BackgroundColor? || k.HeaderColor? || k.FooterColor?
    || k.TokenEndpointAuthMethod? || k.Layout? || k.ShowClientId? || k.ShowDescription? || k.AdditionalAudiences?
    || k.RedirectUris? || k.AllowedScopes? || k.AllowedResources?
  }

  lemma ClientKeys(k: Key)
    ensures k in CLIENT_KEYS <==> IsClientKey(k)
  {
  }

  datatype OAuthClient = OAuthClient(
    clientId: string,
    clientSecret: Option<string>,
    description: string,
    backgroundColor: Option<string>,
    headerColor: Option<string>,
    footerColor: Option<string>,
    authMethod: string,
    layout: string,
    showClientId: bool,
    showDescription: bool,
    additionalAudiences: seq<string>,
    redirectUris: seq<string>,
    allowedScopes: seq<string>,
    allowedResources: seq<string>)

  function Optionally(s: Option<string>): Value { if s.Some? then Text(s.value) else NoValue }

  /** The attribute behind a key. */
  function FieldOf(c: OAuthClient, k: Key): Value {
    match k
    case ClientId => Text(c.clientId)
    case ClientSecret => Optionally(c.clientSecret)
    case Description => Text(c.description)
    case BackgroundColor => Optionally(c.backgroundColor)
    case HeaderColor => Optionally(c.headerColor)
    case FooterColor => Optionally(c.footerColor)
    case TokenEndpointAuthMethod => Text(c.authMethod)
    case Layout => Text(c.layout)
    case ShowClientId => Flag(c.showClientId)
    case ShowDescription => Flag(c.showDescription)
    case AdditionalAudiences => Texts(c.additionalAudiences)
    case RedirectUris => Texts(c.redirectUris)
    case AllowedScopes => Texts(c.allowedScopes)
    case AllowedResources => Texts(c.allowedResources)
    case _ => NoValue
  }

  // ---------------------------------------------------------------- writing

  /** What is written for a changed field: optional fields vanish when falsy or at their default. */
  function WriteOf(k: Key, v: Value): Option<Value> {
    match k
    case ClientSecret => if v.NoValue? then None else Some(v)
    case Description => Some(v)
    case TokenEndpointAuthMethod => if v != Text("client_secret_basic") then Some(v) else None
    case Layout => if v != Text("vertical") then Some(v) else None
    case ShowClientId => if v != Flag(true) then Some(v) else None
    case ShowDescription => if v != Flag(false) then Some(v) else None
    case _ => if IsTruthy(v) then Some(v) else None
  }

  function Get(e: Entry, k: Key): Option<Yaml> { if k in e then Some(e[k]) else None }

  function Put(e: Entry, k: Key, v: Option<Value>): Entry { if v.Some? then e[k := Encode(v.value)] else e - {k} }

  /** An entry after the keys seen so far have been merged; every comparison is with the raw entry. */
  function MergedKeys(env: Environment, raw: Entry, c: OAuthClient, keys: seq<Key>): Entry {
    if keys == [] then raw
    else
      var updated, k := MergedKeys(env, raw, c, keys[..|keys| - 1]), keys[|keys| - 1];
      if IsUnchanged(env, GetOrNull(Get(raw, k)), FieldOf(c, k)) then updated
      else Put(updated, k, WriteOf(k, FieldOf(c, k)))
  }

  function MergedEntry(env: Environment, raw: Entry, c: OAuthClient): Entry { MergedKeys(env, raw, c, CLIENT_KEYS) }

  /** merge_client_entry; its loops over field tables are one loop over `keys`, which are CLIENT_KEYS. */
  method MergeClientEntry(env: Environment, raw: Entry, c: OAuthClient, keys: seq<Key>) returns (updated: Entry)
    ensures updated == MergedKeys(env, raw, c, keys)
  {
    updated := raw;
    for i := 0 to |keys|
      invariant updated == MergedKeys(env, raw, c, keys[..i])
    {
      var k := keys[i];
      assert keys[..i + 1][..i] == keys[..i];
      var value := FieldOf(c, k);
      if !IsUnchanged(env, GetOrNull(Get(raw, k)), value) {
        var write := WriteOf(k, value);
        if write.Some? {
          updated := updated[k := Encode(write.value)];
        } else {
          updated := updated - {k};
        }
      }
    }
    assert keys[..|keys|] == keys;
  }

  /** client_to_yaml */
  function NewEntry(c: OAuthClient): Entry {
    map k | k in CLIENT_KEYS && NewField(c, k).Some? :: Encode(NewField(c, k).value)
  }

  function NewField(c: OAuthClient, k: Key): Option<Value> {
    if k == ClientId then Some(FieldOf(c, k)) else WriteOf(k, FieldOf(c, k))
  }

  lemma PutGet(e: Entry, k: Key, v: Option<Value>, k': Key)
    ensures Get(Put(e, k, v), k') == if k' != k then Get(e, k') else if v.Some? then Some(Encode(v.value)) else None
  {
    hide Encode;
  }

  /** Key by key: the client's fields are merged, every other key stays as it was. */
  lemma {:induction false} MergedKeysAre(env: Environment, raw: Entry, c: OAuthClient, keys: seq<Key>, k: Key)
    ensures Get(MergedKeys(env, raw, c, keys), k)
            == if k in keys then Merged(env, Get(raw, k), FieldOf(c, k), WriteOf(k, FieldOf(c, k))) else Get(raw, k)
  {
    hide IsUnchanged, FieldOf, WriteOf, Encode, Put, Get;
    if keys != [] {
      var init, last := keys[..|keys| - 1], keys[|keys| - 1];
      assert keys == init + [last];
      MergedKeysAre(env, raw, c, init, k);
      PutGet(MergedKeys(env, raw, c, init), last, WriteOf(last, FieldOf(c, last)), k);
    }
  }

  // ---------------------------------------------------------------- loading

  ghost predicate FieldsLoad(env: Environment, accepts: Validator, e: Entry) {
    forall k: Key | IsClientKey(k) :: Loads(env, accepts, k, Get(e, k))
  }

  function TextIn(v: Value): string { if v.Text? then v.s else "" }

  function OptionIn(v: Value): Option<string> { if v.Text? then Some(v.s) else None }

  function FlagIn(v: Value): bool { v == Flag(true) }

  function TextsIn(v: Value): seq<string> { if v.Texts? then v.texts else [] }

  function ClientOf(get: Key -> Value): OAuthClient {
    OAuthClient(TextIn(get(ClientId)), OptionIn(get(ClientSecret)), TextIn(get(Description)),
                OptionIn(get(BackgroundColor)), OptionIn(get(HeaderColor)), OptionIn(get(FooterColor)),
                TextIn(get(TokenEndpointAuthMethod)), TextIn(get(Layout)), FlagIn(get(ShowClientId)),
                FlagIn(get(ShowDescription)), TextsIn(get(AdditionalAudiences)), TextsIn(get(RedirectUris)),
                TextsIn(get(AllowedScopes)), TextsIn(get(AllowedResources)))
  }

  function ValueOr(v: Option<Value>): Value { if v.Some? then v.value else NoValue }

  function Built(env: Environment, accepts: Validator, e: Entry): OAuthClient {
    ClientOf(k => ValueOr(LoadKey(env, accepts, k, Get(e, k))))
  }

  /** A confidential client needs a secret, every client an id. */
  predicate ValidClient(c: OAuthClient) {
    c.clientId != "" && (c.authMethod == "none" || Truthy(c.clientSecret))
  }

  /** ClientEntry.to_client, None when the loader refuses the entry. */
  ghost function ToClient(env: Environment, accepts: Validator, y: Yaml): Option<OAuthClient> {
    if !y.Map? || !FieldsLoad(env, accepts, y.entries) then None
    else
      var c := Built(env, accepts, y.entries);
      if ValidClient(c) then Some(c) else None
  }

  /** Every field of the entry loads as the client has it. */
  ghost predicate Matches(env: Environment, accepts: Validator, e: Entry, c: OAuthClient) {
    forall k: Key | IsClientKey(k) :: LoadKey(env, accepts, k, Get(e, k)) == Some(FieldOf(c, k))
  }

  predicate Shaped(k: Key, v: Value) { ShapedAs(KindOf(k), v) }

  predicate ShapedAs(kind: Kind, v: Value) {
    match kind
    case TextKind => v.Text?
    case FlagKind => v.Flag?
    case OptionalText => v.NoValue? || v.Text?
    case SecretKind => v.NoValue? || v.Text?
    case LooseTexts => v.Texts?
    case _ => true
  }

  lemma LoadedIsShaped(env: Environment, accepts: Validator, k: Key, raw: Option<Yaml>)
    requires IsClientKey(k) && Loads(env, accepts, k, raw)
    ensures Shaped(k, LoadKey(env, accepts, k, raw).value)
  {
    if raw.None? {
      DefaultIsShaped(k);
    } else {
      CoercedIsShaped(KindOf(k), DefaultOf(k), Expand(env, raw.value));
    }
    hide IsClientKey, ShapedAs, Coerced, Expand, KindOf, DefaultOf;
  }

  lemma DefaultIsShaped(k: Key)
    requires IsClientKey(k)
    ensures Shaped(k, DefaultOf(k))
  {
  }

  lemma CoercedIsShaped(kind: Kind, default: Value, y: Yaml)
    ensures Coerced(kind, default, y).Some? ==> ShapedAs(kind, Coerced(kind, default, y).value)
  {
    hide ReadFlag, ParseInt, AllStrings, IsTable, NonBlanks, TrimSlashes, AttrNameOf;
  }

  /** The fields of a client built from well-shaped values are those values. */
  lemma FieldOfClientOf(get: Key -> Value, k: Key)
    requires IsClientKey(k) && Shaped(k, get(k))
    ensures FieldOf(ClientOf(get), k) == get(k)
  {
  }

  ghost predicate EqualFields(a: OAuthClient, b: OAuthClient) {
    forall k: Key | IsClientKey(k) :: FieldOf(a, k) == FieldOf(b, k)
  }

  lemma EqualField(a: OAuthClient, b: OAuthClient, k: Key)
    requires EqualFields(a, b) && IsClientKey(k)
    ensures FieldOf(a, k) == FieldOf(b, k)
  {
  }

  lemma EqualTexts(a: OAuthClient, b: OAuthClient)
    requires EqualFields(a, b)
    ensures a.clientId == b.clientId && a.description == b.description && a.authMethod == b.authMethod
    ensures a.layout == b.layout
  {
    assert Text(a.clientId) == Text(b.clientId) by { EqualField(a, b, ClientId); }
    assert Text(a.description) == Text(b.description) by { EqualField(a, b, Description); }
    assert Text(a.authMethod) == Text(b.authMethod) by { EqualField(a, b, TokenEndpointAuthMethod); }
    assert Text(a.layout) == Text(b.layout) by { EqualField(a, b, Layout); }
  }

  lemma SameOption(a: OAuthClient, b: OAuthClient, k: Key, x: Option<string>, y: Option<string>)
    requires EqualFields(a, b) && IsClientKey(k)
    requires FieldOf(a, k) == Optionally(x) && FieldOf(b, k) == Optionally(y)
    ensures x == y
  {
    EqualField(a, b, k);
    hide FieldOf, EqualFields, IsClientKey;
  }

  lemma EqualOptions(a: OAuthClient, b: OAuthClient)
    requires EqualFields(a, b)
    ensures a.clientSecret == b.clientSecret && a.backgroundColor == b.backgroundColor
    ensures a.headerColor == b.headerColor && a.footerColor == b.footerColor
  {
    hide EqualFields, Optionally;
    SameOption(a, b, ClientSecret, a.clientSecret, b.clientSecret);
    SameOption(a, b, BackgroundColor, a.backgroundColor, b.backgroundColor);
    SameOption(a, b, HeaderColor, a.headerColor, b.headerColor);
    SameOption(a, b, FooterColor, a.footerColor, b.footerColor);
  }

  lemma EqualFlagsAndLists(a: OAuthClient, b: OAuthClient)
    requires EqualFields(a, b)
    ensures a.showClientId == b.showClientId && a.showDescription == b.showDescription
    ensures a.additionalAudiences == b.additionalAudiences && a.redirectUris == b.redirectUris
    ensures a.allowedScopes == b.allowedScopes && a.allowedResources == b.allowedResources
  {
    assert Flag(a.showClientId) == Flag(b.showClientId) by { EqualField(a, b, ShowClientId); }
    assert Flag(a.showDescription) == Flag(b.showDescription) by { EqualField(a, b, ShowDescription); }
    assert Texts(a.additionalAudiences) == Texts(b.additionalAudiences) by { EqualField(a, b, AdditionalAudiences); }
    assert Texts(a.redirectUris) == Texts(b.redirectUris) by { EqualField(a, b, RedirectUris); }
    assert Texts(a.allowedScopes) == Texts(b.allowedScopes) by { EqualField(a, b, AllowedScopes); }
    assert Texts(a.allowedResources) == Texts(b.allowedResources) by { EqualField(a, b, AllowedResources); }
  }

  lemma ClientsWithEqualFields(a: OAuthClient, b: OAuthClient)
    requires EqualFields(a, b)
    ensures a == b
  {
    EqualTexts(a, b);
    EqualOptions(a, b);
    EqualFlagsAndLists(a, b);
    hide EqualFields;
  }

  lemma BuiltMatches(env: Environment, accepts: Validator, e: Entry)
    requires FieldsLoad(env, accepts, e)
    ensures Matches(env, accepts, e, Built(env, accepts, e))
  {
    forall k: Key | IsClientKey(k)
      ensures LoadKey(env, accepts, k, Get(e, k)) == Some(FieldOf(Built(env, accepts, e), k))
    {
      assert Loads(env, accepts, k, Get(e, k));
      LoadedIsShaped(env, accepts, k, Get(e, k));
      hide LoadKey, Shaped, KindOf;
      FieldOfClientOf(k' => ValueOr(LoadKey(env, accepts, k', Get(e, k'))), k);
    }
  }

  lemma MatchesOnce(env: Environment, accepts: Validator, e: Entry, c: OAuthClient, d: OAuthClient)
    requires Matches(env, accepts, e, c) && Matches(env, accepts, e, d)
    ensures c == d
  {
    hide LoadKey, FieldOf, IsClientKey;
    ClientsWithEqualFields(c, d);
  }

  lemma MatchesLoads(env: Environment, accepts: Validator, e: Entry, c: OAuthClient)
    requires Matches(env, accepts, e, c)
    ensures FieldsLoad(env, accepts, e)
  {
    hide LoadKey, FieldOf, IsClientKey;
    forall k: Key | IsClientKey(k) ensures Loads(env, accepts, k, Get(e, k)) {
      assert LoadKey(env, accepts, k, Get(e, k)) == Some(FieldOf(c, k));
    }
  }

  /** An entry loads as exactly the client its fields make, provided it has an id, and a secret unless it is a public
      client. */
  lemma ToClientMatches(env: Environment, accepts: Validator, e: Entry, c: OAuthClient)
    ensures ToClient(env, accepts, Map(e)) == Some(c) <==> Matches(env, accepts, e, c) && ValidClient(c)
    ensures ValidClient(c)
            <==> c.clientId != "" && (c.authMethod == "none" || (c.clientSecret != None && c.clientSecret != Some("")))
  {
    assert ValidClient(c)
           <==> c.clientId != "" && (c.authMethod == "none" || (c.clientSecret != None && c.clientSecret != Some("")));
    hide FieldsLoad, Matches, Built, ValidClient;
    if Matches(env, accepts, e, c) {
      MatchesLoads(env, accepts, e, c);
    }
    if FieldsLoad(env, accepts, e) {
      BuiltMatches(env, accepts, e);
      if Matches(env, accepts, e, c) {
        MatchesOnce(env, accepts, e, c, Built(env, accepts, e));
      }
    }
  }

  // ---------------------------------------------------------------- one entry, written and loaded

  /** A client the settings can hold, with no blank colour and nothing in it that looks like a placeholder. */
  ghost predicate CanonicalClient(env: Environment, accepts: Validator, c: OAuthClient) {
    && ValidClient(c) && NoBlankColour(c)
    && forall k: Key | IsClientKey(k) :: Canonical(accepts, k, FieldOf(c, k)) && Plain(env, FieldOf(c, k))
  }

  predicate NoBlankColour(c: OAuthClient) {
    c.backgroundColor != Some("") && c.headerColor != Some("") && c.footerColor != Some("")
  }

  /** Some boolean of the client is misread from the raw entry. */
  predicate MisreadEntry(env: Environment, raw: Entry, c: OAuthClient) {
    Misread(env, ShowClientId, Get(raw, ShowClientId), Flag(c.showClientId))
    || Misread(env, ShowDescription, Get(raw, ShowDescription), Flag(c.showDescription))
  }

  lemma WriteOfIsExact(c: OAuthClient, k: Key)
    requires IsClientKey(k) && c.clientId != "" && NoBlankColour(c)
    ensures WriteOf(k, FieldOf(c, k)) == Some(FieldOf(c, k))
            || (WriteOf(k, FieldOf(c, k)) == None && FieldOf(c, k) == DefaultOf(k))
    ensures FieldOf(c, k) == NoValue ==> DefaultOf(k) == NoValue && WriteOf(k, FieldOf(c, k)) == None
  {
    if OptionKey(k) {
      OptionWritten(c, k);
    } else if ListKey(k) {
      ListWritten(c, k);
    } else if k.ShowClientId? || k.ShowDescription? {
      FlagWritten(c, k);
    } else {
      TextWritten(c, k);
    }
    hide FieldOf, WriteOf, DefaultOf, NoBlankColour;
  }

  predicate ListKey(k: Key) { k.AdditionalAudiences? || k.RedirectUris? || k.AllowedScopes? || k.AllowedResources? }

  lemma ListWritten(c: OAuthClient, k: Key)
    requires ListKey(k)
    ensures FieldOf(c, k).Texts? && DefaultOf(k) == Texts([])
    ensures WriteOf(k, FieldOf(c, k)) == if FieldOf(c, k).texts == [] then None else Some(FieldOf(c, k))
  {
  }

  lemma FlagWritten(c: OAuthClient, k: Key)
    requires k.ShowClientId? || k.ShowDescription?
    ensures FieldOf(c, k).Flag? && DefaultOf(k) == Flag(k.ShowClientId?)
    ensures WriteOf(k, FieldOf(c, k)) == if FieldOf(c, k) == DefaultOf(k) then None else Some(FieldOf(c, k))
  {
  }

  lemma TextWritten(c: OAuthClient, k: Key)
    requires k.ClientId? || k.Description? || k.TokenEndpointAuthMethod? || k.Layout?
    requires c.clientId != ""
    ensures FieldOf(c, k).Text?
    ensures WriteOf(k, FieldOf(c, k)) == Some(FieldOf(c, k))
            || (WriteOf(k, FieldOf(c, k)) == None && FieldOf(c, k) == DefaultOf(k))
  {
  }

  predicate OptionKey(k: Key) { k.ClientSecret? || k.BackgroundColor? || k.HeaderColor? || k.FooterColor? }

  lemma OptionWritten(c: OAuthClient, k: Key)
    requires OptionKey(k) && NoBlankColour(c)
    ensures WriteOf(k, FieldOf(c, k)) == Some(FieldOf(c, k)) || WriteOf(k, FieldOf(c, k)) == None
    ensures WriteOf(k, FieldOf(c, k)) == None <==> FieldOf(c, k) == NoValue
    ensures DefaultOf(k) == NoValue
  {
  }

  /** One field of an entry, merged and loaded. */
  lemma MergedFieldLoads(env: Environment, accepts: Validator, raw: Entry, c: OAuthClient, k: Key)
    requires IsClientKey(k) && CanonicalClient(env, accepts, c) && Loads(env, accepts, k, Get(raw, k))
    ensures var w := Get(MergedEntry(env, raw, c), k);
            && Loads(env, accepts, k, w)
            && (LoadKey(env, accepts, k, w) == Some(FieldOf(c, k)) <==> !Misread(env, k, Get(raw, k), FieldOf(c, k)))
  {
    ClientKeys(k);
    MergedKeysAre(env, raw, c, CLIENT_KEYS, k);
    WriteOfIsExact(c, k);
    hide FieldOf, WriteOf, IsClientKey, LoadKey, Misread, Canonical, Plain, IsUnchanged, Encode, KindOf, DefaultOf;
    MergedLoads(env, accepts, k, Get(raw, k), FieldOf(c, k), WriteOf(k, FieldOf(c, k)));
  }

  lemma OnlyFlagsMisread(env: Environment, k: Key, raw: Entry, c: OAuthClient)
    requires IsClientKey(k) && k != ShowClientId && k != ShowDescription
    ensures !Misread(env, k, Get(raw, k), FieldOf(c, k))
  {
    hide DefaultOf, ModeOf, Section;
  }

  /** The client as it is loaded back: the same but for its two booleans, which come from the file. */
  function Reloaded(env: Environment, accepts: Validator, raw: Entry, c: OAuthClient): OAuthClient {
    var e := MergedEntry(env, raw, c);
    c.(showClientId := FlagIn(ValueOr(LoadKey(env, accepts, ShowClientId, Get(e, ShowClientId)))),
       showDescription := FlagIn(ValueOr(LoadKey(env, accepts, ShowDescription, Get(e, ShowDescription)))))
  }

  lemma ReloadedMatches(env: Environment, accepts: Validator, raw: Entry, c: OAuthClient)
    requires CanonicalClient(env, accepts, c) && FieldsLoad(env, accepts, raw)
    ensures Matches(env, accepts, MergedEntry(env, raw, c), Reloaded(env, accepts, raw, c))
  {
    var e := MergedEntry(env, raw, c);
    forall k: Key | IsClientKey(k)
      ensures LoadKey(env, accepts, k, Get(e, k)) == Some(FieldOf(Reloaded(env, accepts, raw, c), k))
    {
      assert Loads(env, accepts, k, Get(raw, k));
      hide *;
      if k == ShowClientId || k == ShowDescription {
        FlagReloaded(env, accepts, raw, c, k);
      } else {
        MergedFieldLoads(env, accepts, raw, c, k);
        OnlyFlagsMisread(env, k, raw, c);
        FieldUntouched(env, accepts, raw, c, k);
      }
    }
    hide LoadKey, MergedEntry, Reloaded, FieldOf, CanonicalClient, FieldsLoad;
  }

  lemma FlagReloaded(env: Environment, accepts: Validator, raw: Entry, c: OAuthClient, k: Key)
    requires CanonicalClient(env, accepts, c) && (k == ShowClientId || k == ShowDescription)
    requires IsClientKey(k) && Loads(env, accepts, k, Get(raw, k))
    ensures LoadKey(env, accepts, k, Get(MergedEntry(env, raw, c), k))
            == Some(FieldOf(Reloaded(env, accepts, raw, c), k))
  {
    hide LoadKey, MergedEntry, CanonicalClient, IsClientKey, Misread;
    FlagReloads(env, accepts, raw, c, k);
  }

  lemma FieldUntouched(env: Environment, accepts: Validator, raw: Entry, c: OAuthClient, k: Key)
    requires IsClientKey(k) && k != ShowClientId && k != ShowDescription
    ensures FieldOf(Reloaded(env, accepts, raw, c), k) == FieldOf(c, k)
  {
    hide LoadKey, MergedEntry;
  }

  lemma ReloadedIsTheSame(env: Environment, accepts: Validator, raw: Entry, c: OAuthClient)
    requires CanonicalClient(env, accepts, c) && FieldsLoad(env, accepts, raw)
    ensures Reloaded(env, accepts, raw, c) == c <==> !MisreadEntry(env, raw, c)
  {
    hide LoadKey, MergedEntry, Misread, CanonicalClient, FieldsLoad, FlagIn, ValueOr, Get, FieldOf;
    FlagFields(c);
    FlagKept(env, accepts, raw, c, ShowClientId, c.showClientId);
    FlagKept(env, accepts, raw, c, ShowDescription, c.showDescription);
    var r := Reloaded(env, accepts, raw, c);
    FlagsDecide(c, r.showClientId, r.showDescription);
  }

  lemma FlagFields(c: OAuthClient)
    ensures FieldOf(c, ShowClientId) == Flag(c.showClientId) && FieldOf(c, ShowDescription) == Flag(c.showDescription)
  {
  }

  lemma FlagsDecide(c: OAuthClient, id: bool, description: bool)
    ensures c.(showClientId := id, showDescription := description) == c
            <==> id == c.showClientId && description == c.showDescription
  {
  }

  lemma FlagKept(env: Environment, accepts: Validator, raw: Entry, c: OAuthClient, k: Key, flag: bool)
    requires CanonicalClient(env, accepts, c) && FieldsLoad(env, accepts, raw)
    requires (k == ShowClientId || k == ShowDescription) && FieldOf(c, k) == Flag(flag)
    ensures FlagIn(ValueOr(LoadKey(env, accepts, k, Get(MergedEntry(env, raw, c), k)))) == flag
            <==> !Misread(env, k, Get(raw, k), Flag(flag))
  {
    assert Loads(env, accepts, k, Get(raw, k));
    FlagReloads(env, accepts, raw, c, k);
    hide LoadKey, MergedEntry, Misread, CanonicalClient, FieldsLoad, IsClientKey, FieldOf;
  }

  lemma FlagReloads(env: Environment, accepts: Validator, raw: Entry, c: OAuthClient, k: Key)
    requires CanonicalClient(env, accepts, c) && (k == ShowClientId || k == ShowDescription)
    requires IsClientKey(k) && Loads(env, accepts, k, Get(raw, k))
    ensures var w := LoadKey(env, accepts, k, Get(MergedEntry(env, raw, c), k));
            && w.Some? && w.value.Flag? && FieldOf(c, k).Flag?
            && (w.value == FieldOf(c, k) <==> !Misread(env, k, Get(raw, k), FieldOf(c, k)))
  {
    MergedFieldLoads(env, accepts, raw, c, k);
    LoadedIsShaped(env, accepts, k, Get(MergedEntry(env, raw, c), k));
    hide LoadKey, MergedEntry, Misread, CanonicalClient, IsClientKey;
  }

  /** merge_client_entry, then load: every field comes back, exactly unless a boolean is misread; then that boolean
      alone is wrong. */
  lemma MergeThenLoad(env: Environment, accepts: Validator, raw: Entry, c: OAuthClient)
    requires CanonicalClient(env, accepts, c) && ToClient(env, accepts, Map(raw)).Some?
    ensures var r := ToClient(env, accepts, Map(MergedEntry(env, raw, c)));
            && r.Some? && r.value.clientId == c.clientId
            && r.value.(showClientId := c.showClientId, showDescription := c.showDescription) == c
            && (r.value == c <==> !MisreadEntry(env, raw, c))
  {
    ReloadedMatches(env, accepts, raw, c);
    ReloadedIsTheSame(env, accepts, raw, c);
    var c' := Reloaded(env, accepts, raw, c);
    ToClientMatches(env, accepts, MergedEntry(env, raw, c), c');
    hide Matches, MergedEntry, MisreadEntry, ToClient, FieldsLoad;
  }

  /** client_to_yaml, then load. */
  lemma NewThenLoad(env: Environment, accepts: Validator, c: OAuthClient)
    requires CanonicalClient(env, accepts, c)
    ensures ToClient(env, accepts, Map(NewEntry(c))) == Some(c)
  {
    var e := NewEntry(c);
    forall k: Key | IsClientKey(k) ensures LoadKey(env, accepts, k, Get(e, k)) == Some(FieldOf(c, k)) {
      ClientKeys(k);
      WriteOfIsExact(c, k);
      NewFieldLoads(env, accepts, c, k);
    }
    ToClientMatches(env, accepts, e, c);
    hide LoadKey, FieldOf, ToClient, NewEntry, IsClientKey;
  }

  lemma NewFieldLoads(env: Environment, accepts: Validator, c: OAuthClient, k: Key)
    requires Canonical(accepts, k, FieldOf(c, k)) && Plain(env, FieldOf(c, k)) && k in CLIENT_KEYS
    requires WriteOf(k, FieldOf(c, k)) == Some(FieldOf(c, k))
             || (WriteOf(k, FieldOf(c, k)) == None && FieldOf(c, k) == DefaultOf(k))
    requires FieldOf(c, k) == NoValue ==> WriteOf(k, FieldOf(c, k)) == None
    ensures LoadKey(env, accepts, k, Get(NewEntry(c), k)) == Some(FieldOf(c, k))
  {
    NothingWritten(env, accepts, k);
    var v := FieldOf(c, k);
    assert k == ClientId ==> v.Text?;
    hide FieldOf, WriteOf, LoadKey, Canonical, Plain, DefaultOf, KindOf, Encode;
    if NewField(c, k).Some? {
      WrittenLoads(env, accepts, k, v);
    }
  }

  // ---------------------------------------------------------------- the list

  /** client_id_matches */
  predicate IsFor(env: Environment, y: Yaml, id: string) {
    y.Map? && IsUnchanged(env, GetOrNull(Get(y.entries, ClientId)), Text(id))
  }

  /** Index of the first entry for the id, or the number of entries. */
  function FirstFor(env: Environment, items: seq<Yaml>, id: string): (n: nat)
    ensures n <= |items| && forall i | 0 <= i < n :: !IsFor(env, items[i], id)
    ensures n < |items| ==> IsFor(env, items[n], id)
  {
    if items == [] || IsFor(env, items[0], id) then 0 else 1 + FirstFor(env, items[1..], id)
  }

  function MergedClient(env: Environment, items: seq<Yaml>, c: OAuthClient): Yaml {
    var i := FirstFor(env, items, c.clientId);
    Map(if i < |items| then MergedEntry(env, items[i].entries, c) else NewEntry(c))
  }

  function ItemsOf(raw: Option<Yaml>): seq<Yaml> { if raw.Some? && raw.value.List? then raw.value.items else [] }

  method MergeOne(env: Environment, items: seq<Yaml>, c: OAuthClient) returns (y: Yaml)
    ensures y == MergedClient(env, items, c)
  {
    var i := FirstFor(env, items, c.clientId);
    if i == |items| {
      return Map(NewEntry(c));
    }
    var updated := MergeClientEntry(env, items[i].entries, c, CLIENT_KEYS);
    return Map(updated);
  }

  /** merge_oauth_clients; like its filter, FirstFor passes over entries that are not mappings. */
  method MergeOauthClients(env: Environment, raw: Option<Yaml>, clients: seq<OAuthClient>) returns (merged: seq<Yaml>)
    ensures merged == MergedClients(env, ItemsOf(raw), clients)
  {
    merged := [];
    for n := 0 to |clients|
      invariant |merged| == n && forall i | 0 <= i < n :: merged[i] == MergedClient(env, ItemsOf(raw), clients[i])
    {
      var y := MergeOne(env, ItemsOf(raw), clients[n]);
      merged := merged + [y];
    }
  }

  function MergedClients(env: Environment, items: seq<Yaml>, clients: seq<OAuthClient>): seq<Yaml> {
    seq(|clients|, i requires 0 <= i < |clients| => MergedClient(env, items, clients[i]))
  }

  /** What apply_settings_document makes of oauth.clients. */
  function WrittenClients(env: Environment, raw: Option<Yaml>, clients: seq<OAuthClient>): Option<Yaml> {
    var new' := MergedClients(env, ItemsOf(raw), clients);
    if List(new') == (if raw.Some? then raw.value else List([])) then raw
    else if new' != [] then Some(List(new'))
    else None
  }

  /** YamlWriter.save_client: the first entry for the id is merged, or a new one appended. */
  function SavedClient(env: Environment, raw: Option<Yaml>, c: OAuthClient): Option<Yaml>
    requires raw.Some? ==> raw.value.List?
  {
    var items := ItemsOf(raw);
    var i := FirstFor(env, items, c.clientId);
    Some(List(if i < |items| then items[i := Map(MergedEntry(env, items[i].entries, c))]
              else items + [Map(NewEntry(c))]))
  }

  predicate DistinctIds(clients: seq<OAuthClient>) {
    forall i, j | 0 <= i < j < |clients| :: clients[i].clientId != clients[j].clientId
  }

  /** The list loads as these clients: entry by entry, in order, with distinct ids. */
  ghost predicate ClientsLoad(env: Environment, accepts: Validator, raw: Option<Yaml>, clients: seq<OAuthClient>) {
    && (raw.Some? ==> raw.value.List?)
    && |ItemsOf(raw)| == |clients| && DistinctIds(clients)
    && forall i | 0 <= i < |clients| :: ToClient(env, accepts, ItemsOf(raw)[i]) == Some(clients[i])
  }

  ghost predicate CanonicalClients(env: Environment, accepts: Validator, clients: seq<OAuthClient>) {
    forall i | 0 <= i < |clients| :: CanonicalClient(env, accepts, clients[i])
  }

  /** A boolean of the client is misread from the entry it is merged into. */
  predicate MisreadClient(env: Environment, items: seq<Yaml>, c: OAuthClient) {
    var i := FirstFor(env, items, c.clientId);
    i < |items| && MisreadEntry(env, items[i].entries, c)
  }

  lemma MergedClientLoads(env: Environment, accepts: Validator, items: seq<Yaml>, c: OAuthClient)
    requires CanonicalClient(env, accepts, c)
    requires forall i | 0 <= i < |items| :: ToClient(env, accepts, items[i]).Some?
    ensures var r := ToClient(env, accepts, MergedClient(env, items, c));
            r.Some? && r.value.clientId == c.clientId && (r.value == c <==> !MisreadClient(env, items, c))
  {
    var i := FirstFor(env, items, c.clientId);
    hide ToClient, CanonicalClient, MisreadEntry, IsUnchanged, MergedEntry, NewEntry;
    if i < |items| {
      MergeThenLoad(env, accepts, items[i].entries, c);
    } else {
      NewThenLoad(env, accepts, c);
    }
  }

  /** The whole list, written by apply_settings_document and loaded: the clients that were saved, in order, exactly
      unless one of their booleans is misread. */
  lemma ClientsRoundTrip(env: Environment, accepts: Validator, raw: Option<Yaml>, before: seq<OAuthClient>,
                         clients: seq<OAuthClient>)
    requires ClientsLoad(env, accepts, raw, before)
    requires CanonicalClients(env, accepts, clients) && DistinctIds(clients)
    ensures var w := WrittenClients(env, raw, clients);
            && (exists loaded :: ClientsLoad(env, accepts, w, loaded))
            && (ClientsLoad(env, accepts, w, clients) <==>
                  forall i | 0 <= i < |clients| :: !MisreadClient(env, ItemsOf(raw), clients[i]))
  {
    var w := WrittenClients(env, raw, clients);
    WrittenItems(env, raw, clients);
    hide ToClient, CanonicalClients, MisreadClient, WrittenClients, MergedClients;
    forall i | 0 <= i < |clients|
      ensures EntryLoads(env, accepts, ItemsOf(w)[i], clients[i])
      ensures ToClient(env, accepts, ItemsOf(w)[i]) == Some(clients[i])
              <==> !MisreadClient(env, ItemsOf(raw), clients[i])
    {
      WrittenLoadsAt(env, accepts, raw, before, clients, i);
    }
    hide EntryLoads;
    var loaded := ListLoads(env, accepts, w, clients);
    hide ClientsLoad, ItemsOf;
    assert ClientsLoad(env, accepts, w, loaded);
  }

  ghost predicate EntryLoads(env: Environment, accepts: Validator, y: Yaml, c: OAuthClient) {
    ToClient(env, accepts, y).Some? && ToClient(env, accepts, y).value.clientId == c.clientId
  }

  lemma WrittenLoadsAt(env: Environment, accepts: Validator, raw: Option<Yaml>, before: seq<OAuthClient>,
                       clients: seq<OAuthClient>, i: nat)
    requires ClientsLoad(env, accepts, raw, before)
    requires CanonicalClients(env, accepts, clients) && i < |clients|
    ensures var y := MergedClients(env, ItemsOf(raw), clients)[i];
            && EntryLoads(env, accepts, y, clients[i])
            && (ToClient(env, accepts, y) == Some(clients[i]) <==> !MisreadClient(env, ItemsOf(raw), clients[i]))
  {
    hide ToClient, CanonicalClient, MisreadClient, MergedClient;
    assert CanonicalClient(env, accepts, clients[i]);
    MergedClientLoads(env, accepts, ItemsOf(raw), clients[i]);
  }

  /** A list whose entries load under distinct ids loads. */
  lemma ListLoads(env: Environment, accepts: Validator, w: Option<Yaml>, clients: seq<OAuthClient>)
    returns (loaded: seq<OAuthClient>)
    requires (w.Some? ==> w.value.List?) && |ItemsOf(w)| == |clients| && DistinctIds(clients)
    requires forall i | 0 <= i < |clients| :: EntryLoads(env, accepts, ItemsOf(w)[i], clients[i])
    ensures ClientsLoad(env, accepts, w, loaded)
    ensures ClientsLoad(env, accepts, w, clients)
            <==> forall i | 0 <= i < |clients| :: ToClient(env, accepts, ItemsOf(w)[i]) == Some(clients[i])
  {
    hide ToClient;
    loaded := seq(|clients|, i requires 0 <= i < |clients| => ToClient(env, accepts, ItemsOf(w)[i]).value);
    assert forall i | 0 <= i < |clients| :: loaded[i].clientId == clients[i].clientId;
  }

  // ---------------------------------------------------------------- the two writers

  /** The settings page's change in memory: replace the client with that id, or append it. */
  function Upserted(clients: seq<OAuthClient>, c: OAuthClient): seq<OAuthClient> {
    if clients == [] then [c]
    else if clients[0].clientId == c.clientId then [c] + clients[1..]
    else [clients[0]] + Upserted(clients[1..], c)
  }

  lemma FieldLoaded(env: Environment, accepts: Validator, e: Entry, c: OAuthClient, k: Key)
    requires ToClient(env, accepts, Map(e)) == Some(c) && IsClientKey(k)
    ensures LoadKey(env, accepts, k, Get(e, k)) == Some(FieldOf(c, k)) && ValidClient(c)
  {
    ToClientMatches(env, accepts, e, c);
    hide ToClient, LoadKey, FieldOf, IsClientKey, ValidClient;
  }

  lemma IdKind()
    ensures KindOf(ClientId) == TextKind && DefaultOf(ClientId) == Text("")
  {
  }

  lemma IdMatches(env: Environment, accepts: Validator, raw: Option<Yaml>, own: string, id: string)
    requires LoadKey(env, accepts, ClientId, raw) == Some(Text(own)) && own != ""
    ensures IsUnchanged(env, GetOrNull(raw), Text(id)) <==> own == id
  {
    IdKind();
    hide KindOf, DefaultOf, Expand;
  }

  /** An entry is found by the id it loads with. */
  lemma FoundByItsId(env: Environment, accepts: Validator, y: Yaml, id: string)
    requires ToClient(env, accepts, y).Some?
    ensures IsFor(env, y, id) <==> ToClient(env, accepts, y).value.clientId == id
  {
    var c := ToClient(env, accepts, y).value;
    ClientIsMap(env, accepts, y);
    hide ToClient, LoadKey, IsUnchanged;
    FieldLoaded(env, accepts, y.entries, c, ClientId);
    IdField(c);
    hide FieldOf;
    IdMatches(env, accepts, Get(y.entries, ClientId), c.clientId, id);
  }

  lemma IdField(c: OAuthClient)
    ensures FieldOf(c, ClientId) == Text(c.clientId)
  {
  }

  lemma ClientIsMap(env: Environment, accepts: Validator, y: Yaml)
    requires ToClient(env, accepts, y).Some?
    ensures y.Map? && y == Map(y.entries)
  {
    hide FieldsLoad, Built, ValidClient;
  }

  lemma FoundAt(env: Environment, accepts: Validator, raw: Option<Yaml>, clients: seq<OAuthClient>, i: nat)
    requires ClientsLoad(env, accepts, raw, clients) && i < |clients|
    ensures FirstFor(env, ItemsOf(raw), clients[i].clientId) == i
  {
    forall j | 0 <= j < |clients| ensures IsFor(env, ItemsOf(raw)[j], clients[i].clientId) <==> j == i {
      FoundByItsId(env, accepts, ItemsOf(raw)[j], clients[i].clientId);
      assert j != i ==> clients[j].clientId != clients[i].clientId;
      hide ToClient, IsFor;
    }
  }

  lemma LoadedIsNotMisread(env: Environment, accepts: Validator, e: Entry, c: OAuthClient)
    requires ToClient(env, accepts, Map(e)) == Some(c)
    ensures !MisreadEntry(env, e, c)
  {
    hide ToClient, LoadKey, Misread;
    FieldLoaded(env, accepts, e, c, ShowClientId);
    FieldLoaded(env, accepts, e, c, ShowDescription);
    FlagNotMisread(env, accepts, ShowClientId, Get(e, ShowClientId), c.showClientId);
    FlagNotMisread(env, accepts, ShowDescription, Get(e, ShowDescription), c.showDescription);
  }

  lemma FlagNotMisread(env: Environment, accepts: Validator, k: Key, raw: Option<Yaml>, b: bool)
    requires LoadKey(env, accepts, k, raw) == Some(Flag(b))
    ensures !Misread(env, k, raw, Flag(b))
  {
    hide IsUnchanged, ParseInt, TrimSlashes;
  }

  /** An untouched client, merged again, still loads as itself. */
  lemma UntouchedClient(env: Environment, accepts: Validator, raw: Option<Yaml>, clients: seq<OAuthClient>, i: nat)
    requires ClientsLoad(env, accepts, raw, clients) && i < |clients| && CanonicalClient(env, accepts, clients[i])
    ensures ToClient(env, accepts, MergedClient(env, ItemsOf(raw), clients[i])) == Some(clients[i])
  {
    FoundAt(env, accepts, raw, clients, i);
    var y := ItemsOf(raw)[i];
    assert ToClient(env, accepts, y) == Some(clients[i]) && y.Map?;
    LoadedIsNotMisread(env, accepts, y.entries, clients[i]);
    hide ToClient, CanonicalClient;
    MergeThenLoad(env, accepts, y.entries, clients[i]);
  }

  lemma {:induction false} UpsertedAt(clients: seq<OAuthClient>, c: OAuthClient, n: nat)
    requires n <= |clients| && forall i | 0 <= i < n :: clients[i].clientId != c.clientId
    requires n < |clients| ==> clients[n].clientId == c.clientId
    ensures Upserted(clients, c) == if n < |clients| then clients[n := c] else clients + [c]
  {
    if n > 0 {
      UpsertedAt(clients[1..], c, n - 1);
      assert clients == [clients[0]] + clients[1..];
    }
  }

  /** Where save_client puts the client is where the change in memory put it. */
  lemma SavedWhereUpserted(env: Environment, accepts: Validator, raw: Option<Yaml>, clients: seq<OAuthClient>,
                           c: OAuthClient)
    requires ClientsLoad(env, accepts, raw, clients)
    ensures var n := FirstFor(env, ItemsOf(raw), c.clientId);
            Upserted(clients, c) == if n < |clients| then clients[n := c] else clients + [c]
  {
    forall i | 0 <= i < |clients|
      ensures IsFor(env, ItemsOf(raw)[i], c.clientId) <==> clients[i].clientId == c.clientId
    {
      FoundByItsId(env, accepts, ItemsOf(raw)[i], c.clientId);
    }
    hide ToClient, IsFor;
    UpsertedAt(clients, c, FirstFor(env, ItemsOf(raw), c.clientId));
  }

  lemma SameEntries(env: Environment, accepts: Validator, a: Option<Yaml>, b: Option<Yaml>, loaded: seq<OAuthClient>)
    requires (a.Some? ==> a.value.List?) && (b.Some? ==> b.value.List?) && |ItemsOf(a)| == |ItemsOf(b)|
    requires forall i | 0 <= i < |ItemsOf(a)| ::
               ToClient(env, accepts, ItemsOf(a)[i]) == ToClient(env, accepts, ItemsOf(b)[i])
    ensures ClientsLoad(env, accepts, a, loaded) <==> ClientsLoad(env, accepts, b, loaded)
  {
    hide ToClient;
  }

  lemma WrittenItems(env: Environment, raw: Option<Yaml>, clients: seq<OAuthClient>)
    requires raw.Some? ==> raw.value.List?
    ensures ItemsOf(WrittenClients(env, raw, clients)) == MergedClients(env, ItemsOf(raw), clients)
    ensures WrittenClients(env, raw, clients).Some? ==> WrittenClients(env, raw, clients).value.List?
  {
    hide MergedClient;
  }

  /** What save_client writes and what the whole-document save of the same change writes load as the same clients:
      the old ones in order, with `c` merged in its place or at the end. A misread boolean is misread by both. */
  lemma SaveClientAgrees(env: Environment, accepts: Validator, raw: Option<Yaml>, clients: seq<OAuthClient>,
                         c: OAuthClient, loaded: seq<OAuthClient>)
    requires ClientsLoad(env, accepts, raw, clients) && CanonicalClients(env, accepts, clients)
    ensures ClientsLoad(env, accepts, SavedClient(env, raw, c), loaded)
            <==> ClientsLoad(env, accepts, WrittenClients(env, raw, Upserted(clients, c)), loaded)
  {
    var items, n := ItemsOf(raw), FirstFor(env, ItemsOf(raw), c.clientId);
    SavedWhereUpserted(env, accepts, raw, clients, c);
    WrittenItems(env, raw, Upserted(clients, c));
    SavedItems(env, raw, c);
    AllUntouched(env, accepts, raw, clients);
    hide ToClient, CanonicalClient, WrittenClients, Upserted, MergedClient, SavedClient, FirstFor;
    EntriesAgree(env, accepts, items, clients, c, n, ItemsOf(SavedClient(env, raw, c)),
                 ItemsOf(WrittenClients(env, raw, Upserted(clients, c))), Upserted(clients, c));
    SameEntries(env, accepts, SavedClient(env, raw, c), WrittenClients(env, raw, Upserted(clients, c)), loaded);
  }

  lemma AllUntouched(env: Environment, accepts: Validator, raw: Option<Yaml>, clients: seq<OAuthClient>)
    requires ClientsLoad(env, accepts, raw, clients) && CanonicalClients(env, accepts, clients)
    ensures forall i | 0 <= i < |clients| ::
              ToClient(env, accepts, MergedClient(env, ItemsOf(raw), clients[i]))
              == ToClient(env, accepts, ItemsOf(raw)[i])
  {
    hide ToClient, CanonicalClient, MergedClient, ItemsOf;
    forall i | 0 <= i < |clients|
      ensures ToClient(env, accepts, MergedClient(env, ItemsOf(raw), clients[i]))
              == ToClient(env, accepts, ItemsOf(raw)[i])
    {
      assert CanonicalClient(env, accepts, clients[i]);
      UntouchedClient(env, accepts, raw, clients, i);
    }
  }

  /** One entry replaced or appended, against the whole list merged: entry by entry they load alike. */
  lemma EntriesAgree(env: Environment, accepts: Validator, items: seq<Yaml>, clients: seq<OAuthClient>, c: OAuthClient,
                     n: nat, saved: seq<Yaml>, written: seq<Yaml>, after: seq<OAuthClient>)
    requires |items| == |clients| && n <= |clients|
    requires after == if n < |clients| then clients[n := c] else clients + [c]
    requires var m := MergedClient(env, items, c); saved == if n < |items| then items[n := m] else items + [m]
    requires written == MergedClients(env, items, after)
    requires forall i | 0 <= i < |clients| ::
               ToClient(env, accepts, MergedClient(env, items, clients[i])) == ToClient(env, accepts, items[i])
    ensures |saved| == |written|
    ensures forall i | 0 <= i < |saved| :: ToClient(env, accepts, saved[i]) == ToClient(env, accepts, written[i])
  {
    hide ToClient, MergedClient;
    forall i | 0 <= i < |saved| ensures ToClient(env, accepts, saved[i]) == ToClient(env, accepts, written[i]) {
      assert written[i] == MergedClient(env, items, after[i]);
      assert i != n ==> after[i] == clients[i] && saved[i] == items[i];
    }
  }

  lemma SavedItems(env: Environment, raw: Option<Yaml>, c: OAuthClient)
    requires raw.Some? ==> raw.value.List?
    ensures var items, n := ItemsOf(raw), FirstFor(env, ItemsOf(raw), c.clientId);
            ItemsOf(SavedClient(env, raw, c))
            == if n < |items| then items[n := MergedClient(env, items, c)] else items + [MergedClient(env, items, c)]
  {
    hide MergedEntry, NewEntry, IsUnchanged, FirstFor;
  }

  // ---------------------------------------------------------------- saving twice

  lemma SameEntry(a: Entry, b: Entry)
    requires forall k: Key :: Get(a, k) == Get(b, k)
    ensures a == b
  {
    assert forall k: Key :: k in a <==> Get(a, k).Some?;
    assert forall k: Key :: k in b <==> Get(b, k).Some?;
  }

  lemma MergeTwice(env: Environment, raw: Entry, c: OAuthClient)
    ensures MergedEntry(env, MergedEntry(env, raw, c), c) == MergedEntry(env, raw, c)
  {
    var once := MergedEntry(env, raw, c);
    forall k: Key ensures Get(MergedEntry(env, once, c), k) == Get(once, k) {
      MergedKeysAre(env, raw, c, CLIENT_KEYS, k);
      MergedKeysAre(env, once, c, CLIENT_KEYS, k);
      MergedTwice(env, Get(raw, k), FieldOf(c, k), WriteOf(k, FieldOf(c, k)));
      hide MergedKeys, FieldOf, WriteOf, Merged;
    }
    SameEntry(MergedEntry(env, once, c), once);
  }

  lemma NewThenMerge(env: Environment, accepts: Validator, c: OAuthClient)
    requires CanonicalClient(env, accepts, c)
    ensures MergedEntry(env, NewEntry(c), c) == NewEntry(c)
  {
    var e := NewEntry(c);
    forall k: Key ensures Get(MergedEntry(env, e, c), k) == Get(e, k) {
      ClientKeys(k);
      MergedKeysAre(env, e, c, CLIENT_KEYS, k);
      if IsClientKey(k) {
        WriteOfIsExact(c, k);
        NewFieldStays(env, c, k);
      }
      hide MergedKeys, FieldOf, WriteOf, Merged, Canonical;
    }
    SameEntry(MergedEntry(env, e, c), e);
  }

  lemma NewFieldStays(env: Environment, c: OAuthClient, k: Key)
    requires k in CLIENT_KEYS && Plain(env, FieldOf(c, k)) && (k == ClientId ==> c.clientId != "")
    requires WriteOf(k, FieldOf(c, k)).None? || WriteOf(k, FieldOf(c, k)) == Some(FieldOf(c, k))
    ensures var raw := Get(NewEntry(c), k); Merged(env, raw, FieldOf(c, k), WriteOf(k, FieldOf(c, k))) == raw
  {
    hide FieldOf, WriteOf, IsUnchanged, Encode, Plain, NewEntry;
    NewEntryAt(c, k);
    if k == ClientId {
      IdWritten(c);
    }
  }

  lemma NewEntryAt(c: OAuthClient, k: Key)
    requires k in CLIENT_KEYS
    ensures Get(NewEntry(c), k) == if NewField(c, k).Some? then Some(Encode(NewField(c, k).value)) else None
  {
    hide NewField, Encode;
  }

  lemma IdWritten(c: OAuthClient)
    requires c.clientId != ""
    ensures WriteOf(ClientId, FieldOf(c, ClientId)) == Some(FieldOf(c, ClientId))
  {
  }

  lemma MergedOnce(env: Environment, accepts: Validator, items: seq<Yaml>, written: seq<Yaml>, c: OAuthClient, i: nat)
    requires CanonicalClient(env, accepts, c) && i < |written| && written[i] == MergedClient(env, items, c)
    requires FirstFor(env, written, c.clientId) == i
    ensures MergedClient(env, written, c) == written[i]
  {
    hide CanonicalClient, MergedEntry, NewEntry, IsUnchanged, FirstFor;
    var n := FirstFor(env, items, c.clientId);
    if n < |items| {
      assert IsFor(env, items[n], c.clientId);
      MergeTwice(env, items[n].entries, c);
    } else {
      NewThenMerge(env, accepts, c);
    }
  }

  lemma RewrittenIs(env: Environment, w: Option<Yaml>, written: seq<Yaml>, clients: seq<OAuthClient>)
    requires MergedClients(env, written, clients) == written && ItemsOf(w) == written
    requires w.Some? ==> w.value == List(written)
    ensures WrittenClients(env, w, clients) == w
  {
    hide MergedClient;
  }

  /** A list just written is written again without change. */
  lemma ClientsTwice(env: Environment, accepts: Validator, raw: Option<Yaml>, before: seq<OAuthClient>,
                     clients: seq<OAuthClient>)
    requires ClientsLoad(env, accepts, raw, before)
    requires CanonicalClients(env, accepts, clients) && DistinctIds(clients)
    ensures var w := WrittenClients(env, raw, clients); WrittenClients(env, w, clients) == w
  {
    var items := ItemsOf(raw);
    var written := MergedClients(env, items, clients);
    WrittenItems(env, raw, clients);
    hide ToClient, CanonicalClient, MergedClient, WrittenClients, FirstFor;
    forall i | 0 <= i < |clients| ensures MergedClient(env, written, clients[i]) == written[i] {
      assert CanonicalClient(env, accepts, clients[i]);
      WrittenFoundAt(env, accepts, raw, before, clients, i);
      MergedOnce(env, accepts, items, written, clients[i], i);
    }
    assert MergedClients(env, written, clients) == written;
    RewrittenIs(env, WrittenClients(env, raw, clients), written, clients);
  }

  lemma WrittenIsFor(env: Environment, accepts: Validator, items: seq<Yaml>, c: OAuthClient, id: string)
    requires CanonicalClient(env, accepts, c)
    requires forall i | 0 <= i < |items| :: ToClient(env, accepts, items[i]).Some?
    ensures IsFor(env, MergedClient(env, items, c), id) <==> c.clientId == id
  {
    MergedClientLoads(env, accepts, items, c);
    hide ToClient, CanonicalClient, MergedClient, IsFor, MisreadClient;
    FoundByItsId(env, accepts, MergedClient(env, items, c), id);
  }

  lemma WrittenFoundAt(env: Environment, accepts: Validator, raw: Option<Yaml>, before: seq<OAuthClient>,
                       clients: seq<OAuthClient>, i: nat)
    requires ClientsLoad(env, accepts, raw, before)
    requires CanonicalClients(env, accepts, clients) && DistinctIds(clients) && i < |clients|
    ensures FirstFor(env, MergedClients(env, ItemsOf(raw), clients), clients[i].clientId) == i
  {
    var written := MergedClients(env, ItemsOf(raw), clients);
    hide ToClient, IsFor, CanonicalClient, MergedClient;
    forall j | 0 <= j < |clients| ensures IsFor(env, written[j], clients[i].clientId) <==> j == i {
      assert CanonicalClient(env, accepts, clients[j]);
      assert written[j] == MergedClient(env, ItemsOf(raw), clients[j]);
      WrittenIsFor(env, accepts, ItemsOf(raw), clients[j], clients[i].clientId);
      assert j != i ==> clients[j].clientId != clients[i].clientId;
    }
    assert IsFor(env, written[i], clients[i].clientId);
  }
}
