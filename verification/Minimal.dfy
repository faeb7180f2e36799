/** What a save leaves out of the file: values at their default, blank values, and fields without a value. */
module Minimal {
  import opened Common
  import opened Strings
  import opened Scope
  import opened Yaml
  import opened SettingsLens
  import opened ClientLens
  import opened ClientVerbatim

  // ---------------------------------------------------------------- owned keys

  predicate ListOrNothing(k: Key) { k.IssuerAllowlist? || k.SpCertificates? || k.AllowedIdentityClasses? }

  predicate TextOrNothing(k: Key) {
    k.DeviceVerificationBaseUrl? || k.LogosDir? || k.RolesAttrName? || k.GroupsAttrName?
  }

  /** The value stands for nothing under this key, so the key is left out. */
  predicate LeftOut(k: Key, v: Value) {
    match k
    case SecurityProfile => v == Text("dev")
    case Mode => v == Text("password")
    case AutoLogin => v == Flag(false)
    case TwoStep => v == Flag(false)
    case EntityId => v == NoValue
    case SsoUrl => v == NoValue
    case _ => (ListOrNothing(k) || TextOrNothing(k)) && (v == NoValue || v == Text("") || v == Texts([]))
  }

  /** What is compared with the file: the value, or the blank of its kind. */
  function Compared(k: Key, v: Value): Value {
    if ListOrNothing(k) && LeftOut(k, v) then Texts([])
    else if TextOrNothing(k) && LeftOut(k, v) then Text("")
    else v
  }

  /** The file already says so. */
  predicate Kept(env: Environment, k: Key, raw: Option<Yaml>, v: Value) {
    raw.Some? && IsUnchanged(env, raw.value, Compared(k, v)) && !((k.EntityId? || k.SsoUrl?) && v == NoValue)
  }

  lemma FalsyCanonical(accepts: Validator, k: Key, v: Value)
    requires Canonical(accepts, k, v) && (ListOrNothing(k) || TextOrNothing(k))
    ensures IsTruthy(v) <==> !(v == NoValue || v == Text("") || v == Texts([]))
  {
    KindsByKey(k);
    hide Strip, Encode, StringsOf;
  }

  lemma EmptiesByKey(k: Key)
    ensures ListOrNothing(k) ==> EmptyOf(k) == Texts([])
    ensures TextOrNothing(k) ==> EmptyOf(k) == Text("")
  {
  }

  lemma OmitFalsy(env: Environment, accepts: Validator, k: Key, raw: Option<Yaml>, v: Value)
    requires Canonical(accepts, k, v) && (ListOrNothing(k) || TextOrNothing(k))
    ensures Written(env, k, raw, v)
            == if Kept(env, k, raw, v) then raw else if LeftOut(k, v) then None else Some(Encode(v))
  {
    ModesByKey(k);
    FalsyCanonical(accepts, k, v);
    EmptiesByKey(k);
    if raw.None? {
      NullUnchanged(env, v);
      NullUnchanged(env, EmptyOf(k));
    }
    hide IsUnchanged, Encode, ModeOf, EmptyOf, IsTruthy, Canonical;
  }

  lemma OmitDefault(env: Environment, accepts: Validator, k: Key, raw: Option<Yaml>, v: Value)
    requires Canonical(accepts, k, v) && k in DEFAULTED_SETTINGS
    ensures Written(env, k, raw, v)
            == if Kept(env, k, raw, v) then raw else if LeftOut(k, v) then None else Some(Encode(v))
  {
    DefaultedRows(k);
    ModesByKey(k);
    DefaultIsLeftOut(k, v);
    UnchangedDefault(env, accepts, k, v);
    hide IsUnchanged, Encode, ModeOf, DefaultOf, Canonical, LeftOut, Compared;
  }

  lemma DefaultIsLeftOut(k: Key, v: Value)
    requires k.SecurityProfile? || k.Mode? || k.AutoLogin? || k.TwoStep?
    ensures (LeftOut(k, v) <==> v == DefaultOf(k)) && Compared(k, v) == v
  {
    DefaultsByKey(k);
    hide DefaultOf;
  }

  lemma DefaultsByKey(k: Key)
    ensures DefaultOf(SecurityProfile) == Text("dev") && DefaultOf(Mode) == Text("password")
    ensures DefaultOf(AutoLogin) == Flag(false) && DefaultOf(TwoStep) == Flag(false)
  {
  }

  lemma OmitNothing(env: Environment, accepts: Validator, k: Key, raw: Option<Yaml>, v: Value)
    requires Canonical(accepts, k, v) && k in OWNED_SETTINGS && !ListOrNothing(k) && !TextOrNothing(k)
    ensures Written(env, k, raw, v)
            == if Kept(env, k, raw, v) then raw else if LeftOut(k, v) then None else Some(Encode(v))
  {
    RowsAreRows(k);
    ModesByKey(k);
    if raw.None? {
      NullUnchanged(env, v);
    }
    if !k.EntityId? && !k.SsoUrl? {
      ModesOfKeys(k);
      NotNone(accepts, k, v);
    }
    hide IsUnchanged, Encode, ModeOf, Canonical;
  }

  /** The text under an owned key after a save: as it was where it already says the value; gone where the value stands
      for nothing; the value otherwise. */
  lemma WrittenExactly(env: Environment, accepts: Validator, k: Key, raw: Option<Yaml>, v: Value)
    requires Owned(k) && Canonical(accepts, k, v)
    ensures Written(env, k, raw, v)
            == if Kept(env, k, raw, v) then raw else if LeftOut(k, v) then None else Some(Encode(v))
  {
    hide Written, Kept, LeftOut, Canonical;
    if k in DEFAULTED_SETTINGS {
      OmitDefault(env, accepts, k, raw, v);
    } else if ListOrNothing(k) || TextOrNothing(k) {
      OmitFalsy(env, accepts, k, raw, v);
    } else {
      OmitNothing(env, accepts, k, raw, v);
    }
  }

  // ---------------------------------------------------------------- client entries

  /** A field is written out unless it is at its default; the description always is. */
  lemma FieldWrittenExactly(env: Environment, accepts: Validator, c: OAuthClient, k: Key)
    requires CanonicalClient(env, accepts, c) && IsClientKey(k)
    ensures WriteOf(k, FieldOf(c, k))
            == if FieldOf(c, k) == DefaultOf(k) && k != Description then None else Some(FieldOf(c, k))
  {
    hide CanonicalClient;
    assert c.clientId != "" && NoBlankColour(c) by {
      ClientFacts(env, accepts, c);
    }
    if OptionKey(k) {
      OptionWritten(c, k);
    } else if ListKey(k) {
      ListWritten(c, k);
    } else if k.ShowClientId? || k.ShowDescription? {
      FlagWritten(c, k);
    } else {
      TextWrittenExactly(c, k);
    }
    hide FieldOf, WriteOf, DefaultOf, NoBlankColour, IsClientKey;
  }

  lemma ClientFacts(env: Environment, accepts: Validator, c: OAuthClient)
    requires CanonicalClient(env, accepts, c)
    ensures c.clientId != "" && NoBlankColour(c)
  {
  }

  lemma TextWrittenExactly(c: OAuthClient, k: Key)
    requires k.ClientId? || k.Description? || k.TokenEndpointAuthMethod? || k.Layout?
    ensures WriteOf(k, FieldOf(c, k))
            == if FieldOf(c, k) == DefaultOf(k) && k != Description then None else Some(FieldOf(c, k))
  {
  }

  /** A new entry has exactly the fields that are not at their default, and the description. */
  lemma NewEntryExactly(env: Environment, accepts: Validator, c: OAuthClient, k: Key)
    requires CanonicalClient(env, accepts, c)
    ensures k in NewEntry(c) <==> IsClientKey(k) && (k == Description || FieldOf(c, k) != DefaultOf(k))
    ensures k in NewEntry(c) ==> NewEntry(c)[k] == Encode(FieldOf(c, k))
  {
    ClientKeys(k);
    if IsClientKey(k) {
      FieldWrittenExactly(env, accepts, c, k);
      NewEntryAt(c, k);
      if k == ClientId {
        ClientFacts(env, accepts, c);
        IdIsNoDefault(c, k);
      }
    }
    hide CanonicalClient, FieldOf, DefaultOf, WriteOf, Encode, IsClientKey;
  }

  lemma IdIsNoDefault(c: OAuthClient, k: Key)
    requires k == ClientId && c.clientId != ""
    ensures FieldOf(c, k) != DefaultOf(k)
  {
  }

  /** Merging a field that changed puts its value there, or drops the key when that is the default. */
  lemma ChangedFieldExactly(env: Environment, accepts: Validator, e: Entry, c: OAuthClient, k: Key)
    requires CanonicalClient(env, accepts, c) && IsClientKey(k)
    requires !IsUnchanged(env, GetOrNull(Get(e, k)), FieldOf(c, k))
    ensures Get(MergedEntry(env, e, c), k)
            == if FieldOf(c, k) == DefaultOf(k) && k != Description then None else Some(Encode(FieldOf(c, k)))
  {
    FieldWrittenExactly(env, accepts, c, k);
    hide CanonicalClient, FieldOf, DefaultOf, WriteOf, Encode, IsClientKey, MergedEntry, Get, IsUnchanged;
    KeyMerged(env, e, c, k);
  }

  /** Without clients there is no client list, unless the file already holds an empty one. */
  lemma NoClientsExactly(env: Environment, raw: Option<Yaml>)
    ensures WrittenClients(env, raw, []) == if raw == Some(List([])) then raw else None
  {
    hide MergedClient;
    assert MergedClients(env, ItemsOf(raw), []) == [];
  }

  // ---------------------------------------------------------------- what the loader trims

  /** Trailing slashes go, all of them, and nothing else. */
  lemma {:induction false} TrimExactly(s: string) returns (slashes: string)
    ensures s == TrimSlashes(s) + slashes && forall i | 0 <= i < |slashes| :: slashes[i] == '/'
    ensures TrimSlashes(s) == "" || TrimSlashes(s)[|TrimSlashes(s)| - 1] != '/'
  {
    if s != "" && s[|s| - 1] == '/' {
      var init := s[..|s| - 1];
      slashes := TrimExactly(init);
      slashes := slashes + "/";
      assert s == init + "/";
    } else {
      slashes := "";
    }
  }

  /** Blanks at both ends go, all of them, and nothing else. */
  lemma {:induction false} StripExactly(s: string) returns (left: string, right: string)
    ensures s == left + Strip(s) + right
    ensures forall i | 0 <= i < |left| :: IsSpace(left[i])
    ensures forall i | 0 <= i < |right| :: IsSpace(right[i])
    ensures Strip(s) == "" || (!IsSpace(Strip(s)[0]) && !IsSpace(Strip(s)[|Strip(s)| - 1]))
    decreases |s|
  {
    left, right := "", "";
    hide IsSpace;
    if s != "" && IsSpace(s[0]) {
      StripOnce(s);
      hide Strip;
      left, right := StripExactly(s[1..]);
      assert s == [s[0]] + s[1..];
      BlankLeft(s[0], left);
      Regrouped([s[0]], left, Strip(s), right);
      left := [s[0]] + left;
    } else if s != "" && IsSpace(s[|s| - 1]) {
      StripOnce(s);
      hide Strip;
      var init, last := s[..|s| - 1], s[|s| - 1];
      left, right := StripExactly(init);
      assert s == init + [last];
      BlankRight(right, last);
      assert left + Strip(s) + right + [last] == left + Strip(s) + (right + [last]);
      right := right + [last];
    }
  }

  lemma StripOnce(s: string)
    requires s != ""
    ensures IsSpace(s[0]) ==> Strip(s) == Strip(s[1..])
    ensures !IsSpace(s[0]) && IsSpace(s[|s| - 1]) ==> Strip(s) == Strip(s[..|s| - 1])
  {
  }

  lemma BlankLeft(c: char, left: string)
    requires IsSpace(c) && forall i | 0 <= i < |left| :: IsSpace(left[i])
    ensures forall i | 0 <= i < |[c] + left| :: IsSpace(([c] + left)[i])
  {
    hide IsSpace;
  }

  lemma BlankRight(right: string, c: char)
    requires IsSpace(c) && forall i | 0 <= i < |right| :: IsSpace(right[i])
    ensures forall i | 0 <= i < |right + [c]| :: IsSpace((right + [c])[i])
  {
    hide IsSpace;
  }

  lemma Regrouped(a: string, b: string, c: string, d: string)
    ensures a + (b + c + d) == a + b + c + d
  {
  }
}
