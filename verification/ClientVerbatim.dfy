/** serialization.py, merge_client_entry: which texts of a client entry survive being loaded and merged back. */
module ClientVerbatim {
  import opened Common
  import opened Yaml
  import opened SettingsLens
  import opened ClientLens

  /** The merge does not leave this field as it was loaded: an absent description is spelled out, a boolean "t" is
      replaced, a blank secret is dropped, and a list is rewritten unless it is a list without blanks. */
  predicate Rewritten(env: Environment, k: Key, raw: Option<Yaml>) {
    if raw.None? then k == Description else NotAsLoaded(KindOf(k), Expand(env, raw.value))
  }

  /** The loader makes something else of the expanded node than it says. */
  predicate NotAsLoaded(kind: Kind, e: Yaml) {
    match kind
    case FlagKind => e.Str? && ReadsTrueOnly(e.s)
    case SecretKind => e == Str("")
    case LooseTexts => !e.List? || Str("") in e.items
    case _ => false
  }

  /** Writing puts down the very value that was compared, so a text stays exactly when it counted as unchanged. */
  lemma KeptIfUnchanged(env: Environment, y: Yaml, v: Value, write: Option<Value>)
    requires Plain(env, v) && (write == None || write == Some(v))
    ensures Merged(env, Some(y), v, write) == Some(y) <==> IsUnchanged(env, y, v)
  {
    if y == Encode(v) {
      PlainIsUnchanged(env, y, v);
    }
    hide IsUnchanged, Encode, Plain;
  }

  lemma WritesItself(k: Key, v: Value)
    ensures WriteOf(k, v) == None || WriteOf(k, v) == Some(v)
  {
    hide IsTruthy;
  }

  /** An absent field loads as its default, and only a default description is written. */
  lemma AbsentField(env: Environment, k: Key)
    requires IsClientKey(k)
    ensures Merged(env, None, DefaultOf(k), WriteOf(k, DefaultOf(k))) == None <==> k != Description
  {
    DefaultsWritten(k);
    hide WriteOf, DefaultOf, IsClientKey, Merged;
    MergedIntoNothing(env, DefaultOf(k), WriteOf(k, DefaultOf(k)));
  }

  lemma MergedIntoNothing(env: Environment, v: Value, write: Option<Value>)
    ensures Merged(env, None, v, write) == None <==> v.NoValue? || write.None?
  {
    NullUnchanged(env, v);
    hide IsUnchanged, Encode;
  }

  lemma NullUnchanged(env: Environment, v: Value)
    ensures IsUnchanged(env, Null, v) <==> v.NoValue?
  {
    hide ParseInt, SaysTrue;
  }

  lemma DefaultsWritten(k: Key)
    requires IsClientKey(k)
    ensures DefaultOf(k).NoValue? ==> k != Description
    ensures !DefaultOf(k).NoValue? ==> (WriteOf(k, DefaultOf(k)) == None <==> k != Description)
  {
    if OptionKey(k) {
      OptionDefault(k);
    } else if ListKey(k) {
      ListDefault(k);
    } else if k.ShowClientId? || k.ShowDescription? {
      FlagDefault(k);
    } else {
      TextDefault(k);
    }
    hide DefaultOf, WriteOf;
  }

  lemma OptionDefault(k: Key)
    requires OptionKey(k)
    ensures DefaultOf(k).NoValue?
  {
  }

  lemma ListDefault(k: Key)
    requires ListKey(k)
    ensures DefaultOf(k) == Texts([]) && WriteOf(k, DefaultOf(k)) == None
  {
  }

  lemma FlagDefault(k: Key)
    requires k.ShowClientId? || k.ShowDescription?
    ensures DefaultOf(k) == Flag(k.ShowClientId?) && WriteOf(k, DefaultOf(k)) == None
  {
  }

  lemma TextDefault(k: Key)
    requires k.ClientId? || k.Description? || k.TokenEndpointAuthMethod? || k.Layout?
    ensures DefaultOf(k).Text? && (WriteOf(k, DefaultOf(k)) == None <==> k != Description)
  {
  }

  lemma {:induction false} NonBlanksExactly(texts: seq<string>)
    ensures NonBlanks(texts) == texts <==> "" !in texts
    ensures |NonBlanks(texts)| <= |texts|
  {
    if texts != [] {
      NonBlanksExactly(texts[1..]);
      assert texts == [texts[0]] + texts[1..];
      assert texts[0] != "" ==> (NonBlanks(texts) == texts <==> NonBlanks(texts)[1..] == texts[1..]);
    }
  }

  lemma ListUnchangedExactly(items: seq<Yaml>)
    requires AllStrings(items)
    ensures SameNode(List(items), Texts(NonBlanks(StringsOf(items)))) <==> Str("") !in items
  {
    var texts := StringsOf(items);
    NonBlanksExactly(texts);
    EncodeStrings(items);
    if Str("") in items {
      var i :| 0 <= i < |items| && items[i] == Str("");
      assert texts[i] == "";
    } else {
      forall i | 0 <= i < |texts| ensures texts[i] != "" {
        assert items[i] == Str(texts[i]);
      }
    }
    TextsInjective(NonBlanks(texts), texts);
    hide NonBlanks, Encode;
  }

  lemma TextsInjective(a: seq<string>, b: seq<string>)
    ensures Encode(Texts(a)) == Encode(Texts(b)) <==> a == b
  {
    if Encode(Texts(a)) == Encode(Texts(b)) {
      var x, y := Encode(Texts(a)).items, Encode(Texts(b)).items;
      assert |a| == |x| == |y| == |b|;
      forall i | 0 <= i < |a| ensures a[i] == b[i] {
        assert x[i] == Str(a[i]) && y[i] == Str(b[i]);
      }
    }
  }

  lemma NodeUnchanged(kind: Kind, default: Value, e: Yaml)
    requires Coerced(kind, default, e).Some?
    requires kind.TextKind? || kind.FlagKind? || kind.OptionalText? || kind.SecretKind? || kind.LooseTexts?
    ensures SameNode(e, Coerced(kind, default, e).value) <==> !NotAsLoaded(kind, e)
  {
    hide ReadsTrueOnly, SaysTrue, ReadFlag, ParseInt, TrimSlashes, Strip;
    if kind.LooseTexts? {
      if e.List? {
        ListUnchangedExactly(e.items);
        hide NonBlanks, Encode;
      }
    } else if !kind.SecretKind? {
      UnchangedExactly(kind, default, e);
      hide Coerced, SameNode;
    }
  }

  lemma ClientKinds(k: Key)
    requires IsClientKey(k)
    ensures var kind := KindOf(k);
            kind.TextKind? || kind.FlagKind? || kind.OptionalText? || kind.SecretKind? || kind.LooseTexts?
  {
  }

  lemma PresentField(env: Environment, accepts: Validator, k: Key, y: Yaml, v: Value)
    requires IsClientKey(k) && LoadKey(env, accepts, k, Some(y)) == Some(v) && Plain(env, v)
    ensures Merged(env, Some(y), v, WriteOf(k, v)) == Some(y) <==> !Rewritten(env, k, Some(y))
  {
    hide Merged, WriteOf, Expand, Coerced, SameNode, KindOf, DefaultOf, Plain, NotAsLoaded, IsClientKey;
    ClientKinds(k);
    WritesItself(k, v);
    KeptIfUnchanged(env, y, v, WriteOf(k, v));
    NodeUnchanged(KindOf(k), DefaultOf(k), Expand(env, y));
  }

  /** A field merged back as it was loaded keeps its text, placeholders included, exactly unless it is Rewritten. */
  lemma FieldVerbatim(env: Environment, accepts: Validator, k: Key, raw: Option<Yaml>, v: Value)
    requires IsClientKey(k) && LoadKey(env, accepts, k, raw) == Some(v) && Plain(env, v)
    ensures Merged(env, raw, v, WriteOf(k, v)) == raw <==> !Rewritten(env, k, raw)
  {
    if raw.None? {
      AbsentField(env, k);
    } else {
      PresentField(env, accepts, k, raw.value, v);
    }
    hide Merged, WriteOf, Plain, IsClientKey, KindOf, DefaultOf;
  }

  /** An entry that is loaded and merged back keeps every text, a `${SECRET}` among them, exactly when none of its
      fields is Rewritten; and field by field otherwise. */
  lemma LoadedEntryIsVerbatim(env: Environment, accepts: Validator, e: Entry, c: OAuthClient)
    requires ToClient(env, accepts, Map(e)) == Some(c)
    requires forall k: Key | IsClientKey(k) :: Plain(env, FieldOf(c, k))
    ensures forall k: Key | IsClientKey(k) ::
              Get(MergedEntry(env, e, c), k) == Get(e, k) <==> !Rewritten(env, k, Get(e, k))
    ensures forall k: Key | !IsClientKey(k) :: Get(MergedEntry(env, e, c), k) == Get(e, k)
    ensures MergedEntry(env, e, c) == e <==> forall k: Key | IsClientKey(k) :: !Rewritten(env, k, Get(e, k))
  {
    var merged := MergedEntry(env, e, c);
    forall k: Key
      ensures IsClientKey(k) ==> (Get(merged, k) == Get(e, k) <==> !Rewritten(env, k, Get(e, k)))
      ensures !IsClientKey(k) ==> Get(merged, k) == Get(e, k)
    {
      ClientKeys(k);
      MergedKeysAre(env, e, c, CLIENT_KEYS, k);
      hide ToClient, MergedKeys, FieldOf, WriteOf, Merged, Plain, Rewritten, LoadKey, IsClientKey;
      if IsClientKey(k) {
        FieldLoaded(env, accepts, e, c, k);
        FieldVerbatim(env, accepts, k, Get(e, k), FieldOf(c, k));
      }
    }
    hide ToClient, MergedEntry, FieldOf, Rewritten, IsClientKey, Plain;
    if forall k: Key | IsClientKey(k) :: !Rewritten(env, k, Get(e, k)) {
      SameEntry(merged, e);
    }
  }

  // ---------------------------------------------------------------- an input

  function MinimalEntry(): Entry { map[ClientId := Str("c"), ClientSecret := Str("s")] }

  function MinimalClient(): OAuthClient {
    OAuthClient("c", Some("s"), "", None, None, None, "client_secret_basic", "vertical", true, false, [], [], [], [])
  }

  lemma TextLoads(env: Environment, accepts: Validator, k: Key, s: string)
    requires KindOf(k).TextKind? || KindOf(k).SecretKind?
    requires accepts(k, Text(s)) && |s| == 1 && ExpandString(env, s) == s
    ensures LoadKey(env, accepts, k, Some(Str(s))) == Some(Text(s))
  {
    hide ExpandString, KindOf;
  }

  lemma MinimalOptions(k: Key)
    requires OptionKey(k) && k != ClientSecret
    ensures FieldOf(MinimalClient(), k) == NoValue
  {
  }

  lemma MinimalLists(k: Key)
    requires ListKey(k)
    ensures FieldOf(MinimalClient(), k) == Texts([])
  {
  }

  lemma MinimalFlags(k: Key)
    requires k.ShowClientId? || k.ShowDescription?
    ensures FieldOf(MinimalClient(), k) == Flag(k.ShowClientId?)
  {
  }

  lemma MinimalTexts(k: Key)
    requires k.Description? || k.TokenEndpointAuthMethod? || k.Layout?
    ensures FieldOf(MinimalClient(), k) == DefaultOf(k)
  {
  }

  lemma MinimalDefaults(k: Key)
    requires IsClientKey(k) && k != ClientId && k != ClientSecret
    ensures FieldOf(MinimalClient(), k) == DefaultOf(k) && Get(MinimalEntry(), k) == None
  {
    if OptionKey(k) {
      OptionDefault(k);
      MinimalOptions(k);
    } else if ListKey(k) {
      ListDefault(k);
      MinimalLists(k);
    } else if k.ShowClientId? || k.ShowDescription? {
      FlagDefault(k);
      MinimalFlags(k);
    } else {
      MinimalTexts(k);
    }
    hide FieldOf, DefaultOf, WriteOf, MinimalClient;
  }

  lemma MinimalFields()
    ensures FieldOf(MinimalClient(), ClientId) == Text("c") && FieldOf(MinimalClient(), ClientSecret) == Text("s")
    ensures Get(MinimalEntry(), ClientId) == Some(Str("c")) && Get(MinimalEntry(), ClientSecret) == Some(Str("s"))
    ensures KindOf(ClientId).TextKind? && KindOf(ClientSecret).SecretKind?
  {
  }

  lemma MinimalField(env: Environment, accepts: Validator, k: Key)
    requires IsClientKey(k) && accepts(ClientId, Text("c")) && accepts(ClientSecret, Text("s"))
    ensures LoadKey(env, accepts, k, Get(MinimalEntry(), k)) == Some(FieldOf(MinimalClient(), k))
  {
    MinimalFields();
    if k == ClientId {
      NoPlaceholder(env, "c");
      TextLoads(env, accepts, k, "c");
    } else if k == ClientSecret {
      NoPlaceholder(env, "s");
      TextLoads(env, accepts, k, "s");
    } else {
      MinimalDefaults(k);
      NothingWritten(env, accepts, k);
    }
    hide LoadKey, FieldOf, DefaultOf, KindOf, IsClientKey, ExpandString, MinimalEntry, MinimalClient;
  }

  lemma MinimalEntryLoads(env: Environment, accepts: Validator)
    requires accepts(ClientId, Text("c")) && accepts(ClientSecret, Text("s"))
    ensures ToClient(env, accepts, Map(MinimalEntry())) == Some(MinimalClient())
  {
    var e, c := MinimalEntry(), MinimalClient();
    assert ValidClient(c);
    forall k: Key | IsClientKey(k) ensures LoadKey(env, accepts, k, Get(e, k)) == Some(FieldOf(c, k)) {
      MinimalField(env, accepts, k);
    }
    hide LoadKey, FieldOf, MinimalEntry, MinimalClient, ToClient, IsClientKey, ValidClient;
    ToClientMatches(env, accepts, e, c);
  }

  lemma KeyMerged(env: Environment, e: Entry, c: OAuthClient, k: Key)
    requires IsClientKey(k)
    ensures Get(MergedEntry(env, e, c), k) == Merged(env, Get(e, k), FieldOf(c, k), WriteOf(k, FieldOf(c, k)))
  {
    ClientKeys(k);
    MergedKeysAre(env, e, c, CLIENT_KEYS, k);
    hide MergedKeys, Merged, FieldOf, WriteOf, IsClientKey;
  }

  lemma EmptyWritten(env: Environment, k: Key)
    requires k == Description
    ensures Merged(env, None, Text(""), WriteOf(k, Text(""))) == Some(Str(""))
  {
    NullUnchanged(env, Text(""));
    hide IsUnchanged;
  }

  lemma DescriptionField(c: OAuthClient, k: Key)
    requires k == Description
    ensures FieldOf(c, k) == Text(c.description)
  {
  }

  lemma AbsentDescription(env: Environment, e: Entry, c: OAuthClient, k: Key)
    requires k == Description && Get(e, k) == None && c.description == ""
    ensures Get(MergedEntry(env, e, c), k) == Some(Str(""))
  {
    hide Get, MergedEntry, Merged, FieldOf, WriteOf;
    DescriptionField(c, k);
    KeyMerged(env, e, c, k);
    EmptyWritten(env, k);
  }

  /** A confidential client without a description loads with an empty one, and merging it back untouched spells that
      out. */
  lemma DescriptionSpelledOut(env: Environment, accepts: Validator)
    requires accepts(ClientId, Text("c")) && accepts(ClientSecret, Text("s"))
    ensures ToClient(env, accepts, Map(MinimalEntry())) == Some(MinimalClient())
    ensures Get(MinimalEntry(), Description) == None
    ensures Get(MergedEntry(env, MinimalEntry(), MinimalClient()), Description) == Some(Str(""))
  {
    assert Get(MinimalEntry(), Description) == None && MinimalClient().description == "";
    hide *;
    MinimalEntryLoads(env, accepts);
    AbsentDescription(env, MinimalEntry(), MinimalClient(), Description);
  }
}
