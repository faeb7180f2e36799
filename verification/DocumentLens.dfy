/** serialization.py, apply_settings_document, and yaml_writer.py, _mutate_settings_section, on a whole document. */
module DocumentLens {
  import opened Common
  import opened Yaml
  import opened SettingsLens
  import opened ClientLens

  type Doc = map<Key, Yaml>

  datatype Settings = Settings(get: Key -> Value, clients: seq<OAuthClient>)

  /** A key of the document: at the top level or in a section. */
  datatype Place = Place(section: Option<Key>, key: Key)

  function PlaceOf(k: Key): Place { Place(Section(k), k) }

  predicate IsSection(k: Key) { k.Server? || k.OAuth? || k.Saml? || k.Logging? || k.Login? }

  /** A section the loader accepts; only a bare `login:` may be null. */
  predicate SectionOk(doc: Doc, section: Key) {
    section in doc ==> doc[section].Map? || (section.Login? && doc[section].Null?)
  }

  ghost predicate SectionsOk(doc: Doc) {
    forall section: Key | IsSection(section) :: SectionOk(doc, section)
  }

  function SectionMap(doc: Doc, section: Key): Entry {
    if section in doc && doc[section].Map? then doc[section].entries else map[]
  }

  function Lookup(doc: Doc, p: Place): Option<Yaml> {
    if p.section.None? then Get(doc, p.key) else Get(SectionMap(doc, p.section.value), p.key)
  }

  function Updated(e: Entry, k: Key, w: Option<Yaml>): Entry { if w.Some? then e[k := w.value] else e - {k} }

  // ---------------------------------------------------------------- the writer, as a function

  function RowApplied(env: Environment, doc: Doc, k: Key, v: Value): Doc {
    if Section(k).None? then Updated(doc, k, Written(env, k, Get(doc, k), v))
    else
      var target := SectionMap(doc, Section(k).value);
      doc[Section(k).value := Map(Updated(target, k, Written(env, k, Get(target, k), v)))]
  }

  function RowsApplied(env: Environment, doc: Doc, get: Key -> Value, rows: seq<Key>): Doc {
    if rows == [] then doc
    else
      var k := rows[|rows| - 1];
      RowApplied(env, RowsApplied(env, doc, get, rows[..|rows| - 1]), k, get(k))
  }

  function ClientsApplied(env: Environment, doc: Doc, clients: seq<OAuthClient>): Doc {
    var oauth := SectionMap(doc, OAuth);
    doc[OAuth := Map(Updated(oauth, Clients, WrittenClients(env, Get(oauth, Clients), clients)))]
  }

  /** merge_optional_nested_field for a key of the login section. */
  function NestedApplied(env: Environment, doc: Doc, k: Key, v: Value): Doc {
    var section := SectionMap(doc, Login);
    var current := if k in section then section[k] else Encode(DefaultOf(k));
    if IsUnchanged(env, current, v) then doc
    else if v != DefaultOf(k) then doc[Login := Map(section[k := Encode(v)])]
    else if Login !in doc then doc
    else if section - {k} == map[] then doc - {Login}
    else doc[Login := Map(section - {k})]
  }

  /** apply_settings_document */
  function Applied(env: Environment, doc: Doc, s: Settings): Doc {
    var d1 := RowsApplied(env, doc, s.get, OWNED_SETTINGS);
    var d2 := ClientsApplied(env, d1, s.clients);
    var d3 := RowApplied(env, d2, SecurityProfile, s.get(SecurityProfile));
    var d4 := NestedApplied(env, d3, Mode, s.get(Mode));
    var d5 := NestedApplied(env, d4, AutoLogin, s.get(AutoLogin));
    NestedApplied(env, d5, TwoStep, s.get(TwoStep))
  }

  // ---------------------------------------------------------------- the sections stay mappings

  lemma UpdatedSame(e: Entry, k: Key)
    ensures Updated(e, k, Get(e, k)) == e
  {
  }

  /** A row of the table: not a section itself, not in the login section. */
  predicate TableKey(k: Key) {
    !ModeOf(k).OmitAtDefault? && Section(k) != Some(Login) && !IsSection(k) && !k.Other? && !k.Clients?
  }

  lemma TableKeyOf(k: Key)
    requires k in OWNED_SETTINGS
    ensures TableKey(k)
  {
    RowsAreRows(k);
    ModesByKey(k);
    LoginKeys(k);
    hide ModeOf, Section;
  }

  lemma LoginKeys(k: Key)
    ensures Section(k) == Some(Login) <==> k.Mode? || k.AutoLogin? || k.TwoStep?
  {
  }

  lemma RowKeepsSections(env: Environment, doc: Doc, k: Key, v: Value)
    requires SectionsOk(doc) && !IsSection(k)
    ensures SectionsOk(RowApplied(env, doc, k, v))
  {
    hide Written, Section, IsSection;
  }

  lemma SectionOfTable(k: Key)
    requires Section(k).Some?
    ensures IsSection(Section(k).value)
  {
  }

  // ---------------------------------------------------------------- the writer, in place

  class Document {
    var root: Doc

    constructor (root: Doc)
      ensures this.root == root
    {
      this.root := root;
    }

    /** document.setdefault(section, {}) */
    method SetDefault(section: Key) returns (target: Entry)
      requires section in root ==> root[section].Map?
      modifies this
      ensures target == SectionMap(old(root), section) && root == old(root)[section := Map(target)]
    {
      if section !in root {
        root := root[section := Map(map[])];
      }
      target := root[section].entries;
      assert root == old(root)[section := Map(target)];
    }

    /** Put the target mapping back, which apply_settings_document edits where it is. */
    method SetTarget(section: Option<Key>, target: Entry)
      modifies this
      ensures root == if section.None? then target else old(root)[section.value := Map(target)]
    {
      root := if section.None? then target else root[section.value := Map(target)];
    }

    /** One row of the table. */
    method ApplyRow(env: Environment, k: Key, value: Value)
      requires Section(k).Some? ==> SectionOk(root, Section(k).value) && !Section(k).value.Login?
      requires !ModeOf(k).OmitAtDefault?
      modifies this
      ensures root == RowApplied(env, old(root), k, value)
    {
      hide IsUnchanged, Encode, IsTruthy, EmptyOf, DefaultOf, ModeOf, Section;
      var target := root;
      if Section(k).Some? {
        target := SetDefault(Section(k).value);
      }
      var mode := ModeOf(k);
      ghost var before := target;
      if mode.Plainly? {
        if !IsUnchanged(env, GetOrNull(Get(target, k)), value) {
          target := target[k := Encode(value)];
        }
      } else if mode.OmitWhenFalsy? {
        if !IsUnchanged(env, GetOrNull(Get(target, k)), if IsTruthy(value) then value else EmptyOf(k)) {
          target := if IsTruthy(value) then target[k := Encode(value)] else target - {k};
        }
      } else if value.NoValue? {
        target := target - {k};
      } else if !IsUnchanged(env, GetOrNull(Get(target, k)), value) {
        target := target[k := Encode(value)];
      }
      UpdatedSame(before, k);
      assert target == Updated(before, k, Written(env, k, Get(before, k), value));
      SetTarget(Section(k), target);
    }

    method ApplyRows(env: Environment, get: Key -> Value, rows: seq<Key>)
      requires SectionsOk(root) && forall k | k in rows :: TableKey(k)
      modifies this
      ensures root == RowsApplied(env, old(root), get, rows) && SectionsOk(root)
    {
      for i := 0 to |rows|
        invariant root == RowsApplied(env, old(root), get, rows[..i]) && SectionsOk(root)
      {
        assert rows[..i + 1][..i] == rows[..i];
        assert rows[i] in rows;
        if Section(rows[i]).Some? {
          SectionOfTable(rows[i]);
        }
        hide IsSection, Section, ModeOf, RowApplied;
        RowKeepsSections(env, root, rows[i], get(rows[i]));
        ApplyRow(env, rows[i], get(rows[i]));
      }
      assert rows[..|rows|] == rows;
    }

    method ApplyNested(env: Environment, k: Key, value: Value)
      requires SectionOk(root, Login)
      modifies this
      ensures root == NestedApplied(env, old(root), k, value) && SectionOk(root, Login)
    {
      hide IsUnchanged, Encode, DefaultOf;
      var section := SectionMap(root, Login);
      var current := if k in section then section[k] else Encode(DefaultOf(k));
      if IsUnchanged(env, current, value) {
        return;
      }
      if value != DefaultOf(k) {
        root := root[Login := Map(section[k := Encode(value)])];
      } else if Login in root {
        var rest := section - {k};
        if rest == map[] {
          root := root - {Login};
        } else {
          root := root[Login := Map(rest)];
        }
      }
    }

    method ApplyClients(env: Environment, clients: seq<OAuthClient>)
      requires SectionOk(root, OAuth)
      modifies this
      ensures root == ClientsApplied(env, old(root), clients)
      ensures SectionOk(old(root), Login) ==> SectionOk(root, Login)
    {
      var oauth := SetDefault(OAuth);
      ghost var before := oauth;
      var merged := MergeOauthClients(env, Get(oauth, Clients), clients);
      var current := if Clients in oauth then oauth[Clients] else List([]);
      if List(merged) != current {
        if merged != [] {
          oauth := oauth[Clients := List(merged)];
        } else {
          oauth := oauth - {Clients};
        }
      }
      UpdatedSame(before, Clients);
      assert oauth == Updated(before, Clients, WrittenClients(env, Get(before, Clients), clients));
      SetTarget(Some(OAuth), oauth);
    }

    method ApplySecurityProfile(env: Environment, value: Value)
      modifies this
      ensures root == RowApplied(env, old(root), SecurityProfile, value)
      ensures SectionOk(old(root), Login) ==> SectionOk(root, Login)
    {
      hide IsUnchanged, Encode, DefaultOf;
      var current := if SecurityProfile in root then root[SecurityProfile] else Encode(DefaultOf(SecurityProfile));
      UpdatedSame(root, SecurityProfile);
      assert Section(SecurityProfile).None? && ModeOf(SecurityProfile).OmitAtDefault?;
      hide ModeOf, Section;
      if !IsUnchanged(env, current, value) {
        if value != DefaultOf(SecurityProfile) {
          root := root[SecurityProfile := Encode(value)];
        } else {
          root := root - {SecurityProfile};
        }
      }
    }

    /** apply_settings_document */
    method ApplySettingsDocument(env: Environment, s: Settings)
      requires SectionsOk(root)
      modifies this
      ensures root == Applied(env, old(root), s)
    {
      forall k | k in OWNED_SETTINGS ensures TableKey(k) {
        TableKeyOf(k);
      }
      ApplyRows(env, s.get, OWNED_SETTINGS);
      ApplyClients(env, s.clients);
      ApplySecurityProfile(env, s.get(SecurityProfile));
      ApplyNested(env, Mode, s.get(Mode));
      ApplyNested(env, AutoLogin, s.get(AutoLogin));
      ApplyNested(env, TwoStep, s.get(TwoStep));
    }
  }

  // ---------------------------------------------------------------- what each step does, place by place

  /** Every place but the top-level keys that hold the sections this code writes. */
  predicate Leaf(p: Place) {
    if p.section.None? then !IsSection(p.key) else IsSection(p.section.value) || p.section.value.Other?
  }

  lemma UpdatedGet(e: Entry, k: Key, w: Option<Yaml>, k': Key)
    ensures Get(Updated(e, k, w), k') == if k' == k then w else Get(e, k')
  {
  }

  lemma RowLookup(env: Environment, doc: Doc, k: Key, v: Value, p: Place)
    requires Leaf(p) && !IsSection(k) && !k.Other?
    ensures Lookup(RowApplied(env, doc, k, v), p)
            == if p == PlaceOf(k) then Written(env, k, Lookup(doc, p), v) else Lookup(doc, p)
  {
    var w := Written(env, k, Lookup(doc, PlaceOf(k)), v);
    if Section(k).None? {
      TopSet(doc, k, w, p);
    } else {
      SectionOfTable(k);
      SectionSet(doc, Section(k).value, k, w, p);
    }
    hide Written, Section, Leaf, IsSection, SectionMap, Updated, Get;
  }

  lemma TopSet(doc: Doc, k: Key, w: Option<Yaml>, p: Place)
    requires Leaf(p) && !IsSection(k) && !k.Other?
    ensures Lookup(Updated(doc, k, w), p) == if p == Place(None, k) then w else Lookup(doc, p)
  {
    UpdatedGet(doc, k, w, p.key);
  }

  lemma SectionSet(doc: Doc, section: Key, k: Key, w: Option<Yaml>, p: Place)
    requires Leaf(p) && IsSection(section)
    ensures Lookup(doc[section := Map(Updated(SectionMap(doc, section), k, w))], p)
            == if p == Place(Some(section), k) then w else Lookup(doc, p)
  {
    UpdatedGet(SectionMap(doc, section), k, w, p.key);
  }

  lemma {:induction false} RowsLookup(env: Environment, doc: Doc, get: Key -> Value, rows: seq<Key>, p: Place)
    requires Leaf(p) && forall k | k in rows :: TableKey(k)
    ensures Lookup(RowsApplied(env, doc, get, rows), p)
            == if p.key in rows && p == PlaceOf(p.key) then Written(env, p.key, Lookup(doc, p), get(p.key))
               else Lookup(doc, p)
  {
    if rows != [] {
      var init, k := rows[..|rows| - 1], rows[|rows| - 1];
      assert rows == init + [k];
      assert k in rows;
      assert !IsSection(k) && !k.Other?;
      hide TableKey, Written, RowApplied, Lookup, IsSection, Leaf;
      assert forall k' | k' in init :: k' in rows;
      RowsLookup(env, doc, get, init, p);
      RowLookup(env, RowsApplied(env, doc, get, init), k, get(k), p);
      if p == PlaceOf(k) {
        WriteTwice(env, k, Lookup(doc, p), get(k));
      }
    }
  }

  lemma ClientsLookup(env: Environment, doc: Doc, clients: seq<OAuthClient>, p: Place)
    requires Leaf(p)
    ensures Lookup(ClientsApplied(env, doc, clients), p)
            == if p == PlaceOf(Clients) then WrittenClients(env, Lookup(doc, p), clients) else Lookup(doc, p)
  {
    var oauth := SectionMap(doc, OAuth);
    hide WrittenClients;
    UpdatedGet(oauth, Clients, WrittenClients(env, Get(oauth, Clients), clients), p.key);
  }

  lemma LoginSet(doc: Doc, e: Entry, p: Place)
    requires Leaf(p)
    ensures Lookup(doc[Login := Map(e)], p) == if p.section == Some(Login) then Get(e, p.key) else Lookup(doc, p)
  {
  }

  lemma LoginDropped(doc: Doc, p: Place)
    requires Leaf(p)
    ensures Lookup(doc - {Login}, p) == if p.section == Some(Login) then None else Lookup(doc, p)
  {
  }

  /** What happens to the login section, whether or not the section itself is then kept. */
  function NestedSection(env: Environment, e: Entry, k: Key, v: Value): Entry {
    if IsUnchanged(env, if k in e then e[k] else Encode(DefaultOf(k)), v) then e
    else if v != DefaultOf(k) then e[k := Encode(v)]
    else e - {k}
  }

  lemma NestedIs(env: Environment, doc: Doc, k: Key, v: Value, p: Place)
    requires Leaf(p)
    ensures var e := NestedSection(env, SectionMap(doc, Login), k, v);
            Lookup(NestedApplied(env, doc, k, v), p)
            == if p.section == Some(Login) then Get(e, p.key) else Lookup(doc, p)
  {
    hide IsUnchanged, Encode, DefaultOf, Leaf;
    var section := SectionMap(doc, Login);
    LoginSet(doc, section[k := Encode(v)], p);
    LoginSet(doc, section - {k}, p);
    LoginDropped(doc, p);
    assert p.section == Some(Login) ==> Lookup(doc, p) == Get(section, p.key);
    assert Login !in doc ==> section - {k} == section;
    hide Lookup, SectionMap;
  }

  lemma NestedSectionGet(env: Environment, e: Entry, k: Key, v: Value, k': Key)
    requires ModeOf(k).OmitAtDefault?
    ensures Get(NestedSection(env, e, k, v), k') == if k' == k then Written(env, k, Get(e, k), v) else Get(e, k')
  {
    hide IsUnchanged, Encode, DefaultOf, ModeOf;
  }

  lemma NestedLookup(env: Environment, doc: Doc, k: Key, v: Value, p: Place)
    requires Leaf(p) && Section(k) == Some(Login) && ModeOf(k).OmitAtDefault?
    ensures Lookup(NestedApplied(env, doc, k, v), p)
            == if p == PlaceOf(k) then Written(env, k, Lookup(doc, p), v) else Lookup(doc, p)
  {
    NestedIs(env, doc, k, v, p);
    NestedSectionGet(env, SectionMap(doc, Login), k, v, p.key);
    hide NestedApplied, NestedSection, Written, Section, ModeOf, Leaf, SectionMap;
  }

  /** The document after a save, place by place: owned keys are written, the client list is merged, and everything
      else is what it was. */
  lemma AppliedLookup(env: Environment, doc: Doc, s: Settings, p: Place)
    requires Leaf(p)
    ensures Lookup(Applied(env, doc, s), p)
            == if p == PlaceOf(Clients) then WrittenClients(env, Lookup(doc, p), s.clients)
               else if Owned(p.key) && p == PlaceOf(p.key) then Written(env, p.key, Lookup(doc, p), s.get(p.key))
               else Lookup(doc, p)
  {
    var d1 := RowsApplied(env, doc, s.get, OWNED_SETTINGS);
    var d2 := ClientsApplied(env, d1, s.clients);
    AppliedRowsLookup(env, doc, s.get, p);
    ClientsLookup(env, d1, s.clients, p);
    DefaultedLookup(env, d2, s.get, p);
    if p.key in OWNED_SETTINGS {
      TableKeyOf(p.key);
      NotDefaulted(p.key);
    }
    assert Clients !in DEFAULTED_SETTINGS;
    hide RowsApplied, ClientsApplied, RowApplied, NestedApplied, Lookup, Written, WrittenClients, Section, Leaf, ModeOf;
  }

  lemma NotDefaulted(k: Key)
    requires TableKey(k)
    ensures k !in DEFAULTED_SETTINGS
  {
  }

  lemma DefaultedLookup(env: Environment, doc: Doc, get: Key -> Value, p: Place)
    requires Leaf(p)
    ensures var d3 := RowApplied(env, doc, SecurityProfile, get(SecurityProfile));
            var d4 := NestedApplied(env, d3, Mode, get(Mode));
            var d5 := NestedApplied(env, d4, AutoLogin, get(AutoLogin));
            Lookup(NestedApplied(env, d5, TwoStep, get(TwoStep)), p)
            == if p.key in DEFAULTED_SETTINGS && p == PlaceOf(p.key) then
                 Written(env, p.key, Lookup(doc, p), get(p.key))
               else Lookup(doc, p)
  {
    var d3 := RowApplied(env, doc, SecurityProfile, get(SecurityProfile));
    var d4 := NestedApplied(env, d3, Mode, get(Mode));
    var d5 := NestedApplied(env, d4, AutoLogin, get(AutoLogin));
    hide Lookup, Leaf, Written, RowApplied, NestedApplied;
    RowLookup(env, doc, SecurityProfile, get(SecurityProfile), p);
    NestedLookup(env, d3, Mode, get(Mode), p);
    NestedLookup(env, d4, AutoLogin, get(AutoLogin), p);
    NestedLookup(env, d5, TwoStep, get(TwoStep), p);
    hide Section, ModeOf;
  }

  lemma AppliedRowsLookup(env: Environment, doc: Doc, get: Key -> Value, p: Place)
    requires Leaf(p)
    ensures Lookup(RowsApplied(env, doc, get, OWNED_SETTINGS), p)
            == if p.key in OWNED_SETTINGS && p == PlaceOf(p.key) then Written(env, p.key, Lookup(doc, p), get(p.key))
               else Lookup(doc, p)
  {
    forall k | k in OWNED_SETTINGS ensures TableKey(k) {
      TableKeyOf(k);
    }
    RowsLookup(env, doc, get, OWNED_SETTINGS, p);
  }

  // ---------------------------------------------------------------- main results

  ghost predicate ClientsOf(env: Environment, accepts: Validator, doc: Doc, clients: seq<OAuthClient>) {
    ClientsLoad(env, accepts, Lookup(doc, PlaceOf(Clients)), clients)
  }

  ghost predicate KeysLoad(env: Environment, accepts: Validator, doc: Doc) {
    forall k: Key | Owned(k) :: Loads(env, accepts, k, Lookup(doc, PlaceOf(k)))
  }

  /** The loader accepts every owned key and the client list. */
  ghost predicate Loadable(env: Environment, accepts: Validator, doc: Doc) {
    SectionsOk(doc) && KeysLoad(env, accepts, doc) && exists clients :: ClientsOf(env, accepts, doc, clients)
  }

  predicate LoadsValue(env: Environment, accepts: Validator, k: Key, raw: Option<Yaml>, v: Value) {
    var loaded := LoadKey(env, accepts, k, raw);
    loaded.Some? && Same(k, loaded.value, v)
  }

  ghost predicate KeysLoadAs(env: Environment, accepts: Validator, doc: Doc, get: Key -> Value) {
    forall k: Key | Owned(k) :: LoadsValue(env, accepts, k, Lookup(doc, PlaceOf(k)), get(k))
  }

  /** The document loads as these settings, blank values of an omittable key being one. */
  ghost predicate LoadsAs(env: Environment, accepts: Validator, doc: Doc, s: Settings) {
    SectionsOk(doc) && KeysLoadAs(env, accepts, doc, s.get) && ClientsOf(env, accepts, doc, s.clients)
  }

  ghost predicate CanonicalKeys(env: Environment, accepts: Validator, get: Key -> Value) {
    forall k: Key | Owned(k) :: Canonical(accepts, k, get(k)) && Plain(env, get(k))
  }

  /** Settings the manager can hold: accepted by the validators, free of placeholders, with distinct client ids. */
  ghost predicate CanonicalSettings(env: Environment, accepts: Validator, s: Settings) {
    CanonicalKeys(env, accepts, s.get) && CanonicalClients(env, accepts, s.clients) && DistinctIds(s.clients)
  }

  ghost predicate NoKeyMisread(env: Environment, doc: Doc, get: Key -> Value) {
    forall k: Key | Owned(k) :: !Misread(env, k, Lookup(doc, PlaceOf(k)), get(k))
  }

  ghost predicate NoClientMisread(env: Environment, doc: Doc, clients: seq<OAuthClient>) {
    forall i | 0 <= i < |clients| :: !MisreadClient(env, ItemsOf(Lookup(doc, PlaceOf(Clients))), clients[i])
  }

  lemma OwnedPlace(k: Key)
    requires Owned(k)
    ensures Leaf(PlaceOf(k)) && PlaceOf(k) != PlaceOf(Clients)
  {
    if k in OWNED_SETTINGS {
      TableKeyOf(k);
    }
    if Section(k).Some? {
      SectionOfTable(k);
    }
    hide Section;
  }

  lemma NestedKeepsSections(env: Environment, doc: Doc, k: Key, v: Value)
    requires SectionsOk(doc)
    ensures SectionsOk(NestedApplied(env, doc, k, v))
  {
    hide IsUnchanged, Encode, DefaultOf, IsSection;
  }

  lemma {:induction false} RowsKeepSections(env: Environment, doc: Doc, get: Key -> Value, rows: seq<Key>)
    requires SectionsOk(doc) && forall k | k in rows :: TableKey(k)
    ensures SectionsOk(RowsApplied(env, doc, get, rows))
  {
    if rows != [] {
      var init, k := rows[..|rows| - 1], rows[|rows| - 1];
      assert rows == init + [k];
      assert k in rows && forall k' | k' in init :: k' in rows;
      assert !IsSection(k);
      hide IsSection, RowApplied, TableKey, SectionsOk;
      RowsKeepSections(env, doc, get, init);
      RowKeepsSections(env, RowsApplied(env, doc, get, init), k, get(k));
    }
  }

  lemma AppliedKeepsSections(env: Environment, doc: Doc, s: Settings)
    requires SectionsOk(doc)
    ensures SectionsOk(Applied(env, doc, s))
  {
    forall k | k in OWNED_SETTINGS ensures TableKey(k) {
      TableKeyOf(k);
    }
    RowsKeepSections(env, doc, s.get, OWNED_SETTINGS);
    var d1 := RowsApplied(env, doc, s.get, OWNED_SETTINGS);
    var d2 := ClientsApplied(env, d1, s.clients);
    assert SectionsOk(d2) by {
      hide WrittenClients, IsSection, RowsApplied;
    }
    RowKeepsSections(env, d2, SecurityProfile, s.get(SecurityProfile));
    var d3 := RowApplied(env, d2, SecurityProfile, s.get(SecurityProfile));
    NestedKeepsSections(env, d3, Mode, s.get(Mode));
    var d4 := NestedApplied(env, d3, Mode, s.get(Mode));
    NestedKeepsSections(env, d4, AutoLogin, s.get(AutoLogin));
    NestedKeepsSections(env, NestedApplied(env, d4, AutoLogin, s.get(AutoLogin)), TwoStep, s.get(TwoStep));
    hide RowsApplied, RowApplied, NestedApplied, ClientsApplied, SectionsOk;
  }

  lemma OwnedKeyLoads(env: Environment, accepts: Validator, doc: Doc, s: Settings, k: Key)
    requires Owned(k) && Canonical(accepts, k, s.get(k)) && Plain(env, s.get(k))
    requires Loads(env, accepts, k, Lookup(doc, PlaceOf(k)))
    ensures var w := Lookup(Applied(env, doc, s), PlaceOf(k));
            && Loads(env, accepts, k, w)
            && (LoadsValue(env, accepts, k, w, s.get(k)) <==> !Misread(env, k, Lookup(doc, PlaceOf(k)), s.get(k)))
  {
    OwnedPlace(k);
    AppliedLookup(env, doc, s, PlaceOf(k));
    hide Applied, Lookup, Canonical, Plain, LoadKey, Same, Misread, Section;
    WriteThenLoad(env, accepts, k, Lookup(doc, PlaceOf(k)), s.get(k));
  }

  lemma KeysRoundTrip(env: Environment, accepts: Validator, doc: Doc, s: Settings)
    requires KeysLoad(env, accepts, doc) && CanonicalKeys(env, accepts, s.get)
    ensures var doc' := Applied(env, doc, s);
            && KeysLoad(env, accepts, doc')
            && (KeysLoadAs(env, accepts, doc', s.get) <==> NoKeyMisread(env, doc, s.get))
  {
    hide Applied, Lookup, Owned, Misread, Loads, LoadsValue, Canonical, Plain;
    forall k: Key | Owned(k)
      ensures var w := Lookup(Applied(env, doc, s), PlaceOf(k));
              && Loads(env, accepts, k, w)
              && (LoadsValue(env, accepts, k, w, s.get(k)) <==> !Misread(env, k, Lookup(doc, PlaceOf(k)), s.get(k)))
    {
      OwnedKeyLoads(env, accepts, doc, s, k);
    }
  }

  lemma ClientsPlace()
    ensures Leaf(PlaceOf(Clients))
  {
  }

  lemma ListRoundTrip(env: Environment, accepts: Validator, doc: Doc, s: Settings, before: seq<OAuthClient>)
    requires ClientsOf(env, accepts, doc, before)
    requires CanonicalClients(env, accepts, s.clients) && DistinctIds(s.clients)
    ensures var doc' := Applied(env, doc, s);
            && (exists clients :: ClientsOf(env, accepts, doc', clients))
            && (ClientsOf(env, accepts, doc', s.clients) <==> NoClientMisread(env, doc, s.clients))
  {
    ClientsPlace();
    AppliedLookup(env, doc, s, PlaceOf(Clients));
    hide Applied, Lookup, ClientsLoad, MisreadClient, WrittenClients, CanonicalClients;
    ClientsRoundTrip(env, accepts, Lookup(doc, PlaceOf(Clients)), before, s.clients);
    var loaded :| ClientsLoad(env, accepts, WrittenClients(env, Lookup(doc, PlaceOf(Clients)), s.clients), loaded);
    assert ClientsOf(env, accepts, Applied(env, doc, s), loaded);
  }

  /** Saving settings into any loadable document and loading it gives those settings back, every owned key and the
      whole client list in order, exactly unless some boolean is saved as false over a text the loader reads as true
      and the writer does not. */
  lemma SaveThenLoad(env: Environment, accepts: Validator, doc: Doc, s: Settings)
    requires Loadable(env, accepts, doc) && CanonicalSettings(env, accepts, s)
    ensures Loadable(env, accepts, Applied(env, doc, s))
    ensures LoadsAs(env, accepts, Applied(env, doc, s), s)
            <==> NoKeyMisread(env, doc, s.get) && NoClientMisread(env, doc, s.clients)
  {
    AppliedKeepsSections(env, doc, s);
    KeysRoundTrip(env, accepts, doc, s);
    var before :| ClientsOf(env, accepts, doc, before);
    ListRoundTrip(env, accepts, doc, s, before);
    hide Applied, KeysLoad, KeysLoadAs, NoKeyMisread, NoClientMisread, ClientsOf, SectionsOk, CanonicalKeys;
  }

  /** Saving the same settings again changes nothing anywhere in the document. */
  lemma SaveTwice(env: Environment, accepts: Validator, doc: Doc, s: Settings, p: Place)
    requires Loadable(env, accepts, doc) && CanonicalSettings(env, accepts, s) && Leaf(p)
    ensures Lookup(Applied(env, Applied(env, doc, s), s), p) == Lookup(Applied(env, doc, s), p)
  {
    AppliedLookup(env, doc, s, p);
    AppliedLookup(env, Applied(env, doc, s), s, p);
    if p == PlaceOf(Clients) {
      var before :| ClientsOf(env, accepts, doc, before);
      hide Applied, Lookup, WrittenClients, ClientsLoad;
      ClientsTwice(env, accepts, Lookup(doc, p), before, s.clients);
    } else {
      WriteTwice(env, p.key, Lookup(doc, p), s.get(p.key));
      hide Applied, Lookup, Written, Owned, PlaceOf;
    }
  }

  // ---------------------------------------------------------------- the two writers

  /** YamlWriter.save_client on the document. */
  function ClientSaved(env: Environment, doc: Doc, c: OAuthClient): Doc
    requires Get(SectionMap(doc, OAuth), Clients).Some? ==> SectionMap(doc, OAuth)[Clients].List?
  {
    var oauth := SectionMap(doc, OAuth);
    doc[OAuth := Map(Updated(oauth, Clients, SavedClient(env, Get(oauth, Clients), c)))]
  }

  lemma ClientSavedLookup(env: Environment, doc: Doc, c: OAuthClient, p: Place)
    requires Get(SectionMap(doc, OAuth), Clients).Some? ==> SectionMap(doc, OAuth)[Clients].List?
    requires Leaf(p)
    ensures Lookup(ClientSaved(env, doc, c), p)
            == if p == PlaceOf(Clients) then SavedClient(env, Lookup(doc, p), c) else Lookup(doc, p)
  {
    var oauth := SectionMap(doc, OAuth);
    hide SavedClient;
    UpdatedGet(oauth, Clients, SavedClient(env, Get(oauth, Clients), c), p.key);
  }

  lemma LoadedKeyNotMisread(env: Environment, accepts: Validator, k: Key, raw: Option<Yaml>, v: Value)
    requires Owned(k) && LoadsValue(env, accepts, k, raw, v)
    ensures !Misread(env, k, raw, v)
  {
    ModesOfKeys(k);
    hide Owned, LoadKey, Section, DefaultOf;
    if KindOf(k).FlagKind? && v.Flag? {
      FlagNotMisread(env, accepts, k, raw, v.b);
    }
    hide KindOf, ModeOf;
  }

  lemma LoadedKeysNotMisread(env: Environment, accepts: Validator, doc: Doc, get: Key -> Value)
    requires KeysLoadAs(env, accepts, doc, get)
    ensures NoKeyMisread(env, doc, get) && KeysLoad(env, accepts, doc)
  {
    hide Misread, Owned, LoadKey, Same, Lookup;
    forall k: Key | Owned(k) ensures !Misread(env, k, Lookup(doc, PlaceOf(k)), get(k)) {
      LoadedKeyNotMisread(env, accepts, k, Lookup(doc, PlaceOf(k)), get(k));
    }
    assert forall k: Key | Owned(k) :: LoadsValue(env, accepts, k, Lookup(doc, PlaceOf(k)), get(k));
  }

  lemma ClientSavedKeys(env: Environment, accepts: Validator, doc: Doc, get: Key -> Value, c: OAuthClient)
    requires KeysLoadAs(env, accepts, doc, get)
    requires Get(SectionMap(doc, OAuth), Clients).Some? ==> SectionMap(doc, OAuth)[Clients].List?
    ensures KeysLoadAs(env, accepts, ClientSaved(env, doc, c), get)
  {
    forall k: Key | Owned(k)
      ensures LoadsValue(env, accepts, k, Lookup(ClientSaved(env, doc, c), PlaceOf(k)), get(k))
    {
      assert LoadsValue(env, accepts, k, Lookup(doc, PlaceOf(k)), get(k));
      OwnedPlace(k);
      ClientSavedLookup(env, doc, c, PlaceOf(k));
      hide LoadsValue, Lookup, ClientSaved, Owned, Leaf;
    }
    hide LoadsValue, Lookup, ClientSaved, Owned;
  }

  lemma ClientListsAgree(env: Environment, accepts: Validator, doc: Doc, s: Settings, c: OAuthClient,
                         loaded: seq<OAuthClient>)
    requires ClientsOf(env, accepts, doc, s.clients) && CanonicalClients(env, accepts, s.clients)
    requires Get(SectionMap(doc, OAuth), Clients).Some? ==> SectionMap(doc, OAuth)[Clients].List?
    ensures ClientsOf(env, accepts, ClientSaved(env, doc, c), loaded)
            <==> ClientsOf(env, accepts, Applied(env, doc, s.(clients := Upserted(s.clients, c))), loaded)
  {
    ClientsPlace();
    ClientSavedLookup(env, doc, c, PlaceOf(Clients));
    AppliedLookup(env, doc, s.(clients := Upserted(s.clients, c)), PlaceOf(Clients));
    SaveClientAgrees(env, accepts, Lookup(doc, PlaceOf(Clients)), s.clients, c, loaded);
    hide Applied, ClientSaved, Lookup, ClientsLoad, SavedClient, WrittenClients, CanonicalClients, Leaf;
  }

  /** From a document that loads as `s`, saving one client through the YAML writer, and replacing or appending it in
      memory and saving the whole settings, lead to documents that load alike: the same value at every owned key and
      the same client list. */
  lemma WritersAgreeOnClient(env: Environment, accepts: Validator, doc: Doc, s: Settings, c: OAuthClient)
    requires LoadsAs(env, accepts, doc, s) && CanonicalSettings(env, accepts, s)
    requires Get(SectionMap(doc, OAuth), Clients).Some? ==> SectionMap(doc, OAuth)[Clients].List?
    ensures KeysLoadAs(env, accepts, ClientSaved(env, doc, c), s.get)
    ensures KeysLoadAs(env, accepts, Applied(env, doc, s.(clients := Upserted(s.clients, c))), s.get)
    ensures forall loaded :: ClientsOf(env, accepts, ClientSaved(env, doc, c), loaded)
                             <==> ClientsOf(env, accepts, Applied(env, doc, s.(clients := Upserted(s.clients, c))),
                                            loaded)
  {
    hide KeysLoadAs, NoKeyMisread, KeysLoad, Applied, ClientSaved, ClientsOf, SectionsOk, CanonicalKeys;
    hide CanonicalClients, Lookup;
    LoadedKeysNotMisread(env, accepts, doc, s.get);
    KeysRoundTrip(env, accepts, doc, s.(clients := Upserted(s.clients, c)));
    ClientSavedKeys(env, accepts, doc, s.get, c);
    forall loaded ensures ClientsOf(env, accepts, ClientSaved(env, doc, c), loaded)
                          <==> ClientsOf(env, accepts, Applied(env, doc, s.(clients := Upserted(s.clients, c))), loaded)
    {
      ClientListsAgree(env, accepts, doc, s, c, loaded);
    }
  }

  // ---------------------------------------------------------------- _mutate_settings_section

  function SubmittedAll(env: Environment, e: Entry, provided: seq<(Key, Value)>): Entry {
    if provided == [] then e
    else
      var before := SubmittedAll(env, e, provided[..|provided| - 1]);
      var (k, v) := provided[|provided| - 1];
      Updated(before, k, Submitted(env, k, Get(before, k), v))
  }

  /** _mutate_settings_section on the section it is given. */
  method MutateSection(env: Environment, section: Entry, provided: seq<(Key, Value)>) returns (target: Entry)
    ensures target == SubmittedAll(env, section, provided)
  {
    target := section;
    for i := 0 to |provided|
      invariant target == SubmittedAll(env, section, provided[..i])
    {
      assert provided[..i + 1][..i] == provided[..i];
      var (k, value) := provided[i];
      UpdatedSame(target, k);
      if value.NoValue? {
        continue;
      }
      hide IsUnchanged, Encode, ModeOf, EmptyOf, IsTruthy;
      var kept := ModeOf(k).Plainly? || IsTruthy(value);
      if !IsUnchanged(env, GetOrNull(Get(target, k)), if kept then value else EmptyOf(k)) {
        target := if kept then target[k := Encode(value)] else target - {k};
      }
    }
    assert provided[..|provided|] == provided;
  }

  predicate DistinctKeys(provided: seq<(Key, Value)>) {
    forall i, j | 0 <= i < j < |provided| :: provided[i].0 != provided[j].0
  }

  lemma {:induction false} NotSubmitted(env: Environment, e: Entry, provided: seq<(Key, Value)>, k: Key)
    requires forall i | 0 <= i < |provided| :: provided[i].0 != k || provided[i].1 == NoValue
    ensures Get(SubmittedAll(env, e, provided), k) == Get(e, k)
  {
    if provided != [] {
      var init, k', v := provided[..|provided| - 1], provided[|provided| - 1].0, provided[|provided| - 1].1;
      NotSubmitted(env, e, init, k);
      var before := SubmittedAll(env, e, init);
      UpdatedGet(before, k', Submitted(env, k', Get(before, k'), v), k);
      NothingSubmitted(env, k', Get(before, k'));
      hide Submitted, Updated;
    }
  }

  lemma NothingSubmitted(env: Environment, k: Key, raw: Option<Yaml>)
    ensures Submitted(env, k, raw, NoValue) == raw
  {
  }

  lemma {:induction false} SubmittedAllGet(env: Environment, e: Entry, provided: seq<(Key, Value)>, i: nat)
    requires DistinctKeys(provided) && i < |provided|
    ensures var (k, v) := provided[i]; Get(SubmittedAll(env, e, provided), k) == Submitted(env, k, Get(e, k), v)
  {
    var init, k', v := provided[..|provided| - 1], provided[|provided| - 1].0, provided[|provided| - 1].1;
    var before := SubmittedAll(env, e, init);
    var k := provided[i].0;
    UpdatedGet(before, k', Submitted(env, k', Get(before, k'), v), k);
    hide Submitted, Updated;
    if i == |provided| - 1 {
      NotSubmitted(env, e, init, k);
    } else {
      assert init[i] == provided[i];
      SubmittedAllGet(env, e, init, i);
    }
  }

  /** For every value a form provides, the section writer leaves a text that loads as what the whole-document save of
      that value would leave; every key for which the form provides no value keeps its text. */
  lemma FormWriterAgrees(env: Environment, accepts: Validator, doc: Doc, section: Key, provided: seq<(Key, Value)>,
                         s: Settings, i: nat)
    requires DistinctKeys(provided) && i < |provided| && !provided[i].1.NoValue?
    requires var (k, v) := provided[i];
             && k in OWNED_SETTINGS && Section(k) == Some(section) && s.get(k) == v
             && Loads(env, accepts, k, Lookup(doc, PlaceOf(k)))
             && (ModeOf(k).OmitWhenNone? ==> v.Text? && accepts(k, NoValue))
    ensures var k := provided[i].0;
            var after := doc[section := Map(SubmittedAll(env, SectionMap(doc, section), provided))];
            LoadKey(env, accepts, k, Lookup(after, PlaceOf(k)))
            == LoadKey(env, accepts, k, Lookup(Applied(env, doc, s), PlaceOf(k)))
    ensures forall k: Key | (forall j | 0 <= j < |provided| :: provided[j].0 != k || provided[j].1 == NoValue) ::
              Get(SubmittedAll(env, SectionMap(doc, section), provided), k) == Get(SectionMap(doc, section), k)
  {
    var (k, v) := provided[i];
    var e := SectionMap(doc, section);
    hide Applied, Submitted, Written, LoadKey, ModeOf, SubmittedAll, Section, Lookup, SectionMap, Loads;
    SubmittedAllGet(env, e, provided, i);
    OwnedPlace(k);
    AppliedLookup(env, doc, s, PlaceOf(k));
    assert Lookup(doc, PlaceOf(k)) == Get(e, k) by {
      SectionLookup(doc, k, section);
    }
    SectionLookup(doc[section := Map(SubmittedAll(env, e, provided))], k, section);
    SectionReplaced(doc, section, SubmittedAll(env, e, provided));
    WritersAgree(env, accepts, k, Lookup(doc, PlaceOf(k)), v);
    forall k': Key | forall j | 0 <= j < |provided| :: provided[j].0 != k' || provided[j].1 == NoValue
      ensures Get(SubmittedAll(env, e, provided), k') == Get(e, k')
    {
      NotSubmitted(env, e, provided, k');
    }
  }

  lemma SectionLookup(doc: Doc, k: Key, section: Key)
    requires Section(k) == Some(section)
    ensures Lookup(doc, PlaceOf(k)) == Get(SectionMap(doc, section), k)
  {
    hide Section, SectionMap;
  }

  lemma SectionReplaced(doc: Doc, section: Key, e: Entry)
    ensures SectionMap(doc[section := Map(e)], section) == e
  {
  }
}
