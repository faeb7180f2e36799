/** apply_settings_document applied twice: the two documents are equal, sections included. */
module DocumentTwice {
  import opened Common
  import opened Yaml
  import opened SettingsLens
  import opened ClientLens
  import opened DocumentLens

  /** The sections every save creates. */
  predicate Created(section: Key) { section.Server? || section.OAuth? || section.Saml? || section.Logging? }

  predicate Present(doc: Doc, section: Key) { section in doc && doc[section].Map? }

  // ---------------------------------------------------------------- created sections are mappings

  lemma RowCreates(env: Environment, doc: Doc, k: Key, v: Value, section: Key)
    requires IsSection(section) && !IsSection(k)
    ensures Present(doc, section) || Section(k) == Some(section) ==> Present(RowApplied(env, doc, k, v), section)
  {
    hide Written, Section;
  }

  lemma {:induction false} RowsCreate(env: Environment, doc: Doc, get: Key -> Value, rows: seq<Key>, section: Key,
                                      k: Key)
    requires IsSection(section) && forall r | r in rows :: !IsSection(r)
    requires k in rows && Section(k) == Some(section)
    ensures Present(RowsApplied(env, doc, get, rows), section)
  {
    var init, last := rows[..|rows| - 1], rows[|rows| - 1];
    assert rows == init + [last];
    hide IsSection, Section, RowApplied, Present;
    RowCreates(env, RowsApplied(env, doc, get, init), last, get(last), section);
    if k != last {
      RowsCreate(env, doc, get, init, section, k);
    }
  }

  lemma NestedKeeps(env: Environment, doc: Doc, k: Key, v: Value, section: Key)
    requires section != Login
    ensures Get(NestedApplied(env, doc, k, v), section) == Get(doc, section)
  {
    hide IsUnchanged, Encode, DefaultOf;
  }

  /** A row of the table that lives in the section. */
  function RowIn(section: Key): (k: Key)
    requires Created(section)
    ensures k in OWNED_SETTINGS && Section(k) == Some(section)
  {
    if section.Server? then Host
    else if section.OAuth? then Issuer
    else if section.Saml? then EntityId
    else VerboseLogging
  }

  lemma RowsPresent(env: Environment, doc: Doc, get: Key -> Value, section: Key)
    requires Created(section)
    ensures Present(RowsApplied(env, doc, get, OWNED_SETTINGS), section)
  {
    hide RowsApplied, Present, Section;
    forall k | k in OWNED_SETTINGS ensures !IsSection(k) {
      TableKeyOf(k);
    }
    RowsCreate(env, doc, get, OWNED_SETTINGS, section, RowIn(section));
  }

  lemma ClientsPresent(env: Environment, doc: Doc, clients: seq<OAuthClient>, section: Key)
    requires Present(doc, section)
    ensures Present(ClientsApplied(env, doc, clients), section)
  {
    hide WrittenClients;
  }

  lemma NestedPresent(env: Environment, doc: Doc, k: Key, v: Value, section: Key)
    requires Created(section) && Present(doc, section)
    ensures Present(NestedApplied(env, doc, k, v), section)
  {
    NestedKeeps(env, doc, k, v, section);
    hide NestedApplied;
  }

  lemma SavedSections(env: Environment, doc: Doc, s: Settings, section: Key)
    requires Created(section)
    ensures Present(Applied(env, doc, s), section)
  {
    hide RowsApplied, RowApplied, NestedApplied, ClientsApplied, Section, Present;
    RowsPresent(env, doc, s.get, section);
    var d1 := RowsApplied(env, doc, s.get, OWNED_SETTINGS);
    ClientsPresent(env, d1, s.clients, section);
    var d2 := ClientsApplied(env, d1, s.clients);
    RowCreates(env, d2, SecurityProfile, s.get(SecurityProfile), section);
    var d3 := RowApplied(env, d2, SecurityProfile, s.get(SecurityProfile));
    NestedPresent(env, d3, Mode, s.get(Mode), section);
    var d4 := NestedApplied(env, d3, Mode, s.get(Mode));
    NestedPresent(env, d4, AutoLogin, s.get(AutoLogin), section);
    NestedPresent(env, NestedApplied(env, d4, AutoLogin, s.get(AutoLogin)), TwoStep, s.get(TwoStep), section);
  }

  // ---------------------------------------------------------------- the login section

  lemma RowLeavesLogin(env: Environment, doc: Doc, k: Key, v: Value)
    requires Section(k) != Some(Login) && k != Login
    ensures Get(RowApplied(env, doc, k, v), Login) == Get(doc, Login)
  {
    hide Written, Section;
  }

  lemma {:induction false} RowsLeaveLogin(env: Environment, doc: Doc, get: Key -> Value, rows: seq<Key>)
    requires forall k | k in rows :: TableKey(k)
    ensures Get(RowsApplied(env, doc, get, rows), Login) == Get(doc, Login)
  {
    if rows != [] {
      var init, k := rows[..|rows| - 1], rows[|rows| - 1];
      assert rows == init + [k] && k in rows;
      assert Section(k) != Some(Login) && k != Login;
      hide TableKey, Section, RowApplied;
      RowsLeaveLogin(env, doc, get, init);
      RowLeavesLogin(env, RowsApplied(env, doc, get, init), k, get(k));
    }
  }

  lemma ClientsLeaveLogin(env: Environment, doc: Doc, clients: seq<OAuthClient>)
    ensures Get(ClientsApplied(env, doc, clients), Login) == Get(doc, Login)
  {
    hide WrittenClients;
  }

  lemma SavedUpToLogin(env: Environment, doc: Doc, s: Settings)
    ensures var d1 := RowsApplied(env, doc, s.get, OWNED_SETTINGS);
            var d3 := RowApplied(env, ClientsApplied(env, d1, s.clients), SecurityProfile, s.get(SecurityProfile));
            Get(d3, Login) == Get(doc, Login)
  {
    hide RowsApplied, RowApplied, ClientsApplied, Get, TableKey;
    forall k | k in OWNED_SETTINGS ensures TableKey(k) {
      TableKeyOf(k);
    }
    RowsLeaveLogin(env, doc, s.get, OWNED_SETTINGS);
    var d1 := RowsApplied(env, doc, s.get, OWNED_SETTINGS);
    ClientsLeaveLogin(env, d1, s.clients);
    RowLeavesLogin(env, ClientsApplied(env, d1, s.clients), SecurityProfile, s.get(SecurityProfile));
  }

  predicate LoginKey(k: Key) { k.Mode? || k.AutoLogin? || k.TwoStep? }

  lemma DefaultUnchanged(env: Environment, k: Key)
    requires LoginKey(k)
    ensures IsUnchanged(env, Encode(DefaultOf(k)), DefaultOf(k))
  {
    if k.Mode? {
      TextDefaults(k);
      PlainTextDefault(env, DefaultOf(k).s);
    } else {
      FlagDefaults(k);
    }
    hide ExpandString, DefaultOf, KindOf, ParseInt, SaysTrue;
  }

  /** Written, for a key of the login section. */
  lemma LoginWritten(env: Environment, k: Key, raw: Option<Yaml>, v: Value)
    requires LoginKey(k)
    ensures Written(env, k, raw, v)
            == if IsUnchanged(env, if raw.Some? then raw.value else Encode(DefaultOf(k)), v) then raw
               else if v != DefaultOf(k) then Some(Encode(v))
               else None
  {
    assert ModeOf(k).OmitAtDefault?;
    hide IsUnchanged, Encode, DefaultOf, ModeOf;
  }

  /** A key that is already as it would be written leaves the section alone, present or not. */
  lemma NestedUnchanged(env: Environment, doc: Doc, k: Key, v: Value)
    requires LoginKey(k)
    requires Written(env, k, Get(SectionMap(doc, Login), k), v) == Get(SectionMap(doc, Login), k)
    ensures Get(NestedApplied(env, doc, k, v), Login) == Get(doc, Login)
  {
    DefaultUnchanged(env, k);
    LoginWritten(env, k, Get(SectionMap(doc, Login), k), v);
    hide IsUnchanged, Encode, DefaultOf, ModeOf, Written, LoginKey;
    var section := SectionMap(doc, Login);
    if k in section {
      assert section[k := section[k]] == section;
    }
  }

  lemma LoginPlace(k: Key)
    requires LoginKey(k)
    ensures PlaceOf(k) == Place(Some(Login), k) && Leaf(PlaceOf(k)) && k in DEFAULTED_SETTINGS && k != Clients
  {
    assert DEFAULTED_SETTINGS[1] == Mode && DEFAULTED_SETTINGS[2] == AutoLogin && DEFAULTED_SETTINGS[3] == TwoStep;
  }

  /** After a save each login key is as the same save would write it. */
  lemma LoginSettled(env: Environment, accepts: Validator, doc: Doc, s: Settings, k: Key)
    requires Loadable(env, accepts, doc) && CanonicalSettings(env, accepts, s) && LoginKey(k)
    ensures var raw := Get(SectionMap(Applied(env, doc, s), Login), k); Written(env, k, raw, s.get(k)) == raw
  {
    LoginPlace(k);
    var once := Applied(env, doc, s);
    assert Lookup(once, PlaceOf(k)) == Get(SectionMap(once, Login), k);
    hide Applied, Written, Lookup, WrittenClients;
    SaveTwice(env, accepts, doc, s, PlaceOf(k));
    AppliedLookup(env, once, s, PlaceOf(k));
  }

  lemma SameLogin(doc: Doc, doc': Doc)
    requires Get(doc, Login) == Get(doc', Login)
    ensures SectionMap(doc, Login) == SectionMap(doc', Login)
  {
  }

  lemma LoginTwice(env: Environment, accepts: Validator, doc: Doc, s: Settings)
    requires Loadable(env, accepts, doc) && CanonicalSettings(env, accepts, s)
    ensures Get(Applied(env, Applied(env, doc, s), s), Login) == Get(Applied(env, doc, s), Login)
  {
    var once := Applied(env, doc, s);
    SavedUpToLogin(env, once, s);
    var d1 := RowsApplied(env, once, s.get, OWNED_SETTINGS);
    var d3 := RowApplied(env, ClientsApplied(env, d1, s.clients), SecurityProfile, s.get(SecurityProfile));
    var d4 := NestedApplied(env, d3, Mode, s.get(Mode));
    var d5 := NestedApplied(env, d4, AutoLogin, s.get(AutoLogin));
    var d6 := NestedApplied(env, d5, TwoStep, s.get(TwoStep));
    assert d6 == Applied(env, once, s);
    hide RowsApplied, RowApplied, ClientsApplied, NestedApplied, Applied, Written, SectionMap, Get, Loadable;
    LoginStep(env, accepts, doc, s, d3, Mode);
    LoginStep(env, accepts, doc, s, d4, AutoLogin);
    LoginStep(env, accepts, doc, s, d5, TwoStep);
  }

  lemma LoginStep(env: Environment, accepts: Validator, doc: Doc, s: Settings, d: Doc, k: Key)
    requires Loadable(env, accepts, doc) && CanonicalSettings(env, accepts, s) && LoginKey(k)
    requires Get(d, Login) == Get(Applied(env, doc, s), Login)
    ensures Get(NestedApplied(env, d, k, s.get(k)), Login) == Get(Applied(env, doc, s), Login)
  {
    hide Applied, NestedApplied, Written, SectionMap, Get, Loadable;
    LoginSettled(env, accepts, doc, s, k);
    SameLogin(d, Applied(env, doc, s));
    NestedUnchanged(env, d, k, s.get(k));
  }

  // ---------------------------------------------------------------- the whole document

  /** Two documents with the same sections and the same text at every place are equal. */
  lemma SameDocument(a: Doc, b: Doc)
    requires forall section: Key | Created(section) :: Present(a, section) && Present(b, section)
    requires Get(a, Login) == Get(b, Login)
    requires forall p: Place | Leaf(p) :: Lookup(a, p) == Lookup(b, p)
    ensures a == b
  {
    forall k: Key ensures Get(a, k) == Get(b, k) {
      if Created(k) {
        SameSection(a, b, k);
      } else if !k.Login? {
        assert Lookup(a, Place(None, k)) == Lookup(b, Place(None, k));
      }
    }
    hide Lookup, Leaf, Present, Created;
    SameEntry(a, b);
  }

  lemma SameSection(a: Doc, b: Doc, section: Key)
    requires Created(section) && Present(a, section) && Present(b, section)
    requires forall p: Place | Leaf(p) :: Lookup(a, p) == Lookup(b, p)
    ensures Get(a, section) == Get(b, section)
  {
    forall k: Key ensures Get(a[section].entries, k) == Get(b[section].entries, k) {
      assert Leaf(Place(Some(section), k));
      assert Lookup(a, Place(Some(section), k)) == Lookup(b, Place(Some(section), k));
    }
    SameEntry(a[section].entries, b[section].entries);
  }

  /** Saving the same settings a second time leaves the very same document. */
  lemma SaveIsIdempotent(env: Environment, accepts: Validator, doc: Doc, s: Settings)
    requires Loadable(env, accepts, doc) && CanonicalSettings(env, accepts, s)
    ensures Applied(env, Applied(env, doc, s), s) == Applied(env, doc, s)
  {
    var once, twice := Applied(env, doc, s), Applied(env, Applied(env, doc, s), s);
    hide Applied, Loadable, CanonicalSettings, Lookup, Leaf, Created, Present, Get;
    forall section: Key | Created(section) ensures Present(once, section) && Present(twice, section) {
      SavedSections(env, doc, s, section);
      SavedSections(env, once, s, section);
    }
    forall p: Place | Leaf(p) ensures Lookup(twice, p) == Lookup(once, p) {
      SaveTwice(env, accepts, doc, s, p);
    }
    LoginTwice(env, accepts, doc, s);
    SameDocument(twice, once);
  }

  // ---------------------------------------------------------------- the login section

  /** There is a login section, and nothing in it. */
  predicate Hollow(doc: Doc) { Get(doc, Login) == Some(Map(map[])) }

  lemma RowKeepsLogin(env: Environment, doc: Doc, k: Key, v: Value)
    requires Section(k) != Some(Login) && k != Login
    ensures Get(RowApplied(env, doc, k, v), Login) == Get(doc, Login)
  {
    hide Written, Section;
  }

  lemma {:induction false} RowsKeepLogin(env: Environment, doc: Doc, get: Key -> Value, rows: seq<Key>)
    requires forall k | k in rows :: Section(k) != Some(Login) && k != Login
    ensures Get(RowsApplied(env, doc, get, rows), Login) == Get(doc, Login)
  {
    if rows != [] {
      var init, last := rows[..|rows| - 1], rows[|rows| - 1];
      assert rows == init + [last];
      hide RowApplied, Section;
      RowsKeepLogin(env, doc, get, init);
      RowKeepsLogin(env, RowsApplied(env, doc, get, init), last, get(last));
    }
  }

  lemma TableKeepsLogin(env: Environment, doc: Doc, get: Key -> Value)
    ensures Get(RowsApplied(env, doc, get, OWNED_SETTINGS), Login) == Get(doc, Login)
  {
    forall k | k in OWNED_SETTINGS ensures Section(k) != Some(Login) && k != Login {
      TableKeyOf(k);
    }
    hide RowsApplied, Section;
    RowsKeepLogin(env, doc, get, OWNED_SETTINGS);
  }

  lemma NestedHollow(env: Environment, doc: Doc, k: Key, v: Value)
    ensures Hollow(NestedApplied(env, doc, k, v)) ==> Hollow(doc)
  {
    hide IsUnchanged, Encode, DefaultOf;
    var section := SectionMap(doc, Login);
    assert k in section[k := Encode(v)];
  }

  /** A save that takes the last key out of the login section takes the section out with it: an empty one is left only
      where an empty one was. */
  lemma LoginIsNeverLeftEmpty(env: Environment, doc: Doc, s: Settings)
    ensures Hollow(Applied(env, doc, s)) ==> Hollow(doc)
  {
    var d1 := RowsApplied(env, doc, s.get, OWNED_SETTINGS);
    var d2 := ClientsApplied(env, d1, s.clients);
    var d3 := RowApplied(env, d2, SecurityProfile, s.get(SecurityProfile));
    var d4 := NestedApplied(env, d3, Mode, s.get(Mode));
    var d5 := NestedApplied(env, d4, AutoLogin, s.get(AutoLogin));
    LoginKeys(SecurityProfile);
    hide RowsApplied, RowApplied, NestedApplied, Section, WrittenClients, ModeOf, Updated;
    TableKeepsLogin(env, doc, s.get);
    assert Get(d2, Login) == Get(d1, Login);
    RowKeepsLogin(env, d2, SecurityProfile, s.get(SecurityProfile));
    NestedHollow(env, d3, Mode, s.get(Mode));
    NestedHollow(env, d4, AutoLogin, s.get(AutoLogin));
    NestedHollow(env, d5, TwoStep, s.get(TwoStep));
  }
}
