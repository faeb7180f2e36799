/** What the registry remembers of plugins and policy: which ones failed to load, how often the others failed, and
    what a source declared. */
module HookPlugins {
  import opened Common
  import opened Hooks
  import opened HookDeclarations

  // ---------------------------------------------------------------- which plugins are recorded as failed

  /** Declaration `i` fails: its plugin does not work, or the name is taken. */
  predicate FailsAt(loaded: set<string>, plugins: seq<Declared>, outcomes: Outcomes, i: nat)
    requires i < |plugins|
  {
    outcomes(plugins[i].name) != Works || plugins[i].name in loaded
    || exists j | 0 <= j < i :: plugins[j].name == plugins[i].name
  }

  function FailedNames(loaded: set<string>, plugins: seq<Declared>, outcomes: Outcomes): seq<string> {
    if plugins == [] then []
    else
      var n := |plugins| - 1;
      FailedNames(loaded, plugins[..n], outcomes)
      + if FailsAt(loaded, plugins, outcomes, n) then [plugins[n].name] else []
  }

  function RecordedIn(failed: map<string, seq<string>>, source: string): seq<string> {
    if source in failed then failed[source] else []
  }

  lemma OneRecorded(r: Registry, d: Declared, source: string, outcome: Outcome)
    ensures var failed := WithPlugin(r, d, source, outcome).failedPlugins;
            && RecordedIn(failed, source)
               == RecordedIn(r.failedPlugins, source)
                  + (if outcome != Works || IsLoaded(r, d.name) then [d.name] else [])
            && forall other | other != source :: RecordedIn(failed, other) == RecordedIn(r.failedPlugins, other)
  {
    hide IsLoaded;
  }

  lemma {:induction false} PluginsRecorded(r: Registry, plugins: seq<Declared>, source: string, outcomes: Outcomes)
    ensures var failed := WithPlugins(r, plugins, source, outcomes).failedPlugins;
            && RecordedIn(failed, source)
               == RecordedIn(r.failedPlugins, source) + FailedNames(NamesOf(r.plugins), plugins, outcomes)
            && forall other | other != source :: RecordedIn(failed, other) == RecordedIn(r.failedPlugins, other)
  {
    if plugins != [] {
      var n := |plugins| - 1;
      var init, d := plugins[..n], plugins[n];
      PluginsRecorded(r, init, source, outcomes);
      OneRecorded(WithPlugins(r, init, source, outcomes), d, source, outcomes(d.name));
      LoadedExactly(r, init, source, outcomes, d.name);
      LoadedIsMember(r, d.name);
      assert forall j | 0 <= j < n :: plugins[j] == init[j];
      assert outcomes(d.name) == Works ==>
          (FailsAt(NamesOf(r.plugins), plugins, outcomes, n)
           <==> IsLoaded(WithPlugins(r, init, source, outcomes), d.name));
      hide IsLoaded, WithPlugin, NamesOf, FailsAt, RecordedIn;
      RecordedOnTop(RecordedIn(r.failedPlugins, source), FailedNames(NamesOf(r.plugins), init, outcomes),
                    if FailsAt(NamesOf(r.plugins), plugins, outcomes, n) then [d.name] else []);
    }
  }

  lemma RecordedOnTop(a: seq<string>, b: seq<string>, c: seq<string>)
    ensures a + (b + c) == a + b + c
  {
  }

  lemma {:induction false} CommandsLeaveFailed(r: Registry, section: HooksSection, hooks: seq<Hook>)
    ensures WithCommands(r, section, hooks, SETTINGS).failedPlugins == r.failedPlugins
  {
    if hooks != [] {
      CommandsLeaveFailed(r, section, hooks[..|hooks| - 1]);
    }
  }

  /** After settings.yaml has been replaced, its failed plugins are exactly those of its declarations that fail, in
      order; nothing of an earlier load is left, and nothing of another source is touched. */
  lemma FailedPluginsExactly(r: Registry, section: HooksSection, plugins: seq<Declared>, outcomes: Outcomes)
    ensures var failed := Configured(Dropped(r, SETTINGS), section, plugins, SETTINGS, outcomes).failedPlugins;
            && RecordedIn(failed, SETTINGS) == FailedNames(Elsewhere(r.plugins), plugins, outcomes)
            && forall other | other != SETTINGS :: RecordedIn(failed, other) == RecordedIn(r.failedPlugins, other)
  {
    var dropped := Dropped(r, SETTINGS);
    var announced := Announced(dropped, section, SETTINGS);
    CommandsLeave(dropped, section, HOOK_NAMES);
    CommandsLeaveFailed(dropped, section, HOOK_NAMES);
    assert announced.failedPlugins == dropped.failedPlugins && announced.plugins == dropped.plugins;
    NamesElsewhere(r);
    hide WithCommands, WithPlugins, NamesOf, Elsewhere;
    PluginsRecorded(announced, plugins, SETTINGS, outcomes);
    hide *;
    EmptyInFront(FailedNames(NamesOf(dropped.plugins), plugins, outcomes));
    NothingRecorded(r);
  }

  lemma EmptyInFront(s: seq<string>)
    ensures [] + s == s
  {
  }

  lemma NothingRecorded(r: Registry)
    ensures RecordedIn(Dropped(r, SETTINGS).failedPlugins, SETTINGS) == []
    ensures forall other | other != SETTINGS ::
              RecordedIn(Dropped(r, SETTINGS).failedPlugins, other) == RecordedIn(r.failedPlugins, other)
  {
    hide NotFrom, PluginsNotFrom, RetiredShell, RetiredPlugins;
  }

  lemma NamesElsewhere(r: Registry)
    ensures NamesOf(Dropped(r, SETTINGS).plugins) == Elsewhere(r.plugins)
  {
    forall p ensures p in Dropped(r, SETTINGS).plugins <==> p in r.plugins && p.source != SETTINGS {
      KeptPlugins(r.plugins, p);
    }
    hide Dropped;
  }

  // ---------------------------------------------------------------- how often a plugin failed

  /** A dispatch counts one failure for each plugin that fails in a hook it implements, and changes nothing else. */
  lemma FailuresCounted(r: Registry, hook: Hook, f: Failures, i: nat, h: Hook)
    requires i < |r.plugins| && h in r.plugins[i].failures
    ensures var before, after := r.plugins[i], Dispatched(r, hook, f).plugins;
            && |after| == |r.plugins| && after[i].name == before.name && after[i].source == before.source
            && after[i].failures.Keys == before.failures.Keys
            && after[i].failures[h] == before.failures[h] + if h == hook && before.name in f.plugins then 1 else 0
  {
    hide RunHooks;
  }

  /** A count is kept in one place: in the entry of a command, or, while the command is not declared, retired. */
  lemma CountInOnePlace(r: Registry, key: ShellKey)
    ensures var r' := WithShellHook(r, key);
            && |r'.shellHooks| == |r.shellHooks| + 1
            && r'.shellHooks[|r.shellHooks|].failures + CountOf(r'.retiredShell, key) == CountOf(r.retiredShell, key)
            && forall other | other != key :: CountOf(r'.retiredShell, other) == CountOf(r.retiredShell, other)
  {
  }

  predicate OnlyOne(plugins: seq<Plugin>, p: Plugin) {
    p in plugins && forall q | q in plugins && q.name == p.name :: q == p
  }

  lemma {:induction false} CountRetired(retired: map<(string, string), map<Hook, nat>>, plugins: seq<Plugin>, p: Plugin)
    requires OnlyOne(plugins, p) && p.source == SETTINGS
    ensures var after := RetiredPlugins(retired, plugins, SETTINGS);
            (p.name, SETTINGS) in after && after[(p.name, SETTINGS)] == p.failures
  {
    var init, last := plugins[..|plugins| - 1], plugins[|plugins| - 1];
    assert plugins == init + [last];
    if last != p {
      assert last in plugins && forall q | q in init :: q in plugins;
      CountRetired(retired, init, p);
    }
  }

  lemma {:induction false} NothingRetired(retired: map<(string, string), map<Hook, nat>>, plugins: seq<Plugin>,
                                          name: string)
    requires (name, SETTINGS) !in retired && forall q | q in plugins :: q.name != name
    ensures (name, SETTINGS) !in RetiredPlugins(retired, plugins, SETTINGS)
  {
    if plugins != [] {
      var init, last := plugins[..|plugins| - 1], plugins[|plugins| - 1];
      assert plugins == init + [last];
      assert last in plugins && forall q | q in init :: q in plugins;
      NothingRetired(retired, init, name);
    }
  }

  lemma {:induction false} CommandsLeaveRetired(r: Registry, section: HooksSection, hooks: seq<Hook>)
    ensures WithCommands(r, section, hooks, SETTINGS).retiredPlugins == r.retiredPlugins
  {
    if hooks != [] {
      CommandsLeaveRetired(r, section, hooks[..|hooks| - 1]);
    }
  }

  /** Configuring a single declaration comes down to that one plugin, over what was left of the registry. */
  lemma OneDeclared(r: Registry, section: HooksSection, d: Declared, outcomes: Outcomes)
    ensures var dropped, announced := Dropped(r, SETTINGS), Announced(Dropped(r, SETTINGS), section, SETTINGS);
            && announced.plugins == dropped.plugins && announced.retiredPlugins == dropped.retiredPlugins
            && Configured(dropped, section, [d], SETTINGS, outcomes)
               == WithPlugin(announced, d, SETTINGS, outcomes(d.name))
  {
    var dropped := Dropped(r, SETTINGS);
    CommandsLeave(dropped, section, HOOK_NAMES);
    CommandsLeaveRetired(dropped, section, HOOK_NAMES);
    var announced := Announced(dropped, section, SETTINGS);
    hide Dropped, WithCommands, WithPlugin;
    assert [d][..0] == [];
    assert WithPlugins(announced, [], SETTINGS, outcomes) == announced;
  }

  lemma NameIsFree(r: Registry, p: Plugin)
    requires OnlyOne(r.plugins, p) && p.source == SETTINGS
    ensures forall q | q in Dropped(r, SETTINGS).plugins :: q.name != p.name
  {
    forall q | q in Dropped(r, SETTINGS).plugins ensures q.name != p.name {
      KeptPlugins(r.plugins, q);
    }
  }

  lemma NotLoaded(r: Registry, name: string)
    requires forall q | q in r.plugins :: q.name != name
    ensures !IsLoaded(r, name)
  {
  }

  predicate CountsAllHooks(p: Plugin) { p.failures.Keys == {BeforeLoad, ConfigSaved, AuditEvent} }

  lemma AllCounts(p: Plugin)
    requires CountsAllHooks(p)
    ensures NO_FAILURES + p.failures == p.failures
  {
  }

  /** A plugin of settings.yaml that a reload declares again goes on counting where it stopped. */
  lemma CountResumes(r: Registry, section: HooksSection, p: Plugin, d: Declared, outcomes: Outcomes)
    requires OnlyOne(r.plugins, p) && p.source == SETTINGS && CountsAllHooks(p)
    requires d.name == p.name && outcomes(d.name) == Works
    ensures p in Configured(Dropped(r, SETTINGS), section, [d], SETTINGS, outcomes).plugins
  {
    var dropped, announced := Dropped(r, SETTINGS), Announced(Dropped(r, SETTINGS), section, SETTINGS);
    OneDeclared(r, section, d, outcomes);
    NameIsFree(r, p);
    NotLoaded(announced, d.name);
    CountRetired(r.retiredPlugins, r.plugins, p);
    assert dropped.retiredPlugins == RetiredPlugins(r.retiredPlugins, r.plugins, SETTINGS);
    AllCounts(p);
    hide Dropped, Announced, Configured, IsLoaded, RetiredPlugins, OnlyOne, CountsAllHooks;
    var after := WithPlugin(announced, d, SETTINGS, Works).plugins;
    assert after[|announced.plugins|] == p;
  }

  /** When configuring it raises in between, the count is lost: it was taken out before, and the plugin that is loaded
      in the end starts at zero. */
  lemma CountIsLost(r: Registry, p: Plugin, d: Declared, first: HooksSection, raising: Outcomes, second: HooksSection,
                    working: Outcomes)
    requires OnlyOne(r.plugins, p) && p.source == SETTINGS && d.name == p.name
    requires raising(d.name) == ConfigureRaises && working(d.name) == Works
    ensures var between := Configured(Dropped(r, SETTINGS), first, [d], SETTINGS, raising);
            Plugin(d.name, SETTINGS, map[BeforeLoad := 0, ConfigSaved := 0, AuditEvent := 0])
            in Configured(Dropped(between, SETTINGS), second, [d], SETTINGS, working).plugins
  {
    var between := Configured(Dropped(r, SETTINGS), first, [d], SETTINGS, raising);
    CountTaken(r, p, d, first, raising);
    var dropped, announced := Dropped(between, SETTINGS), Announced(Dropped(between, SETTINGS), second, SETTINGS);
    OneDeclared(between, second, d, working);
    forall q | q in dropped.plugins ensures q.name != d.name {
      KeptPlugins(between.plugins, q);
    }
    NotLoaded(announced, d.name);
    NothingRetired(between.retiredPlugins, between.plugins, d.name);
    assert dropped.retiredPlugins == RetiredPlugins(between.retiredPlugins, between.plugins, SETTINGS);
    assert NO_FAILURES + map[] == NO_FAILURES;
    hide Dropped, Announced, Configured, IsLoaded, RetiredPlugins, OnlyOne;
    var after := WithPlugin(announced, d, SETTINGS, Works).plugins;
    assert after[|announced.plugins|] == Plugin(d.name, SETTINGS, NO_FAILURES);
  }

  lemma CountTaken(r: Registry, p: Plugin, d: Declared, section: HooksSection, raising: Outcomes)
    requires OnlyOne(r.plugins, p) && p.source == SETTINGS && d.name == p.name
    requires raising(d.name) == ConfigureRaises
    ensures var between := Configured(Dropped(r, SETTINGS), section, [d], SETTINGS, raising);
            (d.name, SETTINGS) !in between.retiredPlugins && forall q | q in between.plugins :: q.name != d.name
  {
    OneDeclared(r, section, d, raising);
    NameIsFree(r, p);
    NotLoaded(Announced(Dropped(r, SETTINGS), section, SETTINGS), d.name);
    hide Dropped, Announced, Configured, IsLoaded, OnlyOne;
  }

  // ---------------------------------------------------------------- policy

  /** A section that declares nothing about strictness or the timeout leaves both as the source declared them before. */
  lemma SilenceKeepsPolicy(r: Registry, section: HooksSection, source: string)
    requires section.strict == None && section.timeout == None
    ensures Strict(WithPolicy(r, section, source)) <==> Strict(r)
    ensures source in r.policy ==> WithPolicy(r, section, source).policy == r.policy
  {
  }
}
