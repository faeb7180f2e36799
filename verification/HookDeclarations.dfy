/** What a load leaves declared, and when it raises: over the fields of the section and the outcomes of its plugins. */
module HookDeclarations {
  import opened Common
  import opened Hooks
  import opened HookLoads

  // ---------------------------------------------------------------- the commands of settings.yaml

  /** The section names this command for this hook; a blank command is none. */
  predicate Names(section: HooksSection, hook: Hook, command: string) {
    command != ""
    && Some(command) == match hook
                        case BeforeLoad => section.beforeLoad
                        case ConfigSaved => section.configSaved
                        case AuditEvent => section.auditEvent
  }

  lemma AddedPresent(r: Registry, added: ShellKey, key: ShellKey)
    ensures Present(WithShellHook(r, added), key) <==> Present(r, key) || key == added
  {
    var r' := WithShellHook(r, added);
    assert r'.shellHooks[|r.shellHooks|].key == added;
    assert forall i | 0 <= i < |r.shellHooks| :: r'.shellHooks[i] == r.shellHooks[i];
  }

  lemma {:induction false} CommandsPresent(r: Registry, section: HooksSection, hooks: seq<Hook>, key: ShellKey)
    ensures Present(WithCommands(r, section, hooks, SETTINGS), key)
            <==> Present(r, key)
                 || (key.source == SETTINGS && key.hook in hooks && Names(section, key.hook, key.command))
  {
    if hooks != [] {
      var init, h := hooks[..|hooks| - 1], hooks[|hooks| - 1];
      assert hooks == init + [h];
      hide Present;
      CommandsPresent(r, section, init, key);
      if Truthy(section.Command(h)) {
        AddedPresent(WithCommands(r, section, init, SETTINGS), ShellKey(h, section.Command(h).value, SETTINGS), key);
      }
    }
  }

  lemma EveryHookIsRead(hook: Hook)
    ensures hook in HOOK_NAMES
  {
    assert HOOK_NAMES[0] == BeforeLoad && HOOK_NAMES[1] == ConfigSaved && HOOK_NAMES[2] == AuditEvent;
  }

  lemma {:induction false} KeptHooks(hooks: seq<ShellHook>, h: ShellHook)
    ensures h in NotFrom(hooks, SETTINGS) <==> h in hooks && h.key.source != SETTINGS
  {
    if hooks != [] {
      KeptHooks(hooks[..|hooks| - 1], h);
      assert hooks == hooks[..|hooks| - 1] + [hooks[|hooks| - 1]];
    }
  }

  lemma PresentIsMember(r: Registry, key: ShellKey)
    ensures Present(r, key) <==> exists h | h in r.shellHooks :: h.key == key
  {
    if Present(r, key) {
      var i :| 0 <= i < |r.shellHooks| && r.shellHooks[i].key == key;
      assert r.shellHooks[i] in r.shellHooks;
    }
  }

  lemma DroppedPresent(r: Registry, key: ShellKey)
    ensures Present(Dropped(r, SETTINGS), key) <==> key.source != SETTINGS && Present(r, key)
  {
    PresentIsMember(r, key);
    PresentIsMember(Dropped(r, SETTINGS), key);
    forall h ensures h in Dropped(r, SETTINGS).shellHooks <==> h in r.shellHooks && h.key.source != SETTINGS {
      KeptHooks(r.shellHooks, h);
    }
    hide Dropped, Present;
  }

  /** The entries of settings.yaml are exactly the commands of what is declared. */
  ghost predicate Declares(m: Manager) {
    forall key: ShellKey | key.source == SETTINGS ::
      Present(m.registry, key)
      <==> m.declared.Some? && Names(m.declared.value.0, key.hook, key.command)
  }

  lemma ConfiguredPresent(r: Registry, section: HooksSection, plugins: seq<Declared>, outcomes: Outcomes, key: ShellKey)
    ensures Present(Configured(Dropped(r, SETTINGS), section, plugins, SETTINGS, outcomes), key)
            <==> if key.source == SETTINGS then Names(section, key.hook, key.command) else Present(r, key)
  {
    var dropped := Dropped(r, SETTINGS);
    DroppedPresent(r, key);
    hide Dropped, WithCommands, WithPlugins, NotFrom;
    CommandsPresent(dropped, section, HOOK_NAMES, key);
    EveryHookIsRead(key.hook);
    PluginsLeaveShellHooks(Announced(dropped, section, SETTINGS), plugins, outcomes);
  }

  lemma CommitDeclares(m: Manager, staged: Staged, outcomes: Outcomes)
    requires Declares(m)
    ensures Declares(Committed(m, staged, outcomes).0)
  {
    var m' := Committed(m, staged, outcomes).0;
    forall key: ShellKey | key.source == SETTINGS
      ensures Present(m'.registry, key) <==> m'.declared.Some? && Names(m'.declared.value.0, key.hook, key.command)
    {
      DroppedPresent(m.registry, key);
      if staged.Parsed? {
        ConfiguredPresent(m.registry, staged.section, staged.plugins, outcomes, key);
      }
      hide Configured, ConfigureFails, Names, Dropped, Present;
    }
  }

  lemma DispatchDeclares(m: Manager, hook: Hook, f: Failures)
    requires Declares(m)
    ensures Declares(m.(registry := Dispatched(m.registry, hook, f)))
  {
    var r' := Dispatched(m.registry, hook, f);
    forall key: ShellKey ensures Present(r', key) <==> Present(m.registry, key) {
      assert forall i | 0 <= i < |r'.shellHooks| :: r'.shellHooks[i].key == m.registry.shellHooks[i].key;
    }
    hide Present, Names, Dispatched;
  }

  /** Over any sequence of loads, failed loads and dispatches: the shell hooks of settings.yaml are exactly the commands
      of the section last loaded, for each of the three hooks. */
  lemma {:induction false} CommandsAreDeclared(first: Manager, steps: seq<Step>)
    requires Starting(first) && first.declared == None
    ensures Declares(After(first, steps))
  {
    if steps != [] {
      var init, e := steps[..|steps| - 1], steps[|steps| - 1];
      CommandsAreDeclared(first, init);
      var m := After(first, init);
      hide Declares, Committed, Dispatched, DispatchErrs, Strict;
      var d := Dispatches(e);
      if d.Some? {
        DispatchDeclares(m, d.value.0, d.value.1);
      }
      if e.Load? {
        var m' := if e.local then m else m.(registry := Dispatched(m.registry, BeforeLoad, e.before));
        CommitDeclares(m', e.staged, e.outcomes);
      }
    }
  }

  // ---------------------------------------------------------------- when a load raises

  /** A plugin that cannot be used, is named twice, or is loaded from elsewhere already. */
  predicate PluginFails(loaded: set<string>, plugins: seq<Declared>, outcomes: Outcomes) {
    exists i | 0 <= i < |plugins| ::
      || !outcomes(plugins[i].name).Works?
      || plugins[i].name in loaded
      || exists j | 0 <= j < i :: plugins[j].name == plugins[i].name
  }

  /** What the section says, or else bootstrap.yaml, or else not. */
  predicate StrictUnder(r: Registry, section: HooksSection) {
    section.strict == Some(true)
    || (section.strict == None && BOOTSTRAP in r.policy && r.policy[BOOTSTRAP].strict == Some(true))
  }

  lemma {:induction false} LoadedExactly(r: Registry, plugins: seq<Declared>, source: string, outcomes: Outcomes,
                                         name: string)
    ensures IsLoaded(WithPlugins(r, plugins, source, outcomes), name)
            <==> IsLoaded(r, name)
                 || exists j | 0 <= j < |plugins| :: plugins[j].name == name && outcomes(name).Works?
  {
    if plugins != [] {
      var init, d := plugins[..|plugins| - 1], plugins[|plugins| - 1];
      LoadedExactly(r, init, source, outcomes, name);
      var before := WithPlugins(r, init, source, outcomes);
      OnePluginLoaded(before, d, source, outcomes(d.name), name);
      assert plugins[|init|] == d && forall j | 0 <= j < |init| :: plugins[j] == init[j];
      hide IsLoaded, WithPlugin;
    }
  }

  lemma OnePluginLoaded(r: Registry, d: Declared, source: string, outcome: Outcome, name: string)
    ensures IsLoaded(WithPlugin(r, d, source, outcome), name)
            <==> IsLoaded(r, name) || (d.name == name && outcome.Works?)
  {
    var r' := WithPlugin(r, d, source, outcome);
    if outcome.Works? && !IsLoaded(r, d.name) {
      assert r'.plugins[|r.plugins|].name == d.name;
      assert forall i | 0 <= i < |r.plugins| :: r'.plugins[i] == r.plugins[i];
    }
  }

  function NamesOf(plugins: seq<Plugin>): set<string> { set p | p in plugins :: p.name }

  lemma LoadedIsMember(r: Registry, name: string)
    ensures IsLoaded(r, name) <==> name in NamesOf(r.plugins)
  {
    if IsLoaded(r, name) {
      var i :| 0 <= i < |r.plugins| && r.plugins[i].name == name;
      assert r.plugins[i] in r.plugins;
    }
  }

  lemma {:induction false} FailsExactly(r: Registry, plugins: seq<Declared>, source: string, outcomes: Outcomes)
    ensures SomeFail(r, plugins, source, outcomes) <==> PluginFails(NamesOf(r.plugins), plugins, outcomes)
  {
    if plugins != [] {
      var init, d := plugins[..|plugins| - 1], plugins[|plugins| - 1];
      FailsExactly(r, init, source, outcomes);
      LoadedExactly(r, init, source, outcomes, d.name);
      LoadedIsMember(r, d.name);
      assert plugins[|init|] == d && forall j | 0 <= j < |init| :: plugins[j] == init[j];
      hide IsLoaded, WithPlugins, NamesOf;
    }
  }

  lemma PolicyAfter(r: Registry, section: HooksSection, plugins: seq<Declared>, outcomes: Outcomes)
    ensures Configured(Dropped(r, SETTINGS), section, plugins, SETTINGS, outcomes).policy
            == r.policy[SETTINGS := Policy(section.strict, section.timeout)]
  {
    var dropped := Dropped(r, SETTINGS);
    CommandsLeave(dropped, section, HOOK_NAMES);
    PluginsLeavePolicy(Announced(dropped, section, SETTINGS), plugins, outcomes);
    hide WithCommands, WithPlugins;
  }

  lemma {:induction false} CommandsLeave(r: Registry, section: HooksSection, hooks: seq<Hook>)
    ensures WithCommands(r, section, hooks, SETTINGS).policy == r.policy
    ensures WithCommands(r, section, hooks, SETTINGS).plugins == r.plugins
  {
    if hooks != [] {
      CommandsLeave(r, section, hooks[..|hooks| - 1]);
    }
  }

  lemma {:induction false} PluginsLeavePolicy(r: Registry, plugins: seq<Declared>, outcomes: Outcomes)
    ensures WithPlugins(r, plugins, SETTINGS, outcomes).policy == r.policy
  {
    if plugins != [] {
      PluginsLeavePolicy(r, plugins[..|plugins| - 1], outcomes);
    }
  }

  lemma {:induction false} KeptPlugins(plugins: seq<Plugin>, p: Plugin)
    ensures p in PluginsNotFrom(plugins, SETTINGS) <==> p in plugins && p.source != SETTINGS
  {
    if plugins != [] {
      KeptPlugins(plugins[..|plugins| - 1], p);
      assert plugins == plugins[..|plugins| - 1] + [plugins[|plugins| - 1]];
    }
  }

  lemma StrictAfter(r: Registry, section: HooksSection, plugins: seq<Declared>, outcomes: Outcomes)
    ensures Strict(Configured(Dropped(r, SETTINGS), section, plugins, SETTINGS, outcomes)) <==> StrictUnder(r, section)
  {
    PolicyAfter(r, section, plugins, outcomes);
    hide Configured, Dropped;
  }

  /** The plugins that do not come from settings.yaml. */
  function Elsewhere(plugins: seq<Plugin>): set<string> { set p | p in plugins && p.source != SETTINGS :: p.name }

  lemma ConfigureFailsExactly(r: Registry, section: HooksSection, plugins: seq<Declared>, outcomes: Outcomes)
    ensures ConfigureFails(Dropped(r, SETTINGS), section, plugins, SETTINGS, outcomes)
            <==> StrictUnder(r, section) && PluginFails(Elsewhere(r.plugins), plugins, outcomes)
  {
    var dropped := Dropped(r, SETTINGS);
    StrictAfter(r, section, plugins, outcomes);
    FailsExactly(Announced(dropped, section, SETTINGS), plugins, SETTINGS, outcomes);
    CommandsLeave(dropped, section, HOOK_NAMES);
    assert Announced(dropped, section, SETTINGS).plugins == dropped.plugins;
    forall p ensures p in dropped.plugins <==> p in r.plugins && p.source != SETTINGS {
      KeptPlugins(r.plugins, p);
    }
    assert NamesOf(dropped.plugins) == Elsewhere(r.plugins);
    hide Dropped, Announced, SomeFail, Configured, Strict, StrictUnder, PluginFails;
  }

  lemma DispatchLeaves(r: Registry, before: Failures)
    ensures Dispatched(r, BeforeLoad, before).policy == r.policy
    ensures Elsewhere(Dispatched(r, BeforeLoad, before).plugins) == Elsewhere(r.plugins)
  {
    var plugins := Dispatched(r, BeforeLoad, before).plugins;
    forall name ensures name in Elsewhere(plugins) <==> name in Elsewhere(r.plugins) {
      if name in Elsewhere(plugins) {
        var i :| 0 <= i < |plugins| && plugins[i].source != SETTINGS && plugins[i].name == name;
        assert r.plugins[i] in r.plugins && r.plugins[i].name == name && r.plugins[i].source != SETTINGS;
      }
      if name in Elsewhere(r.plugins) {
        var i :| 0 <= i < |r.plugins| && r.plugins[i].source != SETTINGS && r.plugins[i].name == name;
        assert plugins[i] in plugins && plugins[i].name == name && plugins[i].source != SETTINGS;
      }
    }
  }

  /** on_before_load has a command or plugin that runs and fails, and failures are not tolerated. */
  ghost predicate BeforeLoadRaises(r: Registry, before: Failures) {
    && (|| (exists h | h in r.shellHooks ::
              h.key.hook == BeforeLoad && !(h.once && h.ran) && h.key in before.shell)
        || exists p | p in r.plugins :: p.name in before.plugins && BeforeLoad in p.failures)
    && (if SETTINGS in r.policy && r.policy[SETTINGS].strict != None then r.policy[SETTINGS].strict == Some(true)
        else BOOTSTRAP in r.policy && r.policy[BOOTSTRAP].strict == Some(true))
  }

  lemma BeforeLoadExactly(r: Registry, before: Failures)
    ensures BeforeLoadRaises(r, before) <==> DispatchErrs(r, BeforeLoad, before) && Strict(r)
  {
    if exists i | 0 <= i < |r.shellHooks| :: Runs(r.shellHooks[i], BeforeLoad) && r.shellHooks[i].key in before.shell {
      var i :| 0 <= i < |r.shellHooks| && Runs(r.shellHooks[i], BeforeLoad) && r.shellHooks[i].key in before.shell;
      assert r.shellHooks[i] in r.shellHooks;
    }
    if exists i | 0 <= i < |r.plugins| :: r.plugins[i].name in before.plugins && BeforeLoad in r.plugins[i].failures {
      var i :| 0 <= i < |r.plugins| && r.plugins[i].name in before.plugins && BeforeLoad in r.plugins[i].failures;
      assert r.plugins[i] in r.plugins;
    }
  }

  /** A load raises exactly when on_before_load raises, when the files cannot be staged, or when what they declare is
      new, has a plugin that fails, and is to be strict about it. Otherwise it takes over what it staged. */
  lemma LoadRaisesExactly(m: Manager, local: bool, before: Failures, staged: Staged, outcomes: Outcomes)
    ensures var (m', raised) := LoadedConfig(m, local, before, staged, outcomes);
            && (raised
                <==> || (!local && BeforeLoadRaises(m.registry, before))
                     || staged.StageFails?
                     || (staged.Parsed? && m.declared != Some((staged.section, staged.plugins))
                         && StrictUnder(m.registry, staged.section)
                         && PluginFails(Elsewhere(m.registry.plugins), staged.plugins, outcomes)))
            && (!raised ==>
                  && m'.config == staged.config
                  && m'.declared == if staged.Parsed? then Some((staged.section, staged.plugins)) else None)
  {
    BeforeLoadExactly(m.registry, before);
    DispatchLeaves(m.registry, before);
    var r := if local then m.registry else Dispatched(m.registry, BeforeLoad, before);
    if staged.Parsed? {
      ConfigureFailsExactly(r, staged.section, staged.plugins, outcomes);
    }
    hide Dispatched, DispatchErrs, Strict, ConfigureFails, Configured, Dropped, PluginFails, Elsewhere;
    hide BeforeLoadRaises;
  }
}
