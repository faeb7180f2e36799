/** hooks.py, HookRegistry, and config.py, the load that replaces what settings.yaml declares. Running a command or
    loading a plugin succeeds or fails as the caller of each method says. */
module Hooks {
  import opened Common

  datatype Hook = BeforeLoad | ConfigSaved | AuditEvent

  const HOOK_NAMES := [BeforeLoad, ConfigSaved, AuditEvent]
  const SETTINGS := "settings.yaml"

  datatype ShellKey = ShellKey(hook: Hook, command: string, source: string)

  datatype ShellHook = ShellHook(key: ShellKey, failures: nat, once: bool, ran: bool)

  datatype Plugin = Plugin(name: string, source: string, failures: map<Hook, nat>)

  datatype Policy = Policy(strict: Option<bool>, timeout: Option<real>)

  /** A validated hooks: section; only what the file declares is Some. */
  datatype HooksSection = HooksSection(
    beforeLoad: Option<string>,
    configSaved: Option<string>,
    auditEvent: Option<string>,
    strict: Option<bool>,
    timeout: Option<real>)
  {
    function Command(h: Hook): Option<string> {
      match h case BeforeLoad => beforeLoad case ConfigSaved => configSaved case AuditEvent => auditEvent
    }
  }

  datatype Declared = Declared(name: string, config: string)

  /** What becomes of loading a plugin: it works, it cannot be found or is incompatible, or configuring it raises. */
  datatype Outcome = Works | NotUsable | ConfigureRaises

  type Outcomes = string -> Outcome

  datatype Registry = Registry(
    shellHooks: seq<ShellHook>,
    plugins: seq<Plugin>,
    policy: map<string, Policy>,
    retiredShell: map<ShellKey, nat>,
    retiredPlugins: map<(string, string), map<Hook, nat>>,
    failedPlugins: map<string, seq<string>>)

  const BOOTSTRAP := "bootstrap.yaml"

  /** An explicitly declared settings.yaml value wins over bootstrap.yaml's, which wins over the default. */
  predicate Strict(r: Registry) {
    if SETTINGS in r.policy && r.policy[SETTINGS].strict.Some? then r.policy[SETTINGS].strict.value
    else BOOTSTRAP in r.policy && r.policy[BOOTSTRAP].strict.Some? && r.policy[BOOTSTRAP].strict.value
  }

  // ---------------------------------------------------------------- registry operations on values

  function CountOf(retired: map<ShellKey, nat>, key: ShellKey): nat { if key in retired then retired[key] else 0 }

  function WithShellHook(r: Registry, key: ShellKey): Registry {
    r.(shellHooks := r.shellHooks + [ShellHook(key, CountOf(r.retiredShell, key), false, false)],
       retiredShell := r.retiredShell - {key})
  }

  function NotFrom(hooks: seq<ShellHook>, source: string): seq<ShellHook> {
    if hooks == [] then []
    else NotFrom(hooks[..|hooks| - 1], source)
         + (if hooks[|hooks| - 1].key.source != source then [hooks[|hooks| - 1]] else [])
  }

  function PluginsNotFrom(plugins: seq<Plugin>, source: string): seq<Plugin> {
    if plugins == [] then []
    else PluginsNotFrom(plugins[..|plugins| - 1], source)
         + (if plugins[|plugins| - 1].source != source then [plugins[|plugins| - 1]] else [])
  }

  function RetiredShell(retired: map<ShellKey, nat>, hooks: seq<ShellHook>, source: string): map<ShellKey, nat> {
    if hooks == [] then retired
    else
      var before, h := RetiredShell(retired, hooks[..|hooks| - 1], source), hooks[|hooks| - 1];
      if h.key.source == source then before[h.key := h.failures] else before
  }

  function RetiredPlugins(retired: map<(string, string), map<Hook, nat>>, plugins: seq<Plugin>, source: string)
    : map<(string, string), map<Hook, nat>>
  {
    if plugins == [] then retired
    else
      var before, p := RetiredPlugins(retired, plugins[..|plugins| - 1], source), plugins[|plugins| - 1];
      if p.source == source then before[(p.name, p.source) := p.failures] else before
  }

  /** drop_source */
  function Dropped(r: Registry, source: string): Registry {
    Registry(NotFrom(r.shellHooks, source), PluginsNotFrom(r.plugins, source), r.policy - {source},
             RetiredShell(r.retiredShell, r.shellHooks, source), RetiredPlugins(r.retiredPlugins, r.plugins, source),
             r.failedPlugins - {source})
  }

  predicate IsLoaded(r: Registry, name: string) { exists i | 0 <= i < |r.plugins| :: r.plugins[i].name == name }

  const NO_FAILURES: map<Hook, nat> := map[BeforeLoad := 0, ConfigSaved := 0, AuditEvent := 0]

  function Failed(r: Registry, name: string, source: string): Registry {
    var failed := if source in r.failedPlugins then r.failedPlugins[source] else [];
    r.(failedPlugins := r.failedPlugins[source := failed + [name]])
  }

  /** One plugin: loaded, or recorded as failed. Its retired counters are taken before it is configured. */
  function WithPlugin(r: Registry, d: Declared, source: string, outcome: Outcome): Registry {
    var key := (d.name, source);
    if IsLoaded(r, d.name) || outcome.NotUsable? then Failed(r, d.name, source)
    else
      var taken := r.(retiredPlugins := r.retiredPlugins - {key});
      if outcome.ConfigureRaises? then Failed(taken, d.name, source)
      else
        var failures := NO_FAILURES + (if key in r.retiredPlugins then r.retiredPlugins[key] else map[]);
        taken.(plugins := r.plugins + [Plugin(d.name, source, failures)])
  }

  function WithPlugins(r: Registry, plugins: seq<Declared>, source: string, outcomes: Outcomes): Registry {
    if plugins == [] then r
    else
      var d := plugins[|plugins| - 1];
      WithPlugin(WithPlugins(r, plugins[..|plugins| - 1], source, outcomes), d, source, outcomes(d.name))
  }

  predicate SomeFail(r: Registry, plugins: seq<Declared>, source: string, outcomes: Outcomes) {
    plugins != []
    && (SomeFail(r, plugins[..|plugins| - 1], source, outcomes)
        || !outcomes(plugins[|plugins| - 1].name).Works?
        || IsLoaded(WithPlugins(r, plugins[..|plugins| - 1], source, outcomes), plugins[|plugins| - 1].name))
  }

  function WithCommands(r: Registry, section: HooksSection, hooks: seq<Hook>, source: string): Registry {
    if hooks == [] then r
    else
      var before, h := WithCommands(r, section, hooks[..|hooks| - 1], source), hooks[|hooks| - 1];
      if Truthy(section.Command(h)) then WithShellHook(before, ShellKey(h, section.Command(h).value, source))
      else before
  }

  function WithPolicy(r: Registry, section: HooksSection, source: string): Registry {
    var old' := if source in r.policy then r.policy[source] else Policy(None, None);
    r.(policy := r.policy[source := Policy(if section.strict.Some? then section.strict else old'.strict,
                                           if section.timeout.Some? then section.timeout else old'.timeout)])
  }

  function Announced(r: Registry, section: HooksSection, source: string): Registry {
    WithPolicy(WithCommands(r, section, HOOK_NAMES, source), section, source)
  }

  /** configure_from_sections; it fails when a plugin failed and the policy, as just declared, is strict. */
  function Configured(r: Registry, section: HooksSection, plugins: seq<Declared>, source: string, outcomes: Outcomes)
    : Registry
  {
    WithPlugins(Announced(r, section, source), plugins, source, outcomes)
  }

  predicate ConfigureFails(r: Registry, section: HooksSection, plugins: seq<Declared>, source: string,
                           outcomes: Outcomes)
  {
    SomeFail(Announced(r, section, source), plugins, source, outcomes)
    && Strict(Configured(r, section, plugins, source, outcomes))
  }

  /** The shell hooks of one dispatch: each of that hook runs, unless it is spent, and counts its failure. */
  function RunHook(h: ShellHook, hook: Hook, fails: set<ShellKey>): ShellHook {
    if !Runs(h, hook) then h
    else h.(ran := true, failures := h.failures + if h.key in fails then 1 else 0)
  }

  predicate Runs(h: ShellHook, hook: Hook) { h.key.hook == hook && !(h.once && h.ran) }

  function RunHooks(hooks: seq<ShellHook>, hook: Hook, fails: set<ShellKey>): seq<ShellHook> {
    seq(|hooks|, i requires 0 <= i < |hooks| => RunHook(hooks[i], hook, fails))
  }

  /** What runs and fails in one dispatch: shell commands by key, plugins by name. */
  datatype Failures = Failures(shell: set<ShellKey>, plugins: set<string>)

  function RunPlugin(p: Plugin, hook: Hook, fails: set<string>): Plugin {
    if p.name in fails && hook in p.failures then p.(failures := p.failures[hook := p.failures[hook] + 1]) else p
  }

  function RunPlugins(plugins: seq<Plugin>, hook: Hook, fails: set<string>): seq<Plugin> {
    seq(|plugins|, i requires 0 <= i < |plugins| => RunPlugin(plugins[i], hook, fails))
  }

  /** _dispatch */
  function Dispatched(r: Registry, hook: Hook, f: Failures): Registry {
    r.(shellHooks := RunHooks(r.shellHooks, hook, f.shell), plugins := RunPlugins(r.plugins, hook, f.plugins))
  }

  predicate DispatchErrs(r: Registry, hook: Hook, f: Failures) {
    (exists i | 0 <= i < |r.shellHooks| :: Runs(r.shellHooks[i], hook) && r.shellHooks[i].key in f.shell)
    || exists i | 0 <= i < |r.plugins| :: r.plugins[i].name in f.plugins && hook in r.plugins[i].failures
  }

  // ---------------------------------------------------------------- the registry

  class HookRegistry {
    var shellHooks: seq<ShellHook>
    var plugins: seq<Plugin>
    var policy: map<string, Policy>
    var retiredShell: map<ShellKey, nat>
    var retiredPlugins: map<(string, string), map<Hook, nat>>
    var failedPlugins: map<string, seq<string>>

    function State(): Registry
      reads this
    {
      Registry(shellHooks, plugins, policy, retiredShell, retiredPlugins, failedPlugins)
    }

    constructor ()
      ensures State() == Registry([], [], map[], map[], map[], map[])
    {
      shellHooks, plugins, policy, retiredShell, retiredPlugins, failedPlugins := [], [], map[], map[], map[], map[];
    }

    method AddShellHook(key: ShellKey)
      modifies this
      ensures State() == WithShellHook(old(State()), key)
    {
      var entry := ShellHook(key, 0, false, false);
      if key in retiredShell {
        entry := entry.(failures := retiredShell[key]);
        retiredShell := retiredShell - {key};
      }
      shellHooks := shellHooks + [entry];
      assert old(retiredShell) - {key} == retiredShell;
    }

    /** drop_source */
    method DropSource(source: string)
      modifies this
      ensures State() == Dropped(old(State()), source)
    {
      var kept: seq<ShellHook> := [];
      for i := 0 to |shellHooks|
        invariant unchanged(`shellHooks, `plugins, `policy, `retiredPlugins, `failedPlugins)
        invariant retiredShell == RetiredShell(old(retiredShell), shellHooks[..i], source)
        invariant kept == NotFrom(shellHooks[..i], source)
      {
        assert shellHooks[..i + 1][..i] == shellHooks[..i];
        var h := shellHooks[i];
        if h.key.source == source {
          retiredShell := retiredShell[h.key := h.failures];
        } else {
          kept := kept + [h];
        }
      }
      assert shellHooks[..|shellHooks|] == shellHooks;
      shellHooks := kept;
      DropPlugins(source);
      failedPlugins := failedPlugins - {source};
      policy := policy - {source};
    }

    method DropPlugins(source: string)
      modifies `plugins, `retiredPlugins
      ensures plugins == PluginsNotFrom(old(plugins), source)
      ensures retiredPlugins == RetiredPlugins(old(retiredPlugins), old(plugins), source)
    {
      var kept: seq<Plugin> := [];
      for i := 0 to |plugins|
        invariant unchanged(`plugins)
        invariant retiredPlugins == RetiredPlugins(old(retiredPlugins), plugins[..i], source)
        invariant kept == PluginsNotFrom(plugins[..i], source)
      {
        assert plugins[..i + 1][..i] == plugins[..i];
        var p := plugins[i];
        if p.source == source {
          retiredPlugins := retiredPlugins[(p.name, p.source) := p.failures];
        } else {
          kept := kept + [p];
        }
      }
      assert plugins[..|plugins|] == plugins;
      plugins := kept;
    }

    method Restore(snap: Registry)
      modifies this
      ensures State() == snap
    {
      shellHooks, plugins, policy := snap.shellHooks, snap.plugins, snap.policy;
      retiredShell, retiredPlugins, failedPlugins := snap.retiredShell, snap.retiredPlugins, snap.failedPlugins;
    }

    method SetPolicy(section: HooksSection, source: string)
      modifies this
      ensures State() == WithPolicy(old(State()), section, source)
    {
      var declared := if source in policy then policy[source] else Policy(None, None);
      if section.strict.Some? {
        declared := declared.(strict := section.strict);
      }
      if section.timeout.Some? {
        declared := declared.(timeout := section.timeout);
      }
      policy := policy[source := declared];
    }

    /** load_plugins; `failed` says whether a HookError is raised. */
    method LoadPlugins(declared: seq<Declared>, source: string, outcomes: Outcomes) returns (failed: bool)
      modifies this
      ensures State() == WithPlugins(old(State()), declared, source, outcomes)
      ensures failed == (SomeFail(old(State()), declared, source, outcomes) && Strict(State()))
    {
      var some := false;
      for i := 0 to |declared|
        invariant State() == WithPlugins(old(State()), declared[..i], source, outcomes)
        invariant some == SomeFail(old(State()), declared[..i], source, outcomes)
      {
        assert declared[..i + 1][..i] == declared[..i];
        some := some || !outcomes(declared[i].name).Works? || IsLoaded(State(), declared[i].name);
        AddPlugin(declared[i], source, outcomes(declared[i].name));
      }
      assert declared[..|declared|] == declared;
      failed := some && Strict(State());
    }

    /** add_plugin and register_plugin_object, with load_plugins' handling of their failure. */
    method AddPlugin(d: Declared, source: string, outcome: Outcome)
      modifies this
      ensures State() == WithPlugin(old(State()), d, source, outcome)
    {
      if !IsLoaded(State(), d.name) && !outcome.NotUsable? {
        var failures := NO_FAILURES;
        if (d.name, source) in retiredPlugins {
          failures := failures + retiredPlugins[(d.name, source)];
        }
        assert NO_FAILURES + map[] == NO_FAILURES;
        retiredPlugins := retiredPlugins - {(d.name, source)};
        if outcome.Works? {
          plugins := plugins + [Plugin(d.name, source, failures)];
          return;
        }
      }
      var failed := if source in failedPlugins then failedPlugins[source] else [];
      failedPlugins := failedPlugins[source := failed + [d.name]];
    }

    /** configure_from_sections */
    method ConfigureFromSections(section: HooksSection, declared: seq<Declared>, source: string, outcomes: Outcomes)
      returns (failed: bool)
      modifies this
      ensures State() == Configured(old(State()), section, declared, source, outcomes)
      ensures failed == ConfigureFails(old(State()), section, declared, source, outcomes)
    {
      AddCommands(section, HOOK_NAMES, source);
      SetPolicy(section, source);
      failed := LoadPlugins(declared, source, outcomes);
    }

    method AddCommands(section: HooksSection, hooks: seq<Hook>, source: string)
      modifies this
      ensures State() == WithCommands(old(State()), section, hooks, source)
    {
      for i := 0 to |hooks|
        invariant State() == WithCommands(old(State()), section, hooks[..i], source)
      {
        assert hooks[..i + 1][..i] == hooks[..i];
        var command := section.Command(hooks[i]);
        if Truthy(command) {
          AddShellHook(ShellKey(hooks[i], command.value, source));
        }
      }
      assert hooks[..|hooks|] == hooks;
    }

    /** replace_source: a failure puts the registry back exactly as it was. */
    method ReplaceSource(section: HooksSection, declared: seq<Declared>, source: string, outcomes: Outcomes)
      returns (failed: bool)
      modifies this
      ensures failed == ConfigureFails(Dropped(old(State()), source), section, declared, source, outcomes)
      ensures State() == if failed then old(State())
                         else Configured(Dropped(old(State()), source), section, declared, source, outcomes)
    {
      var snap := State();
      DropSource(source);
      failed := ConfigureFromSections(section, declared, source, outcomes);
      if failed {
        Restore(snap);
      }
    }

    /** _dispatch; `errs` says whether anything failed. */
    method Dispatch(hook: Hook, f: Failures) returns (errs: bool)
      modifies this
      ensures State() == Dispatched(old(State()), hook, f) && errs == DispatchErrs(old(State()), hook, f)
    {
      errs := false;
      for i := 0 to |shellHooks|
        invariant |shellHooks| == |old(shellHooks)|
        invariant forall j | 0 <= j < i :: shellHooks[j] == RunHook(old(shellHooks)[j], hook, f.shell)
        invariant forall j | i <= j < |shellHooks| :: shellHooks[j] == old(shellHooks)[j]
        invariant errs <==> exists j | 0 <= j < i :: Runs(old(shellHooks)[j], hook) && old(shellHooks)[j].key in f.shell
        invariant unchanged(`plugins, `policy, `retiredShell, `retiredPlugins, `failedPlugins)
      {
        var h := shellHooks[i];
        if Runs(h, hook) {
          h := h.(ran := true);
          if h.key in f.shell {
            h := h.(failures := h.failures + 1);
            errs := true;
          }
          shellHooks := shellHooks[i := h];
        }
      }
      var pluginErrs := DispatchPlugins(hook, f.plugins);
      errs := errs || pluginErrs;
    }

    method DispatchPlugins(hook: Hook, fails: set<string>) returns (errs: bool)
      modifies `plugins
      ensures plugins == RunPlugins(old(plugins), hook, fails)
      ensures errs <==> exists i | 0 <= i < |old(plugins)| ::
                          old(plugins)[i].name in fails && hook in old(plugins)[i].failures
    {
      errs := false;
      for i := 0 to |plugins|
        invariant |plugins| == |old(plugins)|
        invariant forall j | 0 <= j < i :: plugins[j] == RunPlugin(old(plugins)[j], hook, fails)
        invariant forall j | i <= j < |plugins| :: plugins[j] == old(plugins)[j]
        invariant errs <==> exists j | 0 <= j < i :: old(plugins)[j].name in fails && hook in old(plugins)[j].failures
      {
        var p := plugins[i];
        if p.name in fails && hook in p.failures {
          errs := true;
          plugins := plugins[i := p.(failures := p.failures[hook := p.failures[hook] + 1])];
        }
      }
    }
  }
}
