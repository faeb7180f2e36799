/** config.py: loads of a configuration directory, over the hook registry. */
module HookLoads {
  import opened Common
  import opened Hooks

  /** What staging the files comes to: an error, no settings.yaml, or what it declares. `config` stands for settings,
      users and the rest of what the load assigns. */
  datatype Staged =
    | StageFails
    | NoSettings(config: int)
    | Parsed(section: HooksSection, plugins: seq<Declared>, config: int)

  datatype Manager = Manager(registry: Registry, declared: Option<(HooksSection, seq<Declared>)>, config: int)

  /** Staging and committing, the part after on_before_load: the manager after it, and whether it raised. */
  function Committed(m: Manager, staged: Staged, outcomes: Outcomes): (Manager, bool) {
    match staged
    case StageFails => (m, true)
    case NoSettings(config) => (Manager(Dropped(m.registry, SETTINGS), None, config), false)
    case Parsed(section, plugins, config) =>
      if m.declared == Some((section, plugins)) then (m.(config := config), false)
      else if ConfigureFails(Dropped(m.registry, SETTINGS), section, plugins, SETTINGS, outcomes) then (m, true)
      else
        (Manager(Configured(Dropped(m.registry, SETTINGS), section, plugins, SETTINGS, outcomes),
                 Some((section, plugins)), config), false)
  }

  /** _load_config; a local reload skips on_before_load. */
  function LoadedConfig(m: Manager, local: bool, before: Failures, staged: Staged, outcomes: Outcomes)
    : (Manager, bool)
  {
    var m' := if local then m else m.(registry := Dispatched(m.registry, BeforeLoad, before));
    if !local && DispatchErrs(m.registry, BeforeLoad, before) && Strict(m.registry) then (m', true)
    else Committed(m', staged, outcomes)
  }

  class ConfigManager {
    const hooks: HookRegistry
    var declared: Option<(HooksSection, seq<Declared>)>
    var config: int

    function State(): Manager
      reads this, hooks
    {
      Manager(hooks.State(), declared, config)
    }

    constructor (config: int)
      ensures fresh(hooks) && State() == Manager(Registry([], [], map[], map[], map[], map[]), None, config)
    {
      hooks := new HookRegistry();
      declared := None;
      this.config := config;
    }

    method ConfigureHooksFrom(section: HooksSection, plugins: seq<Declared>, outcomes: Outcomes) returns (raised: bool)
      modifies this, hooks
      ensures (State(), raised) == Committed(old(State()), Parsed(section, plugins, old(config)), outcomes)
    {
      if declared == Some((section, plugins)) {
        return false;
      }
      raised := hooks.ReplaceSource(section, plugins, SETTINGS, outcomes);
      if !raised {
        declared := Some((section, plugins));
      }
    }

    /** _load_config: the registry first, because it is the only step of the commit that can fail. */
    method LoadConfig(local: bool, before: Failures, staged: Staged, outcomes: Outcomes) returns (raised: bool)
      modifies this, hooks
      ensures (State(), raised) == LoadedConfig(old(State()), local, before, staged, outcomes)
    {
      if !local {
        var strict := Strict(hooks.State());
        var errs := hooks.Dispatch(BeforeLoad, before);
        if errs && strict {
          return true;
        }
      }
      match staged {
        case StageFails =>
          return true;
        case NoSettings(c) =>
          hooks.DropSource(SETTINGS);
          declared := None;
          config := c;
        case Parsed(section, plugins, c) =>
          raised := ConfigureHooksFrom(section, plugins, outcomes);
          if raised {
            return;
          }
          config := c;
      }
      raised := false;
    }
  }

  /** A load that raises leaves the registry and the manager as on_before_load left them. */
  lemma FailedLoadChangesNothing(m: Manager, local: bool, before: Failures, staged: Staged, outcomes: Outcomes)
    requires LoadedConfig(m, local, before, staged, outcomes).1
    ensures LoadedConfig(m, local, before, staged, outcomes).0
            == if local then m else m.(registry := Dispatched(m.registry, BeforeLoad, before))
  {
  }

  // ---------------------------------------------------------------- histories

  datatype Step =
    | Load(local: bool, before: Failures, staged: Staged, outcomes: Outcomes)
    | Fire(hook: Hook, failures: Failures)

  function Next(m: Manager, e: Step): Manager {
    match e
    case Load(local, before, staged, outcomes) => LoadedConfig(m, local, before, staged, outcomes).0
    case Fire(hook, f) => m.(registry := Dispatched(m.registry, hook, f))
  }

  function After(first: Manager, steps: seq<Step>): Manager {
    if steps == [] then first else Next(After(first, steps[..|steps| - 1]), steps[|steps| - 1])
  }

  predicate Present(r: Registry, key: ShellKey) { exists i | 0 <= i < |r.shellHooks| :: r.shellHooks[i].key == key }

  /** The dispatch a step makes, if it makes one. */
  function Dispatches(e: Step): Option<(Hook, Failures)> {
    match e
    case Load(local, before, _, _) => if local then None else Some((BeforeLoad, before))
    case Fire(hook, f) => Some((hook, f))
  }

  /** A run of this hook's command in this step that failed. */
  predicate FailsIn(m: Manager, e: Step, key: ShellKey) {
    var d := Dispatches(e);
    d.Some? && d.value.0 == key.hook && key in d.value.1.shell && Present(m.registry, key)
  }

  /** How often the command failed since the process started. */
  function FailedRuns(first: Manager, steps: seq<Step>, key: ShellKey): nat {
    if steps == [] then 0
    else
      var init, e := steps[..|steps| - 1], steps[|steps| - 1];
      FailedRuns(first, init, key) + if FailsIn(After(first, init), e, key) then 1 else 0
  }

  /** Nothing of settings.yaml yet; only bootstrap hooks. */
  predicate Starting(m: Manager) {
    (forall i | 0 <= i < |m.registry.shellHooks| :: m.registry.shellHooks[i].key.source != SETTINGS)
    && m.registry.retiredShell == map[]
  }

  predicate UniqueSettings(hooks: seq<ShellHook>) {
    forall i, j | 0 <= i < j < |hooks| && hooks[i].key == hooks[j].key :: hooks[i].key.source != SETTINGS
  }

  /** The registry knows the tally of this key: in its entry, or among the retired counters. */
  predicate Tallied(r: Registry, key: ShellKey, tally: nat) {
    && (forall i | 0 <= i < |r.shellHooks| && r.shellHooks[i].key == key ::
         r.shellHooks[i].failures == tally && !r.shellHooks[i].once)
    && (!Present(r, key) ==> CountOf(r.retiredShell, key) == tally)
  }

  // Dispatching.

  lemma DispatchTallies(r: Registry, hook: Hook, f: Failures, key: ShellKey, tally: nat)
    requires Tallied(r, key, tally)
    ensures Tallied(Dispatched(r, hook, f), key,
                    tally + if hook == key.hook && key in f.shell && Present(r, key) then 1 else 0)
    ensures Present(Dispatched(r, hook, f), key) <==> Present(r, key)
    ensures UniqueSettings(r.shellHooks) ==> UniqueSettings(Dispatched(r, hook, f).shellHooks)
  {
    var r' := Dispatched(r, hook, f);
    assert forall i | 0 <= i < |r.shellHooks| :: r'.shellHooks[i].key == r.shellHooks[i].key;
    if Present(r, key) {
      var i :| 0 <= i < |r.shellHooks| && r.shellHooks[i].key == key;
      assert r'.shellHooks[i].key == key;
    }
  }

  // Dropping.

  lemma {:induction false} NotFromIs(hooks: seq<ShellHook>, source: string)
    ensures forall i | 0 <= i < |NotFrom(hooks, source)| :: NotFrom(hooks, source)[i].key.source != source
  {
    if hooks != [] {
      NotFromIs(hooks[..|hooks| - 1], source);
    }
  }

  lemma {:induction false} RetiredCount(retired: map<ShellKey, nat>, hooks: seq<ShellHook>, key: ShellKey, tally: nat)
    requires forall i | 0 <= i < |hooks| && hooks[i].key == key :: hooks[i].failures == tally
    requires (forall i | 0 <= i < |hooks| :: hooks[i].key != key) ==> CountOf(retired, key) == tally
    requires key.source == SETTINGS
    ensures CountOf(RetiredShell(retired, hooks, SETTINGS), key) == tally
  {
    if hooks != [] {
      var init, h := hooks[..|hooks| - 1], hooks[|hooks| - 1];
      if h.key == key {
        assert h.failures == tally;
      } else {
        assert (forall i | 0 <= i < |init| :: init[i].key != key)
               ==> forall i | 0 <= i < |hooks| :: hooks[i].key != key;
        RetiredCount(retired, init, key, tally);
      }
    }
  }

  lemma DropTallies(r: Registry, key: ShellKey, tally: nat)
    requires Tallied(r, key, tally) && key.source == SETTINGS
    ensures Tallied(Dropped(r, SETTINGS), key, tally) && !Present(Dropped(r, SETTINGS), key)
    ensures forall i | 0 <= i < |Dropped(r, SETTINGS).shellHooks| ::
              Dropped(r, SETTINGS).shellHooks[i].key.source != SETTINGS
  {
    NotFromIs(r.shellHooks, SETTINGS);
    RetiredCount(r.retiredShell, r.shellHooks, key, tally);
  }

  // Declaring again.

  lemma AddTallies(r: Registry, added: ShellKey, key: ShellKey, tally: nat)
    requires Tallied(r, key, tally) && !Present(r, added)
    ensures Tallied(WithShellHook(r, added), key, tally)
    ensures forall k: ShellKey :: Present(WithShellHook(r, added), k) <==> Present(r, k) || k == added
    ensures UniqueSettings(r.shellHooks) ==> UniqueSettings(WithShellHook(r, added).shellHooks)
  {
    var r' := WithShellHook(r, added);
    var n := |r.shellHooks|;
    assert r'.shellHooks[n].key == added;
    assert forall i | 0 <= i < n :: r'.shellHooks[i] == r.shellHooks[i];
    forall k: ShellKey ensures Present(r', k) <==> Present(r, k) || k == added {
      if Present(r, k) {
        var i :| 0 <= i < n && r.shellHooks[i].key == k;
        assert r'.shellHooks[i].key == k;
      }
    }
  }

  lemma {:induction false} CommandsTally(r: Registry, section: HooksSection, hooks: seq<Hook>, key: ShellKey,
                                         tally: nat)
    requires Tallied(r, key, tally) && UniqueSettings(r.shellHooks)
    requires forall k: ShellKey | k.source == SETTINGS :: !Present(r, k)
    requires forall i, j | 0 <= i < j < |hooks| :: hooks[i] != hooks[j]
    ensures var r' := WithCommands(r, section, hooks, SETTINGS);
            && Tallied(r', key, tally) && UniqueSettings(r'.shellHooks)
            && forall k: ShellKey | k.source == SETTINGS && Present(r', k) :: k.hook in hooks
  {
    if hooks != [] {
      var init, h := hooks[..|hooks| - 1], hooks[|hooks| - 1];
      CommandsTally(r, section, init, key, tally);
      if Truthy(section.Command(h)) {
        AddTallies(WithCommands(r, section, init, SETTINGS), ShellKey(h, section.Command(h).value, SETTINGS), key,
                   tally);
      }
      assert hooks == init + [h];
    }
  }

  lemma {:induction false} PluginsLeaveShellHooks(r: Registry, plugins: seq<Declared>, outcomes: Outcomes)
    ensures WithPlugins(r, plugins, SETTINGS, outcomes).shellHooks == r.shellHooks
    ensures WithPlugins(r, plugins, SETTINGS, outcomes).retiredShell == r.retiredShell
  {
    if plugins != [] {
      PluginsLeaveShellHooks(r, plugins[..|plugins| - 1], outcomes);
    }
  }

  lemma CommitTallies(m: Manager, staged: Staged, outcomes: Outcomes, key: ShellKey, tally: nat)
    requires Tallied(m.registry, key, tally) && UniqueSettings(m.registry.shellHooks) && key.source == SETTINGS
    ensures var r := Committed(m, staged, outcomes).0.registry; Tallied(r, key, tally) && UniqueSettings(r.shellHooks)
  {
    var dropped := Dropped(m.registry, SETTINGS);
    DropTallies(m.registry, key, tally);
    assert UniqueSettings(dropped.shellHooks);
    hide Tallied, Dropped, WithCommands, WithPlugins, ConfigureFails;
    if staged.Parsed? {
      assert forall k: ShellKey | k.source == SETTINGS :: !Present(dropped, k);
      CommandsTally(dropped, staged.section, HOOK_NAMES, key, tally);
      PluginsLeaveShellHooks(Announced(dropped, staged.section, SETTINGS), staged.plugins, outcomes);
    }
  }

  lemma {:induction false} HistoryTallies(first: Manager, steps: seq<Step>, key: ShellKey)
    requires Starting(first) && key.source == SETTINGS
    ensures var r := After(first, steps).registry;
            Tallied(r, key, FailedRuns(first, steps, key)) && UniqueSettings(r.shellHooks)
  {
    if steps != [] {
      var init, e := steps[..|steps| - 1], steps[|steps| - 1];
      HistoryTallies(first, init, key);
      var m, tally := After(first, init), FailedRuns(first, init, key);
      var d := Dispatches(e);
      if d.Some? {
        DispatchTallies(m.registry, d.value.0, d.value.1, key, tally);
      }
      if e.Load? {
        var m' := if e.local then m else m.(registry := Dispatched(m.registry, BeforeLoad, e.before));
        CommitTallies(m', e.staged, e.outcomes, key, FailedRuns(first, steps, key));
      }
    }
  }

  /** Over any sequence of loads, failed loads and dispatches, a command settings.yaml declares now is one entry, and
      the failure count it reports is the number of its failed runs since the process started, however often it was
      taken out of the file and put back. */
  lemma FailureCountIsFailedRuns(first: Manager, steps: seq<Step>, i: nat)
    requires Starting(first)
    requires i < |After(first, steps).registry.shellHooks|
    requires After(first, steps).registry.shellHooks[i].key.source == SETTINGS
    ensures var hooks := After(first, steps).registry.shellHooks;
            && hooks[i].failures == FailedRuns(first, steps, hooks[i].key)
            && forall j | 0 <= j < |hooks| && j != i :: hooks[j].key != hooks[i].key
  {
    HistoryTallies(first, steps, After(first, steps).registry.shellHooks[i].key);
  }
}
