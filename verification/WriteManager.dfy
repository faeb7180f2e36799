/** config.py, ConfigManager: loads and saves of one runtime among everybody else's writes. */
module WriteManager {
  import opened Common
  import opened ConfigWriter
  import opened WriteProtocol
  import opened WriteLinear

  /** The revisions of the bytes the runtime was loaded from. */
  datatype Tracked = Tracked(settings: Bytes, users: Bytes)

  /** `staged` is the settings revision of a load that has not read users.yaml yet. */
  datatype Manager = Manager(staged: Option<Bytes>, tracked: Option<Tracked>)

  datatype Files = Files(settings: Path, users: Path)

  datatype System = System(files: State, manager: Manager)

  /** Others' steps and those of this manager: a load reads the two files one after the other under no lock, and
      takes effect only if nothing raised; a save is a call guarded by the tracked revisions. */
  datatype Action =
    | Other(e: Step)
    | ReadSettings
    | ReadUsers(accepted: bool)
    | Save(a: nat, editUsers: Bytes -> Option<Bytes>, editSettings: Bytes -> Option<Bytes>)

  function SaveItems(f: Files, t: Tracked, editUsers: Bytes -> Option<Bytes>, editSettings: Bytes -> Option<Bytes>)
    : seq<Item>
  {
    [Item(f.users, Some(t.users), editUsers), Item(f.settings, Some(t.settings), editSettings)]
  }

  /** The step an action takes in the files' protocol, if it takes one. */
  function StepOf(f: Files, m: Manager, x: Action): Option<Step> {
    match x
    case Other(e) => Some(e)
    case Save(a, u, s) => if m.tracked.Some? then Some(Call(a, SaveItems(f, m.tracked.value, u, s))) else None
    case _ => None
  }

  predicate CanAct(f: Files, s: System, x: Action)
    requires WellFormed(s.files)
  {
    match x
    case ReadSettings => true
    case ReadUsers(_) => s.manager.staged.Some?
    case _ => StepOf(f, s.manager, x).Some? && Enabled(s.files, StepOf(f, s.manager, x).value)
  }

  function Acted(f: Files, s: System, x: Action): (s': System)
    requires WellFormed(s.files) && CanAct(f, s, x)
    ensures WellFormed(s'.files)
  {
    match x
    case ReadSettings => s.(manager := s.manager.(staged := Some(Content(s.files.shared.disk, f.settings))))
    case ReadUsers(accepted) =>
      var tracked := Tracked(s.manager.staged.value, Content(s.files.shared.disk, f.users));
      s.(manager := Manager(None, if accepted then Some(tracked) else s.manager.tracked))
    case _ => s.(files := Next(s.files, StepOf(f, s.manager, x).value))
  }

  function Run(f: Files, process: seq<nat>, first: Disk, xs: seq<Action>): (s: Option<System>)
    ensures s.Some? ==> WellFormed(s.value.files)
  {
    if xs == [] then Some(System(Initial(process, first), Manager(None, None)))
    else
      var s := Run(f, process, first, xs[..|xs| - 1]);
      var x := xs[|xs| - 1];
      if s.Some? && CanAct(f, s.value, x) then Some(Acted(f, s.value, x)) else None
  }

  // ---------------------------------------------------------------- prefixes of a run

  lemma {:induction false} PrefixRuns(f: Files, process: seq<nat>, first: Disk, xs: seq<Action>, n: nat)
    requires Run(f, process, first, xs).Some? && n <= |xs|
    ensures Run(f, process, first, xs[..n]).Some?
  {
    if n == |xs| {
      assert xs[..n] == xs;
    } else {
      assert xs[..|xs| - 1][..n] == xs[..n];
      hide CanAct, Acted;
      PrefixRuns(f, process, first, xs[..|xs| - 1], n);
    }
  }

  /** The files at moment `n` of a run. */
  function DiskAt(f: Files, process: seq<nat>, first: Disk, xs: seq<Action>, n: nat): Option<Disk>
    requires n <= |xs|
  {
    var s := Run(f, process, first, xs[..n]);
    if s.Some? then Some(s.value.files.shared.disk) else None
  }

  lemma DiskAtPrefix(f: Files, process: seq<nat>, first: Disk, xs: seq<Action>, n: nat, k: nat)
    requires n <= k <= |xs|
    ensures DiskAt(f, process, first, xs[..k], n) == DiskAt(f, process, first, xs, n)
  {
    assert xs[..k][..n] == xs[..n];
  }

  lemma {:induction false} RunsStayLinear(f: Files, process: seq<nat>, first: Disk, xs: seq<Action>)
    requires Run(f, process, first, xs).Some?
    ensures var s := Run(f, process, first, xs).value.files; LocksMatch(s) && Linear(s, first)
  {
    if xs == [] {
      assert After(process, first, []).Some?;
      RunsKeepLocks(process, first, []);
      RunsAreLinear(process, first, []);
    } else {
      var init, x := xs[..|xs| - 1], xs[|xs| - 1];
      RunsStayLinear(f, process, first, init);
      var s := Run(f, process, first, init).value;
      hide LocksMatch, Linear, Next, Enabled, SaveItems;
      if x.Other? || x.Save? {
        NextKeepsLocks(s.files, StepOf(f, s.manager, x).value);
        NextKeepsLinear(s.files, first, StepOf(f, s.manager, x).value);
      }
    }
  }

  // ---------------------------------------------------------------- what was loaded was on disk

  /** `bytes` were the content of `p` at moment `n`, when the manager read them. */
  predicate Saw(f: Files, process: seq<nat>, first: Disk, xs: seq<Action>, n: nat, p: Path, bytes: Bytes) {
    n < |xs| && (if p == f.settings then xs[n].ReadSettings? else xs[n].ReadUsers?)
    && DiskAt(f, process, first, xs, n).Some? && Content(DiskAt(f, process, first, xs, n).value, p) == bytes
  }

  lemma SawLater(f: Files, process: seq<nat>, first: Disk, xs: seq<Action>, n: nat, p: Path, bytes: Bytes)
    requires xs != [] && Saw(f, process, first, xs[..|xs| - 1], n, p, bytes)
    ensures Saw(f, process, first, xs, n, p, bytes)
  {
    DiskAtPrefix(f, process, first, xs, n, |xs| - 1);
    hide DiskAt;
  }

  ghost predicate StagedSeen(f: Files, process: seq<nat>, first: Disk, xs: seq<Action>, staged: Bytes) {
    exists n: nat :: Saw(f, process, first, xs, n, f.settings, staged)
  }

  /** The two files were read at two moments of the run, settings first. */
  ghost predicate TrackedSeen(f: Files, process: seq<nat>, first: Disk, xs: seq<Action>, t: Tracked) {
    exists n: nat, k: nat :: n < k && Saw(f, process, first, xs, n, f.settings, t.settings)
                                   && Saw(f, process, first, xs, k, f.users, t.users)
  }

  lemma SeenLater(f: Files, process: seq<nat>, first: Disk, xs: seq<Action>, staged: Bytes, t: Tracked)
    requires xs != []
    ensures StagedSeen(f, process, first, xs[..|xs| - 1], staged) ==> StagedSeen(f, process, first, xs, staged)
    ensures TrackedSeen(f, process, first, xs[..|xs| - 1], t) ==> TrackedSeen(f, process, first, xs, t)
  {
    hide Saw;
    var init := xs[..|xs| - 1];
    if StagedSeen(f, process, first, init, staged) {
      var n: nat :| Saw(f, process, first, init, n, f.settings, staged);
      SawLater(f, process, first, xs, n, f.settings, staged);
    }
    if TrackedSeen(f, process, first, init, t) {
      var n: nat, k: nat :| n < k && Saw(f, process, first, init, n, f.settings, t.settings)
                                  && Saw(f, process, first, init, k, f.users, t.users);
      SawLater(f, process, first, xs, n, f.settings, t.settings);
      SawLater(f, process, first, xs, k, f.users, t.users);
    }
  }

  lemma {:induction false} LoadedWasSeen(f: Files, process: seq<nat>, first: Disk, xs: seq<Action>)
    requires Run(f, process, first, xs).Some? && f.settings != f.users
    ensures var m := Run(f, process, first, xs).value.manager;
            && (m.staged.Some? ==> StagedSeen(f, process, first, xs, m.staged.value))
            && (m.tracked.Some? ==> TrackedSeen(f, process, first, xs, m.tracked.value))
  {
    if xs != [] {
      var init, x, c := xs[..|xs| - 1], xs[|xs| - 1], |xs| - 1;
      LoadedWasSeen(f, process, first, init);
      var before, after := Run(f, process, first, init).value, Run(f, process, first, xs).value;
      assert DiskAt(f, process, first, xs, c) == Some(before.files.shared.disk);
      if before.manager.staged.Some? {
        SeenLater(f, process, first, xs, before.manager.staged.value, Tracked([], []));
      }
      if before.manager.tracked.Some? {
        SeenLater(f, process, first, xs, [], before.manager.tracked.value);
      }
      if x.ReadSettings? {
        assert Saw(f, process, first, xs, c, f.settings, after.manager.staged.value);
      } else if x.ReadUsers? && x.accepted {
        JustLoaded(f, process, first, xs);
      }
    }
  }

  lemma JustLoaded(f: Files, process: seq<nat>, first: Disk, xs: seq<Action>)
    requires Run(f, process, first, xs).Some? && f.settings != f.users && xs != [] && xs[|xs| - 1] == ReadUsers(true)
    requires var m := Run(f, process, first, xs[..|xs| - 1]).value.manager;
             StagedSeen(f, process, first, xs[..|xs| - 1], m.staged.value)
    ensures TrackedSeen(f, process, first, xs, Run(f, process, first, xs).value.manager.tracked.value)
  {
    var init, c := xs[..|xs| - 1], |xs| - 1;
    var before, t := Run(f, process, first, init).value, Run(f, process, first, xs).value.manager.tracked.value;
    assert DiskAt(f, process, first, xs, c) == Some(before.files.shared.disk);
    assert Saw(f, process, first, xs, c, f.users, t.users);
    var n: nat :| Saw(f, process, first, init, n, f.settings, before.manager.staged.value);
    SawLater(f, process, first, xs, n, f.settings, t.settings);
    assert n < c;
  }

  /** Since the read of settings.yaml at `n` the manager has read nothing. */
  lemma {:induction false} StagedIs(f: Files, process: seq<nat>, first: Disk, xs: seq<Action>, n: nat)
    requires Run(f, process, first, xs).Some? && n < |xs| && xs[n].ReadSettings?
    requires forall j | n < j < |xs| :: !xs[j].ReadSettings? && !xs[j].ReadUsers?
    ensures DiskAt(f, process, first, xs, n).Some?
    ensures Run(f, process, first, xs).value.manager.staged
            == Some(Content(DiskAt(f, process, first, xs, n).value, f.settings))
  {
    hide *;
    if n < |xs| - 1 {
      var init := xs[..|xs| - 1];
      StagedKept(f, process, first, xs);
      assert init[n] == xs[n] && forall j | n < j < |init| :: init[j] == xs[j];
      StagedIs(f, process, first, init, n);
      DiskAtPrefix(f, process, first, xs, n, |xs| - 1);
    } else {
      StagedNow(f, process, first, xs);
    }
  }

  lemma StagedNow(f: Files, process: seq<nat>, first: Disk, xs: seq<Action>)
    requires Run(f, process, first, xs).Some? && xs != [] && xs[|xs| - 1].ReadSettings?
    ensures DiskAt(f, process, first, xs, |xs| - 1).Some?
    ensures Run(f, process, first, xs).value.manager.staged
            == Some(Content(DiskAt(f, process, first, xs, |xs| - 1).value, f.settings))
  {
  }

  lemma StagedKept(f: Files, process: seq<nat>, first: Disk, xs: seq<Action>)
    requires Run(f, process, first, xs).Some? && xs != []
    requires !xs[|xs| - 1].ReadSettings? && !xs[|xs| - 1].ReadUsers?
    ensures Run(f, process, first, xs[..|xs| - 1]).Some?
    ensures Run(f, process, first, xs).value.manager.staged
            == Run(f, process, first, xs[..|xs| - 1]).value.manager.staged
  {
  }

  /** What is tracked is the last accepted load: settings.yaml as it was read last before users.yaml was, and
      users.yaml. A refused load changes nothing of it. */
  lemma {:induction false} TrackedIsTheLastLoad(f: Files, process: seq<nat>, first: Disk, xs: seq<Action>,
                                                n: nat, k: nat)
    requires Run(f, process, first, xs).Some? && n < k < |xs| && xs[n].ReadSettings? && xs[k] == ReadUsers(true)
    requires forall j | n < j < k :: !xs[j].ReadSettings? && !xs[j].ReadUsers?
    requires forall j | k < j < |xs| :: xs[j] != ReadUsers(true)
    ensures var settings, users := DiskAt(f, process, first, xs, n), DiskAt(f, process, first, xs, k);
            && settings.Some? && users.Some?
            && Run(f, process, first, xs).value.manager.tracked
               == Some(Tracked(Content(settings.value, f.settings), Content(users.value, f.users)))
  {
    hide *;
    var init := xs[..|xs| - 1];
    PrefixRuns(f, process, first, xs, |xs| - 1);
    DiskAtPrefix(f, process, first, xs, n, |xs| - 1);
    if k == |xs| - 1 {
      StagedIs(f, process, first, init, n);
      TrackedNow(f, process, first, xs);
    } else {
      DiskAtPrefix(f, process, first, xs, k, |xs| - 1);
      TrackedIsTheLastLoad(f, process, first, init, n, k);
      TrackedKept(f, process, first, xs);
    }
  }

  lemma TrackedNow(f: Files, process: seq<nat>, first: Disk, xs: seq<Action>)
    requires Run(f, process, first, xs).Some? && xs != [] && xs[|xs| - 1] == ReadUsers(true)
    ensures var init, users := Run(f, process, first, xs[..|xs| - 1]), DiskAt(f, process, first, xs, |xs| - 1);
            && init.Some? && init.value.manager.staged.Some? && users.Some?
            && Run(f, process, first, xs).value.manager.tracked
               == Some(Tracked(init.value.manager.staged.value, Content(users.value, f.users)))
  {
  }

  lemma TrackedKept(f: Files, process: seq<nat>, first: Disk, xs: seq<Action>)
    requires Run(f, process, first, xs).Some? && xs != [] && xs[|xs| - 1] != ReadUsers(true)
    ensures Run(f, process, first, xs[..|xs| - 1]).Some?
    ensures Run(f, process, first, xs).value.manager.tracked
            == Run(f, process, first, xs[..|xs| - 1]).value.manager.tracked
  {
  }

  /** Before the first accepted load nothing is tracked, and so nothing can be saved. */
  lemma {:induction false} NothingTracked(f: Files, process: seq<nat>, first: Disk, xs: seq<Action>)
    requires Run(f, process, first, xs).Some? && forall j | 0 <= j < |xs| :: xs[j] != ReadUsers(true)
    ensures Run(f, process, first, xs).value.manager.tracked == None && forall j | 0 <= j < |xs| :: !xs[j].Save?
  {
    if xs != [] {
      NothingTracked(f, process, first, xs[..|xs| - 1]);
    }
  }

  // ---------------------------------------------------------------- a call is logged with its own items

  ghost predicate Pending(t: Thread, items: seq<Item>) { !t.Idle? && !t.Releasing? && t.items == items }

  /** Index of the first entry of thread `a` from `n` on, or the length of the log. */
  function FirstEntry(log: seq<Entry>, n: nat, a: nat): (i: nat)
    requires n <= |log|
    ensures n <= i <= |log| && forall j | n <= j < i :: log[j].thread != a
    ensures i < |log| ==> log[i].thread == a
    decreases |log| - n
  {
    if n == |log| || log[n].thread == a then n else FirstEntry(log, n + 1, a)
  }

  /** The call is still under way, or the first entry of its thread since is its own. */
  ghost predicate CallLogged(s: State, n: nat, a: nat, items: seq<Item>) {
    n <= |s.log| && a < |s.threads|
    && if FirstEntry(s.log, n, a) == |s.log| then Pending(s.threads[a], items)
       else s.log[FirstEntry(s.log, n, a)].items == items
  }

  lemma {:induction false} FirstEntryGrows(log: seq<Entry>, n: nat, a: nat, e: Entry)
    requires n <= |log|
    ensures FirstEntry(log + [e], n, a)
            == if FirstEntry(log, n, a) < |log| || e.thread == a then FirstEntry(log, n, a) else |log| + 1
    decreases |log| - n
  {
    if n < |log| {
      assert (log + [e])[n] == log[n];
      if log[n].thread != a {
        FirstEntryGrows(log, n + 1, a, e);
      }
    } else if e.thread != a {
      assert FirstEntry(log + [e], n + 1, a) == n + 1;
    }
  }

  lemma PendingMove(t: Thread, a: nat, p: nat, sh: Shared, e: Step, items: seq<Item>)
    requires InRange(t) && EnabledFor(t, p, sh, e) && Pending(t, items)
    ensures !e.Call? && (MoveOf(t, a, p, sh, e).outcome.None? ==> Pending(MoveOf(t, a, p, sh, e).thread, items))
  {
    hide Directories, RevisionHolds, EditOf, DistinctPaths;
  }

  lemma CalledMove(t: Thread, a: nat, p: nat, sh: Shared, e: Step)
    requires InRange(t) && EnabledFor(t, p, sh, e) && e.Call?
    ensures MoveOf(t, a, p, sh, e).outcome.None? ==> Pending(MoveOf(t, a, p, sh, e).thread, e.items)
  {
    hide DistinctPaths;
  }

  lemma StepKeepsCall(s: State, e: Step, n: nat, a: nat, items: seq<Item>)
    requires WellFormed(s) && Enabled(s, e) && CallLogged(s, n, a, items)
    ensures CallLogged(Next(s, e), n, a, items)
  {
    var t := s.threads[e.a];
    if e.a == a && FirstEntry(s.log, n, a) == |s.log| {
      PendingMove(t, e.a, s.process[e.a], s.shared, e, items);
    }
    hide EnabledFor, InRange, Pending, MoveOf;
    var m := MoveOf(t, e.a, s.process[e.a], s.shared, e);
    if m.outcome.Some? {
      FirstEntryGrows(s.log, n, a, Entry(e.a, ItemsOf(t, e), m.outcome.value));
      if e.a == a && FirstEntry(s.log, n, a) == |s.log| {
        PendingItems(t, e, items);
      }
    }
  }

  lemma PendingItems(t: Thread, e: Step, items: seq<Item>)
    requires Pending(t, items) && !e.Call?
    ensures ItemsOf(t, e) == items
  {
  }

  lemma CallStarts(s: State, e: Step)
    requires WellFormed(s) && Enabled(s, e) && e.Call?
    ensures CallLogged(Next(s, e), |s.log|, e.a, e.items)
  {
    var t := s.threads[e.a];
    CalledMove(t, e.a, s.process[e.a], s.shared, e);
    hide EnabledFor, InRange, Pending, MoveOf;
    var m := MoveOf(t, e.a, s.process[e.a], s.shared, e);
    if m.outcome.Some? {
      FirstEntryGrows(s.log, |s.log|, e.a, Entry(e.a, e.items, m.outcome.value));
    }
  }

  /** From the moment of a save on, its thread is at work on it until its result is logged. */
  lemma {:induction false} SaveIsLogged(f: Files, process: seq<nat>, first: Disk, xs: seq<Action>, c: nat)
    requires Run(f, process, first, xs).Some? && c < |xs| && xs[c].Save?
    requires Run(f, process, first, xs[..c]).Some? && Run(f, process, first, xs[..c]).value.manager.tracked.Some?
    ensures var s := Run(f, process, first, xs[..c]).value;
            CallLogged(Run(f, process, first, xs).value.files, |s.files.log|, xs[c].a,
                       SaveItems(f, s.manager.tracked.value, xs[c].editUsers, xs[c].editSettings))
  {
    var init, x := xs[..|xs| - 1], xs[|xs| - 1];
    var s := Run(f, process, first, init).value;
    hide CallLogged, Next, Enabled, SaveItems;
    if c == |xs| - 1 {
      CallStarts(s.files, StepOf(f, s.manager, x).value);
    } else {
      assert init[..c] == xs[..c];
      SaveIsLogged(f, process, first, init, c);
      if x.Other? || x.Save? {
        var at := Run(f, process, first, xs[..c]).value;
        StepKeepsCall(s.files, StepOf(f, s.manager, x).value, |at.files.log|, xs[c].a,
                      SaveItems(f, at.manager.tracked.value, xs[c].editUsers, xs[c].editSettings));
      }
    }
  }

  // ---------------------------------------------------------------- main result

  /** A file is changed only where it held what was tracked for it; a save that succeeds found both so, and leaves its
      edit of each. */
  predicate OnlyOver(f: Files, t: Tracked, before: Disk, after: Disk, result: Result,
                     editUsers: Bytes -> Option<Bytes>, editSettings: Bytes -> Option<Bytes>)
  {
    && (Content(after, f.users) != Content(before, f.users) ==> Content(before, f.users) == t.users)
    && (Content(after, f.settings) != Content(before, f.settings) ==> Content(before, f.settings) == t.settings)
    && (result.Written? ==>
          && Content(before, f.users) == t.users && Content(before, f.settings) == t.settings
          && Some(Content(after, f.users)) == editUsers(t.users)
          && Some(Content(after, f.settings)) == editSettings(t.settings))
  }

  lemma GuardedSave(f: Files, before: Disk, e: Entry, t: Tracked,
                    editUsers: Bytes -> Option<Bytes>, editSettings: Bytes -> Option<Bytes>)
    requires Lawful(before, e) && e.items == SaveItems(f, t, editUsers, editSettings)
    ensures OnlyOver(f, t, before, Applied(before, e), e.result, editUsers, editSettings)
  {
    BatchEffect(before, e.items, FailureOf(e.result));
    assert e.items[0].path == f.users && e.items[1].path == f.settings;
  }

  lemma EntryOnlyOver(f: Files, first: Disk, log: seq<Entry>, i: nat, t: Tracked,
                      editUsers: Bytes -> Option<Bytes>, editSettings: Bytes -> Option<Bytes>)
    requires AllLawful(first, log) && i < |log| && log[i].items == SaveItems(f, t, editUsers, editSettings)
    ensures OnlyOver(f, t, Replay(first, log[..i]), Replay(first, log[..i + 1]), log[i].result, editUsers, editSettings)
  {
    assert log[..i + 1][..i] == log[..i];
    hide Lawful, Applied, OnlyOver, SaveItems;
    GuardedSave(f, Replay(first, log[..i]), log[i], t, editUsers, editSettings);
  }

  /** When the result of the save that thread `a` began at entry `n` comes, it has changed only what was tracked. */
  predicate SaveOnlyOver(f: Files, first: Disk, log: seq<Entry>, n: nat, a: nat, t: Tracked,
                         editUsers: Bytes -> Option<Bytes>, editSettings: Bytes -> Option<Bytes>)
  {
    n <= |log|
    && var i := FirstEntry(log, n, a);
       i < |log| ==>
         OnlyOver(f, t, Replay(first, log[..i]), Replay(first, log[..i + 1]), log[i].result, editUsers, editSettings)
  }

  lemma OutcomeOnlyOver(f: Files, first: Disk, s: State, n: nat, a: nat, t: Tracked,
                        editUsers: Bytes -> Option<Bytes>, editSettings: Bytes -> Option<Bytes>)
    requires WellFormed(s) && Linear(s, first) && CallLogged(s, n, a, SaveItems(f, t, editUsers, editSettings))
    ensures SaveOnlyOver(f, first, s.log, n, a, t, editUsers, editSettings)
  {
    hide SaveItems, OnlyOver, AllLawful, DiskOk, DataOk, Replay, FirstEntry, Pending, InRange;
    var i := FirstEntry(s.log, n, a);
    if i < |s.log| {
      EntryOnlyOver(f, first, s.log, i, t, editUsers, editSettings);
    }
  }

  lemma SaveWasEnabled(f: Files, process: seq<nat>, first: Disk, xs: seq<Action>, c: nat)
    requires Run(f, process, first, xs).Some? && c < |xs| && xs[c].Save?
    ensures Run(f, process, first, xs[..c]).Some? && Run(f, process, first, xs[..c]).value.manager.tracked.Some?
  {
    PrefixRuns(f, process, first, xs, c + 1);
    assert xs[..c + 1][..c] == xs[..c] && xs[..c + 1][c] == xs[c];
    hide Enabled, Acted;
  }

  /** In any run, a save guarded by the manager's own tracked revisions never overwrites bytes its runtime did not
      load: when its result comes, it has replaced only what the manager read from that file at an earlier moment. */
  lemma TrackedSaveNeverClobbers(f: Files, process: seq<nat>, first: Disk, xs: seq<Action>, c: nat)
    requires f.settings != f.users && Run(f, process, first, xs).Some? && c < |xs| && xs[c].Save?
    ensures var at, log := Run(f, process, first, xs[..c]), Run(f, process, first, xs).value.files.log;
            && at.Some? && at.value.manager.tracked.Some?
            && TrackedSeen(f, process, first, xs[..c], at.value.manager.tracked.value)
            && SaveOnlyOver(f, first, log, |at.value.files.log|, xs[c].a, at.value.manager.tracked.value,
                            xs[c].editUsers, xs[c].editSettings)
  {
    SaveWasEnabled(f, process, first, xs, c);
    hide *;
    LoadedWasSeen(f, process, first, xs[..c]);
    SaveIsLogged(f, process, first, xs, c);
    RunsStayLinear(f, process, first, xs);
    var at, s := Run(f, process, first, xs[..c]).value, Run(f, process, first, xs).value.files;
    OutcomeOnlyOver(f, first, s, |at.files.log|, xs[c].a, at.manager.tracked.value, xs[c].editUsers,
                    xs[c].editSettings);
  }
}
