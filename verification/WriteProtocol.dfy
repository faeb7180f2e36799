/** config_writer.py, compare_and_replace_many: threads of several processes interleave, one small step at a time. */
module WriteProtocol {
  import opened Common
  import opened ConfigWriter

  /** Where a thread is in its call. `got` counts the directory locks it holds, in sorted order. */
  datatype Thread =
    | Idle
    | Waiting(items: seq<Item>)
    | Locking(items: seq<Item>, got: nat)
    | Checking(items: seq<Item>, checked: nat)
    | Editing(items: seq<Item>, loaded: seq<Bytes>)
    | Writing(items: seq<Item>, loaded: seq<Bytes>, written: nat)
    | Releasing(items: seq<Item>, got: nat)

  /** A finished call, logged when its outcome is settled. */
  datatype Entry = Entry(thread: nat, items: seq<Item>, result: Result)

  /** The thread locks of the processes, the lock files of the directories, each with its holder, and the files. */
  datatype Shared = Shared(processLocks: map<int, nat>, directoryLocks: map<int, nat>, disk: Disk)

  datatype State = State(process: seq<nat>, threads: seq<Thread>, shared: Shared, log: seq<Entry>)

  datatype Step =
    | Call(a: nat, items: seq<Item>)
    | Advance(a: nat)
    | GiveUp(a: nat)
    | WriteError(a: nat)

  /** What a step makes of its thread and of what is shared; the outcome, once it is settled. */
  datatype Move = Move(thread: Thread, shared: Shared, outcome: Option<Result>)

  predicate InRange(t: Thread) {
    match t
    case Locking(items, got) => got <= |Directories(items)|
    case Checking(items, checked) => checked <= |items|
    case Editing(items, loaded) => |loaded| <= |items|
    case Writing(items, loaded, written) => written <= |items| == |loaded|
    case Releasing(items, got) => got <= |Directories(items)|
    case _ => true
  }

  predicate WellFormed(s: State) {
    |s.process| == |s.threads| && forall a | 0 <= a < |s.threads| :: InRange(s.threads[a])
  }

  /** A thread can move unless it is idle or the lock it wants next is held. */
  predicate CanAdvance(t: Thread, p: nat, sh: Shared)
    requires InRange(t)
  {
    match t
    case Idle => false
    case Waiting(_) => p !in sh.processLocks
    case Locking(items, got) => got < |Directories(items)| ==> Directories(items)[got] !in sh.directoryLocks
    case _ => true
  }

  predicate EnabledFor(t: Thread, p: nat, sh: Shared, e: Step)
    requires InRange(t)
  {
    match e
    case Call(_, _) => t.Idle?
    case Advance(_) => CanAdvance(t, p, sh)
    case GiveUp(_) => t.Locking? && t.got < |Directories(t.items)|
    case WriteError(_) => t.Writing? && t.written < |t.items|
  }

  predicate Enabled(s: State, e: Step)
    requires WellFormed(s)
  {
    e.a < |s.threads| && EnabledFor(s.threads[e.a], s.process[e.a], s.shared, e)
  }

  function Settled(items: seq<Item>, got: nat, sh: Shared, r: Result): Move {
    Move(Releasing(items, got), sh, Some(r))
  }

  function Advanced(t: Thread, a: nat, p: nat, sh: Shared): (m: Move)
    requires InRange(t) && CanAdvance(t, p, sh)
    ensures InRange(m.thread) && (m.thread.Idle? || m.thread.items == t.items)
  {
    match t
    case Waiting(items) => Move(Locking(items, 0), sh.(processLocks := sh.processLocks[p := a]), None)
    case Locking(items, got) =>
      if got < |Directories(items)| then
        Move(Locking(items, got + 1), sh.(directoryLocks := sh.directoryLocks[Directories(items)[got] := a]), None)
      else Move(Checking(items, 0), sh, None)
    case Checking(items, n) =>
      if n == |items| then Move(Editing(items, []), sh, None)
      else if RevisionHolds(sh.disk, items[n]) then Move(Checking(items, n + 1), sh, None)
      else Settled(items, |Directories(items)|, sh, Conflict(n))
    case Editing(items, loaded) =>
      if |loaded| == |items| then Move(Writing(items, loaded, 0), sh, None)
      else
        var document := EditOf(sh.disk, items[|loaded|]);
        if document.Some? then Move(Editing(items, loaded + [document.value]), sh, None)
        else Settled(items, |Directories(items)|, sh, EditRaised(|loaded|))
    case Writing(items, loaded, n) =>
      if n == |items| then Settled(items, |Directories(items)|, sh, Written(loaded))
      else Move(Writing(items, loaded, n + 1), sh.(disk := sh.disk[items[n].path := loaded[n]]), None)
    case Releasing(items, got) =>
      if got == 0 then Move(Idle, sh.(processLocks := sh.processLocks - {p}), None)
      else
        Move(Releasing(items, got - 1), sh.(directoryLocks := sh.directoryLocks - {Directories(items)[got - 1]}), None)
  }

  function MoveOf(t: Thread, a: nat, p: nat, sh: Shared, e: Step): (m: Move)
    requires InRange(t) && EnabledFor(t, p, sh, e)
    ensures InRange(m.thread)
  {
    match e
    case Call(_, items) =>
      if DistinctPaths(items) then Move(Waiting(items), sh, None) else Move(Idle, sh, Some(RepeatedPath))
    case Advance(_) => Advanced(t, a, p, sh)
    case GiveUp(_) => Settled(t.items, t.got, sh, LockUnavailable)
    case WriteError(_) => Settled(t.items, |Directories(t.items)|, sh, WriteFailed(t.written))
  }

  function ItemsOf(t: Thread, e: Step): seq<Item>
    requires e.Call? || !t.Idle?
  {
    if e.Call? then e.items else t.items
  }

  function Next(s: State, e: Step): (s': State)
    requires WellFormed(s) && Enabled(s, e)
    ensures WellFormed(s')
  {
    var t := s.threads[e.a];
    var m := MoveOf(t, e.a, s.process[e.a], s.shared, e);
    State(s.process, s.threads[e.a := m.thread], m.shared,
          if m.outcome.Some? then s.log + [Entry(e.a, ItemsOf(t, e), m.outcome.value)] else s.log)
  }

  function Initial(process: seq<nat>, disk: Disk): State {
    State(process, seq(|process|, i => Idle), Shared(map[], map[], disk), [])
  }

  /** The state after a run, or None when some step of it was not enabled. */
  function After(process: seq<nat>, disk: Disk, steps: seq<Step>): (s: Option<State>)
    ensures s.Some? ==> WellFormed(s.value)
  {
    if steps == [] then Some(Initial(process, disk))
    else
      var s := After(process, disk, steps[..|steps| - 1]);
      var e := steps[|steps| - 1];
      if s.Some? && Enabled(s.value, e) then Some(Next(s.value, e)) else None
  }

  // ---------------------------------------------------------------- the log, replayed one call at a time

  function FailureOf(r: Result): Option<nat> { if r.WriteFailed? then Some(r.written) else None }

  /** A call that could not take its locks did nothing. */
  function Applied(d: Disk, e: Entry): Disk {
    if e.result.LockUnavailable? then d else Alone(d, e.items, FailureOf(e.result)).0
  }

  predicate Lawful(d: Disk, e: Entry) {
    e.result.LockUnavailable? || e.result == Alone(d, e.items, FailureOf(e.result)).1
  }

  function Replay(first: Disk, log: seq<Entry>): Disk {
    if log == [] then first else Applied(Replay(first, log[..|log| - 1]), log[|log| - 1])
  }

  predicate AllLawful(first: Disk, log: seq<Entry>) {
    forall i | 0 <= i < |log| :: Lawful(Replay(first, log[..i]), log[i])
  }

  lemma LogGrows(first: Disk, log: seq<Entry>, e: Entry)
    requires AllLawful(first, log) && Lawful(Replay(first, log), e)
    ensures AllLawful(first, log + [e]) && Replay(first, log + [e]) == Applied(Replay(first, log), e)
  {
    hide Applied, Lawful;
    var all := log + [e];
    assert all[..|log|] == log && all[..|all| - 1] == log;
    forall i | 0 <= i < |all| ensures Lawful(Replay(first, all[..i]), all[i]) {
      assert i < |log| ==> all[..i] == log[..i];
    }
  }

  // ---------------------------------------------------------------- invariants: locks

  /** The directories a thread holds. */
  function Held(t: Thread): (r: seq<int>)
    requires InRange(t)
  {
    match t
    case Idle => []
    case Waiting(_) => []
    case Locking(items, got) => Directories(items)[..got]
    case Releasing(items, got) => Directories(items)[..got]
    case _ => Directories(t.items)
  }

  predicate HoldsProcess(t: Thread) { !t.Idle? && !t.Waiting? }

  predicate HeldBy(locks: map<int, nat>, k: int, a: nat) { k in locks && locks[k] == a }

  /** The lock tables give thread `a` exactly what it believes it holds. */
  ghost predicate Owns(t: Thread, a: nat, p: nat, sh: Shared)
    requires InRange(t)
  {
    && (forall d :: HeldBy(sh.directoryLocks, d, a) <==> d in Held(t))
    && (forall q :: HeldBy(sh.processLocks, q, a) <==> q == p && HoldsProcess(t))
  }

  ghost predicate LocksMatch(s: State)
    requires WellFormed(s)
  {
    && (forall a | 0 <= a < |s.threads| :: Owns(s.threads[a], a, s.process[a], s.shared))
    && (forall d | d in s.shared.directoryLocks :: s.shared.directoryLocks[d] < |s.threads|)
    && (forall p | p in s.shared.processLocks :: s.shared.processLocks[p] < |s.threads|)
  }

  /** The tables differ at most in what they give to `a`. */
  ghost predicate OthersKeep(locks: map<int, nat>, locks': map<int, nat>, a: nat) {
    forall k, b | b != a :: HeldBy(locks, k, b) <==> HeldBy(locks', k, b)
  }

  ghost predicate OthersKeepLocks(sh: Shared, sh': Shared, a: nat) {
    OthersKeep(sh.directoryLocks, sh'.directoryLocks, a) && OthersKeep(sh.processLocks, sh'.processLocks, a)
  }

  lemma TakeDirectory(t: Thread, a: nat, p: nat, sh: Shared)
    requires InRange(t) && t.Locking? && t.got < |Directories(t.items)| && CanAdvance(t, p, sh) && Owns(t, a, p, sh)
    ensures var m := Advanced(t, a, p, sh); Owns(m.thread, a, p, m.shared) && OthersKeepLocks(sh, m.shared, a)
  {
    var dirs := Directories(t.items);
    var m := Advanced(t, a, p, sh);
    assert Held(m.thread) == Held(t) + [dirs[t.got]];
    forall d ensures HeldBy(m.shared.directoryLocks, d, a) <==> d in Held(m.thread) {
      assert HeldBy(sh.directoryLocks, d, a) <==> d in Held(t);
    }
  }

  lemma DropDirectory(t: Thread, a: nat, p: nat, sh: Shared)
    requires InRange(t) && t.Releasing? && t.got > 0 && Owns(t, a, p, sh)
    ensures var m := Advanced(t, a, p, sh); Owns(m.thread, a, p, m.shared) && OthersKeepLocks(sh, m.shared, a)
  {
    var dirs := Directories(t.items);
    LastDirectory(t);
    var m := Advanced(t, a, p, sh);
    var d' := dirs[t.got - 1];
    assert HeldBy(sh.directoryLocks, d', a);
    forall d ensures HeldBy(m.shared.directoryLocks, d, a) <==> d in Held(m.thread) {
      assert HeldBy(sh.directoryLocks, d, a) <==> d in Held(t);
    }
    hide Held, Directories, InRange;
  }

  /** The directory released last of those still held is held no longer, the others are. */
  lemma LastDirectory(t: Thread)
    requires InRange(t) && t.Releasing? && t.got > 0
    ensures var t' := Releasing(t.items, t.got - 1);
            forall d :: d in Held(t') <==> d in Held(t) && d != Directories(t.items)[t.got - 1]
  {
    var dirs := Directories(t.items);
    DirectoriesSorted(t.items);
    assert dirs[..t.got] == dirs[..t.got - 1] + [dirs[t.got - 1]];
    hide Directories;
  }

  lemma TakeOrDropProcess(t: Thread, a: nat, p: nat, sh: Shared)
    requires InRange(t) && CanAdvance(t, p, sh) && Owns(t, a, p, sh) && (t.Waiting? || (t.Releasing? && t.got == 0))
    ensures var m := Advanced(t, a, p, sh); Owns(m.thread, a, p, m.shared) && OthersKeepLocks(sh, m.shared, a)
  {
    var m := Advanced(t, a, p, sh);
    assert t.Releasing? ==> HeldBy(sh.processLocks, p, a);
    assert Held(t) == [] == Held(m.thread);
    forall q ensures HeldBy(m.shared.processLocks, q, a) <==> q == p && HoldsProcess(m.thread) {
      assert HeldBy(sh.processLocks, q, a) <==> q == p && HoldsProcess(t);
    }
    assert forall d :: HeldBy(m.shared.directoryLocks, d, a) <==> HeldBy(sh.directoryLocks, d, a);
  }

  predicate KeepsLocks(t: Thread, e: Step)
    requires InRange(t)
  {
    e.Advance? ==> t.Checking? || t.Editing? || t.Writing? || (t.Locking? && t.got == |Directories(t.items)|)
  }

  /** Such a move leaves the locks alone, and the thread believes it holds what it held. */
  lemma KeptMove(t: Thread, a: nat, p: nat, sh: Shared, e: Step)
    requires InRange(t) && EnabledFor(t, p, sh, e) && KeepsLocks(t, e)
    ensures var m := MoveOf(t, a, p, sh, e);
            && m.shared.directoryLocks == sh.directoryLocks && m.shared.processLocks == sh.processLocks
            && Held(m.thread) == Held(t) && HoldsProcess(m.thread) == HoldsProcess(t)
  {
    if !t.Idle? {
      assert Directories(t.items)[..|Directories(t.items)|] == Directories(t.items);
    }
    hide Directories, RevisionHolds, EditOf, DistinctPaths;
  }

  lemma KeepLocks(t: Thread, a: nat, p: nat, sh: Shared, e: Step)
    requires InRange(t) && EnabledFor(t, p, sh, e) && Owns(t, a, p, sh) && KeepsLocks(t, e)
    ensures var m := MoveOf(t, a, p, sh, e); Owns(m.thread, a, p, m.shared) && OthersKeepLocks(sh, m.shared, a)
  {
    KeptMove(t, a, p, sh, e);
    hide MoveOf, EnabledFor, InRange, Held, HoldsProcess, KeepsLocks;
  }

  lemma MoveLocks(t: Thread, a: nat, p: nat, sh: Shared, e: Step)
    requires InRange(t) && EnabledFor(t, p, sh, e) && Owns(t, a, p, sh)
    ensures var m := MoveOf(t, a, p, sh, e); Owns(m.thread, a, p, m.shared) && OthersKeepLocks(sh, m.shared, a)
  {
    hide Owns, OthersKeepLocks, Directories, RevisionHolds, EditOf, DistinctPaths;
    if e.Advance? && t.Locking? && t.got < |Directories(t.items)| {
      TakeDirectory(t, a, p, sh);
    } else if e.Advance? && t.Releasing? && t.got > 0 {
      DropDirectory(t, a, p, sh);
    } else if e.Advance? && (t.Waiting? || t.Releasing?) {
      TakeOrDropProcess(t, a, p, sh);
    } else {
      KeepLocks(t, a, p, sh, e);
    }
  }

  lemma OthersStillOwn(t: Thread, b: nat, p: nat, sh: Shared, sh': Shared, a: nat)
    requires InRange(t) && Owns(t, b, p, sh) && OthersKeepLocks(sh, sh', a) && b != a
    ensures Owns(t, b, p, sh')
  {
    hide Held, HoldsProcess, InRange;
  }

  lemma HoldersStay(locks: map<int, nat>, locks': map<int, nat>, a: nat, n: nat)
    requires OthersKeep(locks, locks', a) && a < n && forall k | k in locks :: locks[k] < n
    ensures forall k | k in locks' :: locks'[k] < n
  {
    forall k | k in locks' ensures locks'[k] < n {
      assert HeldBy(locks', k, locks'[k]);
      assert locks'[k] != a ==> HeldBy(locks, k, locks'[k]);
    }
  }

  lemma NextKeepsLocks(s: State, e: Step)
    requires WellFormed(s) && Enabled(s, e) && LocksMatch(s)
    ensures LocksMatch(Next(s, e))
  {
    var s' := Next(s, e);
    MoveLocks(s.threads[e.a], e.a, s.process[e.a], s.shared, e);
    hide EnabledFor, MoveOf, InRange, Owns;
    forall b | 0 <= b < |s'.threads| ensures Owns(s'.threads[b], b, s'.process[b], s'.shared) {
      if b != e.a {
        OthersStillOwn(s.threads[b], b, s.process[b], s.shared, s'.shared, e.a);
      }
    }
    HoldersStay(s.shared.directoryLocks, s'.shared.directoryLocks, e.a, |s.threads|);
    HoldersStay(s.shared.processLocks, s'.shared.processLocks, e.a, |s.threads|);
  }

  lemma {:induction false} RunsKeepLocks(process: seq<nat>, disk: Disk, steps: seq<Step>)
    requires After(process, disk, steps).Some?
    ensures LocksMatch(After(process, disk, steps).value)
  {
    if steps != [] {
      RunsKeepLocks(process, disk, steps[..|steps| - 1]);
      NextKeepsLocks(After(process, disk, steps[..|steps| - 1]).value, steps[|steps| - 1]);
    }
  }

  /** A directory is held by one thread at a time. */
  lemma Exclusive(s: State, a: nat, b: nat, d: int)
    requires WellFormed(s) && LocksMatch(s) && a < |s.threads| && b < |s.threads|
    requires d in Held(s.threads[a]) && d in Held(s.threads[b])
    ensures a == b
  {
    assert Owns(s.threads[a], a, s.process[a], s.shared) && Owns(s.threads[b], b, s.process[b], s.shared);
    assert HeldBy(s.shared.directoryLocks, d, a) && HeldBy(s.shared.directoryLocks, d, b);
  }
}
