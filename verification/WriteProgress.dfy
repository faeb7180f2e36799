/** No deadlock, and every schedule finishes. */
module WriteProgress {
  import opened Common
  import opened ConfigWriter
  import opened WriteProtocol

  function HeldAbove(s: State, d: int): set<int> { set x | x in s.shared.directoryLocks && x > d }

  predicate Blocked(s: State, a: nat)
    requires WellFormed(s)
  {
    && a < |s.threads| && s.threads[a].Locking? && s.threads[a].got < |Directories(s.threads[a].items)|
    && Directories(s.threads[a].items)[s.threads[a].got] in s.shared.directoryLocks
  }

  function Wanted(s: State, a: nat): int
    requires WellFormed(s) && Blocked(s, a)
  {
    Directories(s.threads[a].items)[s.threads[a].got]
  }

  predicate Moves(s: State, a: nat)
    requires WellFormed(s)
  {
    a < |s.threads| && CanAdvance(s.threads[a], s.process[a], s.shared)
  }

  /** Whoever holds the directory a blocked thread wants can move, or wants a directory further up. */
  lemma HolderIsAhead(s: State, a: nat) returns (b: nat)
    requires WellFormed(s) && LocksMatch(s) && Blocked(s, a)
    ensures b < |s.threads| && HoldsProcess(s.threads[b])
    ensures Moves(s, b) || (Blocked(s, b) && Wanted(s, b) > Wanted(s, a))
  {
    var d := Wanted(s, a);
    b := s.shared.directoryLocks[d];
    assert Owns(s.threads[b], b, s.process[b], s.shared);
    assert HeldBy(s.shared.directoryLocks, d, b);
    assert d in Held(s.threads[b]);
    var t := s.threads[b];
    DirectoriesSorted(t.items);
    if t.Locking? && t.got < |Directories(t.items)| {
      assert d in Directories(t.items)[..t.got];
    }
  }

  /** Following the holders upwards ends, at a thread that can move. */
  lemma SomeHolderMoves(s: State, a: nat) returns (b: nat)
    requires WellFormed(s) && LocksMatch(s) && Blocked(s, a)
    ensures Moves(s, b)
    decreases HeldAbove(s, Wanted(s, a))
  {
    b := HolderIsAhead(s, a);
    if !Moves(s, b) {
      assert Wanted(s, b) in HeldAbove(s, Wanted(s, a)) && Wanted(s, b) !in HeldAbove(s, Wanted(s, b));
      b := SomeHolderMoves(s, b);
    }
  }

  /** In every reachable state some thread can move unless no call is in progress: sorted acquisition admits no
      deadlock, without anyone giving up. */
  lemma NoDeadlock(process: seq<nat>, disk: Disk, steps: seq<Step>, a: nat) returns (b: nat)
    requires After(process, disk, steps).Some?
    requires a < |After(process, disk, steps).value.threads| && !After(process, disk, steps).value.threads[a].Idle?
    ensures Moves(After(process, disk, steps).value, b)
  {
    RunsKeepLocks(process, disk, steps);
    var s := After(process, disk, steps).value;
    b := a;
    if s.threads[a].Waiting? && s.process[a] in s.shared.processLocks {
      b := s.shared.processLocks[s.process[a]];
      assert Owns(s.threads[b], b, s.process[b], s.shared);
      assert HeldBy(s.shared.processLocks, s.process[a], b);
    }
    if !Moves(s, b) {
      b := SomeHolderMoves(s, b);
    }
  }

  // ---------------------------------------------------------------- every schedule finishes

  /** The steps a call still has to make, at most. */
  function Work(t: Thread): nat
    requires InRange(t)
  {
    match t
    case Idle => 0
    case Releasing(items, got) => 1 + got
    case Writing(items, _, n) => 2 + |Directories(items)| + (|items| - n)
    case Editing(items, loaded) => 3 + |Directories(items)| + |items| + (|items| - |loaded|)
    case Checking(items, n) => 4 + |Directories(items)| + 2 * |items| + (|items| - n)
    case Locking(items, got) => 5 + |Directories(items)| + 3 * |items| + (|Directories(items)| - got)
    case Waiting(items) => 6 + 2 * |Directories(items)| + 3 * |items|
  }

  function TotalWork(threads: seq<Thread>): nat
    requires forall a | 0 <= a < |threads| :: InRange(threads[a])
  {
    if threads == [] then 0 else Work(threads[0]) + TotalWork(threads[1..])
  }

  lemma {:induction false} TotalWorkUpdate(threads: seq<Thread>, a: nat, t: Thread)
    requires forall b | 0 <= b < |threads| :: InRange(threads[b])
    requires a < |threads| && InRange(t)
    ensures TotalWork(threads[a := t]) == TotalWork(threads) - Work(threads[a]) + Work(t)
  {
    hide InRange, Work;
    if a == 0 {
      assert threads[a := t][1..] == threads[1..];
    } else {
      assert threads[a := t][1..] == threads[1..][a - 1 := t];
      TotalWorkUpdate(threads[1..], a - 1, t);
    }
  }

  lemma MoveWorks(t: Thread, a: nat, p: nat, sh: Shared, e: Step)
    requires InRange(t) && EnabledFor(t, p, sh, e) && !e.Call?
    ensures Work(MoveOf(t, a, p, sh, e).thread) < Work(t)
  {
  }

  lemma NextWorks(s: State, e: Step)
    requires WellFormed(s) && Enabled(s, e) && !e.Call?
    ensures TotalWork(Next(s, e).threads) < TotalWork(s.threads)
  {
    var m := MoveOf(s.threads[e.a], e.a, s.process[e.a], s.shared, e);
    MoveWorks(s.threads[e.a], e.a, s.process[e.a], s.shared, e);
    TotalWorkUpdate(s.threads, e.a, m.thread);
  }

  /** From any reachable state, with no new calls, every schedule ends within a bound known at once. With NoDeadlock:
      one that goes on as long as some thread can move ends with every call answered. */
  lemma {:induction false} SchedulesEnd(process: seq<nat>, disk: Disk, steps: seq<Step>, more: seq<Step>)
    requires After(process, disk, steps + more).Some? && forall i | 0 <= i < |more| :: !more[i].Call?
    ensures After(process, disk, steps).Some?
    ensures |more| + TotalWork(After(process, disk, steps + more).value.threads)
            <= TotalWork(After(process, disk, steps).value.threads)
  {
    hide WellFormed, Enabled, Next, TotalWork;
    if more == [] {
      assert steps + more == steps;
    } else {
      var init, all := more[..|more| - 1], steps + more;
      assert all[..|all| - 1] == steps + init;
      assert forall i | 0 <= i < |init| :: init[i] == more[i];
      SchedulesEnd(process, disk, steps, init);
      NextWorks(After(process, disk, steps + init).value, more[|more| - 1]);
    }
  }
}
