/** Any interleaving has the effect of running the logged calls one at a time. */
module WriteLinear {
  import opened Common
  import opened ConfigWriter
  import opened WriteProtocol

  /** What a thread has established so far, in terms of the replayed log rather than of the disk. */
  ghost predicate DataOk(t: Thread, base: Disk)
    requires InRange(t)
  {
    match t
    case Idle => true
    case Waiting(items) => DistinctPaths(items)
    case Locking(items, _) => DistinctPaths(items)
    case Checking(items, n) => DistinctPaths(items) && AllHold(base, items, n)
    case Editing(items, loaded) =>
      DistinctPaths(items) && AllHold(base, items, |items|) && AllEdited(base, items, loaded)
    case Writing(items, loaded, _) =>
      DistinctPaths(items) && AllHold(base, items, |items|) && AllEdited(base, items, loaded)
    case Releasing(_, _) => true
  }

  predicate AllHold(base: Disk, items: seq<Item>, n: nat)
    requires n <= |items|
  {
    forall j | 0 <= j < n :: RevisionHolds(base, items[j])
  }

  predicate AllEdited(base: Disk, items: seq<Item>, loaded: seq<Bytes>)
    requires |loaded| <= |items|
  {
    forall j | 0 <= j < |loaded| :: EditOf(base, items[j]) == Some(loaded[j])
  }

  /** The file has been replaced by a call that is still writing. */
  ghost predicate WrittenBy(t: Thread, p: Path)
    requires InRange(t)
  {
    t.Writing? && exists j | 0 <= j < t.written :: t.items[j].path == p
  }

  predicate WritesShow(t: Thread, disk: Disk)
    requires InRange(t)
  {
    t.Writing? ==> forall j | 0 <= j < t.written :: Content(disk, t.items[j].path) == t.loaded[j]
  }

  ghost predicate DiskOk(s: State, base: Disk)
    requires WellFormed(s)
  {
    && (forall a | 0 <= a < |s.threads| :: WritesShow(s.threads[a], s.shared.disk))
    && forall p: Path :: (forall a | 0 <= a < |s.threads| :: !WrittenBy(s.threads[a], p)) ==>
                           Content(s.shared.disk, p) == Content(base, p)
  }

  ghost predicate Linear(s: State, first: Disk)
    requires WellFormed(s)
  {
    && AllLawful(first, s.log)
    && DiskOk(s, Replay(first, s.log))
    && forall a | 0 <= a < |s.threads| :: DataOk(s.threads[a], Replay(first, s.log))
  }

  // ---------------------------------------------------------------- exclusive access

  predicate Inside(t: Thread) { t.Checking? || t.Editing? || t.Writing? }

  lemma InsideHolds(t: Thread, i: nat)
    requires InRange(t) && Inside(t) && i < |t.items|
    ensures t.items[i].path.dir in Held(t)
  {
    DirectoriesSorted(t.items);
  }

  /** Nobody else is writing in the directories of a thread inside its section. */
  lemma NobodyElse(s: State, a: nat, i: nat, b: nat)
    requires WellFormed(s) && LocksMatch(s) && a < |s.threads| && b < |s.threads| && a != b
    requires Inside(s.threads[a]) && i < |s.threads[a].items|
    ensures !WrittenBy(s.threads[b], s.threads[a].items[i].path)
  {
    var p := s.threads[a].items[i].path;
    InsideHolds(s.threads[a], i);
    if WrittenBy(s.threads[b], p) {
      var j :| 0 <= j < s.threads[b].written && s.threads[b].items[j].path == p;
      InsideHolds(s.threads[b], j);
      Exclusive(s, a, b, p.dir);
    }
  }

  /** What a thread reads before it writes is what the log says. */
  lemma ReadsBase(s: State, base: Disk, a: nat, i: nat)
    requires WellFormed(s) && LocksMatch(s) && DiskOk(s, base) && a < |s.threads|
    requires s.threads[a].Checking? || s.threads[a].Editing?
    requires i < |s.threads[a].items|
    ensures Content(s.shared.disk, s.threads[a].items[i].path) == Content(base, s.threads[a].items[i].path)
  {
    var p := s.threads[a].items[i].path;
    forall b | 0 <= b < |s.threads| ensures !WrittenBy(s.threads[b], p) {
      if b != a {
        NobodyElse(s, a, i, b);
      }
    }
  }

  // ---------------------------------------------------------------- moves that settle nothing

  /** The item a thread looks at next reads, on the disk, as the log says. */
  ghost predicate ReadsAsLogged(t: Thread, disk: Disk, base: Disk)
    requires InRange(t)
  {
    && (t.Checking? && t.checked < |t.items| ==>
          Content(disk, t.items[t.checked].path) == Content(base, t.items[t.checked].path))
    && (t.Editing? && |t.loaded| < |t.items| ==>
          Content(disk, t.items[|t.loaded|].path) == Content(base, t.items[|t.loaded|].path))
  }

  lemma NextItemReads(s: State, base: Disk, a: nat)
    requires WellFormed(s) && LocksMatch(s) && DiskOk(s, base) && a < |s.threads|
    ensures ReadsAsLogged(s.threads[a], s.shared.disk, base)
  {
    var t := s.threads[a];
    if t.Checking? && t.checked < |t.items| {
      ReadsBase(s, base, a, t.checked);
    } else if t.Editing? && |t.loaded| < |t.items| {
      ReadsBase(s, base, a, |t.loaded|);
    }
    hide LocksMatch, DiskOk;
  }

  lemma MoveData(t: Thread, a: nat, p: nat, sh: Shared, base: Disk, e: Step)
    requires InRange(t) && EnabledFor(t, p, sh, e) && DataOk(t, base) && ReadsAsLogged(t, sh.disk, base)
    ensures DataOk(MoveOf(t, a, p, sh, e).thread, base)
  {
    hide Directories, Content;
  }

  lemma MoveKeepsData(s: State, base: Disk, e: Step)
    requires WellFormed(s) && Enabled(s, e) && LocksMatch(s) && DiskOk(s, base) && DataOk(s.threads[e.a], base)
    ensures DataOk(MoveOf(s.threads[e.a], e.a, s.process[e.a], s.shared, e).thread, base)
  {
    NextItemReads(s, base, e.a);
    hide DataOk, MoveOf, LocksMatch, DiskOk, ReadsAsLogged;
    MoveData(s.threads[e.a], e.a, s.process[e.a], s.shared, base, e);
  }

  predicate Writes(t: Thread, e: Step) { e.Advance? && t.Writing? && t.written < |t.items| }

  lemma QuietMoveKeepsDisk(s: State, base: Disk, e: Step)
    requires WellFormed(s) && Enabled(s, e) && DiskOk(s, base)
    requires !s.threads[e.a].Writing? && !Writes(s.threads[e.a], e)
    ensures DiskOk(Next(s, e), base)
  {
    var s' := Next(s, e);
    QuietMove(s.threads[e.a], e.a, s.process[e.a], s.shared, e);
    hide MoveOf, EnabledFor;
    forall p | forall a | 0 <= a < |s'.threads| :: !WrittenBy(s'.threads[a], p)
      ensures Content(s'.shared.disk, p) == Content(base, p)
    {
      forall a | 0 <= a < |s.threads| ensures !WrittenBy(s.threads[a], p) {
        assert !WrittenBy(s'.threads[a], p);
      }
    }
  }

  lemma QuietMove(t: Thread, a: nat, p: nat, sh: Shared, e: Step)
    requires InRange(t) && EnabledFor(t, p, sh, e) && !t.Writing?
    ensures var m := MoveOf(t, a, p, sh, e);
            m.shared.disk == sh.disk && (m.thread.Writing? ==> m.thread.written == 0)
  {
    hide Directories;
  }

  lemma WriteStep(s: State, e: Step)
    requires WellFormed(s) && Enabled(s, e) && Writes(s.threads[e.a], e)
    ensures var t := s.threads[e.a];
            && Next(s, e).threads == s.threads[e.a := Writing(t.items, t.loaded, t.written + 1)]
            && Next(s, e).shared.disk == s.shared.disk[t.items[t.written].path := t.loaded[t.written]]
  {
    hide Directories;
  }

  lemma OtherWritesStillShow(s: State, a: nat, b: nat, disk: Disk)
    requires WellFormed(s) && LocksMatch(s) && a < |s.threads| && b < |s.threads| && a != b
    requires s.threads[a].Writing? && s.threads[a].written < |s.threads[a].items|
    requires var t := s.threads[a]; disk == s.shared.disk[t.items[t.written].path := t.loaded[t.written]]
    requires WritesShow(s.threads[b], s.shared.disk)
    ensures WritesShow(s.threads[b], disk)
  {
    var q := s.threads[a].items[s.threads[a].written].path;
    if s.threads[b].Writing? {
      NobodyElse(s, a, s.threads[a].written, b);
      assert forall j | 0 <= j < s.threads[b].written :: s.threads[b].items[j].path != q;
    }
  }

  lemma OwnWritesShow(t: Thread, disk: Disk)
    requires InRange(t) && t.Writing? && t.written < |t.items| && DistinctPaths(t.items) && WritesShow(t, disk)
    ensures WritesShow(Writing(t.items, t.loaded, t.written + 1), disk[t.items[t.written].path := t.loaded[t.written]])
  {
  }

  lemma WrittenByMore(t: Thread, p: Path)
    requires InRange(t) && t.Writing? && t.written < |t.items|
    ensures WrittenBy(Writing(t.items, t.loaded, t.written + 1), p) <==> WrittenBy(t, p) || t.items[t.written].path == p
  {
    var t' := Writing(t.items, t.loaded, t.written + 1);
    if WrittenBy(t, p) {
      var j :| 0 <= j < t.written && t.items[j].path == p;
      assert t'.items[j].path == p;
    }
    if t.items[t.written].path == p {
      assert t'.items[t.written].path == p;
    }
  }

  /** One more file replaced. */
  lemma WriteKeepsDisk(s: State, base: Disk, e: Step)
    requires WellFormed(s) && Enabled(s, e) && LocksMatch(s) && DiskOk(s, base) && Writes(s.threads[e.a], e)
    requires DistinctPaths(s.threads[e.a].items)
    ensures DiskOk(Next(s, e), base)
  {
    var s', t := Next(s, e), s.threads[e.a];
    WriteStep(s, e);
    hide Next, Enabled, WrittenBy, WritesShow, LocksMatch;
    forall a | 0 <= a < |s.threads| ensures WritesShow(s'.threads[a], s'.shared.disk) {
      assert WritesShow(s.threads[a], s.shared.disk);
      if a == e.a {
        OwnWritesShow(t, s.shared.disk);
      } else {
        OtherWritesStillShow(s, e.a, a, s'.shared.disk);
      }
    }
    forall p | forall a | 0 <= a < |s'.threads| :: !WrittenBy(s'.threads[a], p)
      ensures Content(s'.shared.disk, p) == Content(base, p)
    {
      WrittenByMore(t, p);
      assert !WrittenBy(s'.threads[e.a], p);
      forall a | 0 <= a < |s.threads| ensures !WrittenBy(s.threads[a], p) {
        assert !WrittenBy(s'.threads[a], p);
      }
    }
  }

  // ---------------------------------------------------------------- moves that settle a call

  lemma ConflictIsDue(base: Disk, items: seq<Item>, n: nat)
    requires DistinctPaths(items) && n < |items| && AllHold(base, items, n) && !RevisionHolds(base, items[n])
    ensures Alone(base, items, None) == (base, Conflict(n))
  {
    assert FirstConflict(base, items) == n;
  }

  lemma RaiseIsDue(base: Disk, items: seq<Item>, loaded: seq<Bytes>)
    requires DistinctPaths(items) && AllHold(base, items, |items|)
    requires |loaded| < |items| && AllEdited(base, items, loaded) && EditOf(base, items[|loaded|]).None?
    ensures Alone(base, items, None) == (base, EditRaised(|loaded|))
  {
    assert FirstConflict(base, items) == |items|;
    assert FirstRaise(base, items) == |loaded|;
  }

  lemma WritesAreDue(base: Disk, items: seq<Item>, loaded: seq<Bytes>, n: nat)
    requires DistinctPaths(items) && AllHold(base, items, |items|)
    requires |loaded| == |items| && AllEdited(base, items, loaded) && n <= |items|
    ensures n < |items| ==> Alone(base, items, Some(n)) == (Replaced(base, items, loaded, n), WriteFailed(n))
    ensures Alone(base, items, None) == (Replaced(base, items, loaded, |items|), Written(loaded))
  {
    assert FirstConflict(base, items) == |items|;
    assert FirstRaise(base, items) == |items|;
    assert Edits(base, items) == loaded;
  }

  ghost predicate Due(t: Thread, base: Disk, e: Step, r: Result)
    requires InRange(t) && (e.Call? || !t.Idle?)
  {
    var entry := Entry(e.a, ItemsOf(t, e), r);
    && Lawful(base, entry)
    && Applied(base, entry) == (if t.Writing? then Replaced(base, t.items, t.loaded, t.written) else base)
  }

  lemma ReaderSettles(t: Thread, p: nat, sh: Shared, base: Disk, e: Step)
    requires InRange(t) && CanAdvance(t, p, sh) && DataOk(t, base) && e.Advance?
    requires t.Checking? && t.checked < |t.items| ==>
               RevisionHolds(sh.disk, t.items[t.checked]) == RevisionHolds(base, t.items[t.checked])
    requires t.Editing? && |t.loaded| < |t.items| ==>
               EditOf(sh.disk, t.items[|t.loaded|]) == EditOf(base, t.items[|t.loaded|])
    requires t.Checking? || t.Editing?
    requires Advanced(t, e.a, p, sh).outcome.Some?
    ensures Due(t, base, e, Advanced(t, e.a, p, sh).outcome.value)
  {
    hide Alone, Directories, RevisionHolds, EditOf, Replaced;
    if t.Checking? {
      ConflictIsDue(base, t.items, t.checked);
    } else {
      RaiseIsDue(base, t.items, t.loaded);
    }
  }

  lemma WriterSettles(t: Thread, p: nat, sh: Shared, base: Disk, e: Step)
    requires InRange(t) && EnabledFor(t, p, sh, e) && DataOk(t, base) && t.Writing?
    requires MoveOf(t, e.a, p, sh, e).outcome.Some?
    ensures Due(t, base, e, MoveOf(t, e.a, p, sh, e).outcome.value)
  {
    hide Alone, Directories, RevisionHolds, EditOf, Replaced;
    WritesAreDue(base, t.items, t.loaded, t.written);
  }

  lemma OutsiderSettles(t: Thread, p: nat, sh: Shared, base: Disk, e: Step)
    requires InRange(t) && EnabledFor(t, p, sh, e) && !Inside(t)
    requires MoveOf(t, e.a, p, sh, e).outcome.Some?
    ensures Due(t, base, e, MoveOf(t, e.a, p, sh, e).outcome.value)
  {
    hide Directories, RevisionHolds, EditOf, Replaced, FirstConflict, FirstRaise;
  }

  /** The settled result is the one the call gets when run alone on the replayed log. */
  lemma SettlesLawfully(s: State, base: Disk, e: Step)
    requires WellFormed(s) && Enabled(s, e) && LocksMatch(s) && DiskOk(s, base) && DataOk(s.threads[e.a], base)
    requires MoveOf(s.threads[e.a], e.a, s.process[e.a], s.shared, e).outcome.Some?
    ensures Due(s.threads[e.a], base, e, MoveOf(s.threads[e.a], e.a, s.process[e.a], s.shared, e).outcome.value)
  {
    var t := s.threads[e.a];
    hide Due, DataOk;
    if t.Writing? {
      WriterSettles(t, s.process[e.a], s.shared, base, e);
    } else if Inside(t) {
      if t.Checking? && t.checked < |t.items| {
        ReadsBase(s, base, e.a, t.checked);
      } else if t.Editing? && |t.loaded| < |t.items| {
        ReadsBase(s, base, e.a, |t.loaded|);
      }
      ReaderSettles(t, s.process[e.a], s.shared, base, e);
    } else {
      OutsiderSettles(t, s.process[e.a], s.shared, base, e);
    }
  }

  lemma OthersKeepData(t: Thread, base: Disk, base': Disk)
    requires InRange(t) && DataOk(t, base)
    requires Inside(t) ==> forall i | 0 <= i < |t.items| ::
               Content(base', t.items[i].path) == Content(base, t.items[i].path)
    ensures DataOk(t, base')
  {
    hide Directories;
    if Inside(t) {
      assert forall i | 0 <= i < |t.items| :: RevisionHolds(base', t.items[i]) == RevisionHolds(base, t.items[i]);
      assert forall i | 0 <= i < |t.items| :: EditOf(base', t.items[i]) == EditOf(base, t.items[i]);
    }
  }

  /** The effect of a settled writer lies in directories nobody else is inside. */
  lemma EffectIsElsewhere(s: State, base: Disk, a: nat, b: nat, i: nat)
    requires WellFormed(s) && LocksMatch(s) && a < |s.threads| && b < |s.threads| && a != b
    requires s.threads[a].Writing? && DistinctPaths(s.threads[a].items)
    requires Inside(s.threads[b]) && i < |s.threads[b].items|
    ensures var t, p := s.threads[a], s.threads[b].items[i].path;
            Content(Replaced(base, t.items, t.loaded, t.written), p) == Content(base, p)
  {
    var t, p := s.threads[a], s.threads[b].items[i].path;
    ReplacedContent(base, t.items, t.loaded, t.written);
    NobodyElse(s, b, i, a);
    assert forall j | 0 <= j < t.written :: t.items[j].path != p;
  }

  lemma SettledWriterKeepsDisk(s: State, base: Disk, e: Step)
    requires WellFormed(s) && Enabled(s, e) && DiskOk(s, base)
    requires s.threads[e.a].Writing? && !Writes(s.threads[e.a], e) && DistinctPaths(s.threads[e.a].items)
    ensures var t := s.threads[e.a]; DiskOk(Next(s, e), Replaced(base, t.items, t.loaded, t.written))
  {
    var s', t := Next(s, e), s.threads[e.a];
    var base' := Replaced(base, t.items, t.loaded, t.written);
    assert s'.shared.disk == s.shared.disk && s'.threads[e.a].Releasing?;
    ReplacedContent(base, t.items, t.loaded, t.written);
    forall p | forall a | 0 <= a < |s'.threads| :: !WrittenBy(s'.threads[a], p)
      ensures Content(s'.shared.disk, p) == Content(base', p)
    {
      if j :| 0 <= j < t.written && t.items[j].path == p {
        assert WritesShow(t, s.shared.disk);
      } else {
        forall a | 0 <= a < |s.threads| ensures !WrittenBy(s.threads[a], p) {
          assert !WrittenBy(s'.threads[a], p);
        }
      }
    }
  }

  // ---------------------------------------------------------------- every step

  lemma OthersKeepDataAfter(s: State, base: Disk, base': Disk, a: nat)
    requires WellFormed(s) && LocksMatch(s) && a < |s.threads|
    requires forall b | 0 <= b < |s.threads| :: DataOk(s.threads[b], base)
    requires var t := s.threads[a]; base' == if t.Writing? then Replaced(base, t.items, t.loaded, t.written) else base
    ensures forall b | 0 <= b < |s.threads| && b != a :: DataOk(s.threads[b], base')
  {
    forall b | 0 <= b < |s.threads| && b != a ensures DataOk(s.threads[b], base') {
      if s.threads[a].Writing? && Inside(s.threads[b]) {
        forall i | 0 <= i < |s.threads[b].items|
          ensures Content(base', s.threads[b].items[i].path) == Content(base, s.threads[b].items[i].path)
        {
          assert DataOk(s.threads[a], base);
          EffectIsElsewhere(s, base, a, b, i);
        }
      }
      OthersKeepData(s.threads[b], base, base');
    }
  }

  lemma NextKeepsLinear(s: State, first: Disk, e: Step)
    requires WellFormed(s) && Enabled(s, e) && LocksMatch(s) && Linear(s, first)
    ensures Linear(Next(s, e), first)
  {
    var base := Replay(first, s.log);
    var t := s.threads[e.a];
    assert DataOk(t, base);
    var m := MoveOf(t, e.a, s.process[e.a], s.shared, e);
    if m.outcome.Some? {
      SettlesLawfully(s, base, e);
      SettleKeepsLinear(s, first, e);
    } else {
      QuietKeepsLinear(s, first, e);
    }
  }

  lemma QuietKeepsLinear(s: State, first: Disk, e: Step)
    requires WellFormed(s) && Enabled(s, e) && LocksMatch(s) && Linear(s, first)
    requires MoveOf(s.threads[e.a], e.a, s.process[e.a], s.shared, e).outcome.None?
    ensures Linear(Next(s, e), first)
  {
    var base := Replay(first, s.log);
    var t := s.threads[e.a];
    MoveKeepsData(s, base, e);
    assert DataOk(t, base);
    if t.Writing? {
      assert DistinctPaths(t.items) && Writes(t, e);
      WriteKeepsDisk(s, base, e);
    } else {
      QuietMoveKeepsDisk(s, base, e);
    }
    hide DataOk, DiskOk, MoveOf, EnabledFor, LocksMatch, AllLawful, Replay;
  }

  function OutcomeOf(s: State, e: Step): Option<Result>
    requires WellFormed(s) && Enabled(s, e)
  {
    MoveOf(s.threads[e.a], e.a, s.process[e.a], s.shared, e).outcome
  }

  /** The files as the log has them after the step: a settled writer's replacements are in force. */
  function BaseAfter(base: Disk, t: Thread): Disk
    requires InRange(t)
  {
    if t.Writing? then Replaced(base, t.items, t.loaded, t.written) else base
  }

  lemma SettledLog(s: State, first: Disk, e: Step)
    requires WellFormed(s) && Enabled(s, e) && OutcomeOf(s, e).Some? && AllLawful(first, s.log)
    requires Due(s.threads[e.a], Replay(first, s.log), e, OutcomeOf(s, e).value)
    ensures AllLawful(first, Next(s, e).log)
    ensures Replay(first, Next(s, e).log) == BaseAfter(Replay(first, s.log), s.threads[e.a])
  {
    var entry := Entry(e.a, ItemsOf(s.threads[e.a], e), OutcomeOf(s, e).value);
    hide MoveOf, EnabledFor, Replay, Applied, Lawful, Replaced, AllLawful, InRange;
    LogGrows(first, s.log, entry);
  }

  lemma SettledThreads(s: State, base: Disk, e: Step)
    requires WellFormed(s) && Enabled(s, e) && LocksMatch(s) && OutcomeOf(s, e).Some?
    requires forall a | 0 <= a < |s.threads| :: DataOk(s.threads[a], base)
    ensures forall a | 0 <= a < |s.threads| :: DataOk(Next(s, e).threads[a], BaseAfter(base, s.threads[e.a]))
  {
    var t := s.threads[e.a];
    SettledIsOutside(t, e.a, s.process[e.a], s.shared, e);
    SettledDataOk(MoveOf(t, e.a, s.process[e.a], s.shared, e).thread, BaseAfter(base, t));
    OthersKeepDataAfter(s, base, BaseAfter(base, t), e.a);
    hide MoveOf, EnabledFor, LocksMatch, Replaced, DataOk, InRange, BaseAfter;
  }

  lemma SettleKeepsLinear(s: State, first: Disk, e: Step)
    requires WellFormed(s) && Enabled(s, e) && LocksMatch(s) && Linear(s, first) && OutcomeOf(s, e).Some?
    requires Due(s.threads[e.a], Replay(first, s.log), e, OutcomeOf(s, e).value)
    ensures Linear(Next(s, e), first)
  {
    SettledIsOutside(s.threads[e.a], e.a, s.process[e.a], s.shared, e);
    hide Due, OutcomeOf, MoveOf, EnabledFor, LocksMatch, Replay, Replaced, Writes, DiskOk, AllLawful, DataOk, InRange;
    SettledLog(s, first, e);
    SettledThreads(s, Replay(first, s.log), e);
    SettleKeepsDisk(s, Replay(first, s.log), e, BaseAfter(Replay(first, s.log), s.threads[e.a]));
    hide BaseAfter, Enabled;
  }

  lemma SettleKeepsDisk(s: State, base: Disk, e: Step, base': Disk)
    requires WellFormed(s) && Enabled(s, e) && DiskOk(s, base) && DataOk(s.threads[e.a], base)
    requires !Writes(s.threads[e.a], e) && base' == BaseAfter(base, s.threads[e.a])
    ensures DiskOk(Next(s, e), base')
  {
    if s.threads[e.a].Writing? {
      SettledWriterKeepsDisk(s, base, e);
    } else {
      QuietMoveKeepsDisk(s, base, e);
    }
    hide DiskOk, Enabled, Replaced;
  }

  lemma SettledDataOk(t: Thread, base: Disk)
    requires InRange(t) && (t.Idle? || t.Releasing?)
    ensures DataOk(t, base)
  {
  }

  lemma SettledIsOutside(t: Thread, a: nat, p: nat, sh: Shared, e: Step)
    requires InRange(t) && EnabledFor(t, p, sh, e) && MoveOf(t, a, p, sh, e).outcome.Some?
    ensures var m := MoveOf(t, a, p, sh, e); m.thread.Idle? || m.thread.Releasing?
    ensures !Writes(t, e)
  {
    hide Directories;
  }

  // ---------------------------------------------------------------- main results

  lemma {:induction false} RunsAreLinear(process: seq<nat>, first: Disk, steps: seq<Step>)
    requires After(process, first, steps).Some?
    ensures Linear(After(process, first, steps).value, first)
  {
    if steps != [] {
      var init, e := steps[..|steps| - 1], steps[|steps| - 1];
      RunsAreLinear(process, first, init);
      RunsKeepLocks(process, first, init);
      NextKeepsLinear(After(process, first, init).value, first, e);
    }
  }

  /** For any interleaving, every call got the result it would have got alone, at its place in the log; and whenever
      nobody is in the middle of writing, the files are what running the log one call at a time leaves. */
  lemma RunsLinearize(process: seq<nat>, first: Disk, steps: seq<Step>)
    requires After(process, first, steps).Some?
    ensures var s := After(process, first, steps).value;
            && (forall i | 0 <= i < |s.log| :: Lawful(Replay(first, s.log[..i]), s.log[i]))
            && ((forall a | 0 <= a < |s.threads| :: !s.threads[a].Writing?) ==>
                  forall p: Path :: Content(s.shared.disk, p) == Content(Replay(first, s.log), p))
  {
    RunsAreLinear(process, first, steps);
    var s := After(process, first, steps).value;
    if forall a | 0 <= a < |s.threads| :: !s.threads[a].Writing? {
      assert forall p: Path, a | 0 <= a < |s.threads| :: !WrittenBy(s.threads[a], p);
    }
  }

  /** The result of every call of a run that took its locks, by what the calls logged before it had left on disk: the
      first outdated item, the first that raises, or written. */
  lemma LoggedResultsExactly(process: seq<nat>, first: Disk, steps: seq<Step>, i: nat)
    requires After(process, first, steps).Some? && i < |After(process, first, steps).value.log|
    requires !After(process, first, steps).value.log[i].result.LockUnavailable?
    ensures var e := After(process, first, steps).value.log[i];
            var d, items := Replay(first, After(process, first, steps).value.log[..i]), e.items;
            && (e.result.RepeatedPath? <==> Repeats(items))
            && (e.result.Conflict? <==> !Repeats(items) && exists j | 0 <= j < |items| :: Outdated(d, items[j]))
            && (e.result.Conflict? ==> e.result.at < |items| && Outdated(d, items[e.result.at])
                                       && forall j | 0 <= j < e.result.at :: !Outdated(d, items[j]))
            && (e.result.EditRaised? ==> e.result.at < |items| && Raises(d, items[e.result.at])
                                         && forall j | 0 <= j < e.result.at :: !Raises(d, items[j]))
            && (e.result.Written? || e.result.WriteFailed?
                <==> !Repeats(items)
                     && forall j | 0 <= j < |items| :: !Outdated(d, items[j]) && !Raises(d, items[j]))
  {
    RunsLinearize(process, first, steps);
    var log := After(process, first, steps).value.log;
    var d := Replay(first, log[..i]);
    assert Lawful(d, log[i]);
    hide After, Replay, Alone, Outdated, Raises, Repeats;
    BatchResultExactly(d, log[i].items, FailureOf(log[i].result));
  }

  predicate IsPathOf(items: seq<Item>, p: Path) { exists i | 0 <= i < |items| :: items[i].path == p }

  /** A batch that succeeded among others wrote only over the bytes whose revisions it named, changed no other file,
      and lost nobody's update: each file was edited from what the calls before it had left. */
  lemma WrittenOverNamedRevisions(process: seq<nat>, first: Disk, steps: seq<Step>, i: nat)
    requires After(process, first, steps).Some?
    requires i < |After(process, first, steps).value.log| && After(process, first, steps).value.log[i].result.Written?
    ensures var log := After(process, first, steps).value.log;
            var before, after, items := Replay(first, log[..i]), Replay(first, log[..i + 1]), log[i].items;
            && |log[i].result.revisions| == |items|
            && (forall j | 0 <= j < |items| ::
                 && (items[j].expected.Some? ==> items[j].expected.value == Content(before, items[j].path))
                 && items[j].edit(Content(before, items[j].path)) == Some(log[i].result.revisions[j])
                 && Content(after, items[j].path) == log[i].result.revisions[j])
            && (forall p | !IsPathOf(items, p) :: Content(after, p) == Content(before, p))
  {
    RunsLinearize(process, first, steps);
    var log := After(process, first, steps).value.log;
    var before, items := Replay(first, log[..i]), log[i].items;
    assert log[..i + 1][..i] == log[..i];
    assert Lawful(before, log[i]);
    BatchEffect(before, items, None);
    assert Replay(first, log[..i + 1]) == Applied(before, log[i]);
    assert forall p, j | !IsPathOf(items, p) && 0 <= j < |items| :: items[j].path != p;
  }

  /** A call that conflicted, whose edit raised, that repeated a path or could not get its locks changed no file. */
  lemma RefusedCallsWriteNothing(process: seq<nat>, first: Disk, steps: seq<Step>, i: nat)
    requires After(process, first, steps).Some? && i < |After(process, first, steps).value.log|
    ensures var log := After(process, first, steps).value.log;
            log[i].result.Written? || log[i].result.WriteFailed?
            || Replay(first, log[..i + 1]) == Replay(first, log[..i])
  {
    RunsLinearize(process, first, steps);
    var log := After(process, first, steps).value.log;
    assert log[..i + 1][..i] == log[..i];
    assert Lawful(Replay(first, log[..i]), log[i]);
    hide Alone, After;
    BatchEffect(Replay(first, log[..i]), log[i].items, None);
  }
}
