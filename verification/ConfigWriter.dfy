/** config_writer.py: one coordinated, conflict-checked batch of file replacements, run by itself. A file is its bytes;
    a revision is a collision-free hash, so it is identified with the bytes it names. A missing file reads as "". */
module ConfigWriter {
  import opened Common

  /** Directories are numbered in the order their names sort. */
  datatype Path = Path(dir: int, name: string)

  type Bytes = string

  type Disk = map<Path, Bytes>

  function Content(d: Disk, p: Path): Bytes { if p in d then d[p] else "" }

  /** `edit` loads the bytes, mutates the document and dumps it; None when loading or mutate raises. */
  datatype Item = Item(path: Path, expected: Option<Bytes>, edit: Bytes -> Option<Bytes>)

  datatype Result =
    | RepeatedPath
    | LockUnavailable
    | Conflict(at: nat)
    | EditRaised(at: nat)
    | WriteFailed(written: nat)
    | Written(revisions: seq<Bytes>)

  predicate DistinctPaths(items: seq<Item>) {
    forall i, j | 0 <= i < j < |items| :: items[i].path != items[j].path
  }

  predicate RevisionHolds(d: Disk, item: Item) { item.expected.None? || item.expected.value == Content(d, item.path) }

  function EditOf(d: Disk, item: Item): Option<Bytes> { item.edit(Content(d, item.path)) }

  /** The first item that fails `RevisionHolds`, or the number of items. */
  function FirstConflict(d: Disk, items: seq<Item>): (n: nat)
    ensures n <= |items| && forall i | 0 <= i < n :: RevisionHolds(d, items[i])
    ensures n < |items| ==> !RevisionHolds(d, items[n])
  {
    if items == [] || !RevisionHolds(d, items[0]) then 0 else 1 + FirstConflict(d, items[1..])
  }

  function FirstRaise(d: Disk, items: seq<Item>): (n: nat)
    ensures n <= |items| && forall i | 0 <= i < n :: EditOf(d, items[i]).Some?
    ensures n < |items| ==> EditOf(d, items[n]).None?
  {
    if items == [] || EditOf(d, items[0]).None? then 0 else 1 + FirstRaise(d, items[1..])
  }

  function Edits(d: Disk, items: seq<Item>): (r: seq<Bytes>)
    requires forall i | 0 <= i < |items| :: EditOf(d, items[i]).Some?
    ensures |r| == |items| && forall i | 0 <= i < |items| :: r[i] == EditOf(d, items[i]).value
  {
    seq(|items|, i requires 0 <= i < |items| => EditOf(d, items[i]).value)
  }

  /** The first `n` items replaced by their new bytes. */
  function Replaced(d: Disk, items: seq<Item>, new': seq<Bytes>, n: nat): Disk
    requires n <= |items| == |new'|
  {
    if n == 0 then d else Replaced(d, items, new', n - 1)[items[n - 1].path := new'[n - 1]]
  }

  lemma {:induction false} ReplacedContent(d: Disk, items: seq<Item>, new': seq<Bytes>, n: nat)
    requires n <= |items| == |new'| && DistinctPaths(items)
    ensures forall i | 0 <= i < n :: Content(Replaced(d, items, new', n), items[i].path) == new'[i]
    ensures forall p | (forall i | 0 <= i < n :: items[i].path != p) ::
              Content(Replaced(d, items, new', n), p) == Content(d, p)
  {
    if n > 0 {
      ReplacedContent(d, items, new', n - 1);
    }
  }

  /** What a batch does when nothing else runs; `failure` is the item whose write fails, if one does. */
  function Alone(d: Disk, items: seq<Item>, failure: Option<nat>): (Disk, Result) {
    if !DistinctPaths(items) then (d, RepeatedPath)
    else if FirstConflict(d, items) < |items| then (d, Conflict(FirstConflict(d, items)))
    else if FirstRaise(d, items) < |items| then (d, EditRaised(FirstRaise(d, items)))
    else
      var new' := Edits(d, items);
      if failure.Some? && failure.value < |items| then
        (Replaced(d, items, new', failure.value), WriteFailed(failure.value))
      else (Replaced(d, items, new', |items|), Written(new'))
  }

  /** A batch that does not get to its writes changes nothing; one that succeeds changes exactly its own files, to
      the edits of what they held, over exactly the revisions it named; a failing write leaves a written prefix. */
  lemma BatchEffect(d: Disk, items: seq<Item>, failure: Option<nat>)
    ensures var (d', r) := Alone(d, items, failure);
            && (r.RepeatedPath? || r.Conflict? || r.EditRaised? ==> d' == d)
            && (r.Written? ==>
                  && |r.revisions| == |items|
                  && (forall i | 0 <= i < |items| ::
                       && RevisionHolds(d, items[i])
                       && Some(r.revisions[i]) == EditOf(d, items[i])
                       && Content(d', items[i].path) == r.revisions[i])
                  && (forall p | (forall i | 0 <= i < |items| :: items[i].path != p) ::
                       Content(d', p) == Content(d, p)))
            && (r.WriteFailed? ==>
                  && r.written < |items|
                  && (forall i | 0 <= i < |items| :: RevisionHolds(d, items[i]) && EditOf(d, items[i]).Some?)
                  && (forall i | 0 <= i < r.written :: Some(Content(d', items[i].path)) == EditOf(d, items[i]))
                  && (forall p | (forall i | 0 <= i < r.written :: items[i].path != p) ::
                       Content(d', p) == Content(d, p)))
  {
    var r := Alone(d, items, failure).1;
    if r.Written? {
      ReplacedContent(d, items, r.revisions, |items|);
    } else if r.WriteFailed? {
      ReplacedContent(d, items, Edits(d, items), r.written);
    }
  }

  /** The item names a revision, and the file holds other bytes; a missing file holds none. */
  predicate Outdated(d: Disk, item: Item) {
    item.expected != None && item.expected != Some(if item.path in d then d[item.path] else "")
  }

  /** Loading, editing or dumping the file's document raises. */
  predicate Raises(d: Disk, item: Item) { item.edit(if item.path in d then d[item.path] else "") == None }

  predicate Repeats(items: seq<Item>) { exists i, j | 0 <= i < j < |items| :: items[i].path == items[j].path }

  /** Which result a batch gets. A repeated path comes first, then the first outdated item, then the first that
      raises; only a batch past all three is written. Items that name no revision are never in conflict. */
  lemma BatchResultExactly(d: Disk, items: seq<Item>, failure: Option<nat>)
    ensures var r := Alone(d, items, failure).1;
            && (r.RepeatedPath? <==> Repeats(items))
            && (r.Conflict? <==> !Repeats(items) && exists i | 0 <= i < |items| :: Outdated(d, items[i]))
            && (r.Conflict? ==> r.at < |items| && Outdated(d, items[r.at])
                                && forall i | 0 <= i < r.at :: !Outdated(d, items[i]))
            && (r.EditRaised? <==> && !Repeats(items) && (forall i | 0 <= i < |items| :: !Outdated(d, items[i]))
                                   && exists i | 0 <= i < |items| :: Raises(d, items[i]))
            && (r.EditRaised? ==> r.at < |items| && Raises(d, items[r.at])
                                  && forall i | 0 <= i < r.at :: !Raises(d, items[i]))
            && (r.Written? || r.WriteFailed?
                <==> !Repeats(items)
                     && forall i | 0 <= i < |items| :: !Outdated(d, items[i]) && !Raises(d, items[i]))
            && (r.WriteFailed? ==> failure == Some(r.written))
            && (failure == None ==> !r.WriteFailed?)
            && !r.LockUnavailable?
  {
    assert forall i | 0 <= i < |items| :: RevisionHolds(d, items[i]) <==> !Outdated(d, items[i]);
    assert forall i | 0 <= i < |items| :: EditOf(d, items[i]) == None <==> Raises(d, items[i]);
    assert DistinctPaths(items) <==> !Repeats(items);
    hide RevisionHolds, EditOf, Outdated, Raises, DistinctPaths, Repeats, Replaced, Content;
  }

  class Files {
    var disk: Disk

    constructor (disk: Disk)
      ensures this.disk == disk
    {
      this.disk := disk;
    }

    /** The body of compare_and_replace_many once the locks are held: check all, edit all, write all. */
    method CompareAndReplaceMany(items: seq<Item>, failure: Option<nat>) returns (r: Result)
      modifies this
      ensures (disk, r) == Alone(old(disk), items, failure)
    {
      if !DistinctPaths(items) {
        return RepeatedPath;
      }
      for i := 0 to |items|
        invariant forall j | 0 <= j < i :: RevisionHolds(disk, items[j])
        invariant disk == old(disk)
      {
        var actual := Content(disk, items[i].path);
        if items[i].expected.Some? && items[i].expected.value != actual {
          return Conflict(i);
        }
      }
      assert FirstConflict(disk, items) == |items|;
      hide DistinctPaths, FirstConflict, RevisionHolds;
      var loaded: seq<Bytes> := [];
      for i := 0 to |items|
        invariant disk == old(disk) && |loaded| == i
        invariant forall j | 0 <= j < i :: EditOf(disk, items[j]) == Some(loaded[j])
      {
        var document := items[i].edit(Content(disk, items[i].path));
        if document.None? {
          return EditRaised(i);
        }
        loaded := loaded + [document.value];
      }
      assert FirstRaise(disk, items) == |items| && loaded == Edits(disk, items);
      hide FirstRaise, Edits, EditOf;
      for i := 0 to |items|
        invariant disk == Replaced(old(disk), items, loaded, i)
        invariant failure.Some? ==> failure.value >= i
      {
        if failure == Some(i) {
          return WriteFailed(i);
        }
        disk := disk[items[i].path := loaded[i]];
      }
      return Written(loaded);
    }
  }

  // ---------------------------------------------------------------- the order of the locks

  predicate Increasing(s: seq<int>) { forall i, j | 0 <= i < j < |s| :: s[i] < s[j] }

  function Insert(s: seq<int>, d: int): seq<int> {
    if s == [] || d < s[0] then [d] + s
    else if d == s[0] then s
    else [s[0]] + Insert(s[1..], d)
  }

  /** sorted({path.parent for ...}) */
  function Directories(items: seq<Item>): seq<int> {
    if items == [] then [] else Insert(Directories(items[1..]), items[0].path.dir)
  }

  lemma {:induction false} InsertSorts(s: seq<int>, d: int)
    requires Increasing(s)
    ensures Increasing(Insert(s, d)) && forall x :: x in Insert(s, d) <==> x in s || x == d
  {
    if s == [] || d < s[0] {
      assert forall x :: x in [d] + s <==> x in s || x == d;
    } else if d != s[0] {
      InsertSorts(s[1..], d);
      var rest := Insert(s[1..], d);
      assert forall x :: x in s <==> x == s[0] || x in s[1..];
      assert forall x :: x in [s[0]] + rest <==> x == s[0] || x in rest;
      assert forall x | x in s[1..] :: s[0] < x;
      assert forall x | x in rest :: s[0] < x;
      assert forall j | 0 <= j < |rest| :: rest[j] in rest;
    }
  }

  /** The locks are taken in strictly increasing order, one for each directory of the batch and no other. */
  lemma {:induction false} DirectoriesSorted(items: seq<Item>)
    ensures Increasing(Directories(items))
    ensures forall i | 0 <= i < |items| :: items[i].path.dir in Directories(items)
    ensures forall d | d in Directories(items) :: exists i | 0 <= i < |items| :: items[i].path.dir == d
  {
    if items != [] {
      DirectoriesSorted(items[1..]);
      InsertSorts(Directories(items[1..]), items[0].path.dir);
      forall d | d in Directories(items) ensures exists i | 0 <= i < |items| :: items[i].path.dir == d {
        if d != items[0].path.dir {
          var i :| 0 <= i < |items[1..]| && items[1..][i].path.dir == d;
          assert items[i + 1].path.dir == d;
        }
      }
    }
  }
}
