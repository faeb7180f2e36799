/** services/crypto.py: key rotation and its image on disk, for generated keys. A PEM is a string. */
module Keys {
  import opened Common

  datatype KeyInfo = KeyInfo(kid: string, pub: string, createdAt: string)

  /** The keys directory: the active key's files, keys.json, and previous/<kid>_public.pem. */
  datatype Disk = Disk(kid: string, pub: string, metadata: seq<(string, string)>, previous: map<string, string>)

  datatype Service = Service(kid: string, pub: string, previousKeys: seq<KeyInfo>, disk: Disk)

  function Cut(keys: seq<KeyInfo>, max: nat): seq<KeyInfo> { if |keys| > max then keys[..max] else keys }

  function MetadataOf(keys: seq<KeyInfo>): seq<(string, string)> {
    seq(|keys|, i requires 0 <= i < |keys| => (keys[i].kid, keys[i].createdAt))
  }

  function KidsOf(keys: seq<KeyInfo>): set<string> { set k | k in keys :: k.kid }

  /** rotate_keys; `retiredAt` is the created_at stamp of the entry, `next` the generated key. */
  function Rotated(s: Service, max: nat, retiredAt: string, next: KeyInfo): Service {
    var all := [KeyInfo(s.kid, s.pub, retiredAt)] + s.previousKeys;
    var kept := Cut(all, max);
    Service(next.kid, next.pub, kept,
            Disk(next.kid, next.pub, MetadataOf(kept), s.disk.previous[s.kid := s.pub] - KidsOf(all[|kept|..])))
  }

  /** _load_previous_keys: the metadata in order, entries without a key file skipped. */
  function LoadedPrevious(metadata: seq<(string, string)>, previous: map<string, string>): seq<KeyInfo> {
    if metadata == [] then []
    else
      var (kid, createdAt) := metadata[0];
      (if kid in previous then [KeyInfo(kid, previous[kid], createdAt)] else [])
      + LoadedPrevious(metadata[1..], previous)
  }

  /** A new service over the same directory. */
  function Restarted(s: Service): Service {
    Service(s.disk.kid, s.disk.pub, LoadedPrevious(s.disk.metadata, s.disk.previous), s.disk)
  }

  lemma OneMoreGone(all: seq<KeyInfo>, n: nat)
    requires 0 < n <= |all|
    ensures KidsOf(all[n - 1..]) == {all[n - 1].kid} + KidsOf(all[n..])
  {
    assert all[n - 1..] == [all[n - 1]] + all[n..];
  }

  class CryptoService {
    const maxPreviousKeys: nat
    var kid: string
    var pub: string
    var previousKeys: seq<KeyInfo>
    var disk: Disk

    function State(): Service
      reads this
    {
      Service(kid, pub, previousKeys, disk)
    }

    /** First start in an empty directory: a key pair is generated and written. */
    constructor (max: nat, generated: KeyInfo)
      ensures maxPreviousKeys == max && State() == Started(generated)
    {
      maxPreviousKeys := max;
      kid, pub, previousKeys := generated.kid, generated.pub, [];
      disk := Disk(generated.kid, generated.pub, [], map[]);
    }

    /** rotate_keys */
    method RotateKeys(retiredAt: string, next: KeyInfo)
      modifies this
      ensures State() == Rotated(old(State()), maxPreviousKeys, retiredAt, next)
    {
      var oldKid := kid;
      disk := disk.(previous := disk.previous[oldKid := pub]);
      previousKeys := [KeyInfo(oldKid, pub, retiredAt)] + previousKeys;
      PruneOldKeys();
      kid, pub := next.kid, next.pub;
      disk := Disk(kid, pub, MetadataOf(previousKeys), disk.previous);
    }

    /** The pruning loop: the oldest keys and their files go until the maximum is met. */
    method PruneOldKeys()
      modifies `previousKeys, `disk
      ensures previousKeys == Cut(old(previousKeys), maxPreviousKeys)
      ensures disk == old(disk).(previous := old(disk).previous - KidsOf(old(previousKeys)[|previousKeys|..]))
    {
      ghost var all, written := previousKeys, disk.previous;
      assert all[|all|..] == [] && written - KidsOf([]) == written;
      while |previousKeys| > maxPreviousKeys
        invariant previousKeys == all[..|previousKeys|] && |previousKeys| <= |all|
        invariant |previousKeys| >= maxPreviousKeys || previousKeys == all
        invariant disk == old(disk).(previous := written - KidsOf(all[|previousKeys|..]))
      {
        var removed := previousKeys[|previousKeys| - 1];
        OneMoreGone(all, |previousKeys|);
        previousKeys := previousKeys[..|previousKeys| - 1];
        if removed.kid in disk.previous {
          disk := disk.(previous := disk.previous - {removed.kid});
        }
      }
    }

    /** get_jwks: the active key and the previous ones. */
    method GetJwks() returns (kids: seq<string>)
      ensures kids == PublishedKids(State())
    {
      kids := [kid];
      for i := 0 to |previousKeys|
        invariant |kids| == i + 1 && kids[0] == kid && forall j | 0 <= j < i :: kids[j + 1] == previousKeys[j].kid
      {
        kids := kids + [previousKeys[i].kid];
      }
      assert kids == PublishedKids(State());
    }
  }

  function Started(generated: KeyInfo): Service {
    Service(generated.kid, generated.pub, [], Disk(generated.kid, generated.pub, [], map[]))
  }

  function PublishedKids(s: Service): seq<string> {
    [s.kid] + seq(|s.previousKeys|, j requires 0 <= j < |s.previousKeys| => s.previousKeys[j].kid)
  }

  // ---------------------------------------------------------------- histories

  /** Rotate to a newly generated key, or restart over the same directory. */
  datatype Step = Rotate(retiredAt: string, next: KeyInfo) | Restart

  function After(max: nat, first: KeyInfo, steps: seq<Step>): Service {
    if steps == [] then Started(first)
    else
      var s := After(max, first, steps[..|steps| - 1]);
      match steps[|steps| - 1]
      case Rotate(at, next) => Rotated(s, max, at, next)
      case Restart => Restarted(s)
  }

  /** The active key, and every key ever retired, newest first, with the stamp of its retirement. */
  function Active(first: KeyInfo, steps: seq<Step>): KeyInfo {
    if steps == [] then first
    else if steps[|steps| - 1].Rotate? then steps[|steps| - 1].next
    else Active(first, steps[..|steps| - 1])
  }

  function Retired(first: KeyInfo, steps: seq<Step>): seq<KeyInfo> {
    if steps == [] then []
    else
      var init, step := steps[..|steps| - 1], steps[|steps| - 1];
      if step.Restart? then Retired(first, init)
      else
        var k := Active(first, init);
        [KeyInfo(k.kid, k.pub, step.retiredAt)] + Retired(first, init)
  }

  /** Generated kids are new. */
  predicate FreshKids(first: KeyInfo, steps: seq<Step>) {
    forall i | 0 <= i < |steps| && steps[i].Rotate? ::
      steps[i].next.kid != first.kid
      && forall j | 0 <= j < i && steps[j].Rotate? :: steps[j].next.kid != steps[i].next.kid
  }

  predicate Distinct(keys: seq<KeyInfo>) { forall i, j | 0 <= i < j < |keys| :: keys[i].kid != keys[j].kid }

  /** The directory holds the files of the previous keys and nothing newer or older. */
  predicate Consistent(s: Service) {
    && s.disk.kid == s.kid && s.disk.pub == s.pub
    && s.disk.metadata == MetadataOf(s.previousKeys)
    && s.disk.previous.Keys == KidsOf(s.previousKeys)
    && forall k | k in s.previousKeys :: k.kid in s.disk.previous && s.disk.previous[k.kid] == k.pub
  }

  lemma {:induction false} ReloadRebuilds(keys: seq<KeyInfo>, previous: map<string, string>)
    requires forall k | k in keys :: k.kid in previous && previous[k.kid] == k.pub
    ensures LoadedPrevious(MetadataOf(keys), previous) == keys
  {
    if keys != [] {
      assert MetadataOf(keys)[1..] == MetadataOf(keys[1..]);
      ReloadRebuilds(keys[1..], previous);
    }
  }

  /** What a directory yields: an entry for each key of keys.json whose file is there, and for no other. */
  lemma {:induction false} LoadedFromDirectory(metadata: seq<(string, string)>, previous: map<string, string>,
                                               k: KeyInfo)
    ensures k in LoadedPrevious(metadata, previous)
            <==> (k.kid, k.createdAt) in metadata && k.kid in previous && k.pub == previous[k.kid]
  {
    if metadata != [] {
      LoadedFromDirectory(metadata[1..], previous, k);
      var (kid, createdAt) := metadata[0];
      var head := if kid in previous then [KeyInfo(kid, previous[kid], createdAt)] else [];
      var rest := LoadedPrevious(metadata[1..], previous);
      assert metadata == [metadata[0]] + metadata[1..];
      assert k in head + rest <==> k in head || k in rest;
      hide LoadedPrevious;
      assert k in head <==> k.kid in previous && k == KeyInfo(kid, previous[k.kid], createdAt) && kid == k.kid;
    }
  }

  lemma KeptKidsAreNotGone(all: seq<KeyInfo>, n: nat, k: KeyInfo)
    requires Distinct(all) && n <= |all| && k in all[..n]
    ensures k.kid !in KidsOf(all[n..])
    ensures k.kid == all[0].kid ==> k == all[0]
  {
    var i :| 0 <= i < n && all[i] == k;
    assert forall j | 0 <= j < |all| - n :: all[n..][j] == all[n + j];
  }

  lemma RotationKeepsConsistent(s: Service, max: nat, at: string, next: KeyInfo)
    requires Consistent(s) && Distinct([KeyInfo(s.kid, s.pub, at)] + s.previousKeys)
    ensures Consistent(Rotated(s, max, at, next))
  {
    var all := [KeyInfo(s.kid, s.pub, at)] + s.previousKeys;
    var kept := Cut(all, max);
    assert kept == all[..|kept|];
    forall k | k in kept ensures k.kid !in KidsOf(all[|kept|..]) && (k.kid == s.kid ==> k == all[0]) {
      KeptKidsAreNotGone(all, |kept|, k);
    }
    hide Distinct;
    KidsOfParts(all, |kept|);
    KidsOfParts(all, 1);
    assert all[..1] == [all[0]] && all[1..] == s.previousKeys;
    assert KidsOf(kept) == KidsOf(all) - KidsOf(all[|kept|..]);
    assert s.disk.previous[s.kid := s.pub].Keys == KidsOf(all);
  }

  lemma KidsOfParts(all: seq<KeyInfo>, n: nat)
    requires n <= |all|
    ensures KidsOf(all) == KidsOf(all[..n]) + KidsOf(all[n..])
  {
    assert all == all[..n] + all[n..];
  }

  /** A kid of the history: the first key's, or one generated in some step. */
  predicate Generated(first: KeyInfo, steps: seq<Step>, kid: string) {
    kid == first.kid || exists i | 0 <= i < |steps| && steps[i].Rotate? :: steps[i].next.kid == kid
  }

  lemma GeneratedLater(first: KeyInfo, steps: seq<Step>, kid: string)
    requires steps != [] && Generated(first, steps[..|steps| - 1], kid)
    ensures Generated(first, steps, kid)
  {
    if kid != first.kid {
      var i :| 0 <= i < |steps| - 1 && steps[i].Rotate? && steps[..|steps| - 1][i].next.kid == kid;
      assert steps[i].next.kid == kid;
    }
  }

  lemma {:induction false} KidsAreFresh(first: KeyInfo, steps: seq<Step>)
    requires FreshKids(first, steps)
    ensures Distinct([Active(first, steps)] + Retired(first, steps))
    ensures forall k | k in [Active(first, steps)] + Retired(first, steps) :: Generated(first, steps, k.kid)
  {
    if steps != [] {
      var init, step := steps[..|steps| - 1], steps[|steps| - 1];
      assert forall i | 0 <= i < |init| :: init[i] == steps[i];
      KidsAreFresh(first, init);
      var before := [Active(first, init)] + Retired(first, init);
      forall k | k in before ensures Generated(first, steps, k.kid) && (step.Rotate? ==> k.kid != step.next.kid) {
        GeneratedLater(first, steps, k.kid);
      }
      if step.Rotate? {
        assert steps[|steps| - 1].next.kid == step.next.kid;
        hide FreshKids, Generated, Active, Retired, Distinct;
        NewestInFront(before, [KeyInfo(before[0].kid, before[0].pub, step.retiredAt)] + before[1..], step.next);
        assert Retired(first, steps) == [KeyInfo(before[0].kid, before[0].pub, step.retiredAt)] + before[1..] by {
          RetiredStep(first, steps);
        }
        ActiveStep(first, steps);
        assert Generated(first, steps, step.next.kid) by {
          LastGenerated(first, steps);
        }
      }
    }
  }

  lemma LastGenerated(first: KeyInfo, steps: seq<Step>)
    requires steps != [] && steps[|steps| - 1].Rotate?
    ensures Generated(first, steps, steps[|steps| - 1].next.kid)
  {
  }

  lemma ActiveStep(first: KeyInfo, steps: seq<Step>)
    requires steps != [] && steps[|steps| - 1].Rotate?
    ensures Active(first, steps) == steps[|steps| - 1].next
  {
  }

  lemma RetiredStep(first: KeyInfo, steps: seq<Step>)
    requires steps != [] && steps[|steps| - 1].Rotate?
    ensures var init := steps[..|steps| - 1];
            var k := Active(first, init);
            var before := [k] + Retired(first, init);
            Retired(first, steps) == [KeyInfo(before[0].kid, before[0].pub, steps[|steps| - 1].retiredAt)] + before[1..]
  {
  }

  /** A new key in front of a list with the kids of `before`. */
  lemma NewestInFront(before: seq<KeyInfo>, retired: seq<KeyInfo>, next: KeyInfo)
    requires Distinct(before) && |retired| == |before|
    requires forall i | 0 <= i < |before| :: retired[i].kid == before[i].kid
    requires forall k | k in before :: k.kid != next.kid
    ensures Distinct([next] + retired)
    ensures forall k | k in [next] + retired :: k.kid == next.kid || exists b | b in before :: b.kid == k.kid
  {
    var all := [next] + retired;
    assert forall i | 0 < i < |all| :: all[i].kid == before[i - 1].kid && before[i - 1] in before;
  }

  /** Rotating a list that was already cut gives the cut of the whole history. */
  lemma CutRotation(s: Service, max: nat, at: string, k: KeyInfo, retired: seq<KeyInfo>)
    requires s.kid == k.kid && s.pub == k.pub && s.previousKeys == Cut(retired, max) && Distinct([k] + retired)
    ensures Distinct([KeyInfo(s.kid, s.pub, at)] + s.previousKeys)
    ensures Cut([KeyInfo(s.kid, s.pub, at)] + s.previousKeys, max) == Cut([KeyInfo(k.kid, k.pub, at)] + retired, max)
  {
    var a, b := [KeyInfo(s.kid, s.pub, at)] + s.previousKeys, [k] + retired;
    assert forall i | 0 <= i < |a| :: a[i].kid == b[i].kid;
  }

  lemma {:induction false} HistoryIs(max: nat, first: KeyInfo, steps: seq<Step>)
    requires FreshKids(first, steps)
    ensures var s := After(max, first, steps);
            && s.kid == Active(first, steps).kid && s.pub == Active(first, steps).pub
            && s.previousKeys == Cut(Retired(first, steps), max)
            && Consistent(s)
  {
    if steps != [] {
      var init, step := steps[..|steps| - 1], steps[|steps| - 1];
      assert forall i | 0 <= i < |init| :: init[i] == steps[i];
      HistoryIs(max, first, init);
      KidsAreFresh(first, init);
      var s := After(max, first, init);
      match step
      case Rotate(at, next) =>
        CutRotation(s, max, at, Active(first, init), Retired(first, init));
        hide Distinct, Consistent, FreshKids, Cut;
        RotationKeepsConsistent(s, max, at, next);
      case Restart =>
        ReloadRebuilds(s.previousKeys, s.disk.previous);
    }
  }

  /** After any sequence of rotations and restarts the previous keys are the most recently retired ones, newest first,
      cut to the maximum; reading keys.json and the key files back rebuilds exactly that list; and what is published
      is the active key and those. */
  lemma PreviousKeysAreTheLastRetired(max: nat, first: KeyInfo, steps: seq<Step>)
    requires FreshKids(first, steps)
    ensures var s := After(max, first, steps);
            var retired := Retired(first, steps);
            && s.previousKeys == (if |retired| > max then retired[..max] else retired)
            && Restarted(s) == s
            && s.disk.previous.Keys == (set k | k in s.previousKeys :: k.kid)
            && PublishedKids(s)[0] == Active(first, steps).kid
            && |PublishedKids(s)| == 1 + |s.previousKeys|
            && forall i | 0 <= i < |s.previousKeys| :: PublishedKids(s)[i + 1] == Retired(first, steps)[i].kid
  {
    HistoryIs(max, first, steps);
    var s := After(max, first, steps);
    ReloadRebuilds(s.previousKeys, s.disk.previous);
  }
}
