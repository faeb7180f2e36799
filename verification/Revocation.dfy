/** services/revocation.py: revoked token ids and rotation families, each remembered until its expiry.
    Times are seconds as reals; every call is given the clock readings it makes. */
module Revocation {
  import opened Common

  const RETENTION_SECONDS := 8.0 * 86400.0

  /** When an entry may be forgotten; Never is float("inf"). */
  datatype Expiry = At(time: real) | Never {
    predicate After(now: real) { Never? || time > now }

    predicate Covers(time': real) { Never? || time >= time' }
  }

  function Later(a: Expiry, b: Expiry): Expiry {
    if a.Never? || b.Never? then Never else if a.time >= b.time then a else b
  }

  /** The three-state trust contract, with the verified value that does not coerce to a number. */
  datatype Horizon = Unset | NoExp | NotANumber | Verified(exp: real)

  function EffectiveExpiry(h: Horizon, now: real): (e: Expiry)
    ensures e.After(now)
    ensures h.Verified? ==> e.Covers(h.exp)
    ensures h.Unset? ==> e.Covers(now + RETENTION_SECONDS)
  {
    match h
    case Unset => At(now + RETENTION_SECONDS)
    case NoExp => Never
    case NotANumber => Never
    case Verified(exp) => if exp >= now + 60.0 then At(exp) else At(now + 60.0)
  }

  // ---------------------------------------------------------------- specification on values

  type Entries = map<string, Expiry>

  datatype Store = Store(tokens: Entries, families: Entries)

  function Unexpired(entries: Entries, now: real): Entries {
    map k | k in entries && entries[k].After(now) :: entries[k]
  }

  function Swept(s: Store, now: real): Store {
    Store(Unexpired(s.tokens, now), Unexpired(s.families, now))
  }

  /** revoke: sweep, then extend the retention of one id, never shorten it. */
  function Revoked(s: Store, id: string, h: Horizon, sweepAt: real, readAt: real): Store {
    var swept := Swept(s, sweepAt);
    var previous := if id in swept.tokens then swept.tokens[id] else At(0.0);
    swept.(tokens := swept.tokens[id := Later(previous, EffectiveExpiry(h, readAt))])
  }

  predicate TokenRevoked(s: Store, jti: Option<string>) { jti.Some? && jti.value in s.tokens }

  predicate FamilyRevoked(s: Store, family: Option<string>) { Truthy(family) && family.value in s.families }

  /** check_and_claim_refresh: the new store and whether reuse was detected. */
  function Claimed(s: Store, jti: Option<string>, family: Option<string>, rotate: bool, h: Horizon,
                   sweepAt: real, readAt: real): (Store, bool)
  {
    var swept := Swept(s, sweepAt);
    var familyRevoked := FamilyRevoked(swept, family);
    if TokenRevoked(swept, jti) || familyRevoked then
      if rotate && Truthy(family) && !familyRevoked then
        var retention := if h.NoExp? then NoExp else Unset;
        (swept.(families := swept.families[family.value := EffectiveExpiry(retention, readAt)]), true)
      else
        (swept, true)
    else if rotate && Truthy(jti) then
      (swept.(tokens := swept.tokens[jti.value := EffectiveExpiry(h, readAt)]), false)
    else
      (swept, false)
  }

  // ---------------------------------------------------------------- the class

  class RevocationStore {
    var revokedTokens: Entries
    var revokedFamilies: Entries

    function State(): Store
      reads this
    {
      Store(revokedTokens, revokedFamilies)
    }

    constructor ()
      ensures State() == Store(map[], map[])
    {
      revokedTokens, revokedFamilies := map[], map[];
    }

    method SweepLocked(now: real)
      modifies this
      ensures State() == Swept(old(State()), now)
    {
      revokedTokens := DropExpired(revokedTokens, now);
      revokedFamilies := DropExpired(revokedFamilies, now);
    }

    /** One round of the sweep loop: list the expired keys, then delete them one by one. */
    static method DropExpired(entries: Entries, now: real) returns (kept: Entries)
      ensures kept == Unexpired(entries, now)
    {
      kept := entries;
      var expired := set k | k in entries && !entries[k].After(now);
      while expired != {}
        invariant expired <= kept.Keys && forall k | k in kept :: k in entries && kept[k] == entries[k]
        invariant forall k | k in entries :: k !in expired ==> (k in kept <==> entries[k].After(now))
        invariant forall k | k in expired :: !entries[k].After(now)
      {
        var key :| key in expired;
        expired := expired - {key};
        kept := kept - {key};
      }
    }

    method Revoke(tokenId: string, h: Horizon, sweepAt: real, readAt: real)
      modifies this
      ensures State() == Revoked(old(State()), tokenId, h, sweepAt, readAt)
    {
      SweepLocked(sweepAt);
      var previous := if tokenId in revokedTokens then revokedTokens[tokenId] else At(0.0);
      revokedTokens := revokedTokens[tokenId := Later(previous, EffectiveExpiry(h, readAt))];
    }

    method IsRevoked(tokenId: Option<string>) returns (revoked: bool)
      ensures revoked == TokenRevoked(State(), tokenId)
    {
      revoked := tokenId.Some? && tokenId.value in revokedTokens;
    }

    method CheckAndClaimRefresh(jti: Option<string>, family: Option<string>, rotate: bool, h: Horizon,
                                sweepAt: real, readAt: real) returns (reused: bool)
      modifies this
      ensures (State(), reused) == Claimed(old(State()), jti, family, rotate, h, sweepAt, readAt)
    {
      SweepLocked(sweepAt);
      var familyRevoked := Truthy(family) && family.value in revokedFamilies;
      var tokenRevoked := jti.Some? && jti.value in revokedTokens;
      if tokenRevoked || familyRevoked {
        if rotate && Truthy(family) && !familyRevoked {
          var retention := if h.NoExp? then NoExp else Unset;
          revokedFamilies := revokedFamilies[family.value := EffectiveExpiry(retention, readAt)];
        }
        return true;
      }
      if rotate && Truthy(jti) {
        revokedTokens := revokedTokens[jti.value := EffectiveExpiry(h, readAt)];
      }
      return false;
    }
  }
}

/** Sweeping is unobservable: a store that deletes answers like one that keeps every write it ever made and
    compares expiries when asked. */
module RevocationHistory {
  import opened Common
  import opened Revocation

  datatype Event =
    | Revoke(id: string, h: Horizon, sweepAt: real, readAt: real)
    | Claim(jti: Option<string>, family: Option<string>, rotate: bool, h: Horizon, sweepAt: real, readAt: real)

  /** Every write ever made, with the expiry it carried. */
  datatype Archive = Archive(tokens: set<(string, Expiry)>, families: set<(string, Expiry)>)

  ghost predicate InForce(writes: set<(string, Expiry)>, key: string, now: real) {
    exists w :: w in writes && w.0 == key && w.1.After(now)
  }

  ghost function Recorded(a: Archive, e: Event): (Archive, bool) {
    match e
    case Revoke(id, h, _, readAt) =>
      (a.(tokens := a.tokens + {(id, EffectiveExpiry(h, readAt))}), false)
    case Claim(jti, family, rotate, h, sweepAt, readAt) =>
      var familyRevoked := Truthy(family) && InForce(a.families, family.value, sweepAt);
      if (jti.Some? && InForce(a.tokens, jti.value, sweepAt)) || familyRevoked then
        if rotate && Truthy(family) && !familyRevoked then
          var retention := if h.NoExp? then NoExp else Unset;
          (a.(families := a.families + {(family.value, EffectiveExpiry(retention, readAt))}), true)
        else
          (a, true)
      else if rotate && Truthy(jti) then
        (a.(tokens := a.tokens + {(jti.value, EffectiveExpiry(h, readAt))}), false)
      else
        (a, false)
  }

  function Stored(s: Store, e: Event): (Store, bool) {
    match e
    case Revoke(id, h, sweepAt, readAt) => (Revoked(s, id, h, sweepAt, readAt), false)
    case Claim(jti, family, rotate, h, sweepAt, readAt) => Claimed(s, jti, family, rotate, h, sweepAt, readAt)
  }

  /** The clock starts after the epoch and never goes back. */
  predicate Timed(events: seq<Event>) {
    forall i | 0 <= i < |events| ::
      0.0 <= events[i].sweepAt <= events[i].readAt && (i > 0 ==> events[i - 1].readAt <= events[i].sweepAt)
  }

  function StoreAfter(events: seq<Event>): Store {
    if events == [] then Store(map[], map[]) else Stored(StoreAfter(events[..|events| - 1]), events[|events| - 1]).0
  }

  ghost function ArchiveAfter(events: seq<Event>): Archive {
    if events == [] then Archive({}, {}) else Recorded(ArchiveAfter(events[..|events| - 1]), events[|events| - 1]).0
  }

  function ClockAfter(events: seq<Event>): real {
    if events == [] then 0.0 else events[|events| - 1].readAt
  }

  /** From `now` on, the kept entries say exactly what all writes together say. */
  ghost predicate Agrees(entries: Entries, writes: set<(string, Expiry)>, now: real) {
    forall key, at :: at >= now ==> ((key in entries && entries[key].After(at)) <==> InForce(writes, key, at))
  }

  lemma AgreesAfterSweep(entries: Entries, writes: set<(string, Expiry)>, now: real, at: real)
    requires Agrees(entries, writes, now) && now <= at
    ensures Agrees(Unexpired(entries, at), writes, at)
    ensures forall key :: key in Unexpired(entries, at) <==> InForce(writes, key, at)
  {
    forall key ensures key in Unexpired(entries, at) <==> InForce(writes, key, at) {
      assert at >= now;
    }
  }

  /** One more write, merged with what is kept by taking the later expiry. */
  lemma AgreesAfterWrite(entries: Entries, writes: set<(string, Expiry)>, now: real, key: string, e: Expiry)
    requires Agrees(entries, writes, now) && 0.0 <= now && e.After(now)
    ensures var kept := if key in entries then entries[key] else At(0.0);
            Agrees(entries[key := Later(kept, e)], writes + {(key, e)}, now)
  {
    var kept := if key in entries then entries[key] else At(0.0);
    var writes' := writes + {(key, e)};
    forall k, at | at >= now
      ensures (k in entries[key := Later(kept, e)] && entries[key := Later(kept, e)][k].After(at))
              <==> InForce(writes', k, at)
    {
      if InForce(writes, k, at) {
        var w :| w in writes && w.0 == k && w.1.After(at);
        assert w in writes';
      }
      if k == key && e.After(at) {
        assert (key, e) in writes';
      }
    }
  }

  lemma AgreesLater(entries: Entries, writes: set<(string, Expiry)>, now: real, later: real)
    requires Agrees(entries, writes, now) && now <= later
    ensures Agrees(entries, writes, later)
  {
  }

  ghost predicate Bisimilar(s: Store, a: Archive, now: real) {
    Agrees(s.tokens, a.tokens, now) && Agrees(s.families, a.families, now)
  }

  lemma StepAgrees(s: Store, a: Archive, now: real, e: Event)
    requires Bisimilar(s, a, now) && 0.0 <= now <= e.sweepAt <= e.readAt
    ensures Bisimilar(Stored(s, e).0, Recorded(a, e).0, e.readAt)
    ensures Stored(s, e).1 == Recorded(a, e).1
  {
    var swept := Swept(s, e.sweepAt);
    AgreesAfterSweep(s.tokens, a.tokens, now, e.sweepAt);
    AgreesAfterSweep(s.families, a.families, now, e.sweepAt);
    AgreesLater(swept.tokens, a.tokens, e.sweepAt, e.readAt);
    AgreesLater(swept.families, a.families, e.sweepAt, e.readAt);
    match e
    case Revoke(id, h, _, readAt) =>
      AgreesAfterWrite(swept.tokens, a.tokens, readAt, id, EffectiveExpiry(h, readAt));
    case Claim(jti, family, rotate, h, _, readAt) =>
      var retention := if h.NoExp? then NoExp else Unset;
      if Recorded(a, e).1 {
        if Truthy(family) && !InForce(a.families, family.value, e.sweepAt) {
          AgreesAfterWrite(swept.families, a.families, readAt, family.value, EffectiveExpiry(retention, readAt));
        }
      } else if Truthy(jti) {
        AgreesAfterWrite(swept.tokens, a.tokens, readAt, jti.value, EffectiveExpiry(h, readAt));
      }
  }

  lemma {:induction false} HistoriesBisimilar(events: seq<Event>)
    requires Timed(events)
    ensures Bisimilar(StoreAfter(events), ArchiveAfter(events), ClockAfter(events)) && ClockAfter(events) >= 0.0
  {
    if events != [] {
      var init, e := events[..|events| - 1], events[|events| - 1];
      HistoriesBisimilar(init);
      StepAgrees(StoreAfter(init), ArchiveAfter(init), ClockAfter(init), e);
    }
  }

  /** Over every history, every claim gets the answer of the store that never deletes. */
  lemma SweepIsUnobservable(events: seq<Event>, e: Event)
    requires Timed(events + [e])
    ensures Stored(StoreAfter(events), e).1 == Recorded(ArchiveAfter(events), e).1
  {
    assert (events + [e])[..|events|] == events;
    assert forall i | 0 <= i < |events| :: (events + [e])[i] == events[i];
    assert (events + [e])[|events|] == e;
    HistoriesBisimilar(events);
    StepAgrees(StoreAfter(events), ArchiveAfter(events), ClockAfter(events), e);
  }

  /** What the store holds after a step is what was in force at the sweep of that step. */
  lemma HeldAfterStep(s: Store, a: Archive, now: real, e: Event, id: string)
    requires Bisimilar(s, a, now) && 0.0 <= now <= e.sweepAt <= e.readAt
    ensures id in Stored(s, e).0.tokens <==> InForce(Recorded(a, e).0.tokens, id, e.sweepAt)
  {
    var swept, after := Swept(s, e.sweepAt), Recorded(a, e).0.tokens;
    AgreesAfterSweep(s.tokens, a.tokens, now, e.sweepAt);
    AgreesAfterSweep(s.families, a.families, now, e.sweepAt);
    assert id in swept.tokens <==> InForce(a.tokens, id, e.sweepAt);
    StepAgrees(s, a, now, e);
    if id in swept.tokens {
      var w :| w in a.tokens && w.0 == id && w.1.After(e.sweepAt);
      assert w in after;
    } else if id in Stored(s, e).0.tokens {
      assert (id, EffectiveExpiry(e.h, e.readAt)) in after;
    }
  }

  /** The lock-free test holds exactly when some write was still in force at the last sweep: it never misses one in
      force now, and an entry it sees beyond its expiry has expired since that sweep. */
  lemma MembershipTest(events: seq<Event>, id: string, now: real)
    requires Timed(events) && ClockAfter(events) <= now
    ensures TokenRevoked(StoreAfter(events), Some(id))
            <==> events != [] && InForce(ArchiveAfter(events).tokens, id, events[|events| - 1].sweepAt)
    ensures InForce(ArchiveAfter(events).tokens, id, now) ==> TokenRevoked(StoreAfter(events), Some(id))
  {
    HistoriesBisimilar(events);
    if events != [] {
      var init, e := events[..|events| - 1], events[|events| - 1];
      HistoriesBisimilar(init);
      HeldAfterStep(StoreAfter(init), ArchiveAfter(init), ClockAfter(init), e, id);
    }
  }

  // ---------------------------------------------------------------- a spent token, presented again

  predicate Names(e: Event, jti: string) {
    match e
    case Revoke(id, _, _, _) => id == jti
    case Claim(j, _, _, _, _, _) => j == Some(jti)
  }

  lemma OtherStepLeavesIdAlone(a: Archive, e: Event, jti: string, at: real)
    requires !Names(e, jti)
    ensures InForce(Recorded(a, e).0.tokens, jti, at) <==> InForce(a.tokens, jti, at)
  {
    var a' := Recorded(a, e).0;
    assert a.tokens <= a'.tokens && forall w | w in a'.tokens && w.0 == jti :: w in a.tokens;
    hide Recorded;
  }

  lemma {:induction false} OthersLeaveIdAlone(events: seq<Event>, more: seq<Event>, jti: string, at: real)
    requires forall i | 0 <= i < |more| :: !Names(more[i], jti)
    ensures InForce(ArchiveAfter(events + more).tokens, jti, at) <==> InForce(ArchiveAfter(events).tokens, jti, at)
  {
    hide InForce, Recorded, Names;
    if more == [] {
      assert events + more == events;
    } else {
      var init, e := more[..|more| - 1], more[|more| - 1];
      assert (events + more)[..|events + more| - 1] == events + init;
      OthersLeaveIdAlone(events, init, jti, at);
      OtherStepLeavesIdAlone(ArchiveAfter(events + init), e, jti, at);
    }
  }

  lemma {:induction false} TimedPrefix(events: seq<Event>, more: seq<Event>)
    requires Timed(events + more)
    ensures Timed(events)
  {
    assert forall i | 0 <= i < |events| :: (events + more)[i] == events[i];
  }

  /** A token spent under rotation is refused again exactly until its verified exp, or a minute after the
      spending when that is later. Verification reads the clock on its own, before the claim does: a token that
      was still valid then is accepted a second time when the claim's own reading has passed that instant. */
  lemma SpentTokenIsRefusedExactlyUntil(events: seq<Event>, first: Event, between: seq<Event>, second: Event)
    requires Timed(events + [first] + between + [second])
    requires first.Claim? && first.rotate && Truthy(first.jti) && first.h.Verified?
    requires !Stored(StoreAfter(events), first).1
    requires forall i | 0 <= i < |between| :: !Names(between[i], first.jti.value)
    requires second.Claim? && second.jti == first.jti
    requires Truthy(second.family) ==>
               !InForce(ArchiveAfter(events + [first] + between).families, second.family.value, second.sweepAt)
    ensures Stored(StoreAfter(events + [first] + between), second).1
            <==> second.sweepAt < first.h.exp || second.sweepAt < first.readAt + 60.0
  {
    var jti, spent := first.jti.value, events + [first];
    var all := spent + between + [second];
    TimedPrefix(spent + between, [second]);
    TimedPrefix(spent, between);
    SweepIsUnobservable(spent + between, second);
    OthersLeaveIdAlone(spent, between, jti, second.sweepAt);
    assert all[|events|] == first && all[|all| - 1] == second;
    TimedOrder(all, |events|, |all| - 1);
    SpendingWrite(events, first, second.sweepAt);
  }

  /** Such a pair of claims: the token expires at 100, is spent at 0, and is accepted again at 100. */
  lemma AcceptedTwiceAtExpiry()
    ensures var claims := (at: real) => Claim(Some("t"), None, true, Verified(100.0), at, at);
            && Timed([claims(0.0), claims(100.0)])
            && !Stored(StoreAfter([]), claims(0.0)).1
            && !Stored(StoreAfter([claims(0.0)]), claims(100.0)).1
  {
    var first := Claim(Some("t"), None, true, Verified(100.0), 0.0, 0.0);
    assert [first][..0] == [];
    assert StoreAfter([first]) == Stored(StoreAfter([]), first).0;
  }

  /** What an accepted claim leaves on its id: its own write and nothing else in force. */
  lemma SpendingWrite(events: seq<Event>, first: Event, at: real)
    requires Timed(events + [first]) && first.Claim? && first.rotate && Truthy(first.jti) && first.h.Verified?
    requires !Stored(StoreAfter(events), first).1 && first.sweepAt <= at
    ensures InForce(ArchiveAfter(events + [first]).tokens, first.jti.value, at)
            <==> at < first.h.exp || at < first.readAt + 60.0
  {
    var jti, spent := first.jti.value, events + [first];
    SweepIsUnobservable(events, first);
    assert spent[..|events|] == events && spent[|spent| - 1] == first;
    var before, after := ArchiveAfter(events), ArchiveAfter(spent);
    var e := EffectiveExpiry(first.h, first.readAt);
    assert after.tokens == before.tokens + {(jti, e)};
    assert !InForce(before.tokens, jti, first.sweepAt);
    forall w | w in before.tokens && w.0 == jti ensures !w.1.After(at) {
      assert !w.1.After(first.sweepAt);
    }
    if e.After(at) {
      assert (jti, e) in after.tokens;
    }
  }

  lemma {:induction false} TimedOrder(events: seq<Event>, i: nat, j: nat)
    requires Timed(events) && i <= j < |events|
    ensures events[i].sweepAt <= events[j].sweepAt
  {
    if i < j {
      TimedOrder(events, i, j - 1);
    }
  }
}
