/** Forgetting is unobservable while a token lives: until its exp, the store answers like one that never forgets. */
module RevocationForever {
  import opened Common
  import opened Revocation
  import opened RevocationHistory

  /** The ids and families revoked since the beginning. */
  datatype Forever = Forever(tokens: set<string>, families: set<string>)

  // ---------------------------------------------------------------- what was ever written

  /** The token ids an event writes into the store: a revocation its own, a rotating claim the one it accepts. */
  function TokensWritten(s: Store, e: Event): set<string> {
    match e
    case Revoke(id, _, _, _) => {id}
    case Claim(jti, _, rotate, _, _, _) => if rotate && Truthy(jti) && !Stored(s, e).1 then {jti.value} else {}
  }

  /** A rotating claim that detects reuse marks the family, unless it is marked. */
  function FamiliesWritten(s: Store, e: Event): set<string> {
    match e
    case Revoke(_, _, _, _) => {}
    case Claim(_, family, rotate, _, sweepAt, _) =>
      if rotate && Truthy(family) && Stored(s, e).1 && !FamilyRevoked(Swept(s, sweepAt), family) then {family.value}
      else {}
  }

  function EverWritten(events: seq<Event>): Forever {
    if events == [] then Forever({}, {})
    else
      var init, e := events[..|events| - 1], events[|events| - 1];
      var before := EverWritten(init);
      Forever(before.tokens + TokensWritten(StoreAfter(init), e),
              before.families + FamiliesWritten(StoreAfter(init), e))
  }

  // ---------------------------------------------------------------- retention

  /** The revocation carried a verified exp no earlier, or the token had no more than eight days left. */
  predicate Lasts(h: Horizon, readAt: real, exp: real) {
    match h
    case Verified(e) => exp <= e
    case Unset => exp <= readAt + RETENTION_SECONDS
    case _ => true
  }

  /** A family marker is kept for eight days, or for ever when the reused token has no exp. */
  predicate MarkerLasts(h: Horizon, readAt: real, exp: real) { h.NoExp? || exp <= readAt + RETENTION_SECONDS }

  /** Some event wrote the id for as long as the token lives. */
  predicate LastingToken(events: seq<Event>, id: string, exp: real) {
    events != []
    && var init, e := events[..|events| - 1], events[|events| - 1];
       LastingToken(init, id, exp) || (id in TokensWritten(StoreAfter(init), e) && Lasts(e.h, e.readAt, exp))
  }

  /** Some event marked the family for as long as the token lives. */
  predicate LastingMarker(events: seq<Event>, family: string, exp: real) {
    events != []
    && var init, e := events[..|events| - 1], events[|events| - 1];
       LastingMarker(init, family, exp)
       || (family in FamiliesWritten(StoreAfter(init), e) && MarkerLasts(e.h, e.readAt, exp))
  }

  /** If the token was revoked at all, one of its revocations reaches its exp. */
  predicate TokenCovered(events: seq<Event>, id: string, exp: real) {
    id in EverWritten(events).tokens ==> LastingToken(events, id, exp)
  }

  predicate FamilyCovered(events: seq<Event>, family: string, exp: real) {
    family in EverWritten(events).families ==> LastingMarker(events, family, exp)
  }

  lemma TimedBefore(events: seq<Event>)
    requires Timed(events) && events != []
    ensures Timed(events[..|events| - 1])
    ensures var e := events[|events| - 1]; 0.0 <= ClockAfter(events[..|events| - 1]) <= e.sweepAt <= e.readAt
  {
    var init := events[..|events| - 1];
    assert forall i | 0 <= i < |init| :: init[i] == events[i];
  }

  predicate Kept(entries: Entries, key: string, exp: real) { key in entries && entries[key].Covers(exp) }

  /** An entry that reaches exp survives every sweep before it, and no write shortens it. */
  lemma StepKeepsToken(s: Store, e: Event, id: string, exp: real)
    requires e.sweepAt < exp && 0.0 <= e.sweepAt <= e.readAt
    requires Kept(s.tokens, id, exp) || (id in TokensWritten(s, e) && Lasts(e.h, e.readAt, exp))
    ensures Kept(Stored(s, e).0.tokens, id, exp)
  {
  }

  lemma StepKeepsFamily(s: Store, e: Event, family: string, exp: real)
    requires e.sweepAt < exp && 0.0 <= e.sweepAt <= e.readAt
    requires Kept(s.families, family, exp) || (family in FamiliesWritten(s, e) && MarkerLasts(e.h, e.readAt, exp))
    ensures Kept(Stored(s, e).0.families, family, exp)
  {
  }

  lemma {:induction false} LastingTokenKept(events: seq<Event>, id: string, exp: real)
    requires Timed(events) && ClockAfter(events) < exp && LastingToken(events, id, exp)
    ensures Kept(StoreAfter(events).tokens, id, exp)
  {
    var init, e := events[..|events| - 1], events[|events| - 1];
    TimedBefore(events);
    hide Timed, TokensWritten, Stored, Kept, Lasts;
    if LastingToken(init, id, exp) {
      LastingTokenKept(init, id, exp);
    }
    StepKeepsToken(StoreAfter(init), e, id, exp);
  }

  lemma {:induction false} LastingMarkerKept(events: seq<Event>, family: string, exp: real)
    requires Timed(events) && ClockAfter(events) < exp && LastingMarker(events, family, exp)
    ensures Kept(StoreAfter(events).families, family, exp)
  {
    var init, e := events[..|events| - 1], events[|events| - 1];
    TimedBefore(events);
    hide Timed, FamiliesWritten, Stored, Kept, MarkerLasts;
    if LastingMarker(init, family, exp) {
      LastingMarkerKept(init, family, exp);
    }
    StepKeepsFamily(StoreAfter(init), e, family, exp);
  }

  /** The store never holds what was not written. */
  lemma StepWrites(s: Store, e: Event)
    ensures Stored(s, e).0.tokens.Keys <= s.tokens.Keys + TokensWritten(s, e)
    ensures Stored(s, e).0.families.Keys <= s.families.Keys + FamiliesWritten(s, e)
  {
  }

  lemma {:induction false} HeldWasWritten(events: seq<Event>)
    ensures StoreAfter(events).tokens.Keys <= EverWritten(events).tokens
    ensures StoreAfter(events).families.Keys <= EverWritten(events).families
  {
    if events != [] {
      var init, e := events[..|events| - 1], events[|events| - 1];
      hide Stored, TokensWritten, FamiliesWritten;
      HeldWasWritten(init);
      StepWrites(StoreAfter(init), e);
    }
  }

  // ---------------------------------------------------------------- one token, any lifetime

  /** is_revoked, for a token of any kind and lifetime: until its exp it is reported revoked exactly when its id was
      ever written, provided that then one write carried a verified exp or came with at most eight days left. */
  lemma RevokedUntilExp(events: seq<Event>, id: string, exp: real, now: real)
    requires Timed(events) && ClockAfter(events) <= now < exp && TokenCovered(events, id, exp)
    ensures TokenRevoked(StoreAfter(events), Some(id)) <==> id in EverWritten(events).tokens
  {
    HeldWasWritten(events);
    if id in EverWritten(events).tokens {
      LastingTokenKept(events, id, exp);
    }
  }

  /** check_and_claim_refresh, for a token presented before its exp: reuse is reported exactly when its id or its
      family was ever written. */
  lemma ClaimUntilExp(events: seq<Event>, e: Event, exp: real)
    requires Timed(events + [e]) && e.Claim? && e.sweepAt < exp
    requires e.jti.Some? ==> TokenCovered(events, e.jti.value, exp)
    requires Truthy(e.family) ==> FamilyCovered(events, e.family.value, exp)
    ensures Stored(StoreAfter(events), e).1
            <==> || (e.jti.Some? && e.jti.value in EverWritten(events).tokens)
                 || (Truthy(e.family) && e.family.value in EverWritten(events).families)
  {
    var all := events + [e];
    assert all[..|all| - 1] == events && all[|all| - 1] == e;
    TimedBefore(all);
    hide Timed, EverWritten, StoreAfter, LastingToken, LastingMarker;
    HeldWasWritten(events);
    if e.jti.Some? && e.jti.value in EverWritten(events).tokens {
      LastingTokenKept(events, e.jti.value, exp);
    }
    if Truthy(e.family) && e.family.value in EverWritten(events).families {
      LastingMarkerKept(events, e.family.value, exp);
    }
  }

  // ---------------------------------------------------------------- exactly when a report lasts

  /** Some revocation of the id was written with an expiry no earlier than exp. */
  ghost predicate Reaches(writes: set<(string, Expiry)>, id: string, exp: real) {
    exists w :: w in writes && w.0 == id && w.1.Covers(exp)
  }

  /** The id is reported revoked whenever the store has been used again, up to exp. */
  ghost predicate ReportedUntil(events: seq<Event>, id: string, exp: real) {
    forall more: seq<Event> | Later(events, more, exp) :: TokenRevoked(StoreAfter(events + more), Some(id))
  }

  predicate Later(events: seq<Event>, more: seq<Event>, exp: real) {
    more != [] && Timed(events + more) && ClockAfter(events + more) < exp
  }

  lemma {:induction false} ArchiveGrows(events: seq<Event>, more: seq<Event>)
    ensures ArchiveAfter(events).tokens <= ArchiveAfter(events + more).tokens
  {
    if more == [] {
      assert events + more == events;
    } else {
      var init, e := more[..|more| - 1], more[|more| - 1];
      assert (events + more)[..|events + more| - 1] == events + init;
      ArchiveGrows(events, init);
      assert Recorded(ArchiveAfter(events + init), e).0.tokens >= ArchiveAfter(events + init).tokens;
    }
  }

  /** When no write reaches exp, all of them have lapsed at some moment before it. */
  lemma {:induction false} LatestLapse(writes: set<(string, Expiry)>, id: string, now: real, exp: real)
    returns (at: real)
    requires now < exp && !Reaches(writes, id, exp)
    ensures now <= at < exp && !InForce(writes, id, at)
    decreases |writes|
  {
    if w :| w in writes && w.0 == id && w.1.After(now) {
      assert !w.1.Covers(exp);
      var rest := writes - {w};
      assert forall v | v in rest :: v in writes;
      at := LatestLapse(rest, id, w.1.time, exp);
      forall v | v in writes && v.0 == id ensures !v.1.After(at) {
        assert v != w ==> v in rest;
      }
    } else {
      at := now;
    }
  }

  lemma ReachedIsReported(events: seq<Event>, more: seq<Event>, id: string, exp: real)
    requires Later(events, more, exp) && Reaches(ArchiveAfter(events).tokens, id, exp)
    ensures TokenRevoked(StoreAfter(events + more), Some(id))
  {
    var all := events + more;
    ArchiveGrows(events, more);
    MembershipTest(all, id, ClockAfter(all));
    var w :| w in ArchiveAfter(events).tokens && w.0 == id && w.1.Covers(exp);
    assert w in ArchiveAfter(all).tokens && w.1.After(all[|all| - 1].sweepAt);
  }

  /** Revoking something else at the latest lapse sweeps the id away. */
  lemma LapsedIsForgotten(events: seq<Event>, id: string, exp: real) returns (e: Event)
    requires Timed(events) && ClockAfter(events) < exp && !Reaches(ArchiveAfter(events).tokens, id, exp)
    ensures Later(events, [e], exp) && !TokenRevoked(StoreAfter(events + [e]), Some(id))
  {
    HistoriesBisimilar(events);
    var at := LatestLapse(ArchiveAfter(events).tokens, id, ClockAfter(events), exp);
    e := Revoke(if id == "" then "other" else "", Unset, at, at);
    assert !Names(e, id);
    hide Reaches, InForce, Bisimilar, Recorded, StoreAfter, Names;
    TimedMore(events, e);
    OtherStepLeavesIdAlone(ArchiveAfter(events), e, id, at);
    hide Timed, ArchiveAfter;
    MembershipTest(events + [e], id, at);
  }

  lemma TimedMore(events: seq<Event>, e: Event)
    requires Timed(events) && 0.0 <= ClockAfter(events) <= e.sweepAt <= e.readAt
    ensures Timed(events + [e]) && ClockAfter(events + [e]) == e.readAt
    ensures ArchiveAfter(events + [e]) == Recorded(ArchiveAfter(events), e).0
  {
    var all := events + [e];
    assert all[..|all| - 1] == events && all[|all| - 1] == e;
    assert forall i | 0 <= i < |events| :: all[i] == events[i];
    hide Recorded;
  }

  /** The exact condition: a token is reported revoked up to its exp, whatever happens to the store meanwhile, if and
      only if one of its revocations so far was written to reach its exp. */
  lemma ReportedUntilExpExactly(events: seq<Event>, id: string, exp: real)
    requires Timed(events) && ClockAfter(events) < exp
    ensures ReportedUntil(events, id, exp) <==> Reaches(ArchiveAfter(events).tokens, id, exp)
  {
    hide Timed, Reaches, Later;
    if Reaches(ArchiveAfter(events).tokens, id, exp) {
      forall more | Later(events, more, exp) ensures TokenRevoked(StoreAfter(events + more), Some(id)) {
        ReachedIsReported(events, more, id, exp);
      }
    } else {
      var e := LapsedIsForgotten(events, id, exp);
      assert Later(events, [e], exp);
    }
  }

  /** An input: a token logged out with more than eight days left, by a hint that proves no exp, is accepted again
      after the next sweep past the eighth day. */
  lemma LongTokenComesBack()
    ensures var events := [Revoke("a", Unset, 0.0, 0.0), Revoke("b", Unset, 700000.0, 700000.0)];
            Timed(events) && "a" in EverWritten(events).tokens && !TokenRevoked(StoreAfter(events), Some("a"))
  {
    var first, second := Revoke("a", Unset, 0.0, 0.0), Revoke("b", Unset, 700000.0, 700000.0);
    var events := [first, second];
    assert events[..1] == [first] && [first][..0] == [];
    assert StoreAfter([first]) == Stored(StoreAfter([]), first).0;
    assert "a" in EverWritten([first]).tokens;
  }

  // ---------------------------------------------------------------- the store that never forgets

  /** The program as it was before entries expired: sets that only grow. */
  function Remembered(f: Forever, e: Event): (Forever, bool) {
    match e
    case Revoke(id, _, _, _) => (f.(tokens := f.tokens + {id}), false)
    case Claim(jti, family, rotate, _, _, _) =>
      var familyRevoked := Truthy(family) && family.value in f.families;
      if (jti.Some? && jti.value in f.tokens) || familyRevoked then
        (if rotate && Truthy(family) then f.(families := f.families + {family.value}) else f, true)
      else
        (if rotate && Truthy(jti) then f.(tokens := f.tokens + {jti.value}) else f, false)
  }

  function ForeverAfter(events: seq<Event>): Forever {
    if events == [] then Forever({}, {})
    else Remembered(ForeverAfter(events[..|events| - 1]), events[|events| - 1]).0
  }

  /** The event that revokes the id, by the judgement of the store that never forgets. */
  predicate Spends(f: Forever, e: Event, id: string) {
    match e
    case Revoke(written, _, _, _) => written == id
    case Claim(jti, _, rotate, _, _, _) => rotate && Truthy(jti) && jti.value == id && !Remembered(f, e).1
  }

  /** The event that detects the first reuse in a family. */
  predicate Marks(f: Forever, e: Event, family: string) {
    e.Claim? && e.rotate && Truthy(e.family) && e.family.value == family && family !in f.families && Remembered(f, e).1
  }

  predicate SpentLastingly(events: seq<Event>, id: string, exp: real) {
    events != []
    && var init, e := events[..|events| - 1], events[|events| - 1];
       SpentLastingly(init, id, exp) || (Spends(ForeverAfter(init), e, id) && Lasts(e.h, e.readAt, exp))
  }

  predicate MarkedLastingly(events: seq<Event>, family: string, exp: real) {
    events != []
    && var init, e := events[..|events| - 1], events[|events| - 1];
       MarkedLastingly(init, family, exp) || (Marks(ForeverAfter(init), e, family) && MarkerLasts(e.h, e.readAt, exp))
  }

  /** A claim presents its token before exp; if that token was revoked, one revocation reaches exp; and if its family
      was marked, so does the marker. */
  predicate Presented(events: seq<Event>, e: Event, exp: real)
    requires e.Claim?
  {
    && e.sweepAt < exp
    && (e.jti.Some? && e.jti.value in ForeverAfter(events).tokens ==> SpentLastingly(events, e.jti.value, exp))
    && (Truthy(e.family) && e.family.value in ForeverAfter(events).families ==>
          MarkedLastingly(events, e.family.value, exp))
  }

  /** Every claim of the history is presented like that; `life` gives the exp of the token with that id. */
  predicate Lawful(events: seq<Event>, life: Option<string> -> real) {
    events == []
    || var init, e := events[..|events| - 1], events[|events| - 1];
       Lawful(init, life) && (e.Claim? ==> Presented(init, e, life(e.jti)))
  }

  // ---------------------------------------------------------------- the simulation

  /** At every step so far the two stores gave the same answer and had written the same. */
  predicate Agreed(events: seq<Event>) {
    EverWritten(events) == ForeverAfter(events)
    && (events == []
        || var init, e := events[..|events| - 1], events[|events| - 1];
           Agreed(init) && Stored(StoreAfter(init), e).1 == Remembered(ForeverAfter(init), e).1)
  }

  lemma SameTokens(s: Store, f: Forever, e: Event, id: string)
    requires Stored(s, e).1 == Remembered(f, e).1
    ensures id in TokensWritten(s, e) <==> Spends(f, e, id)
  {
    hide Stored, Remembered;
  }

  lemma SameMarks(s: Store, f: Forever, e: Event, family: string)
    requires Stored(s, e).1 == Remembered(f, e).1 && s.families.Keys <= f.families
    ensures Marks(f, e, family) ==> family in FamiliesWritten(s, e)
  {
    hide Stored, Remembered;
  }

  lemma {:induction false} SpentIsWritten(events: seq<Event>, id: string, exp: real)
    requires Agreed(events) && SpentLastingly(events, id, exp)
    ensures LastingToken(events, id, exp)
  {
    var init, e := events[..|events| - 1], events[|events| - 1];
    hide Stored, Remembered, TokensWritten, Spends, EverWritten, ForeverAfter, Lasts;
    if SpentLastingly(init, id, exp) {
      SpentIsWritten(init, id, exp);
    } else {
      SameTokens(StoreAfter(init), ForeverAfter(init), e, id);
    }
  }

  lemma {:induction false} MarkIsWritten(events: seq<Event>, family: string, exp: real)
    requires Agreed(events) && MarkedLastingly(events, family, exp)
    ensures LastingMarker(events, family, exp)
  {
    var init, e := events[..|events| - 1], events[|events| - 1];
    hide Stored, Remembered, FamiliesWritten, Marks, EverWritten, ForeverAfter, MarkerLasts;
    if MarkedLastingly(init, family, exp) {
      MarkIsWritten(init, family, exp);
    } else {
      HeldWasWritten(init);
      SameMarks(StoreAfter(init), ForeverAfter(init), e, family);
    }
  }

  lemma ClaimAgrees(events: seq<Event>, e: Event, exp: real)
    requires Timed(events + [e]) && Agreed(events) && e.Claim? && Presented(events, e, exp)
    ensures Stored(StoreAfter(events), e).1 == Remembered(ForeverAfter(events), e).1
  {
    hide Timed, EverWritten, ForeverAfter, Stored, StoreAfter, SpentLastingly, MarkedLastingly, LastingToken,
        LastingMarker;
    if e.jti.Some? && e.jti.value in ForeverAfter(events).tokens {
      SpentIsWritten(events, e.jti.value, exp);
    }
    if Truthy(e.family) && e.family.value in ForeverAfter(events).families {
      MarkIsWritten(events, e.family.value, exp);
    }
    ClaimUntilExp(events, e, exp);
  }

  /** With the same answer both stores write the same; a marker already there is not written again. */
  lemma SameWrites(s: Store, f: Forever, e: Event)
    requires Stored(s, e).1 == Remembered(f, e).1 && s.families.Keys <= f.families
    ensures f.tokens + TokensWritten(s, e) == Remembered(f, e).0.tokens
    ensures f.families + FamiliesWritten(s, e) == Remembered(f, e).0.families
  {
    hide Stored;
    if e.Claim? && Truthy(e.family) && FamilyRevoked(Swept(s, e.sweepAt), e.family) {
      assert e.family.value in s.families;
    }
  }

  lemma {:induction false} HistoriesAgree(events: seq<Event>, life: Option<string> -> real)
    requires Timed(events) && Lawful(events, life)
    ensures Agreed(events)
  {
    if events != [] {
      var init, e := events[..|events| - 1], events[|events| - 1];
      assert events == init + [e];
      TimedBefore(events);
      hide Timed, Presented, Stored, Remembered, TokensWritten, FamiliesWritten;
      HistoriesAgree(init, life);
      if e.Claim? {
        ClaimAgrees(init, e, life(e.jti));
      } else {
        RevokesAgree(StoreAfter(init), ForeverAfter(init), e);
      }
      HeldWasWritten(init);
      SameWrites(StoreAfter(init), ForeverAfter(init), e);
    }
  }

  lemma RevokesAgree(s: Store, f: Forever, e: Event)
    requires e.Revoke?
    ensures Stored(s, e).1 == Remembered(f, e).1
  {
  }

  /** Over every such history the store that sweeps gives every claim the answer of the store that never forgets. */
  lemma AnswersLikeForever(events: seq<Event>, e: Event, life: Option<string> -> real)
    requires Timed(events + [e]) && Lawful(events + [e], life)
    ensures Stored(StoreAfter(events), e).1 == Remembered(ForeverAfter(events), e).1
  {
    var all := events + [e];
    assert all[..|all| - 1] == events && all[|all| - 1] == e;
    HistoriesAgree(all, life);
    hide Stored, Remembered, StoreAfter, ForeverAfter, EverWritten, Lawful, Timed;
  }

  /** And it reports the same tokens revoked, each until its exp, if one of its revocations reaches that. */
  lemma ReportsLikeForever(events: seq<Event>, life: Option<string> -> real, id: string, exp: real, now: real)
    requires Timed(events) && Lawful(events, life) && ClockAfter(events) <= now < exp
    requires id in ForeverAfter(events).tokens ==> SpentLastingly(events, id, exp)
    ensures TokenRevoked(StoreAfter(events), Some(id)) <==> id in ForeverAfter(events).tokens
  {
    HistoriesAgree(events, life);
    if id in ForeverAfter(events).tokens {
      SpentIsWritten(events, id, exp);
    }
    hide Timed, Lawful, ForeverAfter, EverWritten, StoreAfter, LastingToken, SpentLastingly;
    RevokedUntilExp(events, id, exp, now);
  }

  /** A spent refresh token of family "f" with seven days to live. */
  function Spend(jti: string, at: real): Event {
    Claim(Some(jti), Some("f"), true, Verified(at + 604800.0), at, at)
  }

  lemma LawfulMore(events: seq<Event>, e: Event, life: Option<string> -> real)
    requires Lawful(events, life) && e.Claim? && Presented(events, e, life(e.jti))
    ensures Lawful(events + [e], life)
  {
    assert (events + [e])[..|events|] == events;
    hide Presented;
  }

  lemma ForeverMore(events: seq<Event>, e: Event)
    ensures ForeverAfter(events + [e]) == Remembered(ForeverAfter(events), e).0
  {
    assert (events + [e])[..|events|] == events;
    hide Remembered;
  }

  /** A chain of one family that goes on beyond the retention of any marker, with no reuse in it, is such a history:
      spent on day 0, 6 and 12. */
  lemma LongChainIsLawful()
    ensures var chain := [Spend("t1", 0.0), Spend("t2", 518400.0), Spend("t3", 1036800.0)];
            var life := (jti: Option<string>) =>
              if jti == Some("t1") then 604800.0 else if jti == Some("t2") then 1123200.0 else 1641600.0;
            Timed(chain) && Lawful(chain, life)
  {
    var first, second, third := Spend("t1", 0.0), Spend("t2", 518400.0), Spend("t3", 1036800.0);
    var life := (jti: Option<string>) =>
      if jti == Some("t1") then 604800.0 else if jti == Some("t2") then 1123200.0 else 1641600.0;
    ForeverMore([], first);
    ForeverMore([first], second);
    assert [] + [first] == [first] && [first] + [second] == [first, second];
    assert [first, second] + [third] == [first, second, third];
    LawfulMore([], first, life);
    LawfulMore([first], second, life);
    LawfulMore([first, second], third, life);
    hide Lawful;
  }
}
