/** The device store, which prunes and deletes, against a ledger of every authorization ever started. */
module DeviceHistory {
  import opened Common
  import opened DeviceCode

  datatype Event =
    | Create(deviceCode: string, userCode: string, clientId: string, scope: string, resource: Option<seq<string>>,
             expiresIn: real, at: real)
    | Verify(submission: Submission, at: real)
    | Poll(deviceCode: string, clientId: string, users: set<string>, at: real)
    | Prune(at: real)

  datatype Decision = Undecided | Approved(username: string, authTime: int) | Refused

  /** An authorization as requested, what its user decided, and whether the device has collected it. */
  datatype Record = Record(userCode: string, clientId: string, scope: string, resource: Option<seq<string>>,
                           expiresAt: real, decision: Decision, collected: bool)

  type Ledger = map<string, Record>

  datatype State = State(store: Store, ledger: Ledger)

  function Next(s: State, e: Event): State {
    match e
    case Create(dc, uc, client, scope, resource, expiresIn, at) =>
      var store := Created(s.store, dc, uc, client, scope, resource, expiresIn, at);
      if Full(s.store, at) then State(store, s.ledger)
      else State(store, s.ledger[dc := Record(uc, client, scope, resource, at + expiresIn, Undecided, false)])
    case Verify(v, at) =>
      var (store, r) := Verified(s.store, v, at);
      if v.userCode in s.store.byUserCode && s.store.byUserCode[v.userCode] in s.ledger then
        var dc := s.store.byUserCode[v.userCode];
        match r
        case VerifyAuthorized(u) => State(store, s.ledger[dc := s.ledger[dc].(decision := Approved(u, at.Floor))])
        case VerifyDenied => State(store, s.ledger[dc := s.ledger[dc].(decision := Refused)])
        case _ => State(store, s.ledger)
      else
        State(store, s.ledger)
    case Poll(dc, client, users, at) =>
      var (store, r) := Polled(s.store, dc, client, users, at);
      if r.PollAuthorized? && dc in s.ledger then State(store, s.ledger[dc := s.ledger[dc].(collected := true)])
      else State(store, s.ledger)
    case Prune(at) => State(Pruned(s.store, at), s.ledger)
  }

  function After(events: seq<Event>): State {
    if events == [] then State(Store(map[], map[]), map[])
    else Next(After(events[..|events| - 1]), events[|events| - 1])
  }

  /** The clock does not go back, and a new device code is a non-empty string that repeats none before it. */
  predicate Possible(events: seq<Event>) {
    (forall i, j | 0 <= i < j < |events| :: events[i].at <= events[j].at)
    && forall i | 0 <= i < |events| && events[i].Create? ::
         events[i].deviceCode != "" && forall j | 0 <= j < i && events[j].Create? ::
           events[j].deviceCode != events[i].deviceCode
  }

  // ---------------------------------------------------------------- the invariant

  predicate Reflects(g: Grant, r: Record, now: real) {
    !r.collected
    && g.userCode == r.userCode && g.clientId == r.clientId && g.scope == r.scope && g.resource == r.resource
    && g.expiresAt == r.expiresAt
    && match g.status
       case Pending => r.decision.Undecided?
       case Authorized =>
         r.decision.Approved? && g.username == Some(r.decision.username) && g.authTime == Some(r.decision.authTime)
       case Denied => r.decision.Refused?
       case Expired => now > r.expiresAt
  }

  /** Every index entry leads to a grant that carries that user code, distinct user codes or not. */
  predicate IndexSound(s: Store) {
    forall uc | uc in s.byUserCode :: s.byUserCode[uc] in s.codes && s.codes[s.byUserCode[uc]].userCode == uc
  }

  predicate IndexComplete(s: Store) {
    forall dc | dc in s.codes :: s.codes[dc].userCode in s.byUserCode && s.byUserCode[s.codes[dc].userCode] == dc
  }

  predicate Distinct(l: Ledger) {
    forall a, b | a in l && b in l && l[a].userCode == l[b].userCode :: a == b
  }

  predicate Faithful(codes: map<string, Grant>, l: Ledger, now: real) {
    forall dc | dc in codes :: dc in l && Reflects(codes[dc], l[dc], now)
  }

  predicate OnlySpentLost(codes: map<string, Grant>, l: Ledger, now: real) {
    forall dc | dc in l && dc !in codes :: l[dc].collected || now > l[dc].expiresAt
  }

  predicate Inv(s: State, now: real) {
    && Faithful(s.store.codes, s.ledger, now)
    && OnlySpentLost(s.store.codes, s.ledger, now)
    && IndexSound(s.store)
    && |s.store.codes| <= MAX_PENDING
    && "" !in s.ledger
    && (Distinct(s.ledger) ==> IndexComplete(s.store))
  }

  lemma CardinalityShrinks(a: set<string>, b: set<string>)
    requires a <= b
    ensures |a| <= |b|
  {
    assert b == a + (b - a);
  }

  lemma DistinctBefore(l: Ledger, l': Ledger)
    requires Distinct(l') && l.Keys <= l'.Keys
    requires forall dc | dc in l :: l'[dc].userCode == l[dc].userCode
    ensures Distinct(l)
  {
    forall a, b | a in l && b in l && l[a].userCode == l[b].userCode ensures a == b {
      assert l'[a].userCode == l'[b].userCode;
    }
  }

  // Grants leave the store, with their index entries: a prune drops the stale ones, a collection just one.

  lemma WithoutKeepsIndexSound(s: Store, keys: set<string>)
    requires IndexSound(s) && keys <= s.codes.Keys
    ensures IndexSound(Without(s, keys))
  {
    var t := Without(s, keys);
    forall uc | uc in t.byUserCode ensures t.byUserCode[uc] in t.codes && t.codes[t.byUserCode[uc]].userCode == uc {
      assert uc in s.byUserCode && uc !in UserCodes(s.codes, keys);
      assert s.byUserCode[uc] !in keys;
    }
  }

  lemma WithoutKeepsIndexComplete(s: Store, keys: set<string>)
    requires IndexComplete(s) && keys <= s.codes.Keys
    ensures IndexComplete(Without(s, keys))
  {
    var t := Without(s, keys);
    forall dc | dc in t.codes ensures t.codes[dc].userCode in t.byUserCode && t.byUserCode[t.codes[dc].userCode] == dc {
      assert dc in s.codes && dc !in keys;
      assert forall k | k in keys :: s.byUserCode[s.codes[k].userCode] == k;
    }
  }

  lemma WithoutKeepsInv(s: State, now: real, at: real, keys: set<string>, l: Ledger)
    requires Inv(s, now) && now <= at && keys <= s.store.codes.Keys && l.Keys == s.ledger.Keys
    requires forall dc | dc in l && dc !in keys :: l[dc] == s.ledger[dc]
    requires forall dc | dc in keys ::
               l[dc].userCode == s.ledger[dc].userCode && (l[dc].collected || at > l[dc].expiresAt)
    ensures Inv(State(Without(s.store, keys), l), at)
  {
    var t := Without(s.store, keys);
    assert t.codes.Keys == s.store.codes.Keys - keys;
    CardinalityShrinks(t.codes.Keys, s.store.codes.Keys);
    WithoutKeepsIndexSound(s.store, keys);
    assert Faithful(t.codes, l, at);
    assert OnlySpentLost(t.codes, l, at);
    if Distinct(l) {
      DistinctBefore(s.ledger, l);
      WithoutKeepsIndexComplete(s.store, keys);
    }
  }

  lemma PrunedKeepsInv(s: State, now: real, at: real)
    requires Inv(s, now) && now <= at
    ensures Inv(s.(store := Pruned(s.store, at)), at)
  {
    var keys := Stale(s.store, at);
    forall dc | dc in keys ensures at > s.ledger[dc].expiresAt {
      assert Reflects(s.store.codes[dc], s.ledger[dc], now);
    }
    WithoutKeepsInv(s, now, at, keys, s.ledger);
  }

  lemma CollectKeepsInv(s: State, now: real, at: real, dc: string)
    requires Inv(s, now) && now <= at && dc in s.store.codes && dc in s.ledger
    ensures Inv(State(Removed(s.store, dc), s.ledger[dc := s.ledger[dc].(collected := true)]), at)
  {
    assert UserCodes(s.store.codes, {dc}) == {s.store.codes[dc].userCode};
    assert Removed(s.store, dc) == Without(s.store, {dc});
    WithoutKeepsInv(s, now, at, {dc}, s.ledger[dc := s.ledger[dc].(collected := true)]);
  }

  // A new grant enters an already pruned store.

  lemma AddKeepsIndex(s: Store, dc: string, uc: string, g: Grant)
    requires IndexSound(s) && dc !in s.codes && g.userCode == uc
    ensures IndexSound(Store(s.codes[dc := g], s.byUserCode[uc := dc]))
    ensures IndexComplete(s) && (forall k | k in s.codes :: s.codes[k].userCode != uc)
            ==> IndexComplete(Store(s.codes[dc := g], s.byUserCode[uc := dc]))
  {
  }

  lemma AddKeepsRecords(codes: map<string, Grant>, l: Ledger, at: real, dc: string, g: Grant, r: Record)
    requires Faithful(codes, l, at) && OnlySpentLost(codes, l, at) && dc !in l && Reflects(g, r, at)
    ensures Faithful(codes[dc := g], l[dc := r], at) && OnlySpentLost(codes[dc := g], l[dc := r], at)
  {
  }

  lemma NewUserCode(codes: map<string, Grant>, l: Ledger, at: real, dc: string, r: Record)
    requires Faithful(codes, l, at) && dc !in l && Distinct(l[dc := r])
    ensures forall k | k in codes :: codes[k].userCode != r.userCode
  {
    var l' := l[dc := r];
    forall k | k in codes ensures codes[k].userCode != r.userCode {
      assert Reflects(codes[k], l[k], at);
      assert k in l' && dc in l' && k != dc && l'[k] == l[k] && l'[dc] == r;
    }
  }

  lemma OneMore(codes: map<string, Grant>, dc: string, g: Grant)
    requires dc !in codes
    ensures |codes[dc := g]| == |codes| + 1
  {
    assert codes[dc := g].Keys == codes.Keys + {dc};
  }

  lemma AddKeepsInv(s: State, at: real, dc: string, g: Grant, r: Record)
    requires Inv(s, at) && dc != "" && dc !in s.ledger && Reflects(g, r, at) && |s.store.codes| < MAX_PENDING
    ensures Inv(State(Store(s.store.codes[dc := g], s.store.byUserCode[g.userCode := dc]), s.ledger[dc := r]), at)
  {
    var l := s.ledger[dc := r];
    assert dc !in s.store.codes;
    OneMore(s.store.codes, dc, g);
    AddKeepsIndex(s.store, dc, g.userCode, g);
    AddKeepsRecords(s.store.codes, s.ledger, at, dc, g, r);
    if Distinct(l) {
      DistinctBefore(s.ledger, l);
      NewUserCode(s.store.codes, s.ledger, at, dc, r);
    }
  }

  lemma CreateKeepsInv(s: State, now: real, e: Event)
    requires Inv(s, now) && e.Create? && now <= e.at && e.deviceCode != "" && e.deviceCode !in s.ledger
    ensures Inv(Next(s, e), e.at)
  {
    PrunedKeepsInv(s, now, e.at);
    CreateAfterPrune(s, e, Pruned(s.store, e.at));
  }

  function GrantOf(e: Event): Grant
    requires e.Create?
  {
    Grant(e.userCode, e.clientId, e.scope, e.resource, e.at + e.expiresIn, Pending, None, None)
  }

  function RecordOf(e: Event): Record
    requires e.Create?
  {
    Record(e.userCode, e.clientId, e.scope, e.resource, e.at + e.expiresIn, Undecided, false)
  }

  lemma CreateNext(s: State, e: Event)
    requires e.Create?
    ensures var pruned := Pruned(s.store, e.at);
            Next(s, e) == if Full(s.store, e.at) then State(pruned, s.ledger)
                          else State(Store(pruned.codes[e.deviceCode := GrantOf(e)],
                                           pruned.byUserCode[e.userCode := e.deviceCode]),
                                     s.ledger[e.deviceCode := RecordOf(e)])
  {
    hide Pruned, Full, Verified, Polled;
  }

  lemma CreateAfterPrune(s: State, e: Event, pruned: Store)
    requires e.Create? && e.deviceCode != "" && e.deviceCode !in s.ledger
    requires pruned == Pruned(s.store, e.at) && Inv(State(pruned, s.ledger), e.at)
    ensures Inv(Next(s, e), e.at)
  {
    CreateNext(s, e);
    assert Reflects(GrantOf(e), RecordOf(e), e.at);
    assert Full(s.store, e.at) <==> |pruned.codes| >= MAX_PENDING;
    hide Next, Reflects, Inv, Pruned, Full;
    if !Full(s.store, e.at) {
      AddKeepsInv(State(pruned, s.ledger), e.at, e.deviceCode, GrantOf(e), RecordOf(e));
    }
  }

  // A stored grant changes its status, and its record follows.

  lemma UpdateKeepsIndex(s: Store, dc: string, g: Grant)
    requires IndexSound(s) && dc in s.codes && g.userCode == s.codes[dc].userCode
    ensures IndexSound(s.(codes := s.codes[dc := g]))
    ensures IndexComplete(s) ==> IndexComplete(s.(codes := s.codes[dc := g]))
  {
  }

  lemma UpdateKeepsRecords(codes: map<string, Grant>, l: Ledger, at: real, dc: string, g: Grant, r: Record)
    requires Faithful(codes, l, at) && OnlySpentLost(codes, l, at) && dc in codes && Reflects(g, r, at)
    ensures Faithful(codes[dc := g], l[dc := r], at) && OnlySpentLost(codes[dc := g], l[dc := r], at)
  {
    hide Reflects;
  }

  lemma UpdateKeepsInv(s: State, now: real, at: real, dc: string, g: Grant, r: Record)
    requires Inv(s, now) && now <= at && dc in s.store.codes
    requires g.userCode == s.store.codes[dc].userCode && Reflects(g, r, at)
    ensures Inv(State(s.store.(codes := s.store.codes[dc := g]), s.ledger[dc := r]), at)
  {
    InvLater(s, now, at);
    assert Reflects(s.store.codes[dc], s.ledger[dc], at);
    assert s.ledger[dc].userCode == r.userCode;
    hide Reflects;
    UpdateKeepsIndex(s.store, dc, g);
    UpdateKeepsRecords(s.store.codes, s.ledger, at, dc, g, r);
    UpdateKeepsDistinct(s.ledger, dc, r);
    hide IndexSound, IndexComplete, Distinct, Faithful, OnlySpentLost;
    assert s.store.codes[dc := g].Keys == s.store.codes.Keys;
  }

  lemma UpdateKeepsDistinct(l: Ledger, dc: string, r: Record)
    requires dc in l && l[dc].userCode == r.userCode
    ensures Distinct(l[dc := r]) ==> Distinct(l)
  {
    if Distinct(l[dc := r]) {
      DistinctBefore(l, l[dc := r]);
    }
  }

  lemma InvLater(s: State, now: real, later: real)
    requires Inv(s, now) && now <= later
    ensures Inv(s, later)
  {
  }

  lemma VerifyKeepsInv(s: State, now: real, v: Submission, at: real)
    requires Inv(s, now) && now <= at
    ensures Inv(Next(s, Verify(v, at)), at)
  {
    InvLater(s, now, at);
    if v.userCode in s.store.byUserCode {
      var dc := s.store.byUserCode[v.userCode];
      assert Reflects(s.store.codes[dc], s.ledger[dc], at);
      VerifyUpdates(s, at, v, dc);
    }
  }

  lemma VerifyUpdates(s: State, at: real, v: Submission, dc: string)
    requires Inv(s, at) && v.userCode in s.store.byUserCode && s.store.byUserCode[v.userCode] == dc
    requires dc in s.store.codes && dc in s.ledger && Reflects(s.store.codes[dc], s.ledger[dc], at)
    ensures Inv(Next(s, Verify(v, at)), at)
  {
    var g, r := s.store.codes[dc], s.ledger[dc];
    var outcome := Verified(s.store, v, at).1;
    assert s.ledger[dc := r] == s.ledger;
    hide Inv;
    if outcome.VerifyExpired? {
      UpdateKeepsInv(s, at, at, dc, g.(status := Expired), r);
    } else if outcome.VerifyDenied? {
      UpdateKeepsInv(s, at, at, dc, g.(status := Denied), r.(decision := Refused));
    } else if outcome.VerifyAuthorized? {
      UpdateKeepsInv(s, at, at, dc, g.(status := Authorized, username := v.authenticated, authTime := Some(at.Floor)),
                     r.(decision := Approved(v.authenticated.value, at.Floor)));
    }
  }

  lemma PollKeepsInv(s: State, now: real, e: Event)
    requires Inv(s, now) && e.Poll? && now <= e.at
    ensures Inv(Next(s, e), e.at)
  {
    InvLater(s, now, e.at);
    var dc := e.deviceCode;
    if dc in s.store.codes {
      PollUpdates(s, e, dc);
    }
  }

  lemma PollExpires(s: State, e: Event, dc: string)
    requires Inv(s, e.at) && e.Poll? && dc == e.deviceCode && dc in s.store.codes && dc in s.ledger
    requires Polled(s.store, dc, e.clientId, e.users, e.at).1.PollExpired?
    ensures Inv(Next(s, e), e.at)
  {
    var g := s.store.codes[dc];
    assert Reflects(g, s.ledger[dc], e.at);
    assert s.ledger[dc := s.ledger[dc]] == s.ledger;
    assert s.store.codes[dc := g] == s.store.codes;
    hide Inv;
    if e.at > g.expiresAt {
      UpdateKeepsInv(s, e.at, e.at, dc, g.(status := Expired), s.ledger[dc]);
    }
  }

  lemma PollCollects(s: State, e: Event, dc: string)
    requires Inv(s, e.at) && e.Poll? && dc == e.deviceCode && dc in s.store.codes && dc in s.ledger
    requires Polled(s.store, dc, e.clientId, e.users, e.at).1.PollAuthorized?
    ensures Inv(Next(s, e), e.at)
  {
    assert Reflects(s.store.codes[dc], s.ledger[dc], e.at);
    hide Inv;
    CollectKeepsInv(s, e.at, e.at, dc);
  }

  lemma PollUpdates(s: State, e: Event, dc: string)
    requires Inv(s, e.at) && e.Poll? && dc == e.deviceCode && dc in s.store.codes && dc in s.ledger
    ensures Inv(Next(s, e), e.at)
  {
    hide Inv;
    var outcome := Polled(s.store, dc, e.clientId, e.users, e.at).1;
    if outcome.PollExpired? {
      PollExpires(s, e, dc);
    } else if outcome.PollAuthorized? {
      PollCollects(s, e, dc);
    } else {
      assert Next(s, e) == s;
    }
  }

  lemma NextKeepsInv(s: State, now: real, e: Event)
    requires Inv(s, now) && now <= e.at
    requires e.Create? ==> e.deviceCode != "" && e.deviceCode !in s.ledger
    ensures Inv(Next(s, e), e.at)
  {
    match e
    case Create(_, _, _, _, _, _, _) => CreateKeepsInv(s, now, e);
    case Verify(v, at) => VerifyKeepsInv(s, now, v, at);
    case Poll(_, _, _, _) => PollKeepsInv(s, now, e);
    case Prune(at) => PrunedKeepsInv(s, now, at);
  }

  lemma {:induction false} LedgerKeys(events: seq<Event>)
    ensures forall dc | dc in After(events).ledger ::
              exists i | 0 <= i < |events| :: events[i].Create? && events[i].deviceCode == dc
  {
    if events != [] {
      var init, e := events[..|events| - 1], events[|events| - 1];
      LedgerKeys(init);
      assert forall i | 0 <= i < |init| :: events[i] == init[i];
      forall dc | dc in After(events).ledger
        ensures exists i | 0 <= i < |events| :: events[i].Create? && events[i].deviceCode == dc
      {
        if dc in After(init).ledger {
          var i :| 0 <= i < |init| && init[i].Create? && init[i].deviceCode == dc;
          assert events[i].Create? && events[i].deviceCode == dc;
        } else {
          assert events[|events| - 1].Create? && events[|events| - 1].deviceCode == dc;
        }
      }
    }
  }

  lemma {:induction false} RunsKeepInv(events: seq<Event>, now: real)
    requires Possible(events) && forall i | 0 <= i < |events| :: events[i].at <= now
    ensures Inv(After(events), now)
  {
    if events != [] {
      var init, e := events[..|events| - 1], events[|events| - 1];
      assert forall i | 0 <= i < |init| :: events[i] == init[i];
      RunsKeepInv(init, e.at);
      LedgerKeys(init);
      NextKeepsInv(After(init), e.at, e);
      InvLater(After(events), e.at, now);
    }
  }

  // ---------------------------------------------------------------- main results

  /** The answer a poll deserves, from the ledger alone. */
  function JudgePoll(l: Ledger, deviceCode: string, clientId: string, users: set<string>, now: real): PollOutcome {
    if deviceCode !in l || l[deviceCode].collected then NotFound
    else
      var r := l[deviceCode];
      if r.clientId != clientId then WrongClient
      else if now > r.expiresAt then PollExpired
      else
        match r.decision
        case Undecided => StillPending
        case Refused => PollDenied
        case Approved(u, t) =>
          if u != "" && u in users then
            PollAuthorized(u, Grant(r.userCode, r.clientId, r.scope, r.resource, r.expiresAt, Authorized, Some(u),
                                    Some(t)))
          else UserNotFound
  }

  /** Over every run a poll is answered from what was requested and what the user decided. Only an expired
      authorization may also have been forgotten, and then nothing but NOT_FOUND is said of it. */
  lemma PollsMatchLedger(events: seq<Event>, deviceCode: string, clientId: string, users: set<string>, now: real)
    requires Possible(events) && forall i | 0 <= i < |events| :: events[i].at <= now
    ensures var answer, due := Polled(After(events).store, deviceCode, clientId, users, now).1,
                               JudgePoll(After(events).ledger, deviceCode, clientId, users, now);
            && (answer == due || (answer == NotFound && deviceCode in After(events).ledger
                                  && now > After(events).ledger[deviceCode].expiresAt))
            && (answer.PollAuthorized? <==> due.PollAuthorized?)
  {
    RunsKeepInv(events, now);
    PollJudged(After(events), deviceCode, clientId, users, now);
  }

  lemma PollJudged(s: State, deviceCode: string, clientId: string, users: set<string>, now: real)
    requires Inv(s, now)
    ensures var answer, due := Polled(s.store, deviceCode, clientId, users, now).1,
                               JudgePoll(s.ledger, deviceCode, clientId, users, now);
            && (answer == due
                || (answer == NotFound && deviceCode in s.ledger && now > s.ledger[deviceCode].expiresAt))
            && (answer.PollAuthorized? <==> due.PollAuthorized?)
  {
    if deviceCode in s.store.codes {
      assert Reflects(s.store.codes[deviceCode], s.ledger[deviceCode], now);
    }
  }

  /** A user's approval reaches only a grant with that user code, undecided, uncollected and in time. */
  lemma ApprovalsAreTheUsersOwn(events: seq<Event>, v: Submission, now: real)
    requires Possible(events) && forall i | 0 <= i < |events| :: events[i].at <= now
    requires Verified(After(events).store, v, now).1.VerifyAuthorized?
    ensures Credentialed(v)
    ensures exists dc | dc in After(events).ledger ::
              && Approvable(After(events).ledger[dc], v.userCode, now)
              && Next(After(events), Verify(v, now)).ledger
                 == Decided(After(events).ledger, dc, Approved(v.authenticated.value, now.Floor))
  {
    RunsKeepInv(events, now);
    ApprovalSound(After(events), v, now);
  }

  function Decided(l: Ledger, dc: string, d: Decision): Ledger
    requires dc in l
  {
    l[dc := l[dc].(decision := d)]
  }

  lemma ApprovalSound(s: State, v: Submission, now: real)
    requires Inv(s, now) && Verified(s.store, v, now).1.VerifyAuthorized?
    ensures Credentialed(v)
    ensures exists dc | dc in s.ledger :: Approvable(s.ledger[dc], v.userCode, now)
              && Next(s, Verify(v, now)).ledger == Decided(s.ledger, dc, Approved(v.authenticated.value, now.Floor))
  {
    var dc := s.store.byUserCode[v.userCode];
    assert Reflects(s.store.codes[dc], s.ledger[dc], now);
    assert Approvable(s.ledger[dc], v.userCode, now);
    assert Next(s, Verify(v, now)).ledger == Decided(s.ledger, dc, Approved(v.authenticated.value, now.Floor));
  }

  /** With distinct user codes an approval succeeds exactly when the credentials hold and such a grant exists. */
  lemma ApprovalsReachTheirGrant(events: seq<Event>, v: Submission, now: real)
    requires Possible(events) && forall i | 0 <= i < |events| :: events[i].at <= now
    requires Distinct(After(events).ledger)
    ensures Verified(After(events).store, v, now).1.VerifyAuthorized?
            <==> Credentialed(v)
                 && exists dc | dc in After(events).ledger :: Approvable(After(events).ledger[dc], v.userCode, now)
  {
    RunsKeepInv(events, now);
    var s := After(events);
    if Verified(s.store, v, now).1.VerifyAuthorized? {
      ApprovalSound(s, v, now);
    }
    if Credentialed(v) {
      forall dc | dc in s.ledger && Approvable(s.ledger[dc], v.userCode, now)
        ensures Verified(s.store, v, now).1.VerifyAuthorized?
      {
        ApprovalComplete(s, dc, v, now);
      }
    }
  }

  lemma ApprovalComplete(s: State, dc: string, v: Submission, now: real)
    requires Inv(s, now) && IndexComplete(s.store) && Credentialed(v)
    requires dc in s.ledger && Approvable(s.ledger[dc], v.userCode, now)
    ensures Verified(s.store, v, now).1.VerifyAuthorized?
  {
    assert dc in s.store.codes;
    assert Reflects(s.store.codes[dc], s.ledger[dc], now);
    assert s.store.byUserCode[v.userCode] == dc && dc != "";
  }

  predicate Approvable(r: Record, userCode: string, now: real) {
    r.userCode == userCode && r.decision.Undecided? && !r.collected && now <= r.expiresAt
  }

  predicate Credentialed(v: Submission) { !v.deny && v.username != "" && v.authenticated.Some? }

  /** What was requested never changes, a decision is final, and what was collected stays collected. */
  predicate Progress(l: Ledger, l': Ledger) {
    forall dc | dc in l :: dc in l' && Advances(l[dc], l'[dc])
  }

  predicate Advances(r: Record, r': Record) {
    r'.(decision := r.decision, collected := r.collected) == r
    && (r.decision.Undecided? || r'.decision == r.decision)
    && (r.collected ==> r'.collected)
  }

  lemma {:induction false} LedgerProgress(events: seq<Event>, more: seq<Event>)
    requires Possible(events + more)
    ensures Progress(After(events).ledger, After(events + more).ledger)
  {
    if more == [] {
      assert events + more == events;
    } else {
      var init, e := events + more[..|more| - 1], more[|more| - 1];
      assert events + more == init + [e];
      PossibleParts(init, e);
      LedgerProgress(events, more[..|more| - 1]);
      LastStepProgress(init, e);
      ProgressTransitive(After(events).ledger, After(init).ledger, After(init + [e]).ledger);
    }
  }

  lemma ProgressTransitive(a: Ledger, b: Ledger, c: Ledger)
    requires Progress(a, b) && Progress(b, c)
    ensures Progress(a, c)
  {
    forall dc | dc in a ensures dc in c && Advances(a[dc], c[dc]) {
      assert Advances(a[dc], b[dc]) && Advances(b[dc], c[dc]);
    }
  }

  lemma LastStepProgress(init: seq<Event>, e: Event)
    requires Possible(init + [e])
    ensures Progress(After(init).ledger, After(init + [e]).ledger)
  {
    var run := init + [e];
    PossibleParts(init, e);
    RunsKeepInv(init, e.at);
    LedgerKeys(init);
    assert run[..|run| - 1] == init && run[|run| - 1] == e;
    assert forall i | 0 <= i < |init| :: run[i] == init[i];
    StepProgress(After(init), e);
  }

  lemma ChangeProgress(l: Ledger, dc: string, r: Record)
    requires dc in l ==> Advances(l[dc], r)
    ensures Progress(l, l[dc := r])
  {
  }

  lemma StepProgress(s: State, e: Event)
    requires Inv(s, e.at) && (e.Create? ==> e.deviceCode !in s.ledger)
    ensures Progress(s.ledger, Next(s, e).ledger)
  {
    match e
    case Create(dc, uc, client, scope, resource, expiresIn, at) =>
      ChangeProgress(s.ledger, dc, Record(uc, client, scope, resource, at + expiresIn, Undecided, false));
    case Verify(v, at) => VerifyProgress(s, v, at);
    case Poll(dc, client, users, at) =>
      if dc in s.ledger {
        ChangeProgress(s.ledger, dc, s.ledger[dc].(collected := true));
      }
    case Prune(_) =>
  }

  lemma VerifyProgress(s: State, v: Submission, at: real)
    requires Inv(s, at)
    ensures Progress(s.ledger, Next(s, Verify(v, at)).ledger)
  {
    if Verified(s.store, v, at).1.VerifyAuthorized? || Verified(s.store, v, at).1.VerifyDenied? {
      var dc := s.store.byUserCode[v.userCode];
      var r := s.ledger[dc];
      assert Reflects(s.store.codes[dc], r, at);
      assert r.decision.Undecided?;
      hide Inv, Reflects;
      ChangeProgress(s.ledger, dc, Next(s, Verify(v, at)).ledger[dc]);
    }
  }

  /** A device code is collected at most once: after it polls AUTHORIZED it never does again. */
  lemma CollectedAtMostOnce(events: seq<Event>, e: Event, between: seq<Event>, again: Event)
    requires Possible(events + [e] + between + [again])
    requires e.Poll? && Polled(After(events).store, e.deviceCode, e.clientId, e.users, e.at).1.PollAuthorized?
    requires again.Poll? && again.deviceCode == e.deviceCode
    ensures Polled(After(events + [e] + between).store, again.deviceCode, again.clientId, again.users, again.at).1
            == NotFound
  {
    var run, first := events + [e] + between, events + [e];
    PossibleParts(run, again);
    PossibleParts(events, e) by {
      assert forall i | 0 <= i < |first| :: run[i] == first[i];
    }
    RunsKeepInv(events, e.at);
    RunsKeepInv(run, again.at);
    assert first[..|events|] == events && first[|events|] == e;
    assert After(first).ledger[e.deviceCode].collected;
    LedgerProgress(first, between);
  }

  lemma PossibleParts(events: seq<Event>, e: Event)
    requires Possible(events + [e])
    ensures Possible(events) && forall i | 0 <= i < |events| :: events[i].at <= e.at
  {
    var all := events + [e];
    assert all[|events|] == e;
    assert forall i | 0 <= i < |events| :: all[i] == events[i];
  }

  /** Once denied, no later poll is authorized. */
  lemma DeniedIsFinal(events: seq<Event>, deviceCode: string, more: seq<Event>, clientId: string, users: set<string>,
                      now: real)
    requires Possible(events + more) && forall i | 0 <= i < |events + more| :: (events + more)[i].at <= now
    requires deviceCode in After(events).ledger && After(events).ledger[deviceCode].decision.Refused?
    ensures !Polled(After(events + more).store, deviceCode, clientId, users, now).1.PollAuthorized?
  {
    LedgerProgress(events, more);
    PollsMatchLedger(events + more, deviceCode, clientId, users, now);
  }

  /** The cap holds in every reachable state, and the two maps are inverse to each other when user codes are
      distinct; the index never points at a grant with another user code even when they are not. */
  lemma StoreStaysConsistent(events: seq<Event>, now: real)
    requires Possible(events) && forall i | 0 <= i < |events| :: events[i].at <= now
    ensures var s := After(events).store;
            |s.codes| <= 10000 && IndexSound(s) && (Distinct(After(events).ledger) ==> IndexComplete(s))
  {
    RunsKeepInv(events, now);
  }

  lemma IndexIsComplete(s: State, now: real)
    requires Inv(s, now) && Distinct(s.ledger)
    ensures IndexComplete(s.store)
  {
  }

  /** The submission puts a refusal on record for this device code. */
  predicate RefusedBy(s: State, v: Submission, now: real, dc: string) {
    var l := Next(s, Verify(v, now)).ledger;
    dc in l && l[dc].decision == Refused
  }

  /** With distinct user codes a denial reaches its grant exactly when there is one to decide. */
  lemma DenialsReachTheirGrant(events: seq<Event>, v: Submission, now: real)
    requires Possible(events) && forall i | 0 <= i < |events| :: events[i].at <= now
    requires Distinct(After(events).ledger)
    ensures var s := After(events);
            && (Verified(s.store, v, now).1.VerifyDenied?
                <==> v.deny && exists dc | dc in s.ledger :: Approvable(s.ledger[dc], v.userCode, now))
            && (forall dc | dc in s.ledger && v.deny && Approvable(s.ledger[dc], v.userCode, now) ::
                  RefusedBy(s, v, now, dc))
  {
    RunsKeepInv(events, now);
    var s := After(events);
    hide *;
    IndexIsComplete(s, now);
    if Verified(s.store, v, now).1.VerifyDenied? {
      var dc := DenialSound(s, v, now);
    }
    forall dc | dc in s.ledger && v.deny && Approvable(s.ledger[dc], v.userCode, now)
      ensures Verified(s.store, v, now).1.VerifyDenied? && RefusedBy(s, v, now, dc)
    {
      DenialComplete(s, dc, v, now);
    }
  }

  lemma DenialSound(s: State, v: Submission, now: real) returns (dc: string)
    requires Inv(s, now) && Verified(s.store, v, now).1.VerifyDenied?
    ensures v.deny && dc in s.ledger && Approvable(s.ledger[dc], v.userCode, now)
  {
    dc := s.store.byUserCode[v.userCode];
    assert Reflects(s.store.codes[dc], s.ledger[dc], now);
  }

  lemma DenialComplete(s: State, dc: string, v: Submission, now: real)
    requires Inv(s, now) && IndexComplete(s.store) && v.deny
    requires dc in s.ledger && Approvable(s.ledger[dc], v.userCode, now)
    ensures Verified(s.store, v, now).1.VerifyDenied? && RefusedBy(s, v, now, dc)
  {
    assert dc in s.store.codes;
    assert Reflects(s.store.codes[dc], s.ledger[dc], now);
    assert s.store.byUserCode[v.userCode] == dc && dc != "";
  }

  /** Grants that are neither collected nor expired. */
  function Outstanding(l: Ledger, now: real): set<string> {
    set dc | dc in l && !l[dc].collected && now <= l[dc].expiresAt
  }

  /** A new authorization is accepted exactly when fewer than 10,000 are outstanding; it is then on record as asked for,
      and can be polled. */
  lemma CreationExactly(events: seq<Event>, e: Event)
    requires Possible(events + [e]) && e.Create?
    ensures var s, s' := After(events), Next(After(events), e);
            if |Outstanding(s.ledger, e.at)| < 10000 then
              && e.deviceCode in s'.ledger
              && s'.ledger[e.deviceCode] == Record(e.userCode, e.clientId, e.scope, e.resource, e.at + e.expiresIn,
                                                   Undecided, false)
              && e.deviceCode in s'.store.codes
            else s'.ledger == s.ledger
  {
    PossibleParts(events, e);
    RunsKeepInv(events, e.at);
    var s := After(events);
    OutstandingAreStored(s, e.at);
    assert Full(s.store, e.at) <==> |Outstanding(s.ledger, e.at)| >= 10000;
    hide Inv, Outstanding, Full, Pruned;
  }

  lemma OutstandingAreStored(s: State, now: real)
    requires Inv(s, now)
    ensures Pruned(s.store, now).codes.Keys == Outstanding(s.ledger, now)
    ensures |Pruned(s.store, now).codes| == |Outstanding(s.ledger, now)|
  {
    var pruned := Pruned(s.store, now).codes;
    forall dc ensures dc in pruned.Keys <==> dc in Outstanding(s.ledger, now) {
      if dc in s.store.codes {
        assert Reflects(s.store.codes[dc], s.ledger[dc], now);
      }
    }
    assert |pruned| == |pruned.Keys|;
  }

  // ---------------------------------------------------------------- what the user is told

  /** The record is still open: not collected, not expired. */
  predicate Open(r: Record, userCode: string, now: real) {
    r.userCode == userCode && !r.collected && now <= r.expiresAt
  }

  lemma OpenHasTheCode(r: Record, userCode: string, now: real)
    requires Open(r, userCode, now)
    ensures r.userCode == userCode
  {
  }

  /** The answer to a submission for an open record. */
  function Told(r: Record, v: Submission): VerifyOutcome {
    if r.decision != Undecided then AlreadyUsed
    else if v.deny then VerifyDenied
    else if v.username == "" then MissingCredentials
    else match v.authenticated
      case None => InvalidCredentials
      case Some(user) => VerifyAuthorized(user)
  }

  lemma ToldExactly(s: State, dc: string, v: Submission, now: real)
    requires Inv(s, now) && IndexComplete(s.store) && dc in s.ledger && Open(s.ledger[dc], v.userCode, now)
    ensures Verified(s.store, v, now).1 == Told(s.ledger[dc], v)
  {
    assert dc in s.store.codes;
    assert Reflects(s.store.codes[dc], s.ledger[dc], now);
    assert s.store.byUserCode[v.userCode] == dc && dc != "";
  }

  lemma ToldOfNoneOpen(s: State, v: Submission, now: real)
    requires Inv(s, now) && forall dc | dc in s.ledger :: !Open(s.ledger[dc], v.userCode, now)
    ensures Verified(s.store, v, now).1 in {InvalidCode, AlreadyUsed, VerifyExpired}
    ensures (forall dc | dc in s.ledger :: s.ledger[dc].userCode != v.userCode) ==>
              Verified(s.store, v, now).1 == InvalidCode
  {
    if v.userCode in s.store.byUserCode {
      var dc := s.store.byUserCode[v.userCode];
      assert Reflects(s.store.codes[dc], s.ledger[dc], now);
    }
  }

  /** Over every run with distinct user codes, what the user is told: for an open authorization, by its decision and the
      submission; without one, that the code is invalid, used or expired; for a code nobody was given, that it is
      invalid. */
  lemma SubmissionsAnswered(events: seq<Event>, v: Submission, now: real)
    requires Possible(events) && forall i | 0 <= i < |events| :: events[i].at <= now
    requires Distinct(After(events).ledger)
    ensures var s := After(events);
            && (forall dc | dc in s.ledger && Open(s.ledger[dc], v.userCode, now) ::
                  Verified(s.store, v, now).1 == Told(s.ledger[dc], v))
            && ((forall dc | dc in s.ledger :: !Open(s.ledger[dc], v.userCode, now)) ==>
                  Verified(s.store, v, now).1 in {InvalidCode, AlreadyUsed, VerifyExpired})
            && ((forall dc | dc in s.ledger :: s.ledger[dc].userCode != v.userCode) ==>
                  Verified(s.store, v, now).1 == InvalidCode)
  {
    RunsKeepInv(events, now);
    var s := After(events);
    hide *;
    IndexIsComplete(s, now);
    forall dc | dc in s.ledger && Open(s.ledger[dc], v.userCode, now)
      ensures Verified(s.store, v, now).1 == Told(s.ledger[dc], v)
    {
      ToldExactly(s, dc, v, now);
    }
    if forall dc | dc in s.ledger :: !Open(s.ledger[dc], v.userCode, now) {
      ToldOfNoneOpen(s, v, now);
    } else {
      var dc :| dc in s.ledger && Open(s.ledger[dc], v.userCode, now);
      OpenHasTheCode(s.ledger[dc], v.userCode, now);
    }
  }

  /** Whoever notices first that an authorization has expired, the device or its user, settles it: until it is pruned
      the device hears that it has expired and the user that it is used up, whatever the clock then says. */
  lemma ExpiryIsNoticedOnce(s: Store, deviceCode: string, clientId: string, users: set<string>, v: Submission,
                            now: real, later: real)
    requires IndexSound(s) && deviceCode != ""
    requires v.userCode in s.byUserCode && s.byUserCode[v.userCode] == deviceCode
    requires s.codes[deviceCode].clientId == clientId
    ensures Polled(s, deviceCode, clientId, users, now).1.PollExpired? ==>
              var s' := Polled(s, deviceCode, clientId, users, now).0;
              && Polled(s', deviceCode, clientId, users, later).1.PollExpired?
              && Verified(s', v, later).1.AlreadyUsed?
    ensures Verified(s, v, now).1.VerifyExpired? ==>
              var s' := Verified(s, v, now).0;
              && Polled(s', deviceCode, clientId, users, later).1.PollExpired?
              && Verified(s', v, later).1.AlreadyUsed?
  {
  }
}
