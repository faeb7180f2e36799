/** The whole token system as one clocked machine. A request is answered in two steps, so that others may come
    between: its handler runs (for a refresh: verify and claim, on one clock reading), and the response is minted
    later, within a day. The configuration may change between any two steps. Beside the expiring store runs a set of
    books that never forgets. */
module GrantRuns {
  import opened Common
  import opened Scope
  import opened Resources
  import opened Tokens
  import opened Grants
  import R = Revocation
  import A = AuthCode
  import D = DeviceCode

  const DAY := 86400.0

  datatype Minting = Minting(cfg: Config, expMinutes: nat, ids: Ids, at: real)

  /** A granted request: `origin` is the issuance whose refresh token was spent, `root` the first of the chain. */
  datatype Issuance = Issuance(
    origin: Option<nat>,
    root: nat,
    cfg: Config,
    clientId: string,
    grant: Grant,
    at: real,
    minted: Option<Minting>)
  {
    function Response(): TokenResponse
      requires minted.Some?
    {
      var m := minted.value;
      CreateToken(m.cfg, grant, clientId, m.expMinutes, m.ids, m.at)
    }

    function Refresh(): Jwt
      requires minted.Some?
    {
      Response().refresh
    }

    function Family(): Option<string> { if minted.Some? then Refresh().family else grant.family }
  }

  /** The refresh tokens spent or revoked, and the families whose reuse was detected, since the beginning. */
  datatype Books = Books(spent: set<string>, dead: set<string>)

  datatype State = State(
    now: real,
    revoked: R.Store,
    books: Books,
    codes: A.Codes,
    devices: D.Store,
    issuances: seq<Issuance>,
    known: set<string>)
  {
    predicate Minted(k: nat) { k < |issuances| && issuances[k].minted.Some? }
  }

  datatype Step =
    | CreateCode(code: string, authorization: A.Authorization, at: real)
    | Redeem(cfg: Config, redemption: CodeRequest, at: real)
    | CreateDevice(deviceCode: string, userCode: string, clientId: string, scope: string,
                   resource: Option<seq<string>>, expiresIn: real, at: real)
    | Decide(submission: D.Submission, at: real)
    | Collect(cfg: Config, device: DeviceRequest, at: real)
    | Password(cfg: Config, password: PasswordRequest, at: real)
    | Spend(cfg: Config, k: nat, clientId: string, narrow: Option<string>, resources: seq<string>, at: real)
    | Mint(k: nat, minting: Minting, at: real)
    | Revoke(k: nat, use: Use, at: real)
    | Logout(jti: string, at: real)

  /** Spend: the refresh request that presents the refresh token of issuance k. */
  function RequestOf(s: State, e: Step): RefreshRequest
    requires e.Spend? && s.Minted(e.k)
  {
    RefreshRequest(Signed(s.issuances[e.k].Refresh()), e.clientId, e.narrow, e.resources)
  }

  predicate NewIds(ids: Ids, known: set<string>) {
    ids.access !in known && ids.id !in known && ids.refresh !in known && ids.family !in known
    && ids.family != "" && ids.refresh != ""
    && ids.refresh != ids.access && ids.refresh != ids.id && ids.access != ids.id
  }

  /** The clock does not go back; an issuance is minted once, with new ids, within a day of its grant. */
  predicate Enabled(s: State, e: Step) {
    s.now <= e.at
    && match e
       case Spend(_, k, _, _, _, _) => s.Minted(k)
       case Mint(k, m, at) => && k < |s.issuances| && s.issuances[k].minted.None? && m.at == at
                              && at <= s.issuances[k].at + DAY && NewIds(m.ids, s.known)
       case Revoke(k, use, _) => s.Minted(k) && (use.IdUse? ==> s.issuances[k].Response().id.Some?)
       case _ => true
  }

  function Began(s: State, cfg: Config, clientId: string, r: GrantResult, at: real): State {
    if r.Refuse? then s.(now := at)
    else
      var i := Issuance(None, |s.issuances|, cfg, clientId, r.grant, at, None);
      s.(now := at, issuances := s.issuances + [i])
  }

  function Continued(s: State, cfg: Config, clientId: string, k: nat, r: GrantResult, at: real): State
    requires k < |s.issuances|
  {
    if r.Refuse? then s.(now := at)
    else
      var i := Issuance(Some(k), s.issuances[k].root, cfg, clientId, r.grant, at, None);
      s.(now := at, issuances := s.issuances + [i])
  }

  /** A refresh judged by the books alone: the answer due, and the books after it. */
  function Judged(b: Books, cfg: Config, q: RefreshRequest, now: real): (Books, GrantResult) {
    match Admit(cfg, q, now)
    case Rejected(e) => (b, Refuse(e))
    case Admitted(t, scope) =>
      var dead := Truthy(t.family) && t.family.value in b.dead;
      var rotates := Rotates(cfg, q.clientId);
      if dead || (t.jti.Some? && t.jti.value in b.spent) then
        (if rotates && Truthy(t.family) then b.(dead := b.dead + {t.family.value}) else b, Refuse(InvalidGrant))
      else
        var b' := if rotates && Truthy(t.jti) then b.(spent := b.spent + {t.jti.value}) else b;
        match RefreshTarget(cfg, q, t)
        case InvalidTarget => (b', Refuse(InvalidTargetError))
        case Bound(resource) => (b', Issue(RefreshedGrant(t, scope, resource)))
  }

  function TokenOf(i: Issuance, use: Use): Jwt
    requires i.minted.Some? && (use.IdUse? ==> i.Response().id.Some?)
  {
    match use
    case AccessUse => i.Response().access
    case IdUse => i.Response().id.value
    case RefreshUse => i.Response().refresh
  }

  function WithMinting(s: State, k: nat, m: Minting): State
    requires k < |s.issuances|
  {
    s.(now := m.at, issuances := s.issuances[k := s.issuances[k].(minted := Some(m))],
       known := s.known + {m.ids.access, m.ids.id, m.ids.refresh, m.ids.family})
  }

  function Named(s: State, jti: string, h: R.Horizon, at: real): State {
    s.(now := at, revoked := R.Revoked(s.revoked, jti, h, at, at), books := s.books.(spent := s.books.spent + {jti}),
       known := s.known + {jti})
  }

  function Next(s256: string -> string, s: State, e: Step): State
    requires Enabled(s, e)
  {
    match e
    case CreateCode(code, authorization, at) => s.(now := at, codes := A.Created(s.codes, code, authorization, at))
    case Redeem(cfg, q, at) =>
      var (codes, r) := RedeemCode(s256, cfg, s.codes, q, at);
      Began(s.(codes := codes), cfg, q.attempt.clientId, r, at)
    case CreateDevice(dc, uc, client, scope, resource, expiresIn, at) =>
      s.(now := at, devices := D.Created(s.devices, dc, uc, client, scope, resource, expiresIn, at))
    case Decide(v, at) => s.(now := at, devices := D.Verified(s.devices, v, at).0)
    case Collect(cfg, q, at) =>
      var (devices, r) := PollDevice(cfg, s.devices, q, at);
      Began(s.(devices := devices), cfg, q.clientId, r, at)
    case Password(cfg, q, at) => Began(s, cfg, q.clientId, PasswordGrant(cfg, q), at)
    case Spend(cfg, k, clientId, _, _, at) =>
      var q := RequestOf(s, e);
      var (revoked, r) := Refresh(cfg, s.revoked, q, at);
      Continued(s.(revoked := revoked, books := Judged(s.books, cfg, q, at).0), cfg, clientId, k, r, at)
    case Mint(k, m, _) => WithMinting(s, k, m)
    case Revoke(k, use, at) =>
      var t := TokenOf(s.issuances[k], use);
      if at >= t.exp || t.jti.None? then s.(now := at) else Named(s, t.jti.value, R.Verified(t.exp), at)
    case Logout(jti, at) => if jti == "" then s.(now := at) else Named(s, jti, R.Unset, at)
  }

  function Initial(): State {
    State(0.0, R.Store(map[], map[]), Books({}, {}), map[], D.Store(map[], map[]), [], {})
  }

  /** The state after a run, or None when some step of it was not enabled. */
  function After(s256: string -> string, steps: seq<Step>): Option<State> {
    if steps == [] then Some(Initial())
    else
      var s := After(s256, steps[..|steps| - 1]);
      var e := steps[|steps| - 1];
      if s.Some? && Enabled(s.value, e) then Some(Next(s256, s.value, e)) else None
  }

  // ---------------------------------------------------------------- the invariant

  /** Ids are used once: no two tokens share one. */
  predicate Apart(issuances: seq<Issuance>) {
    forall i, j | 0 <= i < |issuances| && 0 <= j < |issuances|
                  && issuances[i].minted.Some? && issuances[j].minted.Some? ::
      IdsApart(issuances[i].minted.value.ids, issuances[j].minted.value.ids, i == j)
  }

  predicate IdsApart(a: Ids, b: Ids, same: bool) {
    a.refresh != b.access && a.refresh != b.id && a.access != b.id
    && (!same ==> a.refresh != b.refresh && a.access != b.access && a.id != b.id)
  }

  predicate IdsKnown(i: Issuance, known: set<string>) {
    i.minted.Some? ==>
      var ids := i.minted.value.ids;
      ids.access in known && ids.id in known && ids.refresh in known && ids.refresh != ""
      && Truthy(i.Family()) && i.Family().value in known
  }

  predicate Dated(i: Issuance, now: real) {
    i.at <= now && (i.minted.Some? ==> i.minted.value.at <= now && i.minted.value.at <= i.at + DAY)
  }

  /** An entry that is still needed at `until` is there and stays until then. */
  predicate Held(entries: R.Entries, key: string, until: real, now: real) {
    now < until ==> key in entries && entries[key].Covers(until)
  }

  /** When the last token of this issuance, minted or still to be minted, will have expired. */
  function Horizon(i: Issuance): real {
    if i.minted.Some? then i.Refresh().exp else i.at + R.RETENTION_SECONDS
  }

  predicate SpentHeld(i: Issuance, spent: set<string>, tokens: R.Entries, now: real) {
    i.minted.Some? && i.minted.value.ids.refresh in spent ==> Held(tokens, i.minted.value.ids.refresh, Horizon(i), now)
  }

  predicate DeadHeld(i: Issuance, dead: set<string>, families: R.Entries, now: real) {
    Truthy(i.Family()) && i.Family().value in dead ==> Held(families, i.Family().value, Horizon(i), now)
  }

  predicate AllSpentHeld(issuances: seq<Issuance>, spent: set<string>, tokens: R.Entries, now: real) {
    forall k | 0 <= k < |issuances| :: SpentHeld(issuances[k], spent, tokens, now)
  }

  predicate AllDeadHeld(issuances: seq<Issuance>, dead: set<string>, families: R.Entries, now: real) {
    forall k | 0 <= k < |issuances| :: DeadHeld(issuances[k], dead, families, now)
  }

  predicate FamilyKnown(i: Issuance, known: set<string>) {
    i.Family().Some? ==> i.Family().value != "" && i.Family().value in known
  }

  predicate Regular(issuances: seq<Issuance>, known: set<string>, now: real) {
    forall k | 0 <= k < |issuances| ::
      IdsKnown(issuances[k], known) && FamilyKnown(issuances[k], known) && Dated(issuances[k], now)
  }

  predicate StoreWithinBooks(store: R.Store, b: Books, known: set<string>) {
    store.tokens.Keys <= b.spent <= known && store.families.Keys <= b.dead <= known
  }

  predicate Inv(s: State) {
    && Apart(s.issuances)
    && Regular(s.issuances, s.known, s.now)
    && StoreWithinBooks(s.revoked, s.books, s.known)
    && AllSpentHeld(s.issuances, s.books.spent, s.revoked.tokens, s.now)
    && AllDeadHeld(s.issuances, s.books.dead, s.revoked.families, s.now)
  }

  // ---------------------------------------------------------------- how entries are kept

  /** Every token of an issuance is gone by its horizon, and no later than eight days after now. */
  lemma HorizonBound(i: Issuance, now: real)
    requires Dated(i, now)
    ensures Horizon(i) <= i.at + R.RETENTION_SECONDS && Horizon(i) <= now + R.RETENTION_SECONDS
  {
    if i.minted.Some? {
      var end := i.minted.value.at + REFRESH_LIFETIME;
      assert end.Floor as real <= end;
    }
  }

  lemma HeldAfterSweep(entries: R.Entries, key: string, until: real, now: real, at: real)
    requires Held(entries, key, until, now) && now <= at
    ensures Held(R.Unexpired(entries, at), key, until, at)
  {
  }

  lemma SpentHeldAfterSweep(issuances: seq<Issuance>, spent: set<string>, tokens: R.Entries, now: real, at: real)
    requires AllSpentHeld(issuances, spent, tokens, now) && now <= at
    ensures AllSpentHeld(issuances, spent, R.Unexpired(tokens, at), at)
  {
    forall k | 0 <= k < |issuances| ensures SpentHeld(issuances[k], spent, R.Unexpired(tokens, at), at) {
      var i := issuances[k];
      if i.minted.Some? && i.minted.value.ids.refresh in spent {
        HeldAfterSweep(tokens, i.minted.value.ids.refresh, Horizon(i), now, at);
      }
    }
  }

  lemma DeadHeldAfterSweep(issuances: seq<Issuance>, dead: set<string>, families: R.Entries, now: real, at: real)
    requires AllDeadHeld(issuances, dead, families, now) && now <= at
    ensures AllDeadHeld(issuances, dead, R.Unexpired(families, at), at)
  {
    forall k | 0 <= k < |issuances| ensures DeadHeld(issuances[k], dead, R.Unexpired(families, at), at) {
      var i := issuances[k];
      if Truthy(i.Family()) && i.Family().value in dead {
        HeldAfterSweep(families, i.Family().value, Horizon(i), now, at);
      }
    }
  }

  /** One more id in the books, with an entry that outlasts every refresh token of that id. */
  lemma SpentHeldAfterWrite(issuances: seq<Issuance>, spent: set<string>, tokens: R.Entries, now: real,
                            key: string, e: R.Expiry)
    requires AllSpentHeld(issuances, spent, tokens, now)
    requires forall k | 0 <= k < |issuances| && issuances[k].minted.Some?
                        && issuances[k].minted.value.ids.refresh == key ::
               e.Covers(Horizon(issuances[k]))
    ensures AllSpentHeld(issuances, spent + {key}, tokens[key := e], now)
  {
  }

  lemma DeadHeldAfterWrite(issuances: seq<Issuance>, dead: set<string>, families: R.Entries, now: real,
                           key: string, e: R.Expiry)
    requires AllDeadHeld(issuances, dead, families, now)
    requires forall k | 0 <= k < |issuances| && issuances[k].Family() == Some(key) :: e.Covers(Horizon(issuances[k]))
    ensures AllDeadHeld(issuances, dead + {key}, families[key := e], now)
  {
    forall k | 0 <= k < |issuances| ensures DeadHeld(issuances[k], dead + {key}, families[key := e], now) {
      assert DeadHeld(issuances[k], dead, families, now);
    }
  }

  // ---------------------------------------------------------------- the store answers like the books

  lemma AnswersAgree(s: State, cfg: Config, k: nat, q: RefreshRequest, at: real)
    requires Inv(s) && s.Minted(k) && s.now <= at && q.token == Signed(s.issuances[k].Refresh())
    ensures Refresh(cfg, s.revoked, q, at).1 == Judged(s.books, cfg, q, at).1
  {
    if Admit(cfg, q, at).Admitted? {
      MembershipAgrees(s, k, at);
    }
  }

  /** For a token not yet expired, swept store and books hold the same ids. */
  lemma MembershipAgrees(s: State, k: nat, at: real)
    requires Inv(s) && s.Minted(k) && s.now <= at < s.issuances[k].Refresh().exp
    ensures var t, swept := s.issuances[k].Refresh(), R.Swept(s.revoked, at);
            && Truthy(t.jti) && Truthy(t.family)
            && (t.jti.value in swept.tokens <==> t.jti.value in s.books.spent)
            && (t.family.value in swept.families <==> t.family.value in s.books.dead)
  {
    var i := s.issuances[k];
    assert IdsKnown(i, s.known) && FamilyKnown(i, s.known);
    assert SpentHeld(i, s.books.spent, s.revoked.tokens, s.now);
    assert DeadHeld(i, s.books.dead, s.revoked.families, s.now);
    if i.minted.value.ids.refresh in s.books.spent {
      HeldAfterSweep(s.revoked.tokens, i.minted.value.ids.refresh, Horizon(i), s.now, at);
    }
    if i.Family().value in s.books.dead {
      HeldAfterSweep(s.revoked.families, i.Family().value, Horizon(i), s.now, at);
    }
  }

  // ---------------------------------------------------------------- every step keeps the invariant

  lemma TimePasses(s: State, at: real)
    requires Inv(s) && s.now <= at
    ensures Inv(s.(now := at))
  {
    forall k | 0 <= k < |s.issuances|
      ensures SpentHeld(s.issuances[k], s.books.spent, s.revoked.tokens, at)
      ensures DeadHeld(s.issuances[k], s.books.dead, s.revoked.families, at)
      ensures Dated(s.issuances[k], at)
    {
      assert SpentHeld(s.issuances[k], s.books.spent, s.revoked.tokens, s.now);
      assert DeadHeld(s.issuances[k], s.books.dead, s.revoked.families, s.now);
    }
  }

  lemma AppendKeepsInv(s: State, i: Issuance)
    requires Inv(s) && i.minted.None? && i.at == s.now && FamilyKnown(i, s.known)
    requires i.Family().Some? ==> i.Family().value !in s.books.dead
    ensures Inv(s.(issuances := s.issuances + [i]))
  {
    var all := s.issuances + [i];
    assert forall k | 0 <= k < |s.issuances| :: all[k] == s.issuances[k];
    assert all[|s.issuances|] == i;
    assert Apart(all) by {
      forall j, k | 0 <= j < |all| && 0 <= k < |all| && all[j].minted.Some? && all[k].minted.Some?
        ensures IdsApart(all[j].minted.value.ids, all[k].minted.value.ids, j == k)
      {
        assert j < |s.issuances| && k < |s.issuances|;
      }
    }
  }

  lemma BeganKeepsInv(s: State, cfg: Config, clientId: string, r: GrantResult, at: real)
    requires Inv(s) && s.now <= at && (r.Issue? ==> r.grant.family.None?)
    ensures Inv(Began(s, cfg, clientId, r, at))
  {
    TimePasses(s, at);
    if r.Issue? {
      AppendKeepsInv(s.(now := at), Issuance(None, |s.issuances|, cfg, clientId, r.grant, at, None));
    }
  }

  lemma SweepKeepsInv(s: State, at: real)
    requires Inv(s) && s.now <= at
    ensures Inv(s.(now := at, revoked := R.Swept(s.revoked, at)))
  {
    TimePasses(s, at);
    SpentHeldAfterSweep(s.issuances, s.books.spent, s.revoked.tokens, s.now, at);
    DeadHeldAfterSweep(s.issuances, s.books.dead, s.revoked.families, s.now, at);
  }

  /** An entry for `jti` is written that outlasts every refresh token with that id. */
  lemma SpentWriteKeepsInv(s: State, jti: string, e: R.Expiry)
    requires Inv(s)
    requires forall k | 0 <= k < |s.issuances| && s.issuances[k].minted.Some?
                        && s.issuances[k].minted.value.ids.refresh == jti :: e.Covers(Horizon(s.issuances[k]))
    ensures Inv(s.(revoked := s.revoked.(tokens := s.revoked.tokens[jti := e]),
                   books := s.books.(spent := s.books.spent + {jti}), known := s.known + {jti}))
  {
    SpentHeldAfterWrite(s.issuances, s.books.spent, s.revoked.tokens, s.now, jti, e);
    assert s.revoked.tokens[jti := e].Keys == s.revoked.tokens.Keys + {jti};
    RegularMonotone(s.issuances, s.known, s.known + {jti}, s.now);
  }

  lemma RegularMonotone(issuances: seq<Issuance>, known: set<string>, known': set<string>, now: real)
    requires Regular(issuances, known, now) && known <= known'
    ensures Regular(issuances, known', now)
  {
    forall k | 0 <= k < |issuances|
      ensures IdsKnown(issuances[k], known') && FamilyKnown(issuances[k], known') && Dated(issuances[k], now)
    {
      assert IdsKnown(issuances[k], known) && FamilyKnown(issuances[k], known) && Dated(issuances[k], now);
    }
  }

  lemma DeadWriteKeepsInv(s: State, family: string, e: R.Expiry)
    requires Inv(s) && family in s.known && e.Covers(s.now + R.RETENTION_SECONDS)
    ensures Inv(s.(revoked := s.revoked.(families := s.revoked.families[family := e]),
                   books := s.books.(dead := s.books.dead + {family})))
  {
    forall k | 0 <= k < |s.issuances| && s.issuances[k].Family() == Some(family)
      ensures e.Covers(Horizon(s.issuances[k]))
    {
      assert Dated(s.issuances[k], s.now);
      HorizonBound(s.issuances[k], s.now);
    }
    DeadHeldAfterWrite(s.issuances, s.books.dead, s.revoked.families, s.now, family, e);
    assert s.revoked.families[family := e].Keys == s.revoked.families.Keys + {family};
  }

  lemma NamedKeepsInv(s: State, jti: string, h: R.Horizon, at: real)
    requires Inv(s) && s.now <= at
    requires forall k | 0 <= k < |s.issuances| && s.issuances[k].minted.Some?
                        && s.issuances[k].minted.value.ids.refresh == jti ::
               R.EffectiveExpiry(h, at).Covers(Horizon(s.issuances[k]))
    ensures Inv(Named(s, jti, h, at))
  {
    SweepKeepsInv(s, at);
    var t := s.(now := at, revoked := R.Swept(s.revoked, at));
    var previous := if jti in t.revoked.tokens then t.revoked.tokens[jti] else R.At(0.0);
    var e := R.Later(previous, R.EffectiveExpiry(h, at));
    SpentWriteKeepsInv(t, jti, e);
  }

  lemma RevokeKeepsInv(s: State, k: nat, use: Use, at: real)
    requires Inv(s) && s.now <= at && s.Minted(k) && (use.IdUse? ==> s.issuances[k].Response().id.Some?)
    requires TokenOf(s.issuances[k], use).jti.Some?
    ensures var t := TokenOf(s.issuances[k], use); Inv(Named(s, t.jti.value, R.Verified(t.exp), at))
  {
    var t := TokenOf(s.issuances[k], use);
    forall j | 0 <= j < |s.issuances| && s.issuances[j].minted.Some?
               && s.issuances[j].minted.value.ids.refresh == t.jti.value
      ensures R.EffectiveExpiry(R.Verified(t.exp), at).Covers(Horizon(s.issuances[j]))
    {
      assert IdsApart(s.issuances[j].minted.value.ids, s.issuances[k].minted.value.ids, j == k);
      assert j == k && use.RefreshUse?;
    }
    NamedKeepsInv(s, t.jti.value, R.Verified(t.exp), at);
  }

  lemma LogoutKeepsInv(s: State, jti: string, at: real)
    requires Inv(s) && s.now <= at
    ensures Inv(Named(s, jti, R.Unset, at))
  {
    forall k | 0 <= k < |s.issuances| ensures Horizon(s.issuances[k]) <= at + R.RETENTION_SECONDS {
      assert Dated(s.issuances[k], s.now);
      HorizonBound(s.issuances[k], at);
    }
    NamedKeepsInv(s, jti, R.Unset, at);
  }

  /** The claim on the store, and the same claim on the books. */
  lemma ClaimKeepsInv(s: State, cfg: Config, k: nat, q: RefreshRequest, at: real)
    requires Inv(s) && s.Minted(k) && s.now <= at && q.token == Signed(s.issuances[k].Refresh())
    ensures Inv(s.(now := at, revoked := Refresh(cfg, s.revoked, q, at).0, books := Judged(s.books, cfg, q, at).0))
  {
    if Admit(cfg, q, at).Admitted? {
      AdmittedClaimKeepsInv(s, cfg, k, q, at);
    } else {
      TimePasses(s, at);
    }
  }

  lemma AdmittedClaimKeepsInv(s: State, cfg: Config, k: nat, q: RefreshRequest, at: real)
    requires Inv(s) && s.Minted(k) && s.now <= at && q.token == Signed(s.issuances[k].Refresh())
    requires Admit(cfg, q, at).Admitted?
    ensures Inv(s.(now := at, revoked := Refresh(cfg, s.revoked, q, at).0, books := Judged(s.books, cfg, q, at).0))
  {
    var t := s.issuances[k].Refresh();
    assert t == Admit(cfg, q, at).token;
    MembershipAgrees(s, k, at);
    SweepKeepsInv(s, at);
    var s1 := s.(now := at, revoked := R.Swept(s.revoked, at));
    var rotates := Rotates(cfg, q.clientId);
    var jti, family := t.jti.value, t.family.value;
    if family in s.books.dead {
      assert s.books.dead + {family} == s.books.dead;
    } else if jti in s.books.spent {
      if rotates {
        assert FamilyKnown(s.issuances[k], s.known);
        DeadWriteKeepsInv(s1, family, R.EffectiveExpiry(R.Unset, at));
      }
    } else if rotates {
      SpentByClaim(s1, k, at);
    }
  }

  lemma SpentByClaim(s: State, k: nat, at: real)
    requires Inv(s) && s.Minted(k)
    ensures var t := s.issuances[k].Refresh();
            var e := R.EffectiveExpiry(R.Verified(t.exp), at);
            Inv(s.(revoked := s.revoked.(tokens := s.revoked.tokens[t.jti.value := e]),
                   books := s.books.(spent := s.books.spent + {t.jti.value})))
  {
    var t := s.issuances[k].Refresh();
    forall j | 0 <= j < |s.issuances| && s.issuances[j].minted.Some?
               && s.issuances[j].minted.value.ids.refresh == t.jti.value
      ensures R.EffectiveExpiry(R.Verified(t.exp), at).Covers(Horizon(s.issuances[j]))
    {
      assert IdsApart(s.issuances[j].minted.value.ids, s.issuances[k].minted.value.ids, j == k);
    }
    SpentWriteKeepsInv(s, t.jti.value, R.EffectiveExpiry(R.Verified(t.exp), at));
    assert IdsKnown(s.issuances[k], s.known);
    assert s.known + {t.jti.value} == s.known;
  }

  lemma SpendKeepsInv(s256: string -> string, s: State, e: Step)
    requires Inv(s) && Enabled(s, e) && e.Spend?
    ensures Inv(Next(s256, s, e))
  {
    var q := RequestOf(s, e);
    ClaimKeepsInv(s, e.cfg, e.k, q, e.at);
    var s1 := s.(now := e.at, revoked := Refresh(e.cfg, s.revoked, q, e.at).0,
                 books := Judged(s.books, e.cfg, q, e.at).0);
    var r := Refresh(e.cfg, s.revoked, q, e.at).1;
    if r.Issue? {
      AnswersAgree(s, e.cfg, e.k, q, e.at);
      assert FamilyKnown(s.issuances[e.k], s.known);
      assert r.grant.family == s.issuances[e.k].Family();
      AppendKeepsInv(s1, Issuance(Some(e.k), s.issuances[e.k].root, e.cfg, e.clientId, r.grant, e.at, None));
    }
  }

  lemma MintKeepsApart(issuances: seq<Issuance>, k: nat, m: Minting, known: set<string>, now: real)
    requires Apart(issuances) && k < |issuances| && issuances[k].minted.None? && NewIds(m.ids, known)
    requires Regular(issuances, known, now)
    ensures Apart(issuances[k := issuances[k].(minted := Some(m))])
  {
    var all := issuances[k := issuances[k].(minted := Some(m))];
    forall i, j | 0 <= i < |all| && 0 <= j < |all| && all[i].minted.Some? && all[j].minted.Some?
      ensures IdsApart(all[i].minted.value.ids, all[j].minted.value.ids, i == j)
    {
      if i != k {
        assert all[i] == issuances[i] && IdsKnown(issuances[i], known);
      }
      if j != k {
        assert all[j] == issuances[j] && IdsKnown(issuances[j], known);
      }
      if i != k && j != k {
        assert IdsApart(issuances[i].minted.value.ids, issuances[j].minted.value.ids, i == j);
      }
    }
  }

  /** Minting never lengthens what must be remembered: the horizon only comes closer. */
  lemma MintKeepsHeld(i: Issuance, m: Minting, b: Books, store: R.Store, known: set<string>, now: real)
    requires i.minted.None? && i.at <= m.at <= i.at + DAY && NewIds(m.ids, known) && StoreWithinBooks(store, b, known)
    requires DeadHeld(i, b.dead, store.families, now) && FamilyKnown(i, known)
    ensures SpentHeld(i.(minted := Some(m)), b.spent, store.tokens, now)
    ensures DeadHeld(i.(minted := Some(m)), b.dead, store.families, now)
  {
    var i' := i.(minted := Some(m));
    HorizonBound(i', m.at);
    if !Truthy(i.grant.family) {
      assert i'.Family() == Some(m.ids.family);
    }
  }

  lemma MintKeepsInv(s: State, k: nat, m: Minting)
    requires Inv(s) && k < |s.issuances| && s.issuances[k].minted.None? && s.now <= m.at <= s.issuances[k].at + DAY
    requires NewIds(m.ids, s.known)
    ensures Inv(WithMinting(s, k, m))
  {
    TimePasses(s, m.at);
    var i, s' := s.issuances[k], WithMinting(s, k, m);
    MintKeepsApart(s.issuances, k, m, s.known, s.now);
    RegularMonotone(s.issuances, s.known, s'.known, m.at);
    assert Dated(i, s.now) && FamilyKnown(i, s.known);
    assert DeadHeld(i, s.books.dead, s.revoked.families, m.at);
    MintKeepsHeld(i, m, s.books, s.revoked, s.known, m.at);
    MintKeepsRegular(s.issuances, k, m, s'.known);
  }

  lemma MintKeepsRegular(issuances: seq<Issuance>, k: nat, m: Minting, known: set<string>)
    requires Regular(issuances, known, m.at) && k < |issuances| && issuances[k].minted.None?
             && m.at <= issuances[k].at + DAY
    requires {m.ids.access, m.ids.id, m.ids.refresh, m.ids.family} <= known && m.ids.family != "" && m.ids.refresh != ""
    ensures Regular(issuances[k := issuances[k].(minted := Some(m))], known, m.at)
  {
    var i, i' := issuances[k], issuances[k].(minted := Some(m));
    assert FamilyKnown(i, known) && Dated(i, m.at);
    assert IdsKnown(i', known) && FamilyKnown(i', known) && Dated(i', m.at);
  }

  lemma NextKeepsInv(s256: string -> string, s: State, e: Step)
    requires Inv(s) && Enabled(s, e)
    ensures Inv(Next(s256, s, e))
  {
    match e
    case CreateCode(_, _, at) => TimePasses(s, at);
    case Redeem(cfg, q, at) =>
      BeganKeepsInv(s, cfg, q.attempt.clientId, RedeemCode(s256, cfg, s.codes, q, at).1, at);
    case CreateDevice(_, _, _, _, _, _, at) => TimePasses(s, at);
    case Decide(_, at) => TimePasses(s, at);
    case Collect(cfg, q, at) => BeganKeepsInv(s, cfg, q.clientId, PollDevice(cfg, s.devices, q, at).1, at);
    case Password(cfg, q, at) => BeganKeepsInv(s, cfg, q.clientId, PasswordGrant(cfg, q), at);
    case Spend(_, _, _, _, _, _) => SpendKeepsInv(s256, s, e);
    case Mint(k, m, _) => MintKeepsInv(s, k, m);
    case Revoke(k, use, at) =>
      TimePasses(s, at);
      if TokenOf(s.issuances[k], use).jti.Some? {
        RevokeKeepsInv(s, k, use, at);
      }
    case Logout(jti, at) =>
      TimePasses(s, at);
      LogoutKeepsInv(s, jti, at);
  }

  lemma {:induction false} RunsKeepInv(s256: string -> string, steps: seq<Step>)
    requires After(s256, steps).Some?
    ensures Inv(After(s256, steps).value)
  {
    if steps != [] {
      RunsKeepInv(s256, steps[..|steps| - 1]);
      NextKeepsInv(s256, After(s256, steps[..|steps| - 1]).value, steps[|steps| - 1]);
    }
  }

  // ---------------------------------------------------------------- main results

  /** The request passed every check and its claim, so its token counts as used. */
  predicate Accepted(s: State, e: Step)
    requires e.Spend? && s.Minted(e.k)
  {
    var q := RequestOf(s, e);
    Admit(e.cfg, q, e.at).Admitted? && !RefreshClaim(e.cfg, s.revoked, q, s.issuances[e.k].Refresh(), e.at).1
  }

  /** Over every run each refresh is answered as the books that never forget would answer it. */
  lemma StoreAnswersLikeBooks(s256: string -> string, steps: seq<Step>, e: Step)
    requires After(s256, steps).Some? && Enabled(After(s256, steps).value, e) && e.Spend?
    ensures var s := After(s256, steps).value;
            Refresh(e.cfg, s.revoked, RequestOf(s, e), e.at).1 == Judged(s.books, e.cfg, RequestOf(s, e), e.at).1
  {
    RunsKeepInv(s256, steps);
    var s := After(s256, steps).value;
    AnswersAgree(s, e.cfg, e.k, RequestOf(s, e), e.at);
  }

  lemma AcceptedByBooks(s: State, e: Step)
    requires Inv(s) && Enabled(s, e) && e.Spend? && Admit(e.cfg, RequestOf(s, e), e.at).Admitted?
    ensures Accepted(s, e) <==> && s.issuances[e.k].minted.value.ids.refresh !in s.books.spent
                                && s.issuances[e.k].Family().value !in s.books.dead
  {
    MembershipAgrees(s, e.k, e.at);
  }

  /** What a later state may have in addition. */
  predicate Extends(s: State, s': State) {
    && s.books.spent <= s'.books.spent && s.books.dead <= s'.books.dead && |s.issuances| <= |s'.issuances|
    && forall k | 0 <= k < |s.issuances| && s.issuances[k].minted.Some? :: s'.issuances[k] == s.issuances[k]
  }

  lemma StepExtends(s256: string -> string, s: State, e: Step)
    requires Enabled(s, e)
    ensures Extends(s, Next(s256, s, e))
  {
  }

  lemma ExtendsTransitive(a: State, b: State, c: State)
    requires Extends(a, b) && Extends(b, c)
    ensures Extends(a, c)
  {
    forall k | 0 <= k < |a.issuances| && a.issuances[k].minted.Some? ensures c.issuances[k] == a.issuances[k] {
      assert b.issuances[k] == a.issuances[k];
    }
  }

  lemma {:induction false} RunsExtend(s256: string -> string, steps: seq<Step>, more: seq<Step>)
    requires After(s256, steps + more).Some?
    ensures After(s256, steps).Some? && Extends(After(s256, steps).value, After(s256, steps + more).value)
  {
    if more == [] {
      assert steps + more == steps;
    } else {
      var all, init := steps + more, steps + more[..|more| - 1];
      assert all[..|all| - 1] == init;
      RunsExtend(s256, steps, more[..|more| - 1]);
      StepExtends(s256, After(s256, init).value, all[|all| - 1]);
      ExtendsTransitive(After(s256, steps).value, After(s256, init).value, After(s256, all).value);
    }
  }

  /** A run that goes through state `s`, takes step `e` there, and ends in `s'`. */
  lemma StepOfRun(s256: string -> string, steps: seq<Step>, e: Step, more: seq<Step>)
    requires After(s256, steps + [e] + more).Some?
    ensures After(s256, steps).Some? && Enabled(After(s256, steps).value, e)
    ensures Extends(Next(s256, After(s256, steps).value, e), After(s256, steps + [e] + more).value)
  {
    RunsExtend(s256, steps + [e], more);
    assert (steps + [e])[..|steps|] == steps && (steps + [e])[|steps|] == e;
  }

  /** Once reuse of a token is detected under rotation, no token of its family is ever accepted again, minted by
      then or later. */
  lemma ReuseEndsTheFamily(s256: string -> string, steps: seq<Step>, e: Step, more: seq<Step>, e': Step)
    requires e.Spend? && e'.Spend? && After(s256, steps).Some? && After(s256, steps + [e] + more).Some?
    requires Enabled(After(s256, steps + [e] + more).value, e')
    requires var s := After(s256, steps).value;
             s.Minted(e.k) && Rotates(e.cfg, e.clientId) && Admit(e.cfg, RequestOf(s, e), e.at).Admitted?
             && !Accepted(s, e)
    requires After(s256, steps + [e] + more).value.issuances[e'.k].Family()
             == After(s256, steps).value.issuances[e.k].Family()
    ensures !Accepted(After(s256, steps + [e] + more).value, e')
  {
    StepOfRun(s256, steps, e, more);
    RunsKeepInv(s256, steps);
    RunsKeepInv(s256, steps + [e] + more);
    var s, s' := After(s256, steps).value, After(s256, steps + [e] + more).value;
    AcceptedByBooks(s, e);
    MembershipAgrees(s, e.k, e.at);
    assert s.issuances[e.k].Family().value in s'.books.dead;
    if Admit(e'.cfg, RequestOf(s', e'), e'.at).Admitted? {
      AcceptedByBooks(s', e');
    }
  }

  /** A refresh token accepted under rotation is never accepted a second time. */
  lemma AcceptedAtMostOnce(s256: string -> string, steps: seq<Step>, e: Step, more: seq<Step>, e': Step)
    requires e.Spend? && e'.Spend? && e'.k == e.k
    requires After(s256, steps).Some? && After(s256, steps + [e] + more).Some?
    requires Enabled(After(s256, steps + [e] + more).value, e')
    requires After(s256, steps).value.Minted(e.k) && Rotates(e.cfg, e.clientId) && Accepted(After(s256, steps).value, e)
    ensures !Accepted(After(s256, steps + [e] + more).value, e')
  {
    StepOfRun(s256, steps, e, more);
    RunsKeepInv(s256, steps);
    RunsKeepInv(s256, steps + [e] + more);
    var s, s' := After(s256, steps).value, After(s256, steps + [e] + more).value;
    AcceptedByBooks(s, e);
    MembershipAgrees(s, e.k, e.at);
    assert s'.issuances[e.k].minted.value.ids.refresh in s'.books.spent;
    if Admit(e'.cfg, RequestOf(s', e'), e'.at).Admitted? {
      AcceptedByBooks(s', e');
    }
  }

  // ---------------------------------------------------------------- with rotation on throughout

  predicate Rotating(steps: seq<Step>) {
    forall i | 0 <= i < |steps| && steps[i].Spend? :: Rotates(steps[i].cfg, steps[i].clientId)
  }

  /** Not yet spent: still to be minted, or minted and in no book. */
  predicate Open(i: Issuance, spent: set<string>) { i.minted.Some? ==> i.minted.value.ids.refresh !in spent }

  predicate Linear(issuances: seq<Issuance>, spent: set<string>) {
    forall i, j | 0 <= i < j < |issuances| && Open(issuances[i], spent) && Open(issuances[j], spent) ::
      issuances[i].Family().None? || issuances[i].Family() != issuances[j].Family()
  }

  lemma LinearWithMoreSpent(issuances: seq<Issuance>, spent: set<string>, spent': set<string>)
    requires Linear(issuances, spent) && spent <= spent'
    ensures Linear(issuances, spent')
  {
    forall i, j | 0 <= i < j < |issuances| && Open(issuances[i], spent') && Open(issuances[j], spent')
      ensures issuances[i].Family().None? || issuances[i].Family() != issuances[j].Family()
    {
      assert Open(issuances[i], spent) && Open(issuances[j], spent);
    }
  }

  lemma LinearAfterMint(s: State, k: nat, m: Minting)
    requires Inv(s) && Linear(s.issuances, s.books.spent) && k < |s.issuances| && s.issuances[k].minted.None?
    requires NewIds(m.ids, s.known)
    ensures Linear(WithMinting(s, k, m).issuances, s.books.spent)
  {
    var all := WithMinting(s, k, m).issuances;
    assert Open(s.issuances[k], s.books.spent);
    assert FamilyKnown(s.issuances[k], s.known);
    forall i | 0 <= i < |all| && i != k && Open(all[i], s.books.spent)
      ensures all[i].Family().None? || all[i].Family() != all[k].Family()
    {
      assert all[i] == s.issuances[i] && FamilyKnown(s.issuances[i], s.known);
    }
  }

  lemma LinearAfterSpend(s: State, i: Issuance, k: nat, spent: set<string>)
    requires Linear(s.issuances, s.books.spent) && s.Minted(k) && Open(s.issuances[k], s.books.spent)
    requires spent == s.books.spent + {s.issuances[k].minted.value.ids.refresh}
    requires i.Family() == s.issuances[k].Family()
    ensures Linear(s.issuances + [i], spent)
  {
    LinearWithMoreSpent(s.issuances, s.books.spent, spent);
    var all := s.issuances + [i];
    forall j | 0 <= j < |s.issuances| && Open(s.issuances[j], spent)
      ensures s.issuances[j].Family().None? || s.issuances[j].Family() != i.Family()
    {
      assert j != k && Open(s.issuances[j], s.books.spent);
    }
    assert forall j | 0 <= j < |s.issuances| :: all[j] == s.issuances[j];
  }

  lemma LinearAfterAppend(issuances: seq<Issuance>, spent: set<string>, i: Issuance)
    requires Linear(issuances, spent) && i.Family().None?
    ensures Linear(issuances + [i], spent)
  {
    var all := issuances + [i];
    assert forall j | 0 <= j < |issuances| :: all[j] == issuances[j];
  }

  lemma SpendKeepsLinear(s256: string -> string, s: State, e: Step)
    requires Inv(s) && Enabled(s, e) && Linear(s.issuances, s.books.spent) && e.Spend? && Rotates(e.cfg, e.clientId)
    ensures var s' := Next(s256, s, e); Linear(s'.issuances, s'.books.spent)
  {
    var q, s' := RequestOf(s, e), Next(s256, s, e);
    LinearWithMoreSpent(s.issuances, s.books.spent, s'.books.spent);
    var r := Refresh(e.cfg, s.revoked, q, e.at).1;
    if r.Issue? {
      AnswersAgree(s, e.cfg, e.k, q, e.at);
      MembershipAgrees(s, e.k, e.at);
      var i := Issuance(Some(e.k), s.issuances[e.k].root, e.cfg, e.clientId, r.grant, e.at, None);
      LinearAfterSpend(s, i, e.k, s'.books.spent);
    }
  }

  lemma NextKeepsLinear(s256: string -> string, s: State, e: Step)
    requires Inv(s) && Enabled(s, e) && Linear(s.issuances, s.books.spent) && (e.Spend? ==> Rotates(e.cfg, e.clientId))
    ensures var s' := Next(s256, s, e); Linear(s'.issuances, s'.books.spent)
  {
    match e
    case Spend(_, _, _, _, _, _) => SpendKeepsLinear(s256, s, e);
    case Mint(k, m, _) => LinearAfterMint(s, k, m);
    case Revoke(k, use, at) => LinearWithMoreSpent(s.issuances, s.books.spent, Next(s256, s, e).books.spent);
    case Logout(jti, _) => LinearWithMoreSpent(s.issuances, s.books.spent, s.books.spent + {jti});
    case Redeem(cfg, q, at) =>
      var r := RedeemCode(s256, cfg, s.codes, q, at).1;
      if r.Issue? {
        LinearAfterAppend(s.issuances, s.books.spent,
                          Issuance(None, |s.issuances|, cfg, q.attempt.clientId, r.grant, at, None));
      }
    case Collect(cfg, q, at) =>
      var r := PollDevice(cfg, s.devices, q, at).1;
      if r.Issue? {
        LinearAfterAppend(s.issuances, s.books.spent,
                          Issuance(None, |s.issuances|, cfg, q.clientId, r.grant, at, None));
      }
    case Password(cfg, q, at) =>
      var r := PasswordGrant(cfg, q);
      if r.Issue? {
        LinearAfterAppend(s.issuances, s.books.spent,
                          Issuance(None, |s.issuances|, cfg, q.clientId, r.grant, at, None));
      }
    case _ =>
  }

  lemma {:induction false} RotatingRunsAreLinear(s256: string -> string, steps: seq<Step>)
    requires After(s256, steps).Some? && Rotating(steps)
    ensures Linear(After(s256, steps).value.issuances, After(s256, steps).value.books.spent)
  {
    if steps != [] {
      var init := steps[..|steps| - 1];
      assert forall i | 0 <= i < |init| :: init[i] == steps[i];
      RotatingRunsAreLinear(s256, init);
      RunsKeepInv(s256, init);
      NextKeepsLinear(s256, After(s256, init).value, steps[|steps| - 1]);
    }
  }

  /** With rotation on throughout a family is a chain: at every moment at most one of its tokens would be accepted,
      and none while a successor is still to be minted. */
  lemma AtMostOneAcceptable(s256: string -> string, steps: seq<Step>, e: Step, other: nat)
    requires After(s256, steps).Some? && Rotating(steps) && e.Spend? && Enabled(After(s256, steps).value, e)
    requires Accepted(After(s256, steps).value, e)
    requires var s := After(s256, steps).value;
             other < |s.issuances| && other != e.k && s.issuances[other].Family() == s.issuances[e.k].Family()
    ensures var s := After(s256, steps).value;
            s.Minted(other)
            && forall e': Step | e'.Spend? && e'.k == other && Enabled(s, e') :: !Accepted(s, e')
  {
    RunsKeepInv(s256, steps);
    RotatingRunsAreLinear(s256, steps);
    var s := After(s256, steps).value;
    AcceptedByBooks(s, e);
    MembershipAgrees(s, e.k, e.at);
    assert Open(s.issuances[e.k], s.books.spent);
    assert !Open(s.issuances[other], s.books.spent);
    forall e': Step | e'.Spend? && e'.k == other && Enabled(s, e') ensures !Accepted(s, e') {
      if Admit(e'.cfg, RequestOf(s, e'), e'.at).Admitted? {
        AcceptedByBooks(s, e');
      }
    }
  }
}
