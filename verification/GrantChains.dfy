/** What a chain of refreshes keeps from its first grant. */
module GrantChains {
  import opened Common
  import opened Scope
  import opened Resources
  import opened Tokens
  import opened Grants
  import opened GrantAnswers
  import opened GrantRuns
  import R = Revocation
  import A = AuthCode
  import D = DeviceCode

  /** How issuance `i` relates to the issuance `r` its chain began with. */
  predicate Follows(i: Issuance, r: Issuance) {
    && i.clientId == r.clientId
    && i.grant.username == r.grant.username
    && ScopeSet(i.grant.scope) <= ScopeSet(r.grant.scope)
    && Remembered(i.grant) == Remembered(r.grant)
    && Sanitized(i.grant.idTokenClaims) == Sanitized(r.grant.idTokenClaims)
    && Sanitized(i.grant.userinfoClaims) == Sanitized(r.grant.userinfoClaims)
  }

  /** What only a refresh has: no nonce, the root's family, and its authentication time while openid is granted. */
  predicate Descends(i: Issuance, r: Issuance) {
    && r.minted.Some?
    && i.grant.nonce.None?
    && i.grant.family == r.Family()
    && (HasOpenid(i.grant.scope) ==> i.grant.authTime.Some? && i.grant.authTime == r.Refresh().authTime)
  }

  predicate Chained(issuances: seq<Issuance>, k: nat)
    requires k < |issuances|
  {
    var i := issuances[k];
    && Sound(i.cfg, i.clientId, i.grant)
    && i.root <= k && Follows(i, issuances[i.root]) && issuances[i.root].root == i.root
    && (if i.origin.None? then i.root == k && i.grant.family.None? else
          && i.origin.value < k && i.root < k && issuances[i.root].origin.None?
          && issuances[i.origin.value].minted.Some? && issuances[i.origin.value].root == i.root
          && ScopeSet(i.grant.scope) <= ScopeSet(issuances[i.origin.value].grant.scope)
          && Descends(i, issuances[i.root]))
  }

  predicate AllChained(issuances: seq<Issuance>) {
    forall k | 0 <= k < |issuances| :: Chained(issuances, k)
  }

  lemma NonBlankScope(scope: Option<string>)
    ensures ScopeSet(NonBlank(scope)) == ScopeSet(scope)
    ensures HasOpenid(NonBlank(scope)) == HasOpenid(scope)
  {
  }

  lemma OpenidInSet(scope: Option<string>)
    ensures HasOpenid(scope) <==> "openid" in ScopeSet(scope)
  {
  }

  /** The refresh token of `p`, presented and accepted, yields a grant that follows what `p` follows. */
  lemma RefreshFollows(p: Issuance, r: Issuance, cfg: Config, store: R.Store, q: RefreshRequest, at: real, i: Issuance)
    requires p.minted.Some? && q.token == Signed(p.Refresh()) && Follows(p, r) && p.clientId != ""
    requires Refresh(cfg, store, q, at).1 == Issue(i.grant) && i.clientId == q.clientId && i.cfg == cfg
    ensures Follows(i, r) && Sound(cfg, i.clientId, i.grant) && ScopeSet(i.grant.scope) <= ScopeSet(p.grant.scope)
    ensures i.grant.family == p.Family() && i.grant.authTime == AuthTimeOf(p.grant, p.minted.value.at)
    ensures i.grant.nonce.None?
  {
    RefreshIsSound(cfg, store, q, Instant(at));
    NonBlankScope(p.grant.scope);
    SanitizeIsStable(p.grant.idTokenClaims);
    SanitizeIsStable(p.grant.userinfoClaims);
  }

  lemma RefreshDescends(p: Issuance, r: Issuance, i: Issuance)
    requires p.minted.Some? && (p == r || Descends(p, r))
    requires ScopeSet(i.grant.scope) <= ScopeSet(p.grant.scope)
    requires i.grant.family == p.Family() && i.grant.authTime == AuthTimeOf(p.grant, p.minted.value.at)
    requires i.grant.nonce.None?
    requires p != r ==> Truthy(p.grant.family)
    ensures Descends(i, r)
  {
    OpenidInSet(i.grant.scope);
    OpenidInSet(p.grant.scope);
  }

  lemma AppendKeepsChained(issuances: seq<Issuance>, i: Issuance)
    requires AllChained(issuances) && Chained(issuances + [i], |issuances|)
    ensures AllChained(issuances + [i])
  {
    var all := issuances + [i];
    forall k | 0 <= k < |all| ensures Chained(all, k) {
      if k < |issuances| {
        assert Chained(issuances, k);
        assert all[k] == issuances[k] && all[issuances[k].root] == issuances[issuances[k].root];
      }
    }
  }

  lemma MintKeepsChained(issuances: seq<Issuance>, k: nat, m: Minting)
    requires AllChained(issuances) && k < |issuances| && issuances[k].minted.None?
    ensures AllChained(issuances[k := issuances[k].(minted := Some(m))])
  {
    var all := issuances[k := issuances[k].(minted := Some(m))];
    forall j | 0 <= j < |all| ensures Chained(all, j) {
      assert Chained(issuances, j);
    }
  }

  lemma SpendKeepsChained(s256: string -> string, s: State, e: Step)
    requires Inv(s) && Enabled(s, e) && e.Spend? && AllChained(s.issuances)
    ensures AllChained(Next(s256, s, e).issuances)
  {
    var q := RequestOf(s, e);
    var result := Refresh(e.cfg, s.revoked, q, e.at).1;
    if result.Issue? {
      var p := s.issuances[e.k];
      assert Chained(s.issuances, e.k);
      var r := s.issuances[p.root];
      var i := Issuance(Some(e.k), p.root, e.cfg, e.clientId, result.grant, e.at, None);
      assert FamilyKnown(p, s.known);
      assert p.clientId != "" by {
        RefreshIsSound(e.cfg, s.revoked, q, Instant(e.at));
      }
      RefreshFollows(p, r, e.cfg, s.revoked, q, e.at, i);
      RefreshDescends(p, r, i);
      assert Chained(s.issuances, p.root);
      AppendKeepsChained(s.issuances, i);
    }
  }

  lemma RootIsChained(issuances: seq<Issuance>, i: Issuance)
    requires i.origin.None? && i.root == |issuances| && Sound(i.cfg, i.clientId, i.grant) && i.grant.family.None?
    ensures Chained(issuances + [i], |issuances|)
  {
  }

  lemma BeganKeepsChained(s: State, cfg: Config, clientId: string, r: GrantResult, at: real)
    requires AllChained(s.issuances)
    requires r.Issue? ==> Sound(cfg, clientId, r.grant) && r.grant.family.None?
    ensures AllChained(Began(s, cfg, clientId, r, at).issuances)
  {
    if r.Issue? {
      var i := Issuance(None, |s.issuances|, cfg, clientId, r.grant, at, None);
      RootIsChained(s.issuances, i);
      AppendKeepsChained(s.issuances, i);
    }
  }

  lemma RedeemIsSound(s256: string -> string, cfg: Config, codes: A.Codes, q: CodeRequest, at: real)
    requires RedeemCode(s256, cfg, codes, q, at).1.Issue?
    ensures var g := RedeemCode(s256, cfg, codes, q, at).1.grant; Sound(cfg, q.attempt.clientId, g) && g.family.None?
  {
    CodeGrantIsSound(cfg, A.Consumed(s256, codes, q.attempt, at).1.authorization, q);
  }

  lemma PollIsSound(cfg: Config, devices: D.Store, q: DeviceRequest, at: real)
    requires PollDevice(cfg, devices, q, at).1.Issue?
    ensures var g := PollDevice(cfg, devices, q, at).1.grant; Sound(cfg, q.clientId, g) && g.family.None?
  {
    var outcome := D.Polled(devices, q.deviceCode, q.clientId, cfg.users, at).1;
    DeviceGrantIsSound(cfg, outcome.user, outcome.grant, q);
  }

  lemma RootKeepsChained(s256: string -> string, s: State, e: Step)
    requires Enabled(s, e) && AllChained(s.issuances) && (e.Redeem? || e.Collect? || e.Password?)
    ensures AllChained(Next(s256, s, e).issuances)
  {
    match e
    case Redeem(cfg, q, at) =>
      var (codes, r) := RedeemCode(s256, cfg, s.codes, q, at);
      if r.Issue? {
        RedeemIsSound(s256, cfg, s.codes, q, at);
      }
      BeganKeepsChained(s.(codes := codes), cfg, q.attempt.clientId, r, at);
    case Collect(cfg, q, at) =>
      var (devices, r) := PollDevice(cfg, s.devices, q, at);
      if r.Issue? {
        PollIsSound(cfg, s.devices, q, at);
      }
      BeganKeepsChained(s.(devices := devices), cfg, q.clientId, r, at);
    case Password(cfg, q, at) =>
      if PasswordGrant(cfg, q).Issue? {
        PasswordGrantIsSound(cfg, q);
      }
      BeganKeepsChained(s, cfg, q.clientId, PasswordGrant(cfg, q), at);
  }

  lemma NextKeepsChained(s256: string -> string, s: State, e: Step)
    requires Inv(s) && Enabled(s, e) && AllChained(s.issuances)
    ensures AllChained(Next(s256, s, e).issuances)
  {
    if e.Spend? {
      SpendKeepsChained(s256, s, e);
    } else if e.Mint? {
      MintKeepsChained(s.issuances, e.k, e.minting);
    } else if e.Redeem? || e.Collect? || e.Password? {
      RootKeepsChained(s256, s, e);
    } else {
      assert Next(s256, s, e).issuances == s.issuances;
    }
  }

  lemma {:induction false} RunsAreChained(s256: string -> string, steps: seq<Step>)
    requires After(s256, steps).Some?
    ensures AllChained(After(s256, steps).value.issuances)
  {
    if steps != [] {
      var init := steps[..|steps| - 1];
      RunsAreChained(s256, init);
      RunsKeepInv(s256, init);
      NextKeepsChained(s256, After(s256, init).value, steps[|steps| - 1]);
    }
  }

  // ---------------------------------------------------------------- main results

  /** Over every run, what the tokens of any refresh keep from the tokens the chain began with: the same user,
      client, family, remembered resources and requested claims. */
  lemma ChainKeepsIdentity(s256: string -> string, steps: seq<Step>, k: nat)
    requires After(s256, steps).Some? && After(s256, steps).value.Minted(k)
    ensures var s := After(s256, steps).value;
            var root := s.issuances[k].root;
            && root <= k && s.Minted(root)
            && var (first, last) := (s.issuances[root].Response(), s.issuances[k].Response());
               && last.refresh.sub == first.refresh.sub && last.access.sub == first.access.sub
               && last.refresh.clientId == first.refresh.clientId && last.access.clientId == first.access.clientId
               && last.refresh.family == first.refresh.family
               && last.refresh.resource == first.refresh.resource
               && last.refresh.idTokenClaims == first.refresh.idTokenClaims
               && last.refresh.userinfoClaims == first.refresh.userinfoClaims == last.access.userinfoClaims
  {
    RunsAreChained(s256, steps);
    RunsKeepInv(s256, steps);
    var s := After(s256, steps).value;
    assert Chained(s.issuances, k);
    assert FamilyKnown(s.issuances[k], s.known);
    if s.issuances[k].origin.Some? {
      FamilyOfDescendant(s.issuances[k], s.issuances[s.issuances[k].root]);
    }
  }

  lemma FamilyOfDescendant(i: Issuance, r: Issuance)
    requires i.minted.Some? && r.minted.Some? && Descends(i, r) && Truthy(r.Family())
    ensures i.Family() == r.Family()
  {
  }

  /** Scope only shrinks from one token of the chain to the next, and what is granted is permitted now; an ID token
      comes exactly with openid and carries the first authentication's time. */
  lemma ChainNarrowsScope(s256: string -> string, steps: seq<Step>, k: nat)
    requires After(s256, steps).Some? && After(s256, steps).value.Minted(k)
    ensures var s := After(s256, steps).value;
            var i := s.issuances[k];
            && i.root <= k && s.Minted(i.root)
            && (i.origin.Some? ==>
                  && s.Minted(i.origin.value)
                  && ScopeSet(i.Response().access.scope)
                     <= ScopeSet(s.issuances[i.origin.value].Response().access.scope))
            && ScopeSet(i.Response().access.scope) <= ScopeSet(s.issuances[i.root].Response().access.scope)
            && ScopeAllowed(i.cfg, i.clientId, i.Response().access.scope)
            && (i.Response().id.Some? <==> "openid" in ScopeSet(i.Response().access.scope))
            && (i.Response().id.Some? ==>
                  && s.issuances[i.root].Response().id.Some?
                  && i.Response().id.value.authTime == s.issuances[i.root].Response().id.value.authTime)
  {
    RunsAreChained(s256, steps);
    var s := After(s256, steps).value;
    assert Chained(s.issuances, k);
    var i := s.issuances[k];
    NonBlankScope(i.grant.scope);
    NonBlankScope(s.issuances[i.root].grant.scope);
    OpenidInSet(i.grant.scope);
    OpenidInSet(s.issuances[i.root].grant.scope);
    if i.origin.Some? {
      NonBlankScope(s.issuances[i.origin.value].grant.scope);
    }
  }

  /** Every access token of the chain is for resources of the first grant, or for oauth.audience when that bound
      none. */
  lemma ChainBoundsAudience(s256: string -> string, steps: seq<Step>, k: nat)
    requires After(s256, steps).Some? && After(s256, steps).value.Minted(k)
    ensures var s := After(s256, steps).value;
            var i := s.issuances[k];
            && i.root <= k && s.Minted(i.root)
            && var original := s.issuances[i.root].Refresh().resource;
               if original.None? then i.Response().access.aud == [i.minted.value.cfg.settings.audience]
               else i.Response().access.aud != [] && forall v | v in i.Response().access.aud :: v in original.value
  {
    RunsAreChained(s256, steps);
    var s := After(s256, steps).value;
    assert Chained(s.issuances, k);
  }

  /** Narrowing costs nothing later: wherever in the chain a refresh happens, the resources it may ask for are those
      its first refresh could have asked for, and they are granted exactly when each is acceptable now. */
  lemma NarrowingIsNotInherited(s256: string -> string, steps: seq<Step>, k: nat, cfg: Config, q: RefreshRequest,
                                client: Client)
    requires After(s256, steps).Some? && After(s256, steps).value.Minted(k)
    requires GetClient(cfg.clients, q.clientId) == Some(client) && q.resources != []
    ensures var s := After(s256, steps).value;
            && s.issuances[k].root <= k && s.Minted(s.issuances[k].root)
            && var first := s.issuances[s.issuances[k].root].Refresh();
               && RefreshTarget(cfg, q, s.issuances[k].Refresh()) == RefreshTarget(cfg, q, first)
               && (RefreshTarget(cfg, q, first).Bound? <==>
                     forall v | v in q.resources :: Acceptable(v, client, Some(OrEmpty(first.resource))))
  {
    ChainKeepsIdentity(s256, steps, k);
    var s := After(s256, steps).value;
    GrantedExactly(q.resources, client, Some(OrEmpty(s.issuances[s.issuances[k].root].Refresh().resource)));
  }

  /** Every ID token a run mints is for its client first, repeats no audience, names the client as azp exactly when
      there are several, and is never for oauth.audience unless the client is called so; it is for the user the chain
      began with, and carries the nonce of the request only in the response to that request. */
  lemma IdTokensAreSafe(s256: string -> string, steps: seq<Step>, k: nat)
    requires After(s256, steps).Some? && After(s256, steps).value.Minted(k)
    requires After(s256, steps).value.issuances[k].clientId != ""
    ensures var s := After(s256, steps).value;
            var i := s.issuances[k];
            && i.root <= k
            && (i.Response().id.Some? ==>
                  var id := i.Response().id.value;
                  && id.aud != [] && id.aud[0] == i.clientId && NoDuplicates(id.aud)
                  && (id.azp == Some(i.clientId) <==> |id.aud| > 1) && (id.azp == None <==> |id.aud| == 1)
                  && (i.minted.value.cfg.settings.audience in id.aud ==>
                        i.clientId == i.minted.value.cfg.settings.audience)
                  && id.sub == s.issuances[i.root].grant.username
                  && id.nonce == (if i.origin.Some? then None else i.grant.nonce))
  {
    RunsAreChained(s256, steps);
    var s := After(s256, steps).value;
    assert Chained(s.issuances, k);
    var i := s.issuances[k];
    var m := i.minted.value;
    IdTokenSays(m.cfg, i.grant, i.clientId, m.expMinutes, m.ids, m.at);
    hide After, AllChained, Sound, CreateToken, NoDuplicates;
  }
}
