/** Which token requests are answered with tokens, with which errors the others are refused, and what the tokens say:
    stated over the fields of requests, tokens and configuration. */
module GrantAnswers {
  import opened Common
  import opened Scope
  import opened Resources
  import opened Tokens
  import opened Grants
  import Uri
  import R = Revocation
  import A = AuthCode
  import D = DeviceCode
  import H = DeviceHistory

  // ---------------------------------------------------------------- conditions on a request

  /** Without enforcement, or for a client that is not configured, every scope passes; otherwise each value must be
      supported and, if the client has an allow-list, on it. */
  predicate MayHave(cfg: Config, clientId: string, values: set<string>) {
    var client, s := GetClient(cfg.clients, clientId), cfg.settings;
    client == None || (!s.scopeEnforcement && s.profile == Dev)
    || forall v | v in values ::
         v in s.scopesSupported && (client.value.allowedScopes == [] || v in client.value.allowedScopes)
  }

  /** A resource the client may use: an absolute URI without a fragment, on its allow-list if it has one. */
  predicate Usable(value: string, client: Client) {
    Uri.IsValidResourceIndicator(value) && (client.allowedResources == [] || value in client.allowedResources)
  }

  /** A request for resources within what was authorized before; None is no authorization step before. */
  predicate MayTarget(cfg: Config, clientId: string, requested: seq<string>, original: Option<seq<string>>) {
    var client := GetClient(cfg.clients, clientId);
    if requested == [] then
      client == None || original == None || forall v | v in original.value :: Usable(v, client.value)
    else
      client != None
      && forall v | v in requested :: Usable(v, client.value) && (original == None || v in original.value)
  }

  // ---------------------------------------------------------------- scopes and resources

  lemma ScopeExactly(cfg: Config, clientId: string, scope: Option<string>)
    ensures Rechecked(cfg, clientId, scope).Granted? <==> MayHave(cfg, clientId, ScopeSet(scope))
    ensures Rechecked(cfg, clientId, scope).Granted? ==> Rechecked(cfg, clientId, scope).scope == scope
  {
    var client := GetClient(cfg.clients, clientId);
    if client.Some? {
      RecheckIsExact(scope, client.value, cfg.settings.scopesSupported, cfg.settings.ScopeEnforcementActive());
    }
    hide ResolveScope, ScopeSet;
  }

  /** What a token is bound to: what was asked for, each value once and in order; or, when nothing was asked for, what
      was authorized. */
  lemma TargetExactly(cfg: Config, clientId: string, requested: seq<string>, original: Option<seq<string>>)
    ensures var r := ResolveTokenResource(requested, GetClient(cfg.clients, clientId), original);
            && (r.Bound? <==> MayTarget(cfg, clientId, requested, original))
            && (r.Bound? ==>
                  var source := if requested == [] && original.Some? then original.value else requested;
                  && (r.resources == None <==> source == [])
                  && (r.resources.Some? ==>
                        && (forall v :: v in r.resources.value <==> v in source)
                        && (GetClient(cfg.clients, clientId).Some? ==>
                              NoDuplicates(r.resources.value) && InOrder(r.resources.value, source))
                        && (GetClient(cfg.clients, clientId) == None ==> r.resources.value == source)))
  {
    var client := GetClient(cfg.clients, clientId);
    assert requested != [] ==> requested[0] in requested;
    if original.Some? {
      assert original.value != [] ==> original.value[0] in original.value;
    }
    if client.Some? {
      if requested != [] {
        GrantedExactly(requested, client.value, original);
      } else if original.Some? {
        GrantedExactly(original.value, client.value, None);
      }
    }
    hide Resolved, InOrder, NoDuplicates, GetClient;
  }

  // ---------------------------------------------------------------- refresh_token

  /** A refresh token of this server, in time, bound to the client that presents it, of a user that still exists. */
  predicate Presentable(cfg: Config, q: RefreshRequest, now: real) {
    && q.token.Signed?
    && var t := q.token.token;
       && t.use == RefreshUse && cfg.settings.audience in t.aud && now < t.exp
       && t.clientId == Some(q.clientId) && q.clientId != ""
       && t.sub != "" && t.sub in cfg.users
  }

  /** What a refresh asks for: the values it names, or all of the token's. */
  function Asked(q: RefreshRequest): Option<string>
    requires q.token.Signed?
  {
    if q.scope != None && q.scope != Some("") then q.scope
    else if q.token.token.scope == Some("") then None
    else q.token.token.scope
  }

  predicate ScopeFits(cfg: Config, q: RefreshRequest)
    requires q.token.Signed?
  {
    ScopeSet(Asked(q)) <= ScopeSet(q.token.token.scope) && MayHave(cfg, q.clientId, ScopeSet(Asked(q)))
  }

  /** Neither the token nor its family is in the store, expired entries aside. */
  predicate Unrevoked(store: R.Store, t: Jwt, now: real) {
    && (t.jti.Some? && t.jti.value in store.tokens ==> !store.tokens[t.jti.value].After(now))
    && (t.family.Some? && t.family.value != "" && t.family.value in store.families ==>
          !store.families[t.family.value].After(now))
  }

  lemma NarrowedExactly(original: Option<string>, requested: Option<string>)
    ensures var asked := if requested != None && requested != Some("") then requested
                         else if original == Some("") then None else original;
            && (NarrowScope(original, requested).Within? <==> ScopeSet(asked) <= ScopeSet(original))
            && (NarrowScope(original, requested).Within? ==> NarrowScope(original, requested).scope == asked)
  {
    assert forall w :: w in Words(ScopeOrEmpty(original)) <==> w in ScopeSet(original);
    hide Words;
  }

  lemma AdmittedExactly(cfg: Config, q: RefreshRequest, now: real)
    ensures Admit(cfg, q, now).Admitted? <==> Presentable(cfg, q, now) && ScopeFits(cfg, q)
    ensures Admit(cfg, q, now).Admitted? ==> Admit(cfg, q, now) == Admitted(q.token.token, Asked(q))
    ensures Admit(cfg, q, now).Rejected? ==>
              Admit(cfg, q, now).refusal
              == if q.token.Absent? then InvalidRequest
                 else if Presentable(cfg, q, now) then InvalidScope
                 else InvalidGrant
  {
    if q.token.Signed? {
      var t := q.token.token;
      NarrowedExactly(t.scope, q.scope);
      ScopeExactly(cfg, q.clientId, Asked(q));
    }
    hide NarrowScope, Rechecked, ScopeSet, MayHave;
  }

  lemma ClaimedExactly(cfg: Config, store: R.Store, q: RefreshRequest, t: Jwt, c: Clock)
    ensures !ClaimAt(cfg, store, q, t, c).1 <==> Unrevoked(store, t, c.sweep)
  {
    hide Rotates;
  }

  /** A refresh is answered with tokens exactly when the token is presentable, the scope fits, nothing of it is revoked,
      and the resources may be targeted; then the grant is for the token's user, with what it asked for. */
  lemma RefreshIssuedExactly(cfg: Config, store: R.Store, q: RefreshRequest, c: Clock)
    ensures var r := RefreshAt(cfg, store, q, c).1;
            && (r.Issue? <==>
                  && Presentable(cfg, q, c.verify) && ScopeFits(cfg, q) && Unrevoked(store, q.token.token, c.sweep)
                  && MayTarget(cfg, q.clientId, q.resources, Some(OrEmpty(q.token.token.resource))))
            && (r.Issue? ==>
                  var t, g := q.token.token, r.grant;
                  && g.username == t.sub && g.scope == Asked(q) && g.nonce == None && g.authTime == t.authTime
                  && g.family == t.family && g.idTokenClaims == t.idTokenClaims
                  && g.userinfoClaims == t.userinfoClaims)
  {
    AdmittedExactly(cfg, q, c.verify);
    if q.token.Signed? {
      ClaimedExactly(cfg, store, q, q.token.token, c);
      TargetExactly(cfg, q.clientId, q.resources, Some(OrEmpty(q.token.token.resource)));
    }
    hide Admit, ClaimAt, ResolveTokenResource, Presentable, ScopeFits, Unrevoked, MayTarget, Asked;
  }

  /** The error of a refused refresh: no token; a token or client that does not fit, or reuse; a scope that does not
      fit; a resource that does not. */
  lemma RefreshRefusedExactly(cfg: Config, store: R.Store, q: RefreshRequest, c: Clock)
    requires RefreshAt(cfg, store, q, c).1.Refuse?
    ensures RefreshAt(cfg, store, q, c).1.refusal
            == if q.token.Absent? then InvalidRequest
               else if !Presentable(cfg, q, c.verify) then InvalidGrant
               else if !ScopeFits(cfg, q) then InvalidScope
               else if !Unrevoked(store, q.token.token, c.sweep) then InvalidGrant
               else InvalidTargetError
  {
    AdmittedExactly(cfg, q, c.verify);
    if q.token.Signed? {
      ClaimedExactly(cfg, store, q, q.token.token, c);
    }
    hide Admit, ClaimAt, ResolveTokenResource, ScopeFits, Unrevoked, Asked;
  }

  /** Rotation, as the settings or the client's being public ask for it. */
  lemma RotatesExactly(cfg: Config, clientId: string)
    ensures Rotates(cfg, clientId)
            <==> || cfg.settings.refreshTokenRotation || cfg.settings.profile == OAuth21
                 || (GetClient(cfg.clients, clientId).Some? && GetClient(cfg.clients, clientId).value.isPublic)
  {
    hide GetClient;
  }

  // ---------------------------------------------------------------- authorization_code

  /** A consumed code yields tokens exactly when its user still exists and scope and resources still fit; the grant is
      the authorization's own. */
  lemma CodeGrantExactly(cfg: Config, c: A.AuthorizationCode, q: CodeRequest)
    ensures var r, clientId := CodeGrant(cfg, c, q), q.attempt.clientId;
            var known, scoped := c.username in cfg.users, MayHave(cfg, clientId, ScopeSet(Some(c.scope)));
            && (r.Issue? <==> known && scoped && MayTarget(cfg, clientId, q.resources, Some(OrEmpty(c.resource))))
            && (r.Refuse? ==>
                  r.refusal == if !known then InvalidGrant else if !scoped then InvalidScope else InvalidTargetError)
            && (r.Issue? ==>
                  && r.grant.username == c.username && r.grant.nonce == c.nonce && r.grant.scope == Some(c.scope)
                  && r.grant.authTime == Some(c.createdAt.Floor) && r.grant.family == None
                  && Sanitized(r.grant.idTokenClaims) == NonEmpty(OrEmpty(c.idTokenClaims))
                  && Sanitized(r.grant.userinfoClaims) == NonEmpty(OrEmpty(c.userinfoClaims)))
  {
    ScopeExactly(cfg, q.attempt.clientId, Some(c.scope));
    TargetExactly(cfg, q.attempt.clientId, q.resources, Some(OrEmpty(c.resource)));
    StringsOfEntries(OrEmpty(c.idTokenClaims));
    StringsOfEntries(OrEmpty(c.userinfoClaims));
    hide Rechecked, ResolveTokenResource, MayHave, MayTarget, ScopeSet, Strings, Entries;
  }

  /** The answer to a code request, by what the store says of the attempt. */
  lemma RedeemAnswers(s256: string -> string, cfg: Config, codes: A.Codes, q: CodeRequest, now: real)
    ensures var r, outcome := RedeemCode(s256, cfg, codes, q, now).1, A.Consumed(s256, codes, q.attempt, now).1;
            && (q.attempt.code == "" || q.attempt.redirectUri == "" ==>
                  r == Refuse(InvalidRequest) && RedeemCode(s256, cfg, codes, q, now).0 == codes)
            && (q.attempt.code != "" && q.attempt.redirectUri != "" ==>
                  && RedeemCode(s256, cfg, codes, q, now).0 == A.Consumed(s256, codes, q.attempt, now).0
                  && r == match outcome
                          case Refused => Refuse(InvalidGrant)
                          case Raised => Refuse(ServerError)
                          case Redeemed(c) => CodeGrant(cfg, c, q))
  {
    hide A.Consumed, CodeGrant;
  }

  // ---------------------------------------------------------------- device_code

  lemma DeviceGrantExactly(cfg: Config, user: string, g: D.Grant, q: DeviceRequest)
    ensures var r, scoped := DeviceGrant(cfg, user, g, q), MayHave(cfg, q.clientId, ScopeSet(Some(g.scope)));
            && (r.Issue? <==> scoped && MayTarget(cfg, q.clientId, q.resources, Some(OrEmpty(g.resource))))
            && (r.Refuse? ==> r.refusal == if !scoped then InvalidScope else InvalidTargetError)
            && (r.Issue? ==>
                  && r.grant.username == user && r.grant.nonce == None && r.grant.scope == Some(g.scope)
                  && r.grant.authTime == g.authTime && r.grant.family == None
                  && r.grant.idTokenClaims == r.grant.userinfoClaims == NotGiven)
  {
    ScopeExactly(cfg, q.clientId, Some(g.scope));
    TargetExactly(cfg, q.clientId, q.resources, Some(OrEmpty(g.resource)));
    hide Rechecked, ResolveTokenResource, MayHave, MayTarget, ScopeSet;
  }

  /** The answer to each outcome of a poll (section 3.5 of RFC 8628). */
  function AnswerTo(cfg: Config, outcome: D.PollOutcome, q: DeviceRequest): GrantResult {
    match outcome
    case NotFound => Refuse(InvalidGrant)
    case WrongClient => Refuse(InvalidGrant)
    case PollExpired => Refuse(ExpiredToken)
    case StillPending => Refuse(AuthorizationPending)
    case PollDenied => Refuse(AccessDenied)
    case UserNotFound => Refuse(ServerError)
    case PollAuthorized(user, g) => DeviceGrant(cfg, user, g, q)
  }

  lemma PollAnswered(cfg: Config, devices: D.Store, q: DeviceRequest, now: real)
    ensures PollDevice(cfg, devices, q, now).1
            == if q.deviceCode == "" then Refuse(InvalidRequest)
               else AnswerTo(cfg, D.Polled(devices, q.deviceCode, q.clientId, cfg.users, now).1, q)
  {
    hide D.Polled, DeviceGrant;
  }

  /** What the user decided, as the device hears of it. */
  predicate Fits(cfg: Config, r: H.Record, q: DeviceRequest, answer: GrantResult) {
    match r.decision
    case Undecided => answer == Refuse(AuthorizationPending)
    case Refused => answer == Refuse(AccessDenied)
    case Approved(user, at) =>
      if user == "" || user !in cfg.users then answer == Refuse(ServerError)
      else
        answer == DeviceGrant(cfg, user, D.Grant(r.userCode, r.clientId, r.scope, r.resource, r.expiresAt,
                                                 D.Authorized, Some(user), Some(at)), q)
  }

  lemma JudgedAnswer(cfg: Config, l: H.Ledger, q: DeviceRequest, now: real)
    ensures var r := AnswerTo(cfg, H.JudgePoll(l, q.deviceCode, q.clientId, cfg.users, now), q);
            if q.deviceCode !in l || l[q.deviceCode].collected || l[q.deviceCode].clientId != q.clientId then
              r == Refuse(InvalidGrant)
            else if now > l[q.deviceCode].expiresAt then r == Refuse(ExpiredToken)
            else Fits(cfg, l[q.deviceCode], q, r)
  {
    hide DeviceGrant;
  }

  /** Over every run of the device store, the answer the polling device gets: by what was requested and what the user
      decided (sections 3.4 and 3.5 of RFC 8628). Only an expired grant may already be unknown. */
  lemma DeviceAnswers(cfg: Config, events: seq<H.Event>, q: DeviceRequest, now: real)
    requires H.Possible(events) && forall i | 0 <= i < |events| :: events[i].at <= now
    ensures var r, l := PollDevice(cfg, H.After(events).store, q, now).1, H.After(events).ledger;
            if q.deviceCode == "" then r == Refuse(InvalidRequest)
            else if q.deviceCode !in l || l[q.deviceCode].collected || l[q.deviceCode].clientId != q.clientId then
              r == Refuse(InvalidGrant)
            else if now > l[q.deviceCode].expiresAt then r == Refuse(ExpiredToken) || r == Refuse(InvalidGrant)
            else Fits(cfg, l[q.deviceCode], q, r)
  {
    var s := H.After(events);
    PollAnswered(cfg, s.store, q, now);
    JudgedAnswer(cfg, s.ledger, q, now);
    H.PollsMatchLedger(events, q.deviceCode, q.clientId, cfg.users, now);
    hide *;
    assert AnswerTo(cfg, D.NotFound, q) == Refuse(InvalidGrant) by {
      NotFoundAnswer(cfg, q);
    }
  }

  lemma NotFoundAnswer(cfg: Config, q: DeviceRequest)
    ensures AnswerTo(cfg, D.NotFound, q) == Refuse(InvalidGrant)
  {
  }

  // ---------------------------------------------------------------- password

  /** What the password grant grants when it is not asked for a scope: under enforcement the client's allow-list. */
  function Defaulted(cfg: Config, client: Option<Client>, scope: Option<string>): Option<string> {
    if client == None || (scope != None && scope != Some("")) then scope
    else if (cfg.settings.scopeEnforcement || cfg.settings.profile != Dev) && client.value.allowedScopes != [] then
      Some(Joined(client.value.allowedScopes))
    else None
  }

  lemma PasswordGrantExactly(cfg: Config, q: PasswordRequest)
    ensures var r, client := PasswordGrant(cfg, q), GetClient(cfg.clients, q.clientId);
            var scope := Defaulted(cfg, client, q.scope);
            var scoped := MayHave(cfg, q.clientId, ScopeSet(scope));
            && (r.Issue? <==>
                  && cfg.settings.profile != OAuth21 && q.credentials.Authenticated? && scoped
                  && MayTarget(cfg, q.clientId, q.resources, None))
            && (r.Refuse? ==>
                  r.refusal == if cfg.settings.profile == OAuth21 then UnsupportedGrantType
                               else if q.credentials.Missing? then InvalidRequest
                               else if q.credentials.Wrong? then InvalidGrant
                               else if !scoped then InvalidScope
                               else InvalidTargetError)
            && (r.Issue? ==>
                  && r.grant.username == q.credentials.username && r.grant.scope == scope
                  && r.grant.nonce == (if q.nonce == Some("") then None else q.nonce)
                  && r.grant.authTime == None && r.grant.family == None && r.grant.refreshResource == None
                  && r.grant.idTokenClaims == r.grant.userinfoClaims == NotGiven)
  {
    var client := GetClient(cfg.clients, q.clientId);
    TargetExactly(cfg, q.clientId, q.resources, None);
    if client.Some? {
      RequestExactly(q.scope, client.value, cfg.settings.scopesSupported, cfg.settings.ScopeEnforcementActive(), None);
    }
    hide ResolveScope, ResolveTokenResource, ScopeSet, MayTarget, Joined, GetClient;
  }

  // ---------------------------------------------------------------- create_token

  /** An expiry `seconds` after `now`, cut to a whole second. */
  predicate ExpiresAfter(exp: real, now: real, seconds: real) {
    now + seconds - 1.0 < exp <= now + seconds && exp == exp.Floor as real
  }

  /** The three tokens are for the same user; they expire after the time asked for, the refresh token after seven days;
      access and refresh token name the client and the scope; nothing but the ID token carries a nonce. */
  lemma ResponseSays(cfg: Config, g: Grant, clientId: string, expMinutes: nat, ids: Ids, now: real)
    requires clientId != ""
    ensures var r := CreateToken(cfg, g, clientId, expMinutes, ids, now);
            var scope := if g.scope == Some("") then None else g.scope;
            && r.access.use == AccessUse && r.refresh.use == RefreshUse
            && r.access.jti == Some(ids.access) && r.refresh.jti == Some(ids.refresh)
            && r.access.sub == r.refresh.sub == g.username
            && r.access.clientId == r.refresh.clientId == Some(clientId)
            && r.access.scope == r.refresh.scope == r.scope == scope
            && r.access.nonce == r.refresh.nonce == None
            && r.access.azp == r.refresh.azp == None && r.access.resource == None && r.access.family == None
            && ExpiresAfter(r.access.exp, now, 60.0 * expMinutes as real)
            && ExpiresAfter(r.refresh.exp, now, 604800.0)
            && r.refresh.aud == [cfg.settings.audience]
            && r.access.aud == (if g.resource == None || g.resource == Some([]) then [cfg.settings.audience]
                                else g.resource.value)
            && r.refresh.family == Some(if g.family == None || g.family == Some("") then ids.family else g.family.value)
            && r.refresh.resource == (if g.refreshResource != None then NonEmpty(OrEmpty(g.refreshResource))
                                      else NonEmpty(OrEmpty(g.resource)))
  {
    hide IdToken, AuthTimeOf, Sanitized, Persisted;
  }

  /** The ID token of a response: it comes exactly with openid; it is for the user of the grant and first of all for
      its client, repeats no audience, names the client as azp exactly when there are several, and is never for
      oauth.audience unless the client is itself called so. It carries the nonce of the grant, and the time of the
      original authentication or, when none is known, now; the refresh token keeps that time. */
  lemma IdTokenSays(cfg: Config, g: Grant, clientId: string, expMinutes: nat, ids: Ids, now: real)
    requires clientId != ""
    ensures var r := CreateToken(cfg, g, clientId, expMinutes, ids, now);
            && (r.id.Some? <==> "openid" in ScopeSet(g.scope))
            && (r.id.Some? ==>
                  var id := r.id.value;
                  && id.use == IdUse && id.jti == Some(ids.id) && id.sub == g.username
                  && id.aud != [] && id.aud[0] == clientId && NoDuplicates(id.aud)
                  && (id.azp == Some(clientId) <==> |id.aud| > 1) && (id.azp == None <==> |id.aud| == 1)
                  && (cfg.settings.audience in id.aud ==> clientId == cfg.settings.audience)
                  && id.nonce == g.nonce && id.scope == None && id.clientId == None
                  && ExpiresAfter(id.exp, now, 60.0 * expMinutes as real)
                  && id.authTime == (if g.authTime == None then Some(now.Floor) else g.authTime)
                  && r.refresh.authTime == id.authTime)
            && (r.id == None ==> r.refresh.authTime == None)
  {
    IdTokenAudienceIsSafe(cfg, clientId);
    hide IdTokenAudience, NoDuplicates, Sanitized, Persisted, AccessToken;
  }

  /** The requested claims travel with the grant: those for /userinfo with the access token, those for the ID token in
      it, and both with the refresh token. */
  lemma ClaimsTravel(cfg: Config, g: Grant, clientId: string, expMinutes: nat, ids: Ids, now: real)
    ensures var r := CreateToken(cfg, g, clientId, expMinutes, ids, now);
            && Sanitized(r.access.userinfoClaims) == Sanitized(r.refresh.userinfoClaims) == Sanitized(g.userinfoClaims)
            && Sanitized(r.refresh.idTokenClaims) == Sanitized(g.idTokenClaims)
            && r.access.idTokenClaims == NotGiven
            && (r.id.Some? ==> && Sanitized(r.id.value.idTokenClaims) == Sanitized(g.idTokenClaims)
                               && r.id.value.userinfoClaims == NotGiven)
  {
    SanitizeIsStable(g.idTokenClaims);
    SanitizeIsStable(g.userinfoClaims);
    hide Sanitized, IdTokenAudience, AuthTimeOf, Remembered, AccessAudience;
  }
}
