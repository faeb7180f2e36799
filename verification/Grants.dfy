/** routes/oauth_grants.py: the /token grant handlers. */
module Grants {
  import opened Common
  import opened Scope
  import opened Resources
  import opened Tokens
  import R = Revocation
  import A = AuthCode
  import D = DeviceCode

  datatype Refusal = InvalidRequest | InvalidGrant | InvalidScope | InvalidTargetError | UnsupportedGrantType
                   | ExpiredToken | AuthorizationPending | AccessDenied | ServerError

  datatype GrantResult = Issue(grant: Grant) | Refuse(refusal: Refusal)

  function OrEmpty(s: Option<seq<string>>): seq<string> { if s.Some? then s.value else [] }

  /** `resource or None`. */
  function OrNone(s: Option<seq<string>>): Option<seq<string>> { NonEmpty(OrEmpty(s)) }

  /** The re-check of a stored scope: an unknown client has none. */
  function Rechecked(cfg: Config, clientId: string, scope: Option<string>): ScopeResult {
    var client := GetClient(cfg.clients, clientId);
    if client.None? then Granted(scope)
    else
      ResolveScope(scope, client.value, cfg.settings.scopesSupported, cfg.settings.ScopeEnforcementActive(), None, true)
  }

  // ---------------------------------------------------------------- refresh_token

  /** The refresh_token form parameter: a signature that does not verify, or the claims of one that does. */
  datatype Presented = Absent | Unverifiable | Signed(token: Jwt)

  datatype RefreshRequest = RefreshRequest(
    token: Presented, clientId: string, scope: Option<string>, resources: seq<string>)

  function ScopeOrEmpty(scope: Option<string>): string { if scope.Some? then scope.value else "" }

  datatype Narrowed = Exceeds | Within(scope: Option<string>)

  function NarrowScope(original: Option<string>, requested: Option<string>): Narrowed {
    if Truthy(requested) then
      if Except(ScopeSet(requested), Words(ScopeOrEmpty(original))) == {} then Within(requested) else Exceeds
    else Within(NonBlank(original))
  }

  datatype Admission = Admitted(token: Jwt, scope: Option<string>) | Rejected(refusal: Refusal)

  /** Every validation that comes before the claim. */
  function Admit(cfg: Config, q: RefreshRequest, now: real): Admission {
    if q.token.Absent? then Rejected(InvalidRequest)
    else if q.token.Unverifiable? then Rejected(InvalidGrant)
    else
      var t := q.token.token;
      if cfg.settings.audience !in t.aud || now >= t.exp then Rejected(InvalidGrant)
      else if !t.use.RefreshUse? then Rejected(InvalidGrant)
      else if !Truthy(t.clientId) || t.clientId.value != q.clientId then Rejected(InvalidGrant)
      else if t.sub == "" || t.sub !in cfg.users then Rejected(InvalidGrant)
      else
        match NarrowScope(t.scope, q.scope)
        case Exceeds => Rejected(InvalidScope)
        case Within(narrowed) =>
          match Rechecked(cfg, q.clientId, narrowed)
          case Granted(scope) => Admitted(t, scope)
          case _ => Rejected(InvalidScope)
  }

  function Rotates(cfg: Config, clientId: string): bool {
    var client := GetClient(cfg.clients, clientId);
    cfg.settings.RotationEnabled() || (client.Some? && client.value.isPublic)
  }

  function RefreshTarget(cfg: Config, q: RefreshRequest, t: Jwt): TokenResource {
    ResolveTokenResource(q.resources, GetClient(cfg.clients, q.clientId), Some(OrEmpty(t.resource)))
  }

  function RefreshedGrant(t: Jwt, scope: Option<string>, resource: Option<seq<string>>): Grant {
    Grant(t.sub, None, scope, t.authTime, t.family, t.idTokenClaims, t.userinfoClaims, resource, OrNone(t.resource))
  }

  /** What a refresh reads from the clock: verifying the token, sweeping the store, and writing the claim. */
  datatype Clock = Clock(verify: real, sweep: real, write: real)

  function Instant(now: real): Clock { Clock(now, now, now) }

  function ClaimAt(cfg: Config, store: R.Store, q: RefreshRequest, t: Jwt, c: Clock): (R.Store, bool) {
    R.Claimed(store, t.jti, t.family, Rotates(cfg, q.clientId), R.Verified(t.exp), c.sweep, c.write)
  }

  /** The claim and the whole request when the three readings fall together. */
  function RefreshClaim(cfg: Config, store: R.Store, q: RefreshRequest, t: Jwt, now: real): (R.Store, bool) {
    ClaimAt(cfg, store, q, t, Instant(now))
  }

  function Refresh(cfg: Config, store: R.Store, q: RefreshRequest, now: real): (R.Store, GrantResult) {
    RefreshAt(cfg, store, q, Instant(now))
  }

  /** The resource check comes after the claim. */
  function RefreshAt(cfg: Config, store: R.Store, q: RefreshRequest, c: Clock): (R.Store, GrantResult) {
    match Admit(cfg, q, c.verify)
    case Rejected(e) => (store, Refuse(e))
    case Admitted(t, scope) =>
      var (store', reused) := ClaimAt(cfg, store, q, t, c);
      if reused then (store', Refuse(InvalidGrant))
      else
        match RefreshTarget(cfg, q, t)
        case InvalidTarget => (store', Refuse(InvalidTargetError))
        case Bound(resource) => (store', Issue(RefreshedGrant(t, scope, resource)))
  }

  /** _grant_refresh_token */
  method GrantRefreshToken(cfg: Config, store: R.RevocationStore, q: RefreshRequest, c: Clock) returns (r: GrantResult)
    modifies store
    ensures (store.State(), r) == RefreshAt(cfg, old(store.State()), q, c)
  {
    if q.token.Absent? {
      return Refuse(InvalidRequest);
    }
    if q.token.Unverifiable? || cfg.settings.audience !in q.token.token.aud || c.verify >= q.token.token.exp {
      return Refuse(InvalidGrant);
    }
    var payload := q.token.token;
    if !payload.use.RefreshUse? {
      return Refuse(InvalidGrant);
    }
    var boundClient := payload.clientId;
    if !Truthy(boundClient) {
      return Refuse(InvalidGrant);
    }
    if boundClient.value != q.clientId {
      return Refuse(InvalidGrant);
    }
    var username := payload.sub;
    if username == "" {
      return Refuse(InvalidGrant);
    }
    if username !in cfg.users {
      return Refuse(InvalidGrant);
    }
    var originalScope := ScopeOrEmpty(payload.scope);
    var scope: Option<string>;
    if Truthy(q.scope) {
      var rejected := Except(ScopeSet(q.scope), Words(originalScope));
      if rejected != {} {
        return Refuse(InvalidScope);
      }
      scope := q.scope;
    } else {
      scope := NonBlank(payload.scope);
    }
    var client := GetClient(cfg.clients, q.clientId);
    if client.Some? {
      var scopeResult := ResolveScope(scope, client.value, cfg.settings.scopesSupported,
                                      cfg.settings.ScopeEnforcementActive(), None, true);
      if !scopeResult.Granted? {
        return Refuse(InvalidScope);
      }
      scope := scopeResult.scope;
    }
    var rotationEnabled := cfg.settings.RotationEnabled() || (client.Some? && client.value.isPublic);
    var reuseDetected := store.CheckAndClaimRefresh(payload.jti, payload.family, rotationEnabled,
                                                    R.Verified(payload.exp), c.sweep, c.write);
    if reuseDetected {
      return Refuse(InvalidGrant);
    }
    var target := ResolveTokenResource(q.resources, client, Some(OrEmpty(payload.resource)));
    if target.InvalidTarget? {
      return Refuse(InvalidTargetError);
    }
    return Issue(Grant(username, None, scope, payload.authTime, payload.family, payload.idTokenClaims,
                       payload.userinfoClaims, target.resources, OrNone(payload.resource)));
  }

  // ---------------------------------------------------------------- the other grants

  datatype CodeRequest = CodeRequest(attempt: A.Attempt, resources: seq<string>)

  function CodeGrant(cfg: Config, c: A.AuthorizationCode, q: CodeRequest): GrantResult {
    if c.username !in cfg.users then Refuse(InvalidGrant)
    else
      match Rechecked(cfg, q.attempt.clientId, Some(c.scope))
      case OutsideVocabulary(_) => Refuse(InvalidScope)
      case NotAllowed(_) => Refuse(InvalidScope)
      case Granted(scope) =>
        match ResolveTokenResource(q.resources, GetClient(cfg.clients, q.attempt.clientId), Some(OrEmpty(c.resource)))
        case InvalidTarget => Refuse(InvalidTargetError)
        case Bound(resource) =>
          Issue(Grant(c.username, c.nonce, scope, Some(c.createdAt.Floor), None, Persisted(c.idTokenClaims),
                      Persisted(c.userinfoClaims), resource, OrNone(c.resource)))
  }

  /** The code is consumed before anything else is checked. */
  function RedeemCode(s256: string -> string, cfg: Config, codes: A.Codes, q: CodeRequest, now: real)
    : (A.Codes, GrantResult)
  {
    if q.attempt.code == "" || q.attempt.redirectUri == "" then (codes, Refuse(InvalidRequest))
    else
      var (codes', outcome) := A.Consumed(s256, codes, q.attempt, now);
      match outcome
      case Refused => (codes', Refuse(InvalidGrant))
      case Raised => (codes', Refuse(ServerError))
      case Redeemed(c) => (codes', CodeGrant(cfg, c, q))
  }

  /** _grant_authorization_code */
  method GrantAuthorizationCode(cfg: Config, store: A.AuthCodeStore, q: CodeRequest, now: real) returns (r: GrantResult)
    modifies store
    ensures (store.codes, r) == RedeemCode(store.s256, cfg, old(store.codes), q, now)
  {
    if q.attempt.code == "" {
      return Refuse(InvalidRequest);
    }
    if q.attempt.redirectUri == "" {
      return Refuse(InvalidRequest);
    }
    var outcome := store.ConsumeCode(q.attempt, now);
    if outcome.Raised? {
      return Refuse(ServerError);
    }
    if outcome.Refused? {
      return Refuse(InvalidGrant);
    }
    var authCode := outcome.authorization;
    if authCode.username !in cfg.users {
      return Refuse(InvalidGrant);
    }
    var codeScope := Some(authCode.scope);
    var client := GetClient(cfg.clients, q.attempt.clientId);
    if client.Some? {
      var scopeResult := ResolveScope(codeScope, client.value, cfg.settings.scopesSupported,
                                      cfg.settings.ScopeEnforcementActive(), None, true);
      if !scopeResult.Granted? {
        return Refuse(InvalidScope);
      }
      codeScope := scopeResult.scope;
    }
    var target := ResolveTokenResource(q.resources, client, Some(OrEmpty(authCode.resource)));
    if target.InvalidTarget? {
      return Refuse(InvalidTargetError);
    }
    return Issue(Grant(authCode.username, authCode.nonce, codeScope, Some(authCode.createdAt.Floor), None,
                       Persisted(authCode.idTokenClaims), Persisted(authCode.userinfoClaims), target.resources,
                       OrNone(authCode.resource)));
  }

  datatype DeviceRequest = DeviceRequest(deviceCode: string, clientId: string, resources: seq<string>)

  function DeviceGrant(cfg: Config, user: string, g: D.Grant, q: DeviceRequest): GrantResult {
    match Rechecked(cfg, q.clientId, Some(g.scope))
    case OutsideVocabulary(_) => Refuse(InvalidScope)
    case NotAllowed(_) => Refuse(InvalidScope)
    case Granted(scope) =>
      match ResolveTokenResource(q.resources, GetClient(cfg.clients, q.clientId), Some(OrEmpty(g.resource)))
      case InvalidTarget => Refuse(InvalidTargetError)
      case Bound(resource) =>
        Issue(Grant(user, None, scope, g.authTime, None, NotGiven, NotGiven, resource, OrNone(g.resource)))
  }

  function PollDevice(cfg: Config, devices: D.Store, q: DeviceRequest, now: real): (D.Store, GrantResult) {
    if q.deviceCode == "" then (devices, Refuse(InvalidRequest))
    else
      var (devices', outcome) := D.Polled(devices, q.deviceCode, q.clientId, cfg.users, now);
      match outcome
      case NotFound => (devices', Refuse(InvalidGrant))
      case WrongClient => (devices', Refuse(InvalidGrant))
      case PollExpired => (devices', Refuse(ExpiredToken))
      case StillPending => (devices', Refuse(AuthorizationPending))
      case PollDenied => (devices', Refuse(AccessDenied))
      case UserNotFound => (devices', Refuse(ServerError))
      case PollAuthorized(user, g) => (devices', DeviceGrant(cfg, user, g, q))
  }

  /** _grant_device_code */
  method GrantDeviceCode(cfg: Config, store: D.DeviceCodeStore, q: DeviceRequest, now: real) returns (r: GrantResult)
    modifies store
    ensures (store.State(), r) == PollDevice(cfg, old(store.State()), q, now)
  {
    if q.deviceCode == "" {
      return Refuse(InvalidRequest);
    }
    var outcome := store.Poll(q.deviceCode, q.clientId, cfg.users, now);
    match outcome {
      case NotFound => return Refuse(InvalidGrant);
      case WrongClient => return Refuse(InvalidGrant);
      case PollExpired => return Refuse(ExpiredToken);
      case StillPending => return Refuse(AuthorizationPending);
      case PollDenied => return Refuse(AccessDenied);
      case UserNotFound => return Refuse(ServerError);
      case PollAuthorized(user, grant) =>
        var deviceScope := Some(grant.scope);
        var client := GetClient(cfg.clients, q.clientId);
        if client.Some? {
          var scopeResult := ResolveScope(deviceScope, client.value, cfg.settings.scopesSupported,
                                          cfg.settings.ScopeEnforcementActive(), None, true);
          if !scopeResult.Granted? {
            return Refuse(InvalidScope);
          }
          deviceScope := scopeResult.scope;
        }
        var target := ResolveTokenResource(q.resources, client, Some(OrEmpty(grant.resource)));
        if target.InvalidTarget? {
          return Refuse(InvalidTargetError);
        }
        return Issue(Grant(user, None, deviceScope, grant.authTime, None, NotGiven, NotGiven, target.resources,
                           OrNone(grant.resource)));
    }
  }

  datatype Credentials = Missing | Wrong | Authenticated(username: string)

  datatype PasswordRequest = PasswordRequest(
    credentials: Credentials, clientId: string, scope: Option<string>, nonce: Option<string>, resources: seq<string>)

  /** _grant_password */
  function PasswordGrant(cfg: Config, q: PasswordRequest): GrantResult {
    if !cfg.settings.PasswordGrantEnabled() then Refuse(UnsupportedGrantType)
    else if q.credentials.Missing? then Refuse(InvalidRequest)
    else if q.credentials.Wrong? then Refuse(InvalidGrant)
    else
      var client := GetClient(cfg.clients, q.clientId);
      var checked :=
        if client.None? then Granted(q.scope)
        else ResolveScope(q.scope, client.value, cfg.settings.scopesSupported, cfg.settings.ScopeEnforcementActive(),
                          None, false);
      match checked
      case OutsideVocabulary(_) => Refuse(InvalidScope)
      case NotAllowed(_) => Refuse(InvalidScope)
      case Granted(scope) =>
        match ResolveTokenResource(q.resources, client, None)
        case InvalidTarget => Refuse(InvalidTargetError)
        case Bound(resource) =>
          Issue(Grant(q.credentials.username, NonBlank(q.nonce), scope, None, None, NotGiven, NotGiven, resource, None))
  }

  // ---------------------------------------------------------------- what every handler guarantees

  /** With enforcement on, a known client is only granted scope values it may have now. */
  predicate ScopeAllowed(cfg: Config, clientId: string, scope: Option<string>) {
    var client := GetClient(cfg.clients, clientId);
    client.Some? && cfg.settings.ScopeEnforcementActive() ==>
      Permitted(ScopeSet(scope), client.value, cfg.settings.scopesSupported)
  }

  /** The resources of the access token are among those the refresh token will remember. */
  predicate ResourcesWithin(g: Grant) {
    g.resource.Some? ==> g.resource.value != [] && Remembered(g).Some?
                         && forall v | v in g.resource.value :: v in Remembered(g).value
  }

  /** No resource was bound only when there was none to bind. */
  predicate BindsWhenRemembered(g: Grant) { g.resource.None? <==> Remembered(g).None? }

  predicate Sound(cfg: Config, clientId: string, g: Grant) {
    ScopeAllowed(cfg, clientId, g.scope) && ResourcesWithin(g) && BindsWhenRemembered(g)
  }

  lemma RecheckedIsAllowed(cfg: Config, clientId: string, scope: Option<string>)
    requires Rechecked(cfg, clientId, scope).Granted?
    ensures Rechecked(cfg, clientId, scope).scope == scope && ScopeAllowed(cfg, clientId, scope)
  {
    var client := GetClient(cfg.clients, clientId);
    if client.Some? {
      RecheckIsExact(scope, client.value, cfg.settings.scopesSupported, cfg.settings.ScopeEnforcementActive());
    }
  }

  lemma TargetIsSound(g: Grant, requested: seq<string>, client: Option<Client>, original: Option<seq<string>>)
    requires ResolveTokenResource(requested, client, Some(OrEmpty(original))) == Bound(g.resource)
    requires g.refreshResource == OrNone(original)
    ensures ResourcesWithin(g) && BindsWhenRemembered(g)
  {
    NarrowsNeverWidens(requested, client, OrEmpty(original));
  }

  lemma CodeGrantIsSound(cfg: Config, c: A.AuthorizationCode, q: CodeRequest)
    requires CodeGrant(cfg, c, q).Issue?
    ensures var g := CodeGrant(cfg, c, q).grant;
            Sound(cfg, q.attempt.clientId, g) && g.family.None? && g.scope == Some(c.scope)
            && g.authTime == Some(c.createdAt.Floor) && Remembered(g) == OrNone(c.resource)
  {
    var g := CodeGrant(cfg, c, q).grant;
    RecheckedIsAllowed(cfg, q.attempt.clientId, Some(c.scope));
    TargetIsSound(g, q.resources, GetClient(cfg.clients, q.attempt.clientId), c.resource);
  }

  lemma DeviceGrantIsSound(cfg: Config, user: string, d: D.Grant, q: DeviceRequest)
    requires DeviceGrant(cfg, user, d, q).Issue?
    ensures var g := DeviceGrant(cfg, user, d, q).grant;
            Sound(cfg, q.clientId, g) && g.family.None? && g.scope == Some(d.scope) && g.authTime == d.authTime
            && Remembered(g) == OrNone(d.resource)
  {
    var g := DeviceGrant(cfg, user, d, q).grant;
    RecheckedIsAllowed(cfg, q.clientId, Some(d.scope));
    TargetIsSound(g, q.resources, GetClient(cfg.clients, q.clientId), d.resource);
  }

  lemma PasswordGrantIsSound(cfg: Config, q: PasswordRequest)
    requires PasswordGrant(cfg, q).Issue?
    ensures Sound(cfg, q.clientId, PasswordGrant(cfg, q).grant) && PasswordGrant(cfg, q).grant.family.None?
  {
    var client := GetClient(cfg.clients, q.clientId);
    if client.Some? && cfg.settings.ScopeEnforcementActive() {
      RequestIsPermitted(q.scope, client.value, cfg.settings.scopesSupported, None);
    }
    if client.Some? {
      GrantedExactly(q.resources, client.value, None);
    }
  }

  lemma RefreshIsSound(cfg: Config, store: R.Store, q: RefreshRequest, c: Clock)
    requires RefreshAt(cfg, store, q, c).1.Issue?
    ensures var g := RefreshAt(cfg, store, q, c).1.grant;
            && q.token.Signed? && Admit(cfg, q, c.verify).Admitted? && Admit(cfg, q, c.verify).token == q.token.token
            && Sound(cfg, q.clientId, g)
            && ScopeSet(g.scope) <= ScopeSet(q.token.token.scope)
            && Remembered(g) == OrNone(q.token.token.resource)
            && g.username == q.token.token.sub && q.token.token.clientId == Some(q.clientId)
  {
    var t := q.token.token;
    var g := RefreshAt(cfg, store, q, c).1.grant;
    var narrowed := NarrowScope(t.scope, q.scope).scope;
    RecheckedIsAllowed(cfg, q.clientId, narrowed);
    assert g.scope == narrowed;
    TargetIsSound(g, q.resources, GetClient(cfg.clients, q.clientId), t.resource);
  }

  /** A refused refresh puts a fresh token into the store exactly when it rotates, passed every check before the
      claim, its family stands, and its resource request fails. A request refused any earlier leaves the store alone. */
  lemma RefusalSpendsExactlyOnTarget(cfg: Config, store: R.Store, q: RefreshRequest, c: Clock)
    requires RefreshAt(cfg, store, q, c).1.Refuse? && q.token.Signed? && Truthy(q.token.token.jti)
    requires !R.TokenRevoked(store, q.token.token.jti)
    ensures R.TokenRevoked(RefreshAt(cfg, store, q, c).0, q.token.token.jti)
            <==> && Admit(cfg, q, c.verify).Admitted? && Rotates(cfg, q.clientId)
                 && !R.FamilyRevoked(R.Swept(store, c.sweep), q.token.token.family)
                 && RefreshTarget(cfg, q, q.token.token).InvalidTarget?
    ensures Admit(cfg, q, c.verify).Rejected? ==> RefreshAt(cfg, store, q, c).0 == store
  {
  }

  /** A refresh token that rotates, is signed for client "c" of user "u", and expires at 100. */
  function SomeRefreshToken(): Jwt {
    Jwt(RefreshUse, Some("t"), "u", ["api"], None, Some("c"), None, None, None, NotGiven, NotGiven, None, Some("f"),
        100.0)
  }

  function SomeConfig(): Config {
    Config(Settings("api", OAuth21, false, false, []), [Client("c", false, [], [], [])], {"u"})
  }

  /** Verified at 0 and at 99, both before it expires, but claimed the second time at 100: the token is accepted
      twice. */
  lemma LateClaimIsAccepted()
    ensures var q := RefreshRequest(Signed(SomeRefreshToken()), "c", None, []);
            var first := RefreshAt(SomeConfig(), R.Store(map[], map[]), q, Clock(0.0, 0.0, 0.0));
            var second := RefreshAt(SomeConfig(), first.0, q, Clock(99.0, 100.0, 100.0));
            first.1.Issue? && second.1.Issue?
  {
    assert GetClient(SomeConfig().clients, "c") == Some(Client("c", false, [], [], []));
  }

  /** Such a request: the OAuth 2.1 profile rotates, nothing was bound to the token, and the client asks for "x". The
      refusal spends the token. */
  lemma RefusedAndSpent()
    ensures var q := RefreshRequest(Signed(SomeRefreshToken()), "c", None, ["x"]);
            var r := Refresh(SomeConfig(), R.Store(map[], map[]), q, 0.0);
            r.1 == Refuse(InvalidTargetError) && R.TokenRevoked(r.0, Some("t"))
  {
    var client := Client("c", false, [], [], []);
    assert GetClient(SomeConfig().clients, "c") == Some(client);
    GrantedExactly(["x"], client, Some([]));
    assert "x" in ["x"] && !Acceptable("x", client, Some([]));
    hide Resolved;
  }
}
