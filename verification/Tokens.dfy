/** services/token.py: what a minted token says. A token is a record; signing and encoding are left out. */
module Tokens {
  import opened Common
  import opened Scope

  const REFRESH_LIFETIME := 7.0 * 86400.0

  // ---------------------------------------------------------------- requested claim names

  /** A requested-claims value as it crosses a trust boundary; a list entry that is not a string is None. */
  datatype ClaimNames = NotGiven | NotAList | Names(entries: seq<Option<string>>)

  function Strings(entries: seq<Option<string>>): seq<string> {
    if entries == [] then []
    else (if entries[0].Some? then [entries[0].value] else []) + Strings(entries[1..])
  }

  /** sanitize_claim_names */
  function Sanitized(v: ClaimNames): Option<seq<string>> {
    match v
    case Names(entries) => if Strings(entries) == [] then None else Some(Strings(entries))
    case _ => None
  }

  function Entries(names: seq<string>): seq<Option<string>> {
    if names == [] then [] else [Some(names[0])] + Entries(names[1..])
  }

  /** A claim list written into a token, read back from it. */
  function Persisted(names: Option<seq<string>>): ClaimNames {
    if names.None? then NotGiven else Names(Entries(names.value))
  }

  lemma {:induction false} StringsOfEntries(names: seq<string>)
    ensures Strings(Entries(names)) == names
  {
    if names != [] {
      StringsOfEntries(names[1..]);
      assert Entries(names)[1..] == Entries(names[1..]);
    }
  }

  /** Sanitizing once is enough: what a token carries survives being read back and sanitized any number of times. */
  lemma SanitizeIsStable(v: ClaimNames)
    ensures Sanitized(Persisted(Sanitized(v))) == Sanitized(v)
  {
    if Sanitized(v).Some? {
      StringsOfEntries(Sanitized(v).value);
    }
  }

  lemma {:induction false} StringsSpliced(a: seq<Option<string>>, e: Option<string>, b: seq<Option<string>>)
    ensures Strings(a + [e] + b) == Strings(a) + (if e.Some? then [e.value] else []) + Strings(b)
  {
    var whole, kept, z := a + [e] + b, if e.Some? then [e.value] else [], Strings(b);
    if a == [] {
      assert whole[1..] == b;
      assert [] + kept + z == kept + z;
    } else {
      var head, x := if a[0].Some? then [a[0].value] else [], Strings(a[1..]);
      assert whole[0] == a[0] && whole[1..] == a[1..] + [e] + b;
      assert Strings(whole) == head + Strings(whole[1..]);
      assert Strings(a) == head + x;
      hide Strings;
      StringsSpliced(a[1..], e, b);
      assert head + (x + kept + z) == head + x + kept + z;
    }
  }

  function Kept(v: ClaimNames): seq<string> { if Sanitized(v).Some? then Sanitized(v).value else [] }

  /** Sanitizing keeps the strings of a list, each in its place, and drops every other entry, wherever it stands. */
  lemma SanitizedInOrder(a: seq<Option<string>>, e: Option<string>, b: seq<Option<string>>)
    ensures Kept(Names(a + [e] + b)) == Kept(Names(a)) + (if e.Some? then [e.value] else []) + Kept(Names(b))
  {
    StringsSpliced(a, e, b);
  }

  lemma {:induction false} NoStrings(entries: seq<Option<string>>)
    ensures Strings(entries) == [] <==> forall i | 0 <= i < |entries| :: entries[i] == None
  {
    if entries != [] {
      NoStrings(entries[1..]);
      assert forall i | 0 < i < |entries| :: entries[i] == entries[1..][i - 1];
    }
  }

  /** Nothing is left exactly when no list was given or no entry of it is a string. */
  lemma SanitizedToNothing(v: ClaimNames)
    ensures Sanitized(v) == None <==> !v.Names? || forall i | 0 <= i < |v.entries| :: v.entries[i] == None
    ensures Sanitized(v) == None <==> Kept(v) == []
  {
    if v.Names? {
      NoStrings(v.entries);
    }
  }

  // ---------------------------------------------------------------- ID token audience

  /** The audience array after the extras seen so far. */
  function Audiences(clientId: string, resourceAudience: string, extras: seq<string>): seq<string> {
    if extras == [] then [clientId]
    else
      var before := Audiences(clientId, resourceAudience, extras[..|extras| - 1]);
      var extra := extras[|extras| - 1];
      if extra == resourceAudience && extra != clientId then before
      else if extra != "" && extra !in before then before + [extra]
      else before
  }

  function ExtraAudiences(clients: seq<Client>, clientId: string): seq<string> {
    var client := GetClient(clients, clientId);
    if client.Some? then client.value.additionalAudiences else []
  }

  /** The (aud, azp) pair. */
  function IdTokenAudience(cfg: Config, clientId: Option<string>): (seq<string>, Option<string>) {
    if !Truthy(clientId) then ([cfg.settings.audience], None)
    else
      var aud := Audiences(clientId.value, cfg.settings.audience, ExtraAudiences(cfg.clients, clientId.value));
      (aud, if |aud| == 1 then None else clientId)
  }

  /** _resolve_id_token_audience */
  method ResolveIdTokenAudience(cfg: Config, clientId: Option<string>) returns (aud: seq<string>, azp: Option<string>)
    ensures (aud, azp) == IdTokenAudience(cfg, clientId)
  {
    var resourceAudience := cfg.settings.audience;
    if !Truthy(clientId) {
      return [resourceAudience], None;
    }
    var extras := ExtraAudiences(cfg.clients, clientId.value);
    aud := [clientId.value];
    for i := 0 to |extras|
      invariant aud == Audiences(clientId.value, resourceAudience, extras[..i])
    {
      var extra := extras[i];
      assert extras[..i + 1][..i] == extras[..i];
      if extra == resourceAudience && extra != clientId.value {
        continue;
      }
      if extra != "" && extra !in aud {
        aud := aud + [extra];
      }
    }
    assert extras[..|extras|] == extras;
    azp := if |aud| == 1 then None else clientId;
  }

  lemma {:induction false} AudiencesAre(clientId: string, resourceAudience: string, extras: seq<string>)
    ensures var aud := Audiences(clientId, resourceAudience, extras);
            && aud != [] && aud[0] == clientId && NoDuplicates(aud)
            && forall a :: a in aud <==> a == clientId || (a in extras && a != "" && a != resourceAudience)
  {
    if extras != [] {
      var init, extra := extras[..|extras| - 1], extras[|extras| - 1];
      AudiencesAre(clientId, resourceAudience, init);
      assert extras == init + [extra];
      assert forall a :: a in extras <==> a in init || a == extra;
    }
  }

  /** An ID token names its client first, repeats nothing, carries azp exactly when it has several audiences, and
      passes for an access token only when the client is itself named like the resource audience. */
  lemma IdTokenAudienceIsSafe(cfg: Config, clientId: string)
    requires clientId != ""
    ensures var (aud, azp) := IdTokenAudience(cfg, Some(clientId));
            && aud != [] && aud[0] == clientId && NoDuplicates(aud)
            && (azp.Some? <==> |aud| > 1) && (azp.Some? ==> azp.value == clientId)
            && (cfg.settings.audience in aud <==> clientId == cfg.settings.audience)
            && (forall a | a in ExtraAudiences(cfg.clients, clientId) && a != "" && a != cfg.settings.audience ::
                  a in aud)
  {
    AudiencesAre(clientId, cfg.settings.audience, ExtraAudiences(cfg.clients, clientId));
  }

  // ---------------------------------------------------------------- create_token

  datatype Use = AccessUse | IdUse | RefreshUse

  /** The claims of a signed token, minted here or crafted with the signing key. On an ID token `idTokenClaims` are the
      names resolved into it. */
  datatype Jwt = Jwt(
    use: Use,
    jti: Option<string>,
    sub: string,
    aud: seq<string>,
    azp: Option<string>,
    clientId: Option<string>,
    scope: Option<string>,
    authTime: Option<int>,
    nonce: Option<string>,
    idTokenClaims: ClaimNames,
    userinfoClaims: ClaimNames,
    resource: Option<seq<string>>,
    family: Option<string>,
    exp: real)

  /** What a grant handler hands to create_token. */
  datatype Grant = Grant(
    username: string,
    nonce: Option<string>,
    scope: Option<string>,
    authTime: Option<int>,
    family: Option<string>,
    idTokenClaims: ClaimNames,
    userinfoClaims: ClaimNames,
    resource: Option<seq<string>>,
    refreshResource: Option<seq<string>>)

  datatype TokenResponse = TokenResponse(access: Jwt, id: Option<Jwt>, refresh: Jwt, scope: Option<string>)

  /** The random ids of one response. */
  datatype Ids = Ids(access: string, id: string, refresh: string, family: string)

  predicate HasOpenid(scope: Option<string>) { Truthy(scope) && "openid" in Words(scope.value) }

  function AuthTimeOf(g: Grant, now: real): Option<int> {
    if !HasOpenid(g.scope) then None else if g.authTime.Some? then g.authTime else Some(now.Floor)
  }

  function FamilyOf(g: Grant, newId: string): string { if Truthy(g.family) then g.family.value else newId }

  /** The resources a refresh token remembers: the whole original grant. */
  function Remembered(g: Grant): Option<seq<string>> {
    var r := if g.refreshResource.Some? then g.refreshResource else g.resource;
    if r.Some? && r.value != [] then r else None
  }

  function AccessAudience(cfg: Config, g: Grant): seq<string> {
    if g.resource.Some? && g.resource.value != [] then g.resource.value else [cfg.settings.audience]
  }

  function NonBlank(s: Option<string>): Option<string> { if Truthy(s) then s else None }

  function AccessToken(cfg: Config, g: Grant, clientId: string, expMinutes: nat, ids: Ids, now: real): Jwt {
    Jwt(AccessUse, Some(ids.access), g.username, AccessAudience(cfg, g), None, NonBlank(Some(clientId)),
        NonBlank(g.scope), None, None, NotGiven, Persisted(Sanitized(g.userinfoClaims)), None, None,
        (now + expMinutes as real * 60.0).Floor as real)
  }

  function IdToken(cfg: Config, g: Grant, clientId: string, expMinutes: nat, ids: Ids, now: real): Jwt {
    var (aud, azp) := IdTokenAudience(cfg, Some(clientId));
    Jwt(IdUse, Some(ids.id), g.username, aud, azp, None, None, AuthTimeOf(g, now), g.nonce,
        Persisted(Sanitized(g.idTokenClaims)), NotGiven, None, None, (now + expMinutes as real * 60.0).Floor as real)
  }

  function RefreshToken(cfg: Config, g: Grant, clientId: string, ids: Ids, now: real): Jwt {
    Jwt(RefreshUse, Some(ids.refresh), g.username, [cfg.settings.audience], None, NonBlank(Some(clientId)),
        NonBlank(g.scope), AuthTimeOf(g, now), None, Persisted(Sanitized(g.idTokenClaims)),
        Persisted(Sanitized(g.userinfoClaims)), Remembered(g), Some(FamilyOf(g, ids.family)),
        (now + REFRESH_LIFETIME).Floor as real)
  }

  /** create_token for a grant that issues a refresh token, with no extra claims. */
  function CreateToken(cfg: Config, g: Grant, clientId: string, expMinutes: nat, ids: Ids, now: real): TokenResponse {
    TokenResponse(
      AccessToken(cfg, g, clientId, expMinutes, ids, now),
      if HasOpenid(g.scope) then Some(IdToken(cfg, g, clientId, expMinutes, ids, now)) else None,
      RefreshToken(cfg, g, clientId, ids, now),
      NonBlank(g.scope))
  }
}
