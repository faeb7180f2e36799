# NanoIDP: tokens, configuration writes and URI rules

NanoIDP is a small OAuth 2.0, OpenID Connect and SAML identity provider for development and testing. This project
models three of its parts that have to be right together and proves what they promise.

**Tokens.** Authorization codes, device codes and revoked tokens live in stores that forget entries once they expire,
and refresh tokens pass a grant on from response to response. `Revocation`, `AuthCode`, `DeviceCode`, `Tokens`, `Scope`,
`Resources` and `Grants` follow the stores, `create_token` and the `/token` handlers. The `*History` modules compare
each store with a ledger that never forgets; `RevocationForever` compares the revocation store with plain sets that
only grow, for tokens of any kind and lifetime. `GrantRuns` puts everything into one clocked machine in which the handler
and the minting of its response are separate steps, so that other requests come between them and the configuration may
change; `RevokedTokens` says when such a run reports a token revoked, and `GrantChains` what a chain of refreshes keeps
from its first grant. `GrantAnswers` states, over the fields of requests and tokens alone, which requests are answered
with tokens, which errors the others get, and what the tokens say.

**Configuration.** `ConfigWriter` is one coordinated, conflict-checked batch of file replacements run by itself;
`WriteProtocol` lets threads of several processes interleave in it one small step at a time, under a process lock and
one lock per directory; `WriteProgress` and `WriteLinear` prove what such runs guarantee, and `WriteManager` adds the
loads and saves of one runtime to them. `Yaml`, `SettingsLens`, `ClientLens`, `ClientVerbatim`, `DocumentLens` and
`DocumentTwice` treat the settings file as a lens: raw YAML with `${VAR}` placeholders on one side,
`Settings` and its clients on the other. `Expansion` gives the laws of placeholders, `Loading` says which texts load as
what, and `Minimal` what a save leaves out. `Keys` and `Hooks`/`HookLoads` cover key rotation with its files and the
hook registry's transactional reload; `HookDeclarations` says when a load raises and what it leaves declared,
`HookPlugins` what is remembered of plugins.

**URIs.** `Uri` holds the hand-written validator for resource indicators and, separately, the grammar of absolute URIs
from Appendix A of RFC 3986 as parse trees; `UriCorrect` proves that they accept the same strings, and `UriTerminals`
spells out the terminals and IPv6 addresses both stand on. `Redirect` is the redirect URI matcher, `RedirectCorrect`
shows that it ignores the port of a loopback URI and nothing else, and `RedirectText` how hosts and ports are written.

Objects that the program updates in place are classes whose methods are proved against functions on values; the
theorems are about those functions. Six results differ from what one might expect of the program; each is stated
exactly, with an input that shows it:

- A refresh whose resource request fails has already consumed its token when rotation is on, although the comments in
  `oauth_grants.py` intend the claim to be the last check (`RefusalSpendsExactlyOnTarget`, `RefusedAndSpent`).
- A refresh token verified just before it expires and claimed just after can be accepted twice, because its marker may
  be gone by then (`SpentTokenIsRefusedExactlyUntil`, `LateClaimIsAccepted`). The machine therefore reads the clock
  once per refresh.
- A token with more than eight days left that is logged out by an unverified hint is accepted again after the first
  sweep past the eighth day (`ReportedUntilExpExactly`, `LongTokenComesBack`).
- Saving a boolean as false over a text such as `t` or `${FLAG:y}` leaves the file as it is, and it loads as true again:
  the writer's reading of booleans lacks two words the loader has (`WriteThenLoad`, `SavingFalseOverT`).
- Saving an untouched client may still change its entry: an absent description is spelled out, a scalar list and a
  blank secret are rewritten (`LoadedEntryIsVerbatim`, `DescriptionSpelledOut`).
- The failure count of a plugin survives reloads, but not one in which configuring the plugin raises (`CountResumes`,
  `CountIsLost`).

Assumptions made throughout: time is a real number of seconds and never goes back; codes, key ids, token ids and family
ids are new when generated; SHA-256 revisions do not collide, so a revision is identified with the bytes it names; a
signed token is a record and verification means that it was minted, is unexpired and names the audience.

## Model

| member | source | states |
|---|---|---|
| UriCorrect.AcceptsExactlyAbsoluteUris | src/nanoidp/services/resource.py:130-177 | the resource indicator validator accepts a string if and only if section 4.3 of RFC 3986 derives it (absolute-URI, so no fragment) |
| UriCorrect.HostDerived | src/nanoidp/services/resource.py:64-83 | every host the validator accepts is an IP-literal or a reg-name of the grammar, and reads back as written |
| UriCorrect.HostAccepted | src/nanoidp/services/resource.py:64-83 | every IP-literal and reg-name of the grammar is accepted as a host |
| UriCorrect.AuthorityDerived | src/nanoidp/services/resource.py:86-109 | every accepted authority is userinfo, host and port of the grammar |
| UriCorrect.AuthorityAccepted | src/nanoidp/services/resource.py:86-109 | every authority of the grammar is accepted |
| UriTerminals.IPv6Exactly | src/nanoidp/services/resource.py:64-83 | what is accepted as an IPv6 address is exactly what IPv6address of section 3.2.2 of RFC 3986 derives: eight groups, or at most seven around "::", the last two possibly written as four octets from 0 to 255 |
| UriTerminals.RunsExactly | src/nanoidp/services/resource.py:46-60 | a userinfo, reg-name, path or query is made exactly of its allowed characters and of percent signs with two hexadecimal digits |
| UriTerminals.CharactersSpelledOut | src/nanoidp/services/resource.py:31-62 | the character classes of RFC 3986 as the characters themselves |
| RedirectCorrect.MatchesExactlyUpToPort | src/nanoidp/services/redirect_uri.py:174-194 | for all strings: two values match if and only if they are equal or are http loopback URIs identical but for the port component as written |
| RedirectCorrect.InsertedPort | src/nanoidp/services/redirect_uri.py:136-171 | any valid port put into a portless loopback URI is cut out again and leaves the original, character by character |
| RedirectCorrect.StripParts | src/nanoidp/services/redirect_uri.py:136-171 | whenever stripping succeeds, the result is the string itself or the string with the text from the last colon of its authority removed, for a port between 0 and 65535 |
| RedirectCorrect.MatchesIsEquivalence | src/nanoidp/services/redirect_uri.py:174-194 | matching is reflexive, symmetric and transitive |
| RedirectText.LoopbackExactly | src/nanoidp/services/redirect_uri.py:122-133 | an authority names a loopback host exactly when, behind its userinfo, it is written 127.0.0.1 up to a colon, or has one of the two addresses in brackets |
| RedirectText.CleanExactly | src/nanoidp/services/redirect_uri.py:122-171 | before a URI is taken apart, blanks and control characters in front of it and tabs and line ends anywhere are dropped, and nothing else |
| RedirectText.PortExactly | src/nanoidp/services/redirect_uri.py:136-171 | a port written in decimal is accepted exactly up to 65535 |
| Revocation.EffectiveExpiry | src/nanoidp/services/revocation.py:83-100 | an entry always outlives now, a verified exp is remembered at least that long, an untrusted one eight days |
| Revocation.RevocationStore.DropExpired | src/nanoidp/services/revocation.py:102-108 | the sweep loop deletes exactly the expired entries |
| Revocation.RevocationStore.SweepLocked | src/nanoidp/services/revocation.py:102-108 | tokens and families are both swept |
| Revocation.RevocationStore.Revoke | src/nanoidp/services/revocation.py:110-127 | after a sweep the id's retention is extended, never shortened |
| Revocation.RevocationStore.IsRevoked | src/nanoidp/services/revocation.py:129-134 | membership test without a sweep |
| Revocation.RevocationStore.CheckAndClaimRefresh | src/nanoidp/services/revocation.py:136-174 | one atomic sweep, reuse check, and claim or family marker |
| RevocationHistory.SweepIsUnobservable | src/nanoidp/services/revocation.py:102-174 | over every history each claim gets the answer of a store that keeps every write it ever made |
| RevocationHistory.MembershipTest | src/nanoidp/services/revocation.py:129-134 | the lock-free test holds exactly when some revocation was still in force at the last sweep, so it misses none in force now |
| RevocationHistory.SpentTokenIsRefusedExactlyUntil | src/nanoidp/services/revocation.py:136-174 | a token spent under rotation is refused again exactly until its exp, or a minute after it was spent if that is later |
| RevocationHistory.AcceptedTwiceAtExpiry | src/nanoidp/services/revocation.py:136-174 | a token that expires at 100, spent at 0, is accepted again by a claim at 100 |
| RevocationForever.RevokedUntilExp | src/nanoidp/services/revocation.py:129-134 | over every history a token of any lifetime is reported revoked until its exp exactly when its id was ever revoked or spent, given that then one of those writes carried a verified exp no earlier, or found it with at most eight days left |
| RevocationForever.ReportedUntilExpExactly | src/nanoidp/services/revocation.py:82-134 | the exact condition: an id is reported revoked up to exp, whatever is done with the store meanwhile, if and only if one of its writes so far was given an expiry no earlier than exp |
| RevocationForever.LongTokenComesBack | src/nanoidp/services/revocation.py:44-74 | an input where that fails: a token logged out with more than eight days left is no longer reported revoked after a later sweep |
| RevocationForever.ClaimUntilExp | src/nanoidp/services/revocation.py:136-174 | a claim for a token before its exp reports reuse exactly when its id or its family was ever written, however often the store was swept, given that one write of each that was written reaches its exp |
| RevocationForever.AnswersLikeForever | src/nanoidp/services/revocation.py:82-174 | each claim of a history gets the answer of a store of sets that only grow and hold no expiry; every claim presents its token before exp, and only where that token or its family was revoked before must one revocation, or the marker of the first reuse, reach its exp |
| RevocationForever.ReportsLikeForever | src/nanoidp/services/revocation.py:82-134 | after such a history a token is reported revoked until its exp exactly when that store reports it, given that if it was revoked one revocation reaches its exp |
| RevocationForever.LongChainIsLawful | src/nanoidp/services/revocation.py:136-174 | a family refreshed on day 0, 6 and 12 without reuse is such a history: chains may outlive the retention of a marker |
| Scope.GetClientIsFirst | src/nanoidp/config.py:499-504 | the client found is the first with the id, and none is found exactly when nobody has it |
| Scope.RecheckIsExact | src/nanoidp/services/scope.py:40-114 | re-checking a granted scope passes it on unchanged if and only if every value is in the vocabulary and the allow-list, or enforcement is off; a refusal names exactly the offending values |
| Scope.RequestExactly | src/nanoidp/services/scope.py:40-114 | at a request surface the scope asked for is granted, or without one the allow-list under enforcement, or else the default; exactly when it is permitted; a refusal names exactly the values outside the vocabulary, or, when there are none, those not allowed |
| Scope.WordsOfJoined | src/nanoidp/services/scope.py:78-114 | the allow-list, joined into a scope string, is read back as its entries in order |
| Scope.RequestIsPermitted | src/nanoidp/services/scope.py:40-114 | with enforcement on, what is granted is permitted whether it was asked for or defaulted |
| Resources.ResolveResources | src/nanoidp/services/resource.py:180-220 | the loop computes the first refusal, or the values in order without repeats |
| Resources.GrantedExactly | src/nanoidp/services/resource.py:180-220 | a request is granted whole, in order of first appearance and without repeats, if and only if every value is a valid, allowed indicator within the grant |
| Resources.RefusedExactly | src/nanoidp/services/resource.py:180-220 | a refusal names the first unacceptable value and the first thing wrong with it: its form, the allow-list, the grant |
| Resources.NarrowsNeverWidens | src/nanoidp/routes/oauth_grants.py:78-141 | a token request only narrows what was authorized, covers everything it asked for, and binds nothing exactly when nothing was authorized |
| AuthCode.AuthCodeStore.CleanupExpired | src/nanoidp/services/auth_code.py:215-223 | exactly the expired codes are deleted |
| AuthCode.AuthCodeStore.CreateCode | src/nanoidp/services/auth_code.py:58-122 | a cleanup, then the new code with its ten-minute expiry |
| AuthCode.AuthCodeStore.ConsumeCode | src/nanoidp/services/auth_code.py:124-190 | an expired or used code is forgotten, a mismatch changes nothing, a match is marked used |
| AuthCodeHistory.AnswersMatchLedger | src/nanoidp/services/auth_code.py:124-190 | over every run an attempt is answered as by a ledger of all codes issued and redeemed |
| AuthCodeHistory.RedemptionExactly | src/nanoidp/services/auth_code.py:124-213 | over every run an attempt is redeemed if and only if its code was issued, nobody redeemed it before, ten minutes have not passed, client and redirect URI are those of the authorization, and the verifier answers its challenge as section 4.6 of RFC 7636 asks: plain or S256, an ASCII verifier for the latter, no other method |
| AuthCodeHistory.JudgedExactly | src/nanoidp/services/auth_code.py:146-213 | an unredeemed code is redeemed exactly when the attempt deserves it, and the encoding error comes exactly for a verifier that is not ASCII under S256 |
| AuthCodeHistory.StoredExactly | src/nanoidp/services/auth_code.py:124-223 | over every run the store holds a code exactly when it was issued and neither a cleanup after its expiry nor an attempt at it after its expiry or redemption has come since |
| AuthCodeHistory.RedemptionIsFaithful | src/nanoidp/services/auth_code.py:146-213 | a redemption returns the authorization as created, field by field, within ten minutes, to the issuing client and redirect URI, with a verifier that answers its challenge |
| AuthCodeHistory.RedeemedAtMostOnce | src/nanoidp/services/auth_code.py:146-190 | once redeemed, a code is never redeemed again, whatever happens between |
| AuthCodeHistory.FailedAttemptChangesNothing | src/nanoidp/services/auth_code.py:146-190 | a wrong client, redirect URI or verifier leaves an unused code as good as it was |
| DeviceCode.DeviceCodeStore.PruneExpired | src/nanoidp/services/device_code.py:216-228 | exactly the stale grants and the index entries of their user codes go, and their number is returned |
| DeviceCode.DeviceCodeStore.Create | src/nanoidp/services/device_code.py:105-136 | a prune, then a new pending grant unless 10,000 remain |
| DeviceCode.DeviceCodeStore.Poll | src/nanoidp/services/device_code.py:138-173 | the lookup, checks and one-time collection of a device code |
| DeviceCode.DeviceCodeStore.Verify | src/nanoidp/services/device_code.py:175-214 | the user's decision on a pending, unexpired grant |
| DeviceHistory.PollsMatchLedger | src/nanoidp/services/device_code.py:138-173 | over every run a poll is answered from what was requested and what the user decided; only expired grants may have been forgotten |
| DeviceHistory.ApprovalsAreTheUsersOwn | src/nanoidp/services/device_code.py:175-214 | an approval reaches only a grant with that user code, undecided, uncollected and in time |
| DeviceHistory.ApprovalsReachTheirGrant | src/nanoidp/services/device_code.py:175-214 | with distinct user codes an approval succeeds if and only if the credentials hold and such a grant exists |
| DeviceHistory.DenialsReachTheirGrant | src/nanoidp/services/device_code.py:175-214 | with distinct user codes a denial succeeds if and only if such a grant exists, and that grant is then refused |
| DeviceHistory.SubmissionsAnswered | src/nanoidp/services/device_code.py:175-214 | over every run with distinct user codes, what the user is told: by decision, denial and credentials for an open grant; used, expired or invalid without one; invalid for a code nobody was given |
| DeviceHistory.ExpiryIsNoticedOnce | src/nanoidp/services/device_code.py:138-214 | once a poll or the user has met the expiry, the device hears that it expired and the user that the code is used, until it is pruned |
| DeviceHistory.CreationExactly | src/nanoidp/services/device_code.py:105-136 | over every run a new authorization is accepted exactly when fewer than 10,000 are neither collected nor expired, and is then recorded as requested |
| DeviceHistory.LedgerProgress | src/nanoidp/services/device_code.py:138-214 | what was requested never changes, decisions are final, collected stays collected |
| DeviceHistory.CollectedAtMostOnce | src/nanoidp/services/device_code.py:161-173 | a device code polls AUTHORIZED at most once |
| DeviceHistory.DeniedIsFinal | src/nanoidp/services/device_code.py:175-214 | a denied grant is never authorized |
| DeviceHistory.StoreStaysConsistent | src/nanoidp/services/device_code.py:99-136 | never more than 10,000 grants; the index never leads to another user code's grant, and the two maps are inverse when user codes are distinct |
| Tokens.SanitizeIsStable | src/nanoidp/services/token.py:41-63 | requested claim names, once sanitized and written into a token, survive being read back and sanitized again |
| Tokens.SanitizedInOrder | src/nanoidp/services/token.py:41-63 | sanitizing keeps each string of a list in its place and drops every other entry |
| Tokens.SanitizedToNothing | src/nanoidp/services/token.py:41-63 | nothing is left exactly when no list was given or none of its entries is a string |
| Tokens.ResolveIdTokenAudience | src/nanoidp/services/token.py:148-195 | the loop computes the audience list and azp |
| Tokens.IdTokenAudienceIsSafe | src/nanoidp/services/token.py:148-195 | the client comes first, nothing repeats, azp comes exactly with several audiences, and the resource audience is never there unless the client is itself named so |
| GrantAnswers.ResponseSays | src/nanoidp/services/token.py:207-461 | what every response says: one user in all tokens, client and scope in access and refresh token, the access audience, the whole grant in the refresh token, expiry after the minutes asked for and after seven days, cut to the second, and no nonce outside the ID token |
| GrantAnswers.IdTokenSays | src/nanoidp/services/token.py:365-413 | a minted ID token comes exactly with openid, has the client first among its audiences, repeats none, carries azp exactly with several, is for oauth.audience only if the client is named so, and carries the nonce and authentication time of the grant |
| GrantAnswers.ClaimsTravel | src/nanoidp/services/token.py:365-447 | requested claims reach the tokens: those for /userinfo the access token, those for the ID token it, and both the refresh token |
| Grants.GrantRefreshToken | src/nanoidp/routes/oauth_grants.py:144-423 | the handler's checks in order, the claim on the store, and only then the resource request; verification and the claim read the clock separately |
| Grants.GrantAuthorizationCode | src/nanoidp/routes/oauth_grants.py:521-649 | the code is consumed before user, scope and resources are checked |
| Grants.GrantDeviceCode | src/nanoidp/routes/oauth_grants.py:727-857 | the poll, then scope and resources |
| GrantAnswers.RefreshIssuedExactly | src/nanoidp/routes/oauth_grants.py:144-423 | a refresh is answered with tokens if and only if the token is signed, a refresh token, for oauth.audience, unexpired and bound to the presenting client, its user exists, the scope asked for is within its own and permitted now, neither it nor its family is in force in the store, and the resources may be targeted; and what is then granted |
| GrantAnswers.RefreshRefusedExactly | src/nanoidp/routes/oauth_grants.py:144-423 | the error of every refused refresh, by the first condition that fails |
| GrantAnswers.RotatesExactly | src/nanoidp/routes/oauth_grants.py:373-381 | rotation is on by the setting, under OAuth 2.1, and for public clients |
| GrantAnswers.TargetExactly | src/nanoidp/routes/oauth_grants.py:78-141 | which resource requests are accepted, and that the token is bound to what was asked for, or else to what was authorized, each value once and in order |
| GrantAnswers.CodeGrantExactly | src/nanoidp/routes/oauth_grants.py:570-649 | a consumed code yields tokens if and only if its user exists and scope and resources fit now, for the authorization's own user, nonce, scope, time and claims; the errors otherwise |
| GrantAnswers.DeviceAnswers | src/nanoidp/routes/oauth_grants.py:727-857 | over every run of the device store, the answer a polling device gets: invalid_grant, expired_token, authorization_pending, access_denied, or the grant of the user who approved |
| GrantAnswers.PasswordGrantExactly | src/nanoidp/routes/oauth_grants.py:426-518 | which password requests are granted, with what scope when none is asked for, and the error of every other |
| Grants.CodeGrantIsSound | src/nanoidp/routes/oauth_grants.py:570-649 | scope as authorized and permitted now, resources within the authorization, which the grant remembers whole; auth_time is the code's creation |
| Grants.DeviceGrantIsSound | src/nanoidp/routes/oauth_grants.py:790-850 | the same for a device grant, with the time of approval |
| Grants.PasswordGrantIsSound | src/nanoidp/routes/oauth_grants.py:426-518 | a granted scope is permitted and the resources are remembered |
| Grants.RefreshIsSound | src/nanoidp/routes/oauth_grants.py:208-423 | a refreshed grant keeps user, client and remembered resources, and its scope is within the token's and permitted now |
| Grants.RefusalSpendsExactlyOnTarget | src/nanoidp/routes/oauth_grants.py:366-409 | a refused refresh spoils a fresh token exactly when it rotates, was admitted, its family stands and its resource request fails; an earlier refusal leaves the store alone |
| Grants.LateClaimIsAccepted | src/nanoidp/routes/oauth_grants.py:160-400 | one refresh token that expires at 100 is issued for twice: verified at 0 and at 99, claimed at 0 and at 100 |
| Grants.RefusedAndSpent | src/nanoidp/routes/oauth_grants.py:380-409 | such a request, under the OAuth 2.1 profile: refused with invalid_target, and the token is spent |
| GrantRuns.StoreAnswersLikeBooks | src/nanoidp/services/revocation.py:82-174 | over every run of the whole system each refresh request is answered as by books that never forget a spent token or a dead family |
| RevokedTokens.RevokedUntilExp | src/nanoidp/services/revocation.py:129-134 | at every moment of every run an access, ID or refresh token is reported revoked until its exp exactly when its id was spent or revoked before; an access or ID token that was logged out needs one revocation that was verified or found it with at most eight days left |
| GrantRuns.ReuseEndsTheFamily | src/nanoidp/services/revocation.py:159-174 | once reuse is detected under rotation no token of the family is ever accepted again, even after the marker is swept and even if one was being minted |
| GrantRuns.AcceptedAtMostOnce | src/nanoidp/services/revocation.py:159-174 | a refresh token accepted under rotation is never accepted again |
| GrantRuns.AtMostOneAcceptable | src/nanoidp/routes/oauth_grants.py:359-400 | with rotation on throughout, at every moment at most one token of a family would be accepted, and none while its successor is still to be minted |
| GrantRuns.HorizonBound | src/nanoidp/services/token.py:437-446 | every token of an issuance is gone within eight days of its grant, the retention of a family marker |
| GrantRuns.RunsKeepInv | src/nanoidp/services/revocation.py:82-174 | every reachable state keeps each spent token and dead family in the store for as long as any token needs it |
| GrantChains.ChainKeepsIdentity | src/nanoidp/services/token.py:415-447 | along a chain of refreshes user, client, family, remembered resources and requested claims never change |
| GrantChains.ChainNarrowsScope | src/nanoidp/routes/oauth_grants.py:219-303 | scope only shrinks from token to token, is permitted under the configuration of each refresh, and an ID token comes exactly with openid and carries the first authentication's time |
| GrantChains.ChainBoundsAudience | src/nanoidp/services/token.py:334-341 | every access token's audience lies within the first grant's resources, or is oauth.audience when there were none |
| GrantChains.IdTokensAreSafe | src/nanoidp/services/token.py:365-413 | in every run: an ID token begins with its client, repeats nothing, carries azp exactly with several audiences, never passes for an access token of another client, is for the user of its chain, and has a nonce only in the first response of one |
| GrantChains.NarrowingIsNotInherited | src/nanoidp/routes/oauth_grants.py:402-423 | what a refresh may ask for does not depend on earlier narrowing: it is granted exactly when it is acceptable against the first grant |
| ConfigWriter.Files.CompareAndReplaceMany | src/nanoidp/config_writer.py:374-405 | the three loops compute the batch's outcome and its effect on the files |
| ConfigWriter.BatchEffect | src/nanoidp/config_writer.py:350-405 | a refused batch changes nothing; a written one replaced exactly its files, each by the edit of what it held, over the revisions named; a failed write leaves a written prefix |
| ConfigWriter.BatchResultExactly | src/nanoidp/config_writer.py:374-405 | which result a batch gets, over revisions and contents: a repeated path, else the first item that names a revision the file does not have, else the first edit that raises, else written; an item that names no revision never conflicts |
| ConfigWriter.DirectoriesSorted | src/nanoidp/config_writer.py:378-378 | directory locks are taken in strictly increasing order, one for each directory of the batch |
| WriteProtocol.RunsKeepLocks | src/nanoidp/config_writer.py:379-381 | in every reachable state the lock tables give each thread exactly what it holds |
| WriteProtocol.Exclusive | src/nanoidp/config_writer.py:236-286 | a directory is held by one thread at a time |
| WriteProgress.NoDeadlock | src/nanoidp/config_writer.py:378-381 | while some call is in progress some thread can move, without anyone giving up |
| WriteProgress.SchedulesEnd | src/nanoidp/config_writer.py:378-405 | without new calls every schedule ends within a bound known beforehand |
| WriteLinear.RunsLinearize | src/nanoidp/config_writer.py:374-405 | for any interleaving every call got the result it gets alone at its place in the log, and the files are what running the log one call at a time leaves |
| WriteLinear.LoggedResultsExactly | src/nanoidp/config_writer.py:374-405 | in any interleaving each logged result is the one due to its batch on the files at its place in the log |
| WriteLinear.WrittenOverNamedRevisions | src/nanoidp/config_writer.py:384-405 | a successful batch wrote only over the bytes whose revisions it named and lost nobody's update |
| WriteLinear.RefusedCallsWriteNothing | src/nanoidp/config_writer.py:374-398 | a conflict, a raising edit, a repeated path or an unavailable lock changes no file |
| WriteManager.LoadedWasSeen | src/nanoidp/config.py:229-280 | the tracked revisions are those of bytes that were on disk at two moments of the run, settings read first, by a load that raised nowhere |
| WriteManager.TrackedIsTheLastLoad | src/nanoidp/config.py:228-329 | what is tracked are the bytes read by the last accepted load, whatever was read by refused ones since |
| WriteManager.TrackedSaveNeverClobbers | src/nanoidp/config.py:528-601 | in any interleaving with loads and everybody's writes, a save guarded by the manager's own tracked revisions replaces only bytes the manager itself read from that file earlier in the run, and when it succeeds leaves its edit of exactly those bytes |
| Yaml.NoPlaceholder | src/nanoidp/serialization.py:73-97 | a string without an opening placeholder is itself in every environment |
| Yaml.LonePlaceholder | src/nanoidp/serialization.py:73-97 | a placeholder with a default expands to its variable or the default, in one pass |
| Expansion.ExpandsInOrder | src/nanoidp/serialization.py:73-97 | the composition law: text, a placeholder with or without a default, and anything behind it expand to the text, the variable or the default or nothing, and the expansion of the rest |
| Expansion.PlaceholderExpands | src/nanoidp/serialization.py:73-97 | a placeholder in front of anything expands to its meaning, which is not expanded again |
| Expansion.OthersAreCopied | src/nanoidp/serialization.py:73-97 | a character at which no placeholder of the pattern begins is copied |
| Expansion.ExpandsLeaves | src/nanoidp/serialization.py:76-97 | strings are expanded at any depth of lists and mappings, nothing else is |
| Yaml.ReadingsDiffer | src/nanoidp/serialization.py:110-121 | on a text the loader accepts, the writer reads the same boolean except for t and y |
| Loading.FlagsExactly | src/nanoidp/config_documents.py:60-96 | which twelve words, in either case, load as a boolean |
| Loading.DigitsExactly | src/nanoidp/serialization.py:115-119 | an integer text is digits with single underscores between them, which mean nothing |
| Loading.IntegerRead | src/nanoidp/config_documents.py:60-64 | a signed decimal with blanks around it loads as its number |
| Loading.ListsExactly | src/nanoidp/models.py:28-53 | what loads as a list of a client entry: a text as a list of one, a list without its blanks |
| SettingsLens.WriteThenLoad | src/nanoidp/serialization.py:545-563 | an owned key, written over any raw text the loader accepts, loads as the saved value if and only if no boolean is misread |
| SettingsLens.SavingFalseOverT | src/nanoidp/serialization.py:112-114 | the concrete failure: `auto_login: t`, saved as false, loads as true |
| SettingsLens.WriteTwice | src/nanoidp/serialization.py:545-563 | saving a value twice is saving it once |
| SettingsLens.LoadedThenSavedIsVerbatim | src/nanoidp/serialization.py:100-121 | a value saved as it was loaded keeps its text to the letter, placeholders included, if and only if the loader did not have to change it |
| Minimal.WrittenExactly | src/nanoidp/serialization.py:545-592 | what a save leaves under an owned key: its text where that says the value, nothing where the value is blank or the default of an optional key, else the value |
| SettingsLens.WritersAgree | src/nanoidp/services/yaml_writer.py:28-57 | the form writer and the whole-document writer leave texts that load alike |
| ClientLens.MergeClientEntry | src/nanoidp/serialization.py:302-371 | the field loops compute the merged entry |
| ClientLens.MergedKeysAre | src/nanoidp/serialization.py:302-371 | key by key: client fields are merged against the raw entry, every other key stays |
| ClientLens.ToClientMatches | src/nanoidp/config_documents.py:102-128 | an entry loads as exactly the client whose fields its values read as, provided it has an id, and a secret unless its method is none |
| ClientLens.MergeThenLoad | src/nanoidp/serialization.py:302-371 | a merged entry loads as the client that was saved, exactly unless one of its two booleans is misread, and then only that boolean is wrong |
| ClientLens.NewThenLoad | src/nanoidp/serialization.py:263-299 | a new entry loads as its client |
| Minimal.NewEntryExactly | src/nanoidp/serialization.py:263-299 | a new entry has exactly the fields that are not at their default, and the description |
| Minimal.ChangedFieldExactly | src/nanoidp/serialization.py:302-371 | a changed field is written, or dropped when it is at its default |
| ClientLens.MergeOauthClients | src/nanoidp/serialization.py:374-399 | the loop computes the merged list |
| ClientLens.ClientsRoundTrip | src/nanoidp/serialization.py:374-399 | the whole list loads as the clients that were saved, in order, if and only if no boolean of theirs is misread |
| ClientLens.ClientsTwice | src/nanoidp/serialization.py:374-399 | a list just written is written again without change |
| ClientLens.SaveClientAgrees | src/nanoidp/services/yaml_writer.py:252-272 | saving one client through the YAML writer, or in memory and then as a whole, yields lists that load as the same clients |
| ClientVerbatim.LoadedEntryIsVerbatim | src/nanoidp/serialization.py:302-371 | a client entry loaded and merged back keeps every text, placeholders included, exactly when it has a description, no boolean only the loader reads, no blank secret, and every list in it is a list without blanks; and which fields change otherwise |
| ClientVerbatim.DescriptionSpelledOut | src/nanoidp/serialization.py:318-336 | an input that changes: an entry of an id and a secret gains an empty description when its untouched client is merged back |
| DocumentLens.Document.ApplySettingsDocument | src/nanoidp/serialization.py:523-592 | the table loop, the client merge and the four defaulted keys compute the new document in place |
| DocumentLens.Document.ApplyRow | src/nanoidp/serialization.py:545-563 | one row of the table, with setdefault and the three encodings |
| DocumentLens.Document.ApplyNested | src/nanoidp/serialization.py:124-157 | an optional key is omitted at its default and its section with it once empty |
| DocumentLens.AppliedLookup | src/nanoidp/serialization.py:523-592 | place by place: owned keys are written, the client list is merged, every key not owned is untouched |
| DocumentLens.SaveThenLoad | src/nanoidp/config_documents.py:333-419 | saving settings into any loadable document and loading it gives them back, every owned key and the whole client list, if and only if nothing is misread; the result always loads |
| DocumentLens.SaveTwice | src/nanoidp/serialization.py:523-592 | saving the same settings again changes nothing anywhere |
| DocumentTwice.SaveIsIdempotent | src/nanoidp/serialization.py:523-592 | the document after a second save is the very document after the first, sections and a bare or emptied login included |
| DocumentTwice.LoginIsNeverLeftEmpty | src/nanoidp/serialization.py:124-157 | a save leaves an empty login section only where there was one |
| DocumentLens.WritersAgreeOnClient | src/nanoidp/services/yaml_writer.py:239-272 | from a loaded document, save_client and a whole save of the same change leave documents with the same value at every owned key and the same client list |
| DocumentLens.MutateSection | src/nanoidp/services/yaml_writer.py:46-57 | the form loop computes the new section |
| DocumentLens.FormWriterAgrees | src/nanoidp/services/yaml_writer.py:28-57 | each provided value loads as after a whole save of that value, and keys without a provided value keep their text |
| Keys.CryptoService.RotateKeys | src/nanoidp/services/crypto.py:395-487 | the retired key goes in front, the list is cut to its maximum, and the directory follows |
| Keys.CryptoService.GetJwks | src/nanoidp/services/crypto.py:293-304 | the active key and the previous ones, in order |
| Keys.ReloadRebuilds | src/nanoidp/services/crypto.py:184-221 | reading back metadata and key files restores the list they were written from |
| Keys.LoadedFromDirectory | src/nanoidp/services/crypto.py:184-208 | a directory yields an entry for each key of its metadata whose file is there, and for no other |
| Keys.PreviousKeysAreTheLastRetired | src/nanoidp/services/crypto.py:401-487 | after any sequence of rotations and restarts the previous keys are the last retired, newest first, as many as the maximum allows, the directory has files for exactly those, and a reload rebuilds exactly them |
| Hooks.HookRegistry.AddShellHook | src/nanoidp/hooks.py:238-243 | a command declared again resumes its retired failure count |
| Hooks.HookRegistry.DropSource | src/nanoidp/hooks.py:281-296 | a source's entries go, their counters are retired, its policy and failures are forgotten |
| Hooks.HookRegistry.LoadPlugins | src/nanoidp/hooks.py:366-398 | each plugin is loaded or recorded as failed, and failures raise exactly under strict |
| Hooks.HookRegistry.ReplaceSource | src/nanoidp/hooks.py:321-335 | a failed replacement restores the registry exactly |
| Hooks.HookRegistry.Dispatch | src/nanoidp/hooks.py:464-497 | what runs, what is counted, and whether anything failed |
| HookLoads.ConfigManager.LoadConfig | src/nanoidp/config.py:163-183 | on_before_load, staging, and a commit whose only failing step comes first |
| HookLoads.FailedLoadChangesNothing | src/nanoidp/config.py:300-350 | a load that raises leaves registry and manager as on_before_load left them |
| HookDeclarations.LoadRaisesExactly | src/nanoidp/config.py:163-350 | a load raises if and only if on_before_load does, staging fails, or what the file declares is new, has a plugin that fails, and is strict; what it takes over otherwise |
| HookDeclarations.BeforeLoadExactly | src/nanoidp/hooks.py:464-497 | on_before_load raises exactly when a command or plugin of it runs and fails and failures are not tolerated, by settings.yaml or else bootstrap.yaml |
| HookDeclarations.CommandsAreDeclared | src/nanoidp/hooks.py:337-364 | over any sequence of loads, failed loads and dispatches the commands of settings.yaml are exactly those of the section last taken over, for all three hooks |
| HookPlugins.FailedPluginsExactly | src/nanoidp/hooks.py:366-398 | after a reload the failed plugins of settings.yaml are exactly its declarations that do not work or whose name is taken, in order |
| HookPlugins.CountResumes | src/nanoidp/hooks.py:262-296 | a plugin that a reload declares again goes on counting its failures where it stopped |
| HookPlugins.CountIsLost | src/nanoidp/hooks.py:262-279 | unless configuring it raised in between: then it starts again at zero |
| HookLoads.FailureCountIsFailedRuns | src/nanoidp/hooks.py:238-296 | over any sequence of loads, failed loads and dispatches, a settings.yaml command is one entry whose failure count is the number of its failed runs since the process started |

## Left out

- The bracket and NFKC checks that newer Python releases add to `urlsplit`: the plain component split is modelled, as both URI modules need it. With the bracket check the validator also refuses the absolute URI `http://[V1.a]/`, whose IPvFuture is written with a capital V.
- JWT encoding, signatures, SHA-256, RSA and certificates: opaque. S256 is a parameter of the code store.
- Two clock readings inside one refresh of the machine: `GrantRefreshToken` reads it separately for verification and claim, but a run takes one reading for both, and mints a response within a day of its grant. The effect of two readings is stated at the store (`SpentTokenIsRefusedExactlyUntil`).
- The client_credentials grant, `/introspect`, `/userinfo`, the MCP and `/api` minting paths, and extra claims on access tokens: no refresh chain runs through them.
- User attributes, authorities, and the values that requested claims resolve to: a token records the claim names.
- Client authentication at `/token` and the ownership check of `/revoke`: a revocation in the machine is one that was honoured.
- Writers that bypass the write pipeline, readers' views in the middle of a batch, temporary files and Windows retries: `os.replace` is one atomic step.
- Comments and quoting in YAML, floats, and the different YAML 1.1 and 1.2 readings of plain scalars: one document tree is shared by loader and writer. A YAML boolean is the number Python compares it equal to.
- Settings validators that only refuse a value (port range, rate notation, colours, enumerations): a parameter of the loader. Integer strings are read by one function on both sides.
- Keys outside the owned table, unknown keys under strict validation, and users.yaml: the lens leaves them alone.
- Profile hardening, and which value of a hardened field is persisted: assignments without a law of their own here.
- Integers written in non-ASCII digits, and lower-casing beyond ASCII.
- Plugin failure counters over whole histories, as for shell hooks: `CountIsLost` shows that the same law does not hold for them.
- Externally provided keys, and a different maximum of previous keys after a restart.
