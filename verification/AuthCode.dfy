/** services/auth_code.py: authorization codes with PKCE. Each call makes one clock reading. */
module AuthCode {
  import opened Common

  const CODE_LIFETIME := 600.0

  datatype AuthorizationCode = AuthorizationCode(
    code: string,
    clientId: string,
    redirectUri: string,
    scope: string,
    username: string,
    codeChallenge: Option<string>,
    codeChallengeMethod: Option<string>,
    nonce: Option<string>,
    resource: Option<seq<string>>,
    idTokenClaims: Option<seq<string>>,
    userinfoClaims: Option<seq<string>>,
    createdAt: real,
    expiresAt: real,
    used: bool)

  /** What a client asked for at /authorize; the store adds the code and the times. */
  datatype Authorization = Authorization(
    clientId: string,
    redirectUri: string,
    scope: string,
    username: string,
    codeChallenge: Option<string>,
    codeChallengeMethod: Option<string>,
    nonce: Option<string>,
    resource: Option<seq<string>>,
    idTokenClaims: Option<seq<string>>,
    userinfoClaims: Option<seq<string>>)

  function NewCode(code: string, a: Authorization, now: real): AuthorizationCode {
    AuthorizationCode(code, a.clientId, a.redirectUri, a.scope, a.username, a.codeChallenge, a.codeChallengeMethod,
                      a.nonce, a.resource, a.idTokenClaims, a.userinfoClaims, now, now + CODE_LIFETIME, false)
  }

  datatype Attempt = Attempt(code: string, clientId: string, redirectUri: string, codeVerifier: Option<string>)

  /** Raised is the UnicodeEncodeError of a verifier that is not ASCII. */
  datatype Outcome = Redeemed(authorization: AuthorizationCode) | Refused | Raised

  datatype Pkce = Matches | Differs | NotAscii

  predicate Ascii(s: string) { forall i | 0 <= i < |s| :: s[i] < '\U{80}' }

  /** _verify_pkce, with BASE64URL(SHA256(_)) as a parameter. */
  function VerifyPkce(s256: string -> string, verifier: string, challenge: string, method': Option<string>): Pkce {
    if method'.None? || method'.value == "plain" then
      if verifier == challenge then Matches else Differs
    else if method'.value == "S256" then
      if !Ascii(verifier) then NotAscii
      else if s256(verifier) == challenge then Matches else Differs
    else Differs
  }

  /** How an attempt fares against a live, unused code. */
  function Examine(s256: string -> string, c: AuthorizationCode, a: Attempt): Pkce {
    if c.clientId != a.clientId || c.redirectUri != a.redirectUri then Differs
    else if !Truthy(c.codeChallenge) then Matches
    else if !Truthy(a.codeVerifier) then Differs
    else VerifyPkce(s256, a.codeVerifier.value, c.codeChallenge.value, c.codeChallengeMethod)
  }

  type Codes = map<string, AuthorizationCode>

  function Live(codes: Codes, now: real): Codes {
    map k | k in codes && !(now > codes[k].expiresAt) :: codes[k]
  }

  function Created(codes: Codes, code: string, a: Authorization, now: real): Codes {
    Live(codes, now)[code := NewCode(code, a, now)]
  }

  /** consume_code: an expired or used code is forgotten, a mismatch changes nothing, a match is marked used. */
  function Consumed(s256: string -> string, codes: Codes, a: Attempt, now: real): (Codes, Outcome) {
    if a.code !in codes then (codes, Refused)
    else
      var c := codes[a.code];
      if now > c.expiresAt || c.used then (codes - {a.code}, Refused)
      else
        match Examine(s256, c, a)
        case Differs => (codes, Refused)
        case NotAscii => (codes, Raised)
        case Matches =>
          var used := c.(used := true);
          (codes[a.code := used], Redeemed(used))
  }

  class AuthCodeStore {
    var codes: Codes
    const s256: string -> string

    constructor (s256: string -> string)
      ensures codes == map[] && this.s256 == s256
    {
      codes := map[];
      this.s256 := s256;
    }

    method CleanupExpired(now: real)
      modifies this
      ensures codes == Live(old(codes), now)
    {
      var expired := set k | k in codes && now > codes[k].expiresAt;
      ghost var all := codes;
      while expired != {}
        invariant expired <= codes.Keys && forall k | k in codes :: k in all && codes[k] == all[k]
        invariant forall k | k in all :: k !in expired ==> (k in codes <==> !(now > all[k].expiresAt))
        invariant forall k | k in expired :: now > all[k].expiresAt
      {
        var code :| code in expired;
        expired := expired - {code};
        codes := codes - {code};
      }
    }

    method CreateCode(code: string, a: Authorization, now: real)
      modifies this
      ensures codes == Created(old(codes), code, a, now)
    {
      CleanupExpired(now);
      codes := codes[code := NewCode(code, a, now)];
    }

    method ConsumeCode(a: Attempt, now: real) returns (r: Outcome)
      modifies this
      ensures (codes, r) == Consumed(s256, old(codes), a, now)
    {
      if a.code !in codes {
        return Refused;
      }
      var authCode := codes[a.code];
      if now > authCode.expiresAt {
        codes := codes - {a.code};
        return Refused;
      }
      if authCode.used {
        codes := codes - {a.code};
        return Refused;
      }
      if authCode.clientId != a.clientId {
        return Refused;
      }
      if authCode.redirectUri != a.redirectUri {
        return Refused;
      }
      if Truthy(authCode.codeChallenge) {
        if !Truthy(a.codeVerifier) {
          return Refused;
        }
        var pkce := VerifyPkce(s256, a.codeVerifier.value, authCode.codeChallenge.value, authCode.codeChallengeMethod);
        if pkce.NotAscii? {
          return Raised;
        }
        if pkce.Differs? {
          return Refused;
        }
      }
      authCode := authCode.(used := true);
      codes := codes[a.code := authCode];
      return Redeemed(authCode);
    }
  }
}

/** The store, which forgets, against a ledger, which does not. */
module AuthCodeHistory {
  import opened Common
  import opened AuthCode

  datatype Event =
    | Create(code: string, authorization: Authorization, at: real)
    | Consume(attempt: Attempt, at: real)
    | Cleanup(at: real)

  /** Every code ever issued, and the ones redeemed. */
  datatype Ledger = Ledger(issued: Codes, redeemed: set<string>)

  /** A code is good once, until it expires, for the client and redirect URI it was issued to, with the verifier
      its challenge asks for. */
  function Judge(s256: string -> string, l: Ledger, a: Attempt, now: real): Outcome {
    if a.code !in l.issued || a.code in l.redeemed || now > l.issued[a.code].expiresAt then Refused
    else
      match Examine(s256, l.issued[a.code], a)
      case Differs => Refused
      case NotAscii => Raised
      case Matches => Redeemed(l.issued[a.code].(used := true))
  }

  function Entered(s256: string -> string, l: Ledger, e: Event): Ledger {
    match e
    case Create(code, a, at) => l.(issued := l.issued[code := NewCode(code, a, at)])
    case Consume(a, at) => if Judge(s256, l, a, at).Redeemed? then l.(redeemed := l.redeemed + {a.code}) else l
    case Cleanup(_) => l
  }

  function Applied(s256: string -> string, codes: Codes, e: Event): Codes {
    match e
    case Create(code, a, at) => Created(codes, code, a, at)
    case Consume(a, at) => Consumed(s256, codes, a, at).0
    case Cleanup(at) => Live(codes, at)
  }

  function LedgerAfter(s256: string -> string, events: seq<Event>): Ledger {
    if events == [] then Ledger(map[], {})
    else Entered(s256, LedgerAfter(s256, events[..|events| - 1]), events[|events| - 1])
  }

  function CodesAfter(s256: string -> string, events: seq<Event>): Codes {
    if events == [] then map[]
    else Applied(s256, CodesAfter(s256, events[..|events| - 1]), events[|events| - 1])
  }

  /** The clock does not go back, and a new code repeats none before it. */
  predicate Possible(events: seq<Event>) {
    (forall i, j | 0 <= i < j < |events| :: events[i].at <= events[j].at)
    && forall i, j | 0 <= i < j < |events| && events[i].Create? && events[j].Create? :: events[i].code != events[j].code
  }

  /** What the store still holds is what the ledger says; what it lost is spent or expired. */
  ghost predicate Matching(codes: Codes, l: Ledger, now: real) {
    codes.Keys <= l.issued.Keys
    && (forall k | k in l.issued :: !l.issued[k].used)
    && (forall k | k in codes :: codes[k] == l.issued[k].(used := k in l.redeemed))
    && (forall k | k in l.issued && k !in codes :: k in l.redeemed || now > l.issued[k].expiresAt)
  }

  ghost predicate Fresh(l: Ledger, e: Event) {
    e.Create? ==> e.code !in l.issued && e.code !in l.redeemed
  }

  lemma ConsumeMatches(s256: string -> string, codes: Codes, l: Ledger, now: real, a: Attempt, at: real)
    requires Matching(codes, l, now) && now <= at
    ensures Matching(Consumed(s256, codes, a, at).0, Entered(s256, l, Consume(a, at)), at)
    ensures Consumed(s256, codes, a, at).1 == Judge(s256, l, a, at)
  {
    hide VerifyPkce, Examine;
    if a.code in codes {
      assert codes[a.code].(used := true) == l.issued[a.code].(used := true);
      assert a.code !in l.redeemed ==> codes[a.code] == l.issued[a.code];
    }
  }

  lemma StepMatches(s256: string -> string, codes: Codes, l: Ledger, now: real, e: Event)
    requires Matching(codes, l, now) && now <= e.at && Fresh(l, e)
    ensures Matching(Applied(s256, codes, e), Entered(s256, l, e), e.at)
    ensures e.Consume? ==> Consumed(s256, codes, e.attempt, e.at).1 == Judge(s256, l, e.attempt, e.at)
  {
    if e.Consume? {
      ConsumeMatches(s256, codes, l, now, e.attempt, e.at);
      hide Matching, Consumed, Judge;
    }
  }

  lemma {:induction false} IssuedWereCreated(s256: string -> string, events: seq<Event>)
    ensures forall k | k in LedgerAfter(s256, events).issued :: exists i | 0 <= i < |events| ::
              events[i].Create? && events[i].code == k
              && LedgerAfter(s256, events).issued[k] == NewCode(k, events[i].authorization, events[i].at)
    ensures LedgerAfter(s256, events).redeemed <= LedgerAfter(s256, events).issued.Keys
  {
    if events != [] {
      var init := events[..|events| - 1];
      IssuedWereCreated(s256, init);
      var l, l' := LedgerAfter(s256, init), LedgerAfter(s256, events);
      forall k | k in l'.issued
        ensures exists i | 0 <= i < |events| :: events[i].Create? && events[i].code == k
                  && l'.issued[k] == NewCode(k, events[i].authorization, events[i].at)
      {
        if k in l.issued && l.issued[k] == l'.issued[k] {
          var i :| 0 <= i < |init| && init[i].Create? && init[i].code == k
                   && l.issued[k] == NewCode(k, init[i].authorization, init[i].at);
          assert events[i] == init[i];
        } else {
          assert events[|events| - 1].Create?;
        }
      }
    }
  }

  lemma {:induction false} RunsMatch(s256: string -> string, events: seq<Event>, now: real)
    requires Possible(events) && forall i | 0 <= i < |events| :: events[i].at <= now
    ensures Matching(CodesAfter(s256, events), LedgerAfter(s256, events), now)
  {
    if events != [] {
      var init, e := events[..|events| - 1], events[|events| - 1];
      RunsMatch(s256, init, e.at);
      IssuedWereCreated(s256, init);
      var l := LedgerAfter(s256, init);
      assert forall i | 0 <= i < |init| :: events[i] == init[i];
      assert Fresh(l, e);
      StepMatches(s256, CodesAfter(s256, init), l, e.at, e);
    }
  }

  lemma PossiblePrefix(events: seq<Event>, e: Event)
    requires Possible(events + [e])
    ensures Possible(events) && forall i | 0 <= i < |events| :: events[i].at <= e.at
  {
    var all := events + [e];
    assert all[|events|] == e;
    assert forall i | 0 <= i < |events| :: all[i] == events[i];
  }

  /** Over every run the store answers each attempt as the ledger that never forgets: at most one redemption per
      code, in time, by the right client, and any failed attempt leaves an unused code as good as it was. */
  lemma AnswersMatchLedger(s256: string -> string, events: seq<Event>, a: Attempt, now: real)
    requires Possible(events + [Consume(a, now)])
    ensures Consumed(s256, CodesAfter(s256, events), a, now).1 == Judge(s256, LedgerAfter(s256, events), a, now)
  {
    PossiblePrefix(events, Consume(a, now));
    RunsMatch(s256, events, now);
    StepMatches(s256, CodesAfter(s256, events), LedgerAfter(s256, events), now, Consume(a, now));
  }

  // ---------------------------------------------------------------- which attempts are redeemed

  /** section 4.6 of RFC 7636: no challenge was made, or the verifier answers it under the method it named. */
  predicate Answers(s256: string -> string, asked: Authorization, verifier: Option<string>) {
    || asked.codeChallenge == None
    || asked.codeChallenge == Some("")
    || (verifier.Some? && verifier.value != ""
        && match asked.codeChallengeMethod
           case None => verifier == asked.codeChallenge
           case Some(m) =>
             || (m == "plain" && verifier == asked.codeChallenge)
             || (m == "S256" && (forall i | 0 <= i < |verifier.value| :: verifier.value[i] as int < 128)
                 && Some(s256(verifier.value)) == asked.codeChallenge))
  }

  /** The client and redirect URI of the authorization, within ten minutes, and an answer to its challenge. */
  predicate Deserves(s256: string -> string, asked: Authorization, createdAt: real, a: Attempt, now: real) {
    now <= createdAt + 600.0 && a.clientId == asked.clientId && a.redirectUri == asked.redirectUri
    && Answers(s256, asked, a.codeVerifier)
  }

  lemma JudgedExactly(s256: string -> string, l: Ledger, asked: Authorization, at: real, a: Attempt, now: real)
    requires a.code in l.issued && l.issued[a.code] == NewCode(a.code, asked, at) && a.code !in l.redeemed
    ensures Judge(s256, l, a, now).Redeemed? <==> Deserves(s256, asked, at, a, now)
    ensures Judge(s256, l, a, now).Redeemed? ==>
              Judge(s256, l, a, now).authorization == NewCode(a.code, asked, at).(used := true)
    ensures Judge(s256, l, a, now).Raised?
            <==> && now <= at + 600.0 && a.clientId == asked.clientId && a.redirectUri == asked.redirectUri
                 && asked.codeChallenge != None && asked.codeChallenge != Some("")
                 && asked.codeChallengeMethod == Some("S256")
                 && a.codeVerifier.Some?
                 && exists i | 0 <= i < |a.codeVerifier.value| :: a.codeVerifier.value[i] as int >= 128
  {
  }

  /** Some attempt of the history redeemed the code. */
  ghost predicate RedeemedIn(s256: string -> string, events: seq<Event>, code: string) {
    exists j | 0 <= j < |events| :: RedeemsAt(s256, events, j, code)
  }

  predicate RedeemsAt(s256: string -> string, events: seq<Event>, j: nat, code: string)
    requires j < |events|
  {
    events[j].Consume? && events[j].attempt.code == code
    && Consumed(s256, CodesAfter(s256, events[..j]), events[j].attempt, events[j].at).1.Redeemed?
  }

  lemma {:induction false} RedeemedExactly(s256: string -> string, events: seq<Event>, code: string)
    requires Possible(events)
    ensures code in LedgerAfter(s256, events).redeemed <==> RedeemedIn(s256, events, code)
  {
    if events != [] {
      var init, e := events[..|events| - 1], events[|events| - 1];
      assert events == init + [e];
      PossiblePrefix(init, e);
      RedeemedExactly(s256, init, code);
      assert forall j | 0 <= j < |init| :: events[..j] == init[..j] && events[j] == init[j];
      assert forall j | 0 <= j < |init| :: RedeemsAt(s256, events, j, code) == RedeemsAt(s256, init, j, code);
      if e.Consume? {
        AnswersMatchLedger(s256, init, e.attempt, e.at);
      }
      assert RedeemsAt(s256, events, |init|, code)
             <==> e.Consume? && e.attempt.code == code
                  && Judge(s256, LedgerAfter(s256, init), e.attempt, e.at).Redeemed?;
      hide RedeemsAt, Judge, Consumed, Possible;
    }
  }

  lemma {:induction false} CreatedIsIssued(s256: string -> string, events: seq<Event>, i: nat)
    requires Possible(events) && i < |events| && events[i].Create?
    ensures var l := LedgerAfter(s256, events);
            events[i].code in l.issued
            && l.issued[events[i].code] == NewCode(events[i].code, events[i].authorization, events[i].at)
  {
    var init, e := events[..|events| - 1], events[|events| - 1];
    if i < |init| {
      assert events == init + [e];
      PossiblePrefix(init, e);
      CreatedIsIssued(s256, init, i);
    }
    hide Judge, NewCode;
  }

  predicate IssuedAt(events: seq<Event>, i: nat, code: string) {
    i < |events| && events[i].Create? && events[i].code == code
  }

  lemma JudgedIssued(s256: string -> string, events: seq<Event>, i: nat, a: Attempt, now: real)
    requires Possible(events) && IssuedAt(events, i, a.code)
    ensures var l := LedgerAfter(s256, events);
            && a.code in l.issued
            && (a.code !in l.redeemed ==>
                  (Judge(s256, l, a, now).Redeemed? <==> Deserves(s256, events[i].authorization, events[i].at, a, now)))
  {
    CreatedIsIssued(s256, events, i);
    var l := LedgerAfter(s256, events);
    hide LedgerAfter, Judge, Deserves, Possible, NewCode;
    if a.code !in l.redeemed {
      JudgedExactly(s256, l, events[i].authorization, events[i].at, a, now);
    }
  }

  lemma JudgedUnfit(s256: string -> string, l: Ledger, a: Attempt, now: real)
    requires a.code !in l.issued || a.code in l.redeemed
    ensures Judge(s256, l, a, now) == Refused
  {
    hide Examine;
  }

  lemma IssuedSomewhere(s256: string -> string, events: seq<Event>, code: string)
    requires code in LedgerAfter(s256, events).issued
    ensures exists i | 0 <= i < |events| :: IssuedAt(events, i, code)
  {
    IssuedWereCreated(s256, events);
    hide LedgerAfter, NewCode;
    var i :| 0 <= i < |events| && events[i].Create? && events[i].code == code;
    assert IssuedAt(events, i, code);
  }

  /** Over every run: an attempt is redeemed exactly when its code was issued, nobody redeemed it before, and the
      attempt deserves it. */
  lemma RedemptionExactly(s256: string -> string, events: seq<Event>, a: Attempt, now: real)
    requires Possible(events + [Consume(a, now)])
    ensures Consumed(s256, CodesAfter(s256, events), a, now).1.Redeemed?
            <==> !RedeemedIn(s256, events, a.code)
                 && exists i | 0 <= i < |events| ::
                      IssuedAt(events, i, a.code)
                      && Deserves(s256, events[i].authorization, events[i].at, a, now)
  {
    hide Consumed, CodesAfter, LedgerAfter, RedeemedIn, Possible, Judge, Deserves, Examine, Answers;
    PossiblePrefix(events, Consume(a, now));
    AnswersMatchLedger(s256, events, a, now);
    RedeemedExactly(s256, events, a.code);
    var l := LedgerAfter(s256, events);
    forall i | 0 <= i < |events| && IssuedAt(events, i, a.code)
      ensures a.code in l.issued
      ensures a.code !in l.redeemed ==>
                (Judge(s256, l, a, now).Redeemed?
                 <==> Deserves(s256, events[i].authorization, events[i].at, a, now))
    {
      JudgedIssued(s256, events, i, a, now);
    }
    if a.code !in l.issued || a.code in l.redeemed {
      JudgedUnfit(s256, l, a, now);
    } else {
      IssuedSomewhere(s256, events, a.code);
    }
  }

  /** What /token reads from a redeemed code: what /authorize stored in it, and when. */
  predicate Carries(c: AuthorizationCode, asked: Authorization, at: real) {
    c.username == asked.username && c.scope == asked.scope && c.nonce == asked.nonce && c.resource == asked.resource
    && c.idTokenClaims == asked.idTokenClaims && c.userinfoClaims == asked.userinfoClaims && c.createdAt == at
  }

  /** A redemption returns the authorization as it was created, to the client it was issued to, in time, with an
      answer to its challenge. */
  lemma RedemptionIsFaithful(s256: string -> string, events: seq<Event>, a: Attempt, now: real) returns (i: nat)
    requires Possible(events + [Consume(a, now)])
    requires Consumed(s256, CodesAfter(s256, events), a, now).1.Redeemed?
    ensures i < |events| && events[i].Create? && events[i].code == a.code
    ensures Consumed(s256, CodesAfter(s256, events), a, now).1
            == Redeemed(NewCode(a.code, events[i].authorization, events[i].at).(used := true))
    ensures Deserves(s256, events[i].authorization, events[i].at, a, now)
    ensures Carries(Consumed(s256, CodesAfter(s256, events), a, now).1.authorization, events[i].authorization,
                    events[i].at)
  {
    AnswersMatchLedger(s256, events, a, now);
    IssuedWereCreated(s256, events);
    i :| 0 <= i < |events| && events[i].Create? && events[i].code == a.code
         && LedgerAfter(s256, events).issued[a.code] == NewCode(a.code, events[i].authorization, events[i].at);
    JudgedExactly(s256, LedgerAfter(s256, events), events[i].authorization, events[i].at, a, now);
    hide Judge, Answers;
  }

  lemma {:induction false} RedeemedStays(s256: string -> string, events: seq<Event>, more: seq<Event>)
    ensures LedgerAfter(s256, events).redeemed <= LedgerAfter(s256, events + more).redeemed
  {
    if more == [] {
      assert events + more == events;
    } else {
      RedeemedStays(s256, events, more[..|more| - 1]);
      assert (events + more)[..|events + more| - 1] == events + more[..|more| - 1];
    }
  }

  /** Once redeemed, never again, whatever happens between. */
  lemma RedeemedAtMostOnce(s256: string -> string, events: seq<Event>, first: Attempt, at: real,
                           between: seq<Event>, second: Attempt, now: real)
    requires Possible(events + [Consume(first, at)] + between + [Consume(second, now)])
    requires Consumed(s256, CodesAfter(s256, events), first, at).1.Redeemed? && second.code == first.code
    ensures Consumed(s256, CodesAfter(s256, events + [Consume(first, at)] + between), second, now).1 == Refused
  {
    var spent := events + [Consume(first, at)];
    var run := spent + between;
    AnswersMatchLedger(s256, run, second, now);
    PossiblePrefix(run, Consume(second, now));
    assert Possible(spent) by {
      assert forall i | 0 <= i < |spent| :: run[i] == spent[i];
    }
    AnswersMatchLedger(s256, events, first, at);
    assert spent[..|events|] == events;
    assert first.code in LedgerAfter(s256, spent).redeemed;
    RedeemedStays(s256, spent, between);
  }

  /** Failed attempts are invisible: judging an unused, unexpired code does not depend on how many were made. */
  lemma FailedAttemptChangesNothing(s256: string -> string, events: seq<Event>, failed: Attempt, at: real,
                                    a: Attempt, now: real)
    requires Possible(events + [Consume(failed, at)] + [Consume(a, now)])
    requires !Consumed(s256, CodesAfter(s256, events), failed, at).1.Redeemed?
    ensures Consumed(s256, CodesAfter(s256, events + [Consume(failed, at)]), a, now).1
            == Judge(s256, LedgerAfter(s256, events), a, now)
  {
    var run := events + [Consume(failed, at)];
    AnswersMatchLedger(s256, run, a, now);
    PossiblePrefix(run, Consume(a, now));
    AnswersMatchLedger(s256, events, failed, at);
    assert run[..|events|] == events && run[|events|] == Consume(failed, at);
  }

  // ---------------------------------------------------------------- which codes are still stored

  /** Event `j` makes the store forget the code of event `i`: any cleanup once it has expired, which a creation makes
      first, and any attempt at it once it has expired or been redeemed. */
  ghost predicate Forgets(s256: string -> string, events: seq<Event>, i: nat, j: nat)
    requires i < j < |events| && events[i].Create?
  {
    var late := events[j].at > events[i].at + 600.0;
    if events[j].Consume? then
      events[j].attempt.code == events[i].code && (late || RedeemedIn(s256, events[..j], events[i].code))
    else late
  }

  ghost predicate StillHeld(s256: string -> string, events: seq<Event>, i: nat, code: string) {
    IssuedAt(events, i, code) && forall j | i < j < |events| :: !Forgets(s256, events, i, j)
  }

  lemma HeldIs(s256: string -> string, events: seq<Event>, i: nat, code: string)
    requires Possible(events) && IssuedAt(events, i, code) && code in CodesAfter(s256, events)
    ensures var c := CodesAfter(s256, events)[code];
            c.expiresAt == events[i].at + 600.0 && (c.used <==> RedeemedIn(s256, events, code))
  {
    assert forall k | 0 <= k < |events| :: events[k].at <= events[|events| - 1].at;
    RunsMatch(s256, events, events[|events| - 1].at);
    CreatedIsIssued(s256, events, i);
    RedeemedExactly(s256, events, code);
    hide RedeemedIn, Possible;
  }

  lemma AppliedForgets(s256: string -> string, codes: Codes, e: Event, code: string)
    requires code in codes && (e.Create? ==> e.code != code)
    ensures var late := e.at > codes[code].expiresAt;
            code !in Applied(s256, codes, e)
            <==> if e.Consume? then e.attempt.code == code && (late || codes[code].used) else late
  {
    hide Examine;
  }

  /** What the last event does to a code that was stored until then. */
  lemma LastForgets(s256: string -> string, init: seq<Event>, e: Event, i: nat, code: string)
    requires Possible(init + [e]) && Possible(init) && IssuedAt(init, i, code) && code in CodesAfter(s256, init)
    ensures code in Applied(s256, CodesAfter(s256, init), e) <==> !Forgets(s256, init + [e], i, |init|)
  {
    var events := init + [e];
    assert events[i] == init[i] && events[|init|] == e && events[..|init|] == init;
    assert e.Create? ==> e.code != code;
    hide RedeemedIn, Applied, Possible, CodesAfter;
    HeldIs(s256, init, i, code);
    AppliedForgets(s256, CodesAfter(s256, init), e, code);
  }

  lemma HeldStep(s256: string -> string, init: seq<Event>, e: Event, i: nat, code: string)
    requires i < |init|
    ensures StillHeld(s256, init + [e], i, code)
            <==> StillHeld(s256, init, i, code) && !Forgets(s256, init + [e], i, |init|)
  {
    var events := init + [e];
    assert events[i] == init[i] && events[|init|] == e;
    if IssuedAt(init, i, code) {
      forall j | i < j < |init| ensures Forgets(s256, events, i, j) <==> Forgets(s256, init, i, j) {
        assert events[..j] == init[..j] && events[j] == init[j];
      }
    }
    hide Forgets;
  }

  /** Over every run: the store holds a code exactly when it was issued and nothing since made the store forget it. */
  lemma {:induction false} StoredExactly(s256: string -> string, events: seq<Event>, code: string)
    requires Possible(events)
    ensures code in CodesAfter(s256, events) <==> exists i | 0 <= i < |events| :: StillHeld(s256, events, i, code)
  {
    if events != [] {
      var init, e := events[..|events| - 1], events[|events| - 1];
      assert events == init + [e];
      PossiblePrefix(init, e);
      StoredExactly(s256, init, code);
      forall i | 0 <= i < |init|
        ensures StillHeld(s256, events, i, code)
                <==> StillHeld(s256, init, i, code) && !Forgets(s256, events, i, |init|)
      {
        HeldStep(s256, init, e, i, code);
      }
      assert StillHeld(s256, events, |init|, code) <==> e.Create? && e.code == code;
      forall i | 0 <= i < |init| && StillHeld(s256, init, i, code)
        ensures code in CodesAfter(s256, init)
        ensures code in CodesAfter(s256, events) <==> !Forgets(s256, events, i, |init|)
      {
        LastForgets(s256, init, e, i, code);
      }
      hide StillHeld, Forgets, Possible, Consumed;
      if code !in CodesAfter(s256, init) {
        NotStored(s256, CodesAfter(s256, init), e, code);
      }
    }
  }

  lemma NotStored(s256: string -> string, codes: Codes, e: Event, code: string)
    requires code !in codes
    ensures code in Applied(s256, codes, e) <==> e.Create? && e.code == code
  {
    hide Examine;
  }
}
