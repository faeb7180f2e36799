/** services/scope.py and the parts of models.py it reads. */
module Scope {
  import opened Common

  datatype Profile = Dev | StricterDev | OAuth21

  datatype Client = Client(
    clientId: string,
    isPublic: bool,
    allowedScopes: seq<string>,
    allowedResources: seq<string>,
    additionalAudiences: seq<string>)

  datatype Settings = Settings(
    audience: string,
    profile: Profile,
    refreshTokenRotation: bool,
    scopeEnforcement: bool,
    scopesSupported: seq<string>)
  {
    predicate RotationEnabled() { refreshTokenRotation || profile.OAuth21? }

    predicate PasswordGrantEnabled() { !profile.OAuth21? }

    predicate ScopeEnforcementActive() { scopeEnforcement || !profile.Dev? }
  }

  datatype Config = Config(settings: Settings, clients: seq<Client>, users: set<string>)

  /** get_client: the first client with that id. */
  function GetClient(clients: seq<Client>, clientId: string): (c: Option<Client>)
    ensures c.Some? ==> c.value in clients && c.value.clientId == clientId
  {
    if clients == [] then None
    else if clients[0].clientId == clientId then Some(clients[0])
    else GetClient(clients[1..], clientId)
  }

  predicate FirstWithId(clients: seq<Client>, clientId: string, i: nat) {
    i < |clients| && clients[i].clientId == clientId && forall j | 0 <= j < i :: clients[j].clientId != clientId
  }

  /** None exactly when nobody has the id; otherwise the first that does. */
  lemma {:induction false} GetClientIsFirst(clients: seq<Client>, clientId: string)
    ensures GetClient(clients, clientId).None? <==> forall c | c in clients :: c.clientId != clientId
    ensures GetClient(clients, clientId).Some? ==>
              exists i: nat | i < |clients| ::
                FirstWithId(clients, clientId, i) && GetClient(clients, clientId).value == clients[i]
  {
    if clients != [] {
      assert clients == [clients[0]] + clients[1..];
      if clients[0].clientId == clientId {
        assert FirstWithId(clients, clientId, 0);
      } else {
        GetClientIsFirst(clients[1..], clientId);
        if GetClient(clients, clientId).Some? {
          var i: nat :| i < |clients[1..]| && FirstWithId(clients[1..], clientId, i)
                        && GetClient(clients[1..], clientId).value == clients[1..][i];
          assert clients[i + 1] == clients[1..][i];
          forall j | 0 <= j < i + 1 ensures clients[j].clientId != clientId {
            assert j > 0 ==> clients[j] == clients[1..][j - 1];
          }
          assert FirstWithId(clients, clientId, i + 1);
        }
      }
    }
  }

  // ---------------------------------------------------------------- str.split and str.join

  predicate IsSpace(c: char) {
    '\t' <= c <= '\r' || '\U{1c}' <= c <= ' ' || c == '\U{85}' || c == '\U{a0}' || c == '\U{1680}'
    || '\U{2000}' <= c <= '\U{200a}' || c == '\U{2028}' || c == '\U{2029}' || c == '\U{202f}'
    || c == '\U{205f}' || c == '\U{3000}'
  }

  /** The blanks str.split and str.strip know, by code point. */
  lemma BlanksSpelledOut(c: char)
    ensures IsSpace(c) <==> c as int in {
              0x9, 0xa, 0xb, 0xc, 0xd, 0x1c, 0x1d, 0x1e, 0x1f, 0x20, 0x85, 0xa0, 0x1680, 0x2000, 0x2001, 0x2002, 0x2003,
              0x2004, 0x2005, 0x2006, 0x2007, 0x2008, 0x2009, 0x200a, 0x2028, 0x2029, 0x202f, 0x205f, 0x3000}
  {
  }

  function WordEnd(s: string): (n: nat)
    ensures n <= |s|
    ensures s != "" && !IsSpace(s[0]) ==> n > 0
  {
    if s == "" || IsSpace(s[0]) then 0 else 1 + WordEnd(s[1..])
  }

  function Words(s: string): seq<string>
    decreases |s|
  {
    if s == "" then []
    else if IsSpace(s[0]) then Words(s[1..])
    else [s[..WordEnd(s)]] + Words(s[WordEnd(s)..])
  }

  function ScopeSet(scope: Option<string>): set<string> {
    if scope.None? then {} else set w | w in Words(scope.value)
  }

  function Joined(words: seq<string>): string {
    if words == [] then ""
    else if |words| == 1 then words[0]
    else words[0] + " " + Joined(words[1..])
  }

  // ---------------------------------------------------------------- resolve_scope

  datatype ScopeResult =
    | Granted(scope: Option<string>)
    | OutsideVocabulary(names: set<string>)
    | NotAllowed(names: set<string>)

  function Except(scope: set<string>, allowed: seq<string>): (r: set<string>)
    ensures r == {} <==> forall t | t in scope :: t in allowed
    ensures forall t :: t in r <==> t in scope && t !in allowed
  {
    var r := set t | t in scope && t !in allowed;
    assert forall t | t in scope && t !in allowed :: t in r;
    r
  }

  function ResolveScope(requested: Option<string>, client: Client, vocabulary: seq<string>, enforcement: bool,
                        defaultWhenOmitted: Option<string>, validateOnly: bool): ScopeResult
  {
    if !enforcement then
      Granted(if validateOnly then requested else OrElse(requested, defaultWhenOmitted))
    else
      var effective :=
        if validateOnly then requested
        else OrElse(requested,
                    if client.allowedScopes != [] then Some(Joined(client.allowedScopes)) else defaultWhenOmitted);
      if !Truthy(effective) then Granted(effective)
      else
        var outside := Except(ScopeSet(effective), vocabulary);
        if outside != {} then OutsideVocabulary(outside)
        else
          var disallowed := Except(ScopeSet(effective), client.allowedScopes);
          if client.allowedScopes != [] && disallowed != {} then NotAllowed(disallowed)
          else Granted(effective)
  }

  /** What a client may have under the current configuration. */
  predicate Permitted(scope: set<string>, client: Client, vocabulary: seq<string>) {
    forall t | t in scope :: t in vocabulary && (client.allowedScopes != [] ==> t in client.allowedScopes)
  }

  /** A re-check never changes a scope: it passes it on exactly when every value is permitted. */
  lemma RecheckIsExact(scope: Option<string>, client: Client, vocabulary: seq<string>, enforcement: bool)
    ensures var r := ResolveScope(scope, client, vocabulary, enforcement, None, true);
            && (r.Granted? <==> !enforcement || Permitted(ScopeSet(scope), client, vocabulary))
            && (r.Granted? ==> r.scope == scope)
            && (r.OutsideVocabulary? ==>
                  r.names != {} && forall t :: t in r.names <==> t in ScopeSet(scope) && t !in vocabulary)
            && (r.NotAllowed? ==>
                  && r.names != {} && (forall t | t in ScopeSet(scope) :: t in vocabulary)
                  && forall t :: t in r.names <==> t in ScopeSet(scope) && t !in client.allowedScopes)
  {
  }

  /** What a request surface grants: what was asked for; without that, under enforcement, the client's whole allow-list
      if it has one; otherwise the default. It refuses exactly what enforcement does not permit. */
  lemma RequestExactly(requested: Option<string>, client: Client, vocabulary: seq<string>, enforcement: bool,
                       default: Option<string>)
    ensures var r := ResolveScope(requested, client, vocabulary, enforcement, default, false);
            var scope := if requested != None && requested != Some("") then requested
                         else if enforcement && client.allowedScopes != [] then Some(Joined(client.allowedScopes))
                         else default;
            && (r.Granted? <==> !enforcement || Permitted(ScopeSet(scope), client, vocabulary))
            && (r.Granted? ==> r.scope == scope)
            && (r.OutsideVocabulary? <==> enforcement && exists t | t in ScopeSet(scope) :: t !in vocabulary)
            && (r.OutsideVocabulary? ==> forall t :: t in r.names <==> t in ScopeSet(scope) && t !in vocabulary)
            && (r.NotAllowed? ==> forall t :: t in r.names <==> t in ScopeSet(scope) && t !in client.allowedScopes)
  {
    assert Words("") == [];
    hide Joined, Words;
  }

  /** A token of a scope string: not empty, no blank in it. */
  predicate IsWord(w: string) { w != "" && forall i | 0 <= i < |w| :: !IsSpace(w[i]) }

  lemma {:induction false} WordEnds(w: string, rest: string)
    requires (forall i | 0 <= i < |w| :: !IsSpace(w[i])) && (rest == "" || IsSpace(rest[0]))
    ensures WordEnd(w + rest) == |w|
  {
    if w == "" {
      assert w + rest == rest;
    } else {
      assert (w + rest)[1..] == w[1..] + rest;
      WordEnds(w[1..], rest);
    }
  }

  lemma FirstWord(w: string, rest: string)
    requires IsWord(w) && (rest == "" || IsSpace(rest[0]))
    ensures Words(w + rest) == [w] + Words(rest)
  {
    WordEnds(w, rest);
    assert (w + rest)[0] == w[0];
    assert (w + rest)[..|w|] == w && (w + rest)[|w|..] == rest;
    hide WordEnd;
  }

  lemma BlankSkipped(rest: string)
    ensures Words(" " + rest) == Words(rest)
  {
    assert (" " + rest)[1..] == rest;
  }

  /** The joined allow-list is read back as its entries, in order. */
  lemma {:induction false} WordsOfJoined(words: seq<string>)
    requires forall i | 0 <= i < |words| :: IsWord(words[i])
    ensures Words(Joined(words)) == words
  {
    if words != [] {
      assert words == [words[0]] + words[1..];
      hide Words, IsWord, IsSpace;
      if |words| == 1 {
        FirstWord(words[0], "");
        NoWords();
        assert words[0] + "" == words[0];
      } else {
        WordsOfJoined(words[1..]);
        BlankSkipped(Joined(words[1..]));
        BlankInFront(Joined(words[1..]));
        FirstWord(words[0], " " + Joined(words[1..]));
        assert Joined(words) == words[0] + (" " + Joined(words[1..]));
      }
    }
  }

  lemma NoWords()
    ensures Words("") == []
  {
  }

  lemma BlankInFront(rest: string)
    ensures IsSpace((" " + rest)[0])
  {
  }

  /** A request surface grants only permitted values, whether the scope was asked for or defaulted. */
  lemma RequestIsPermitted(requested: Option<string>, client: Client, vocabulary: seq<string>, default: Option<string>)
    ensures var r := ResolveScope(requested, client, vocabulary, true, default, false);
            r.Granted? ==> Permitted(ScopeSet(r.scope), client, vocabulary)
    ensures Truthy(requested) ==>
              ResolveScope(requested, client, vocabulary, true, default, false)
              == ResolveScope(requested, client, vocabulary, true, None, true)
  {
    var r := ResolveScope(requested, client, vocabulary, true, default, false);
    if r.Granted? {
      RecheckIsExact(r.scope, client, vocabulary, true);
    }
  }
}
