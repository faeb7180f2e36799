/** services/device_code.py: device authorizations (RFC 8628). Each call makes one clock reading. */
module DeviceCode {
  import opened Common

  const MAX_PENDING := 10000

  datatype Status = Pending | Authorized | Denied | Expired

  datatype Grant = Grant(
    userCode: string,
    clientId: string,
    scope: string,
    resource: Option<seq<string>>,
    expiresAt: real,
    status: Status,
    username: Option<string>,
    authTime: Option<int>)

  datatype PollOutcome = NotFound | WrongClient | PollExpired | StillPending | PollDenied | UserNotFound
                       | PollAuthorized(user: string, grant: Grant)

  datatype VerifyOutcome = InvalidCode | AlreadyUsed | VerifyExpired | VerifyDenied | MissingCredentials
                         | InvalidCredentials | VerifyAuthorized(username: string)

  /** `codes` by device code, and the index from user code to device code. */
  datatype Store = Store(codes: map<string, Grant>, byUserCode: map<string, string>)

  /** The deletion of one grant together with the index entry of its user code. */
  function Removed(s: Store, deviceCode: string): Store
    requires deviceCode in s.codes
  {
    Store(s.codes - {deviceCode}, s.byUserCode - {s.codes[deviceCode].userCode})
  }

  function Stale(s: Store, now: real): set<string> { set k | k in s.codes && now > s.codes[k].expiresAt }

  function UserCodes(codes: map<string, Grant>, keys: set<string>): set<string>
    requires keys <= codes.Keys
  {
    set k | k in keys :: codes[k].userCode
  }

  /** Deletion of several grants together with the index entries of their user codes. */
  function Without(s: Store, keys: set<string>): Store
    requires keys <= s.codes.Keys
  {
    Store(s.codes - keys, s.byUserCode - UserCodes(s.codes, keys))
  }

  /** prune_expired */
  function Pruned(s: Store, now: real): Store { Without(s, Stale(s, now)) }

  lemma WithoutNone(s: Store)
    ensures Without(s, {}) == s
  {
    assert s.codes - {} == s.codes;
    assert UserCodes(s.codes, {}) == {};
    var index := s.byUserCode;
    assert index - {} == index;
  }

  lemma WithoutOneMore(s: Store, keys: set<string>, k: string)
    requires keys <= s.codes.Keys && k in s.codes && k !in keys
    ensures Without(s, keys + {k}) == Removed(Without(s, keys), k)
  {
    assert UserCodes(s.codes, keys + {k}) == UserCodes(s.codes, keys) + {s.codes[k].userCode};
    assert s.codes - (keys + {k}) == s.codes - keys - {k};
    var index := s.byUserCode;
    assert index - (UserCodes(s.codes, keys) + {s.codes[k].userCode})
           == index - UserCodes(s.codes, keys) - {s.codes[k].userCode};
  }

  predicate Full(s: Store, now: real) { |Pruned(s, now).codes| >= MAX_PENDING }

  /** create; a full store is left pruned and the request refused. */
  function Created(s: Store, deviceCode: string, userCode: string, clientId: string, scope: string,
                   resource: Option<seq<string>>, expiresIn: real, now: real): Store
  {
    var pruned := Pruned(s, now);
    if Full(s, now) then pruned
    else
      var g := Grant(userCode, clientId, scope, resource, now + expiresIn, Pending, None, None);
      Store(pruned.codes[deviceCode := g], pruned.byUserCode[userCode := deviceCode])
  }

  function WithStatus(s: Store, deviceCode: string, status: Status): Store
    requires deviceCode in s.codes
  {
    s.(codes := s.codes[deviceCode := s.codes[deviceCode].(status := status)])
  }

  /** poll; `users` are the names get_user finds. */
  function Polled(s: Store, deviceCode: string, clientId: string, users: set<string>, now: real): (Store, PollOutcome) {
    if deviceCode !in s.codes then (s, NotFound)
    else
      var g := s.codes[deviceCode];
      if g.clientId != clientId then (s, WrongClient)
      else if now > g.expiresAt then (WithStatus(s, deviceCode, Expired), PollExpired)
      else
        match g.status
        case Pending => (s, StillPending)
        case Denied => (s, PollDenied)
        case Expired => (s, PollExpired)
        case Authorized =>
          if Truthy(g.username) && g.username.value in users then
            (Removed(s, deviceCode), PollAuthorized(g.username.value, g))
          else
            (s, UserNotFound)
  }

  /** What the user submits; `authenticated` is what the authenticate callback makes of the credentials. */
  datatype Submission = Submission(userCode: string, deny: bool, username: string, authenticated: Option<string>)

  /** verify */
  function Verified(s: Store, v: Submission, now: real): (Store, VerifyOutcome) {
    if v.userCode !in s.byUserCode || s.byUserCode[v.userCode] == "" || s.byUserCode[v.userCode] !in s.codes then
      (s, InvalidCode)
    else
      var deviceCode := s.byUserCode[v.userCode];
      var g := s.codes[deviceCode];
      if !g.status.Pending? then (s, AlreadyUsed)
      else if now > g.expiresAt then (WithStatus(s, deviceCode, Expired), VerifyExpired)
      else if v.deny then (WithStatus(s, deviceCode, Denied), VerifyDenied)
      else if v.username == "" then (s, MissingCredentials)
      else if v.authenticated.None? then (s, InvalidCredentials)
      else
        var g' := g.(status := Authorized, username := v.authenticated, authTime := Some(now.Floor));
        (s.(codes := s.codes[deviceCode := g']), VerifyAuthorized(v.authenticated.value))
  }

  class DeviceCodeStore {
    var codes: map<string, Grant>
    var byUserCode: map<string, string>

    function State(): Store
      reads this
    {
      Store(codes, byUserCode)
    }

    constructor ()
      ensures State() == Store(map[], map[])
    {
      codes, byUserCode := map[], map[];
    }

    method PruneExpired(now: real) returns (count: nat)
      modifies this
      ensures State() == Pruned(old(State()), now)
      ensures count == |Stale(old(State()), now)|
    {
      ghost var all := State();
      var expired := Stale(State(), now);
      count := |expired|;
      ghost var gone: set<string> := {};
      WithoutNone(all);
      while expired != {}
        invariant expired !! gone && expired + gone == Stale(all, now)
        invariant State() == Without(all, gone)
      {
        var code :| code in expired;
        RemoveOne(code);
        WithoutOneMore(all, gone, code);
        expired, gone := expired - {code}, gone + {code};
      }
      assert gone == Stale(all, now);
    }

    method RemoveOne(deviceCode: string)
      requires deviceCode in codes
      modifies this
      ensures State() == Removed(old(State()), deviceCode)
    {
      byUserCode := byUserCode - {codes[deviceCode].userCode};
      codes := codes - {deviceCode};
    }

    method Create(deviceCode: string, userCode: string, clientId: string, scope: string,
                  resource: Option<seq<string>>, expiresIn: real, now: real) returns (full: bool)
      modifies this
      ensures State() == Created(old(State()), deviceCode, userCode, clientId, scope, resource, expiresIn, now)
      ensures full == Full(old(State()), now)
    {
      var _ := PruneExpired(now);
      if |codes| >= MAX_PENDING {
        return true;
      }
      codes := codes[deviceCode := Grant(userCode, clientId, scope, resource, now + expiresIn, Pending, None, None)];
      byUserCode := byUserCode[userCode := deviceCode];
      return false;
    }

    method Poll(deviceCode: string, clientId: string, users: set<string>, now: real) returns (r: PollOutcome)
      modifies this
      ensures (State(), r) == Polled(old(State()), deviceCode, clientId, users, now)
    {
      if deviceCode !in codes {
        return NotFound;
      }
      var grant := codes[deviceCode];
      if grant.clientId != clientId {
        return WrongClient;
      }
      if now > grant.expiresAt {
        codes := codes[deviceCode := grant.(status := Expired)];
        return PollExpired;
      }
      match grant.status {
        case Pending => return StillPending;
        case Denied => return PollDenied;
        case Expired => return PollExpired;
        case Authorized =>
          if !(Truthy(grant.username) && grant.username.value in users) {
            return UserNotFound;
          }
          codes := codes - {deviceCode};
          byUserCode := byUserCode - {grant.userCode};
          return PollAuthorized(grant.username.value, grant);
      }
    }

    method Verify(v: Submission, now: real) returns (r: VerifyOutcome)
      modifies this
      ensures (State(), r) == Verified(old(State()), v, now)
    {
      if v.userCode !in byUserCode {
        return InvalidCode;
      }
      var deviceCode := byUserCode[v.userCode];
      if deviceCode == "" || deviceCode !in codes {
        return InvalidCode;
      }
      var grant := codes[deviceCode];
      if !grant.status.Pending? {
        return AlreadyUsed;
      }
      if now > grant.expiresAt {
        codes := codes[deviceCode := grant.(status := Expired)];
        return VerifyExpired;
      }
      if v.deny {
        codes := codes[deviceCode := grant.(status := Denied)];
        return VerifyDenied;
      }
      if v.username == "" {
        return MissingCredentials;
      }
      if v.authenticated.None? {
        return InvalidCredentials;
      }
      codes := codes[deviceCode :=
                       grant.(status := Authorized, username := v.authenticated, authTime := Some(now.Floor))];
      return VerifyAuthorized(v.authenticated.value);
    }
  }
}
