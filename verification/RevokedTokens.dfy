/** is_revoked over runs of the whole system, as /userinfo and /introspect use it: access and ID tokens of any
    lifetime as well as refresh tokens. */
module RevokedTokens {
  import opened Common
  import opened Scope
  import opened Tokens
  import opened Grants
  import opened GrantRuns
  import R = Revocation

  predicate Has(i: Issuance, use: Use) { i.minted.Some? && (use.IdUse? ==> i.Response().id.Some?) }

  function IdOf(i: Issuance, use: Use): string
    requires i.minted.Some?
  {
    match use
    case AccessUse => i.minted.value.ids.access
    case IdUse => i.minted.value.ids.id
    case RefreshUse => i.minted.value.ids.refresh
  }

  lemma IdIsJti(i: Issuance, use: Use)
    requires Has(i, use)
    ensures TokenOf(i, use).jti == Some(IdOf(i, use))
  {
  }

  predicate LogsOut(e: Step, jti: string) { e.Logout? && e.jti == jti }

  /** A revocation with the verified exp, or a logout, whose hint proves none, with at most eight days left. */
  predicate RevokesLastingly(e: Step, k: nat, use: Use, jti: string, exp: real) {
    match e
    case Revoke(j, used, at) => j == k && used == use && at < exp
    case Logout(id, at) => id == jti && id != "" && exp <= at + R.RETENTION_SECONDS
    case _ => false
  }

  /** If the token was logged out, then one of its revocations lasts. */
  predicate LogoutCovered(steps: seq<Step>, k: nat, use: Use, jti: string, exp: real) {
    (exists i | 0 <= i < |steps| :: LogsOut(steps[i], jti))
    ==> exists i | 0 <= i < |steps| :: RevokesLastingly(steps[i], k, use, jti, exp)
  }

  // ---------------------------------------------------------------- tokens that were never logged out

  /** Once in the books, the id stays in the store until `exp`. */
  predicate Remembers(s: State, jti: string, exp: real) {
    jti in s.books.spent ==> Held(s.revoked.tokens, jti, exp, s.now)
  }

  lemma NamedRemembers(s: State, written: string, h: R.Horizon, at: real, jti: string, exp: real)
    requires Remembers(s, jti, exp) && s.now <= at
    requires written == jti ==> R.EffectiveExpiry(h, at).Covers(exp)
    ensures Remembers(Named(s, written, h, at), jti, exp)
  {
  }

  lemma RevokeRemembers(s: State, k: nat, use: Use, at: real, j: nat, use': Use)
    requires Inv(s) && j < |s.issuances| && Has(s.issuances[j], use') && s.now <= at
    requires k < |s.issuances| && Has(s.issuances[k], use)
    requires Remembers(s, IdOf(s.issuances[k], use), TokenOf(s.issuances[k], use).exp)
    ensures var t := TokenOf(s.issuances[j], use');
            t.jti.Some? && Remembers(Named(s, t.jti.value, R.Verified(t.exp), at),
                                     IdOf(s.issuances[k], use), TokenOf(s.issuances[k], use).exp)
  {
    var t := TokenOf(s.issuances[j], use');
    IdIsJti(s.issuances[j], use');
    assert IdsApart(s.issuances[k].minted.value.ids, s.issuances[j].minted.value.ids, k == j);
    assert IdsApart(s.issuances[j].minted.value.ids, s.issuances[k].minted.value.ids, j == k);
    hide Inv;
    if t.jti.value == IdOf(s.issuances[k], use) {
      assert k == j && use == use';
    }
    NamedRemembers(s, t.jti.value, R.Verified(t.exp), at, IdOf(s.issuances[k], use), TokenOf(s.issuances[k], use).exp);
  }

  /** A claim writes the id of the presented token alone, until that token's exp. */
  lemma ClaimRemembers(s: State, cfg: Config, q: RefreshRequest, j: nat, at: real, jti: string, exp: real)
    requires Inv(s) && s.Minted(j) && s.now <= at && q.token == Signed(s.issuances[j].Refresh())
    requires Remembers(s, jti, exp)
    requires s.issuances[j].minted.value.ids.refresh == jti ==> exp <= s.issuances[j].Refresh().exp
    ensures Remembers(s.(now := at, revoked := Refresh(cfg, s.revoked, q, at).0,
                         books := Judged(s.books, cfg, q, at).0), jti, exp)
  {
    if Admit(cfg, q, at).Admitted? {
      MembershipAgrees(s, j, at);
    }
    hide Inv, Admit, RefreshTarget, Rotates;
  }

  lemma StepRemembers(s256: string -> string, s: State, e: Step, k: nat, use: Use)
    requires Inv(s) && Enabled(s, e) && k < |s.issuances| && Has(s.issuances[k], use)
    requires var jti, exp := IdOf(s.issuances[k], use), TokenOf(s.issuances[k], use).exp;
             Remembers(s, jti, exp) && !LogsOut(e, jti)
    ensures Remembers(Next(s256, s, e), IdOf(s.issuances[k], use), TokenOf(s.issuances[k], use).exp)
  {
    var jti, exp := IdOf(s.issuances[k], use), TokenOf(s.issuances[k], use).exp;
    match e
    case Revoke(j, use', at) => RevokeRemembers(s, k, use, at, j, use');
    case Logout(written, at) => NamedRemembers(s, written, R.Unset, at, jti, exp);
    case Spend(cfg, j, _, _, _, at) =>
      assert IdsApart(s.issuances[k].minted.value.ids, s.issuances[j].minted.value.ids, k == j);
      assert IdsApart(s.issuances[j].minted.value.ids, s.issuances[k].minted.value.ids, j == k);
      ClaimRemembers(s, cfg, RequestOf(s, e), j, at, jti, exp);
      hide Inv, Refresh, Judged;
    case _ =>
  }

  /** A token just minted has an id that is in no book yet. */
  lemma MintRemembers(s256: string -> string, s: State, e: Step, k: nat, use: Use)
    requires Inv(s) && Enabled(s, e) && !(k < |s.issuances| && s.issuances[k].minted.Some?)
    requires k < |Next(s256, s, e).issuances| && Has(Next(s256, s, e).issuances[k], use)
    ensures var s' := Next(s256, s, e); IdOf(s'.issuances[k], use) !in s'.books.spent
  {
    OnlyMintMints(s256, s, e, k);
    assert s.books.spent <= s.known;
    hide CreateToken, Inv;
  }

  lemma OnlyMintMints(s256: string -> string, s: State, e: Step, k: nat)
    requires Enabled(s, e) && !(k < |s.issuances| && s.issuances[k].minted.Some?)
    requires k < |Next(s256, s, e).issuances| && Next(s256, s, e).issuances[k].minted.Some?
    ensures e.Mint? && e.k == k
  {
    hide Refresh, Judged, RedeemCode, PollDevice, PasswordGrant;
  }

  lemma {:induction false} RunsRemember(s256: string -> string, steps: seq<Step>, k: nat, use: Use)
    requires After(s256, steps).Some?
    requires var s := After(s256, steps).value;
             && k < |s.issuances| && Has(s.issuances[k], use)
             && forall i | 0 <= i < |steps| :: !LogsOut(steps[i], IdOf(s.issuances[k], use))
    ensures var s := After(s256, steps).value;
            Remembers(s, IdOf(s.issuances[k], use), TokenOf(s.issuances[k], use).exp)
  {
    if steps != [] {
      var init, e := steps[..|steps| - 1], steps[|steps| - 1];
      var s := After(s256, init).value;
      RunsKeepInv(s256, init);
      assert forall i | 0 <= i < |init| :: init[i] == steps[i];
      hide Inv, Enabled, Next, TokenOf, LogsOut;
      if k < |s.issuances| && s.issuances[k].minted.Some? {
        StepExtends(s256, s, e);
        RunsRemember(s256, init, k, use);
        StepRemembers(s256, s, e, k, use);
      } else {
        MintRemembers(s256, s, e, k, use);
      }
    }
  }

  // ---------------------------------------------------------------- a revocation that lasts

  /** The entry is there and stays until `exp`. */
  predicate Stays(s: State, jti: string, exp: real) { Held(s.revoked.tokens, jti, exp, s.now) }

  lemma NamedStays(s: State, written: string, h: R.Horizon, at: real, jti: string, exp: real)
    requires s.now <= at
    requires Stays(s, jti, exp) || (written == jti && R.EffectiveExpiry(h, at).Covers(exp))
    ensures Stays(Named(s, written, h, at), jti, exp)
  {
  }

  /** A claim of a token that is in the store is refused and leaves its entry alone. */
  lemma ClaimStays(s: State, cfg: Config, q: RefreshRequest, at: real, jti: string, exp: real)
    requires s.now <= at && Stays(s, jti, exp)
    ensures Stays(s.(now := at, revoked := Refresh(cfg, s.revoked, q, at).0), jti, exp)
  {
    hide Admit, RefreshTarget, Rotates;
  }

  lemma StepStays(s256: string -> string, s: State, e: Step, jti: string, exp: real)
    requires Enabled(s, e) && Stays(s, jti, exp)
    ensures Stays(Next(s256, s, e), jti, exp)
  {
    match e
    case Revoke(j, used, at) =>
      var t := TokenOf(s.issuances[j], used);
      if t.jti.Some? {
        NamedStays(s, t.jti.value, R.Verified(t.exp), at, jti, exp);
      }
    case Logout(written, at) => NamedStays(s, written, R.Unset, at, jti, exp);
    case Spend(cfg, _, _, _, _, at) =>
      ClaimStays(s, cfg, RequestOf(s, e), at, jti, exp);
      hide Refresh, Judged;
    case _ =>
  }

  lemma {:induction false} RunStays(s256: string -> string, steps: seq<Step>, more: seq<Step>, jti: string, exp: real)
    requires After(s256, steps + more).Some? && After(s256, steps).Some? && Stays(After(s256, steps).value, jti, exp)
    ensures Stays(After(s256, steps + more).value, jti, exp)
  {
    hide Enabled, Next, Stays;
    if more == [] {
      assert steps + more == steps;
    } else {
      var all, init := steps + more, more[..|more| - 1];
      assert all[..|all| - 1] == steps + init;
      RunStays(s256, steps, init, jti, exp);
      StepStays(s256, After(s256, steps + init).value, all[|all| - 1], jti, exp);
    }
  }

  lemma RevocationStays(s256: string -> string, s: State, e: Step, k: nat, use: Use)
    requires Enabled(s, e) && e.Revoke? && e.k == k && e.use == use && e.at < TokenOf(s.issuances[k], use).exp
    ensures Stays(Next(s256, s, e), IdOf(s.issuances[k], use), TokenOf(s.issuances[k], use).exp)
  {
    var t := TokenOf(s.issuances[k], use);
    IdIsJti(s.issuances[k], use);
    NamedStays(s, t.jti.value, R.Verified(t.exp), e.at, t.jti.value, t.exp);
    hide CreateToken;
  }

  lemma LogoutStays(s256: string -> string, s: State, e: Step, exp: real)
    requires Enabled(s, e) && e.Logout? && e.jti != "" && exp <= e.at + R.RETENTION_SECONDS
    ensures Stays(Next(s256, s, e), e.jti, exp)
  {
    NamedStays(s, e.jti, R.Unset, e.at, e.jti, exp);
  }

  /** A step in the middle of a run: its state before and after, and what remains of it at the end. */
  lemma StepInside(s256: string -> string, steps: seq<Step>, i: nat)
    requires After(s256, steps).Some? && i < |steps|
    ensures After(s256, steps[..i]).Some? && Enabled(After(s256, steps[..i]).value, steps[i])
    ensures var s' := Next(s256, After(s256, steps[..i]).value, steps[i]);
            After(s256, steps[..i + 1]) == Some(s') && Extends(s', After(s256, steps).value)
  {
    hide After, Enabled, Next, Extends;
    Around(steps, i);
    StepOfRun(s256, steps[..i], steps[i], steps[i + 1..]);
    AfterMore(s256, steps[..i], steps[i]);
  }

  lemma Around(steps: seq<Step>, i: nat)
    requires i < |steps|
    ensures steps == steps[..i] + [steps[i]] + steps[i + 1..] && steps[..i + 1] == steps[..i] + [steps[i]]
  {
  }

  lemma AfterMore(s256: string -> string, steps: seq<Step>, e: Step)
    requires After(s256, steps).Some? && Enabled(After(s256, steps).value, e)
    ensures After(s256, steps + [e]) == Some(Next(s256, After(s256, steps).value, e))
  {
    assert (steps + [e])[..|steps|] == steps;
    hide Enabled, Next;
  }

  lemma CutBehind(steps: seq<Step>, i: nat)
    requires i < |steps|
    ensures steps[..i + 1] + steps[i + 1..] == steps
  {
  }

  lemma StaysFrom(s256: string -> string, steps: seq<Step>, i: nat, jti: string, exp: real)
    requires After(s256, steps).Some? && i < |steps|
    requires After(s256, steps[..i + 1]).Some? && Stays(After(s256, steps[..i + 1]).value, jti, exp)
    ensures Stays(After(s256, steps).value, jti, exp)
  {
    hide *;
    CutBehind(steps, i);
    RunStays(s256, steps[..i + 1], steps[i + 1..], jti, exp);
  }

  lemma LastingStays(s256: string -> string, steps: seq<Step>, k: nat, use: Use, i: nat)
    requires After(s256, steps).Some? && i < |steps|
    requires var s := After(s256, steps).value;
             && k < |s.issuances| && Has(s.issuances[k], use)
             && RevokesLastingly(steps[i], k, use, IdOf(s.issuances[k], use), TokenOf(s.issuances[k], use).exp)
    ensures var s := After(s256, steps).value;
            Stays(s, IdOf(s.issuances[k], use), TokenOf(s.issuances[k], use).exp)
  {
    hide After, Next, Enabled, Extends, Stays, TokenOf;
    StepInside(s256, steps, i);
    var s, e, end := After(s256, steps[..i]).value, steps[i], After(s256, steps).value;
    if e.Revoke? {
      SameIssuance(s256, s, e, end, k);
      RevocationStays(s256, s, e, k, use);
    } else {
      LogoutStays(s256, s, e, TokenOf(end.issuances[k], use).exp);
    }
    StaysFrom(s256, steps, i, IdOf(end.issuances[k], use), TokenOf(end.issuances[k], use).exp);
  }

  lemma SameIssuance(s256: string -> string, s: State, e: Step, s': State, k: nat)
    requires Enabled(s, e) && e.Revoke? && e.k == k && Extends(Next(s256, s, e), s')
    ensures s.Minted(k) && k < |s'.issuances| && s'.issuances[k] == s.issuances[k]
  {
    assert Next(s256, s, e).issuances == s.issuances;
  }

  /** At every moment of every run, and for every token of every kind until its exp: it is reported revoked exactly
      when its id was spent or revoked before. An access or ID token of arbitrary lifetime that was logged out needs
      one revocation that lasts; a refresh token never has more than eight days left. */
  lemma RevokedUntilExp(s256: string -> string, steps: seq<Step>, k: nat, use: Use, now: real)
    requires After(s256, steps).Some?
    requires var s := After(s256, steps).value;
             && k < |s.issuances| && Has(s.issuances[k], use) && s.now <= now < TokenOf(s.issuances[k], use).exp
             && (use.RefreshUse?
                 || LogoutCovered(steps, k, use, IdOf(s.issuances[k], use), TokenOf(s.issuances[k], use).exp))
    ensures var s := After(s256, steps).value;
            R.TokenRevoked(s.revoked, TokenOf(s.issuances[k], use).jti)
            <==> IdOf(s.issuances[k], use) in s.books.spent
  {
    var s := After(s256, steps).value;
    RunsKeepInv(s256, steps);
    IdIsJti(s.issuances[k], use);
    if use.RefreshUse? {
      assert SpentHeld(s.issuances[k], s.books.spent, s.revoked.tokens, s.now);
    } else {
      LoggedOutOrNot(s256, steps, k, use);
    }
  }

  lemma LoggedOutOrNot(s256: string -> string, steps: seq<Step>, k: nat, use: Use)
    requires After(s256, steps).Some?
    requires var s := After(s256, steps).value;
             && k < |s.issuances| && Has(s.issuances[k], use)
             && LogoutCovered(steps, k, use, IdOf(s.issuances[k], use), TokenOf(s.issuances[k], use).exp)
    ensures var s := After(s256, steps).value;
            Remembers(s, IdOf(s.issuances[k], use), TokenOf(s.issuances[k], use).exp)
  {
    var i := After(s256, steps).value.issuances[k];
    hide After, TokenOf, LogsOut, RevokesLastingly, Has;
    if exists j | 0 <= j < |steps| :: LogsOut(steps[j], IdOf(i, use)) {
      var j :| 0 <= j < |steps| && RevokesLastingly(steps[j], k, use, IdOf(i, use), TokenOf(i, use).exp);
      LastingStays(s256, steps, k, use, j);
    } else {
      RunsRemember(s256, steps, k, use);
    }
  }
}
