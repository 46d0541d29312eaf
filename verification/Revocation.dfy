/** Which tokens are accepted, where, and what ends their acceptance for good. */
module Revocation {
  import opened Prelude
  import opened RateLimiting
  import opened AuthModel
  import opened AuthInvariants
  import opened AuthFrames

  /** Some endpoint would act on the token: as a bearer on either path, at refresh, or as a challenge. */
  ghost predicate Accepted(cfg: Config, w: World, t: Token)
  {
    || Authenticate(w, t).Ok?
    || AuthenticateRequest(w, t).Ok?
    || RefreshPair(cfg, w, t).response.Tokens?
    || ChallengeHolds(w, t)
  }

  /** Accepted by no endpoint after any further requests. */
  ghost predicate NeverAgain(cfg: Config, w: World, t: Token)
  {
    forall requests :: !Accepted(cfg, Run(cfg, w, requests), t)
  }

  ghost predicate Outdated(w: World, t: Token)
  {
    t.sub in w.db.users && t.version < w.db.users[t.sub].version
  }

  lemma OutdatedForGood(cfg: Config, w: World, t: Token)
    requires WorldOk(w) && Outdated(w, t)
    ensures NeverAgain(cfg, w, t)
  {
    forall requests ensures !Accepted(cfg, Run(cfg, w, requests), t) {
      RunOk(cfg, w, requests);
      assert NonceMoves(w, Run(cfg, w, requests), t.sub);
    }
  }

  lemma SpentForGood(cfg: Config, w: World, t: Token)
    requires WorldOk(w) && (t.jti in w.db.revoked || t.exp < w.now)
    ensures NeverAgain(cfg, w, t)
  {
    forall requests ensures !Accepted(cfg, Run(cfg, w, requests), t) {
      RunOk(cfg, w, requests);
      assert NonceMoves(w, Run(cfg, w, requests), t.jti);
    }
  }

  /** Every token of `u` issued so far is finished once the step has raised its version. */
  lemma BumpEndsSessions(cfg: Config, w: World, r: Request, u: UserId, t: Token)
    requires WorldOk(w) && IsIssued(w, t) && t.sub == u
    requires var w' := Step(cfg, w, r).world;
             u in w.db.users && u in w'.db.users && w'.db.users[u].version > w.db.users[u].version
    ensures NeverAgain(cfg, Step(cfg, w, r).world, t)
  {
    assert NonceRow(w, t.jti);
    StepOk(cfg, w, r);
    OutdatedForGood(cfg, Step(cfg, w, r).world, t);
  }

  /** Log out everywhere: no token minted earlier for the caller is accepted at any later step. */
  lemma LogoutAllEndsSessions(cfg: Config, w: World, bearer: Token, t: Token)
    requires WorldOk(w) && LogoutAll(w, bearer).response.Done?
    requires IsIssued(w, t) && t.sub == bearer.sub
    ensures NeverAgain(cfg, LogoutAll(w, bearer).world, t)
  {
    BumpEndsSessions(cfg, w, DoLogoutAll(bearer), bearer.sub, t);
  }

  lemma ResetConfirmEndsSessions(cfg: Config, w: World, raw: Nonce, password: string, t: Token)
    requires WorldOk(w) && ResetConfirm(cfg, w, raw, password).response.Done?
    requires IsIssued(w, t) && t.sub == w.db.resets[raw].user
    ensures NeverAgain(cfg, ResetConfirm(cfg, w, raw, password).world, t)
  {
    BumpEndsSessions(cfg, w, DoResetConfirm(raw, password), t.sub, t);
  }

  lemma AnonymiseEndsSessions(cfg: Config, w: World, u: UserId, t: Token)
    requires WorldOk(w) && Anonymise(cfg, w, u).response.Done?
    requires IsIssued(w, t) && t.sub == u
    ensures NeverAgain(cfg, Anonymise(cfg, w, u).world, t)
  {
    BumpEndsSessions(cfg, w, DoAnonymise(u), u, t);
  }

  /** The token is of a kind that the account's second-factor setting gives a use. */
  ghost predicate Usable(w: World, t: Token)
    requires t.sub in w.db.users
  {
    t.kind.Challenge? ==> w.db.users[t.sub].totpEnabled
  }

  /** No unexpired, unrevoked token of the account's current version is out there. */
  ghost predicate NoCurrentToken(w: World, u: UserId)
    requires u in w.db.users
  {
    forall t :: IsIssued(w, t) && t.sub == u && Usable(w, t) && t.version == w.db.users[u].version
      ==> t.jti in w.db.revoked || t.exp < w.now
  }

  /** Disabling an active account ends every token of it for good: access, refresh, challenge and impersonation. */
  lemma DisableEndsActiveSessions(cfg: Config, w: World, email: Email, t: Token)
    requires WorldOk(w) && email in w.db.emails && w.db.emails[email] in w.db.users
    requires w.db.users[w.db.emails[email]].active && IsIssued(w, t) && t.sub == w.db.emails[email]
    ensures NeverAgain(cfg, SetActive(w, email, false).world, t)
  {
    BumpEndsSessions(cfg, w, DoSetActive(email, false), t.sub, t);
  }

  /**
   `user disable` ends every session of an account that was active; on an account that is already
   inactive it does nothing at all. So it ends all usable tokens for good, of whatever kind, exactly
   when the account was active or none was current.
   */
  lemma DisableEndsSessionsIff(cfg: Config, w: World, email: Email)
    requires WorldOk(w) && email in w.db.emails
    ensures var u, w' := w.db.emails[email], SetActive(w, email, false).world;
            && u in w.db.users
            && (w.db.users[u].active ==> forall t :: IsIssued(w, t) && t.sub == u ==> NeverAgain(cfg, w', t))
            && ((forall t :: IsIssued(w, t) && t.sub == u && Usable(w, t) ==> NeverAgain(cfg, w', t))
                <==> w.db.users[u].active || NoCurrentToken(w, u))
  {
    assert EmailRow(w, email);
    var u, w' := w.db.emails[email], SetActive(w, email, false).world;
    if w.db.users[u].active {
      forall t | IsIssued(w, t) && t.sub == u ensures NeverAgain(cfg, w', t) {
        DisableEndsActiveSessions(cfg, w, email, t);
      }
    } else if NoCurrentToken(w, u) {
      forall t | IsIssued(w, t) && t.sub == u && Usable(w, t) ensures NeverAgain(cfg, w', t) {
        assert NonceRow(w, t.jti);
        if t.version == w.db.users[u].version { SpentForGood(cfg, w, t); } else { OutdatedForGood(cfg, w, t); }
      }
    } else {
      var t :| IsIssued(w, t) && t.sub == u && Usable(w, t) && t.version == w.db.users[u].version
               && t.jti !in w.db.revoked && w.now <= t.exp;
      RevivedByEnable(cfg, w, email, t);
    }
  }

  /** A current token of an inactive account works again as soon as the account is enabled. */
  lemma RevivedByEnable(cfg: Config, w: World, email: Email, t: Token)
    requires WorldOk(w) && email in w.db.emails && t.sub == w.db.emails[email] && t.sub in w.db.users
    requires !w.db.users[t.sub].active
    requires IsIssued(w, t) && Usable(w, t) && t.version == w.db.users[t.sub].version
    requires t.jti !in w.db.revoked && w.now <= t.exp
    ensures !NeverAgain(cfg, w, t)
  {
    RunSnoc(cfg, w, [], DoSetActive(email, true));
    assert Run(cfg, w, []) == w;
    var w' := Run(cfg, w, [] + [DoSetActive(email, true)]);
    assert w' == SetActive(w, email, true).world;
    if t.kind.Refresh? {
      assert RefreshPair(cfg, w', t).response.Tokens?;
    } else if t.kind.Challenge? {
      assert ChallengeHolds(w', t);
    } else {
      assert Authenticate(w', t).Ok?;
    }
    assert Accepted(cfg, w', t);
  }

  /**
   How an account gets there: log in, be switched off in the user admin, be disabled and enabled again
   on the command line. The token of the login is accepted at the end.
   */
  lemma DisableAfterSwitchOff(cfg: Config, w: World, u: UserId, ip: string)
    requires WorldOk(w) && u in w.db.users && w.db.users[u].active && w.db.users[u].hash.HashOf?
    requires !w.db.users[u].totpEnabled
    requires !Limited(w.attempts, LoginLimiterKey(cfg, w.db.users[u].email, ip), w.now, cfg.window, cfg.maxFailures)
    ensures var email := w.db.users[u].email;
            var o := Login(cfg, w, email, w.db.users[u].hash.password, ip);
            var off := EditUser(o.world, u, email, false);
            var disabled := SetActive(off.world, email, false);
            var enabled := SetActive(disabled.world, email, true);
            && o.response.Tokens? && off.response.Done? && disabled.response.Done? && enabled.response.Done?
            && Authenticate(off.world, o.response.access).Err?
            && Authenticate(enabled.world, o.response.access) == Ok(u)
  {
    assert NonceRow(w, u) && NonceRow(w, w.next);
  }

  /** Logging out changes the acceptance of one token, wherever it is presented. */
  lemma LogoutEndsOneToken(cfg: Config, w: World, bearer: Token, t: Token)
    requires WorldOk(w) && Logout(w, bearer).response.Done? && IsIssued(w, t)
    ensures Accepted(cfg, Logout(w, bearer).world, t) <==> Accepted(cfg, w, t) && t != bearer
    ensures Accepted(cfg, w, bearer) && NeverAgain(cfg, Logout(w, bearer).world, bearer)
  {
    LogoutOk(w, bearer);
    assert NonceRow(w, t.jti) && NonceRow(w, bearer.jti);
    SpentForGood(cfg, Logout(w, bearer).world, bearer);
  }

  // ---- The two bearer paths ----

  /** Neither path lets a token through that the other stops. */
  ghost predicate PathsAgree(w: World)
  {
    forall t :: Authenticate(w, t).Ok? <==> AuthenticateRequest(w, t).Ok?
  }

  /** Inactive accounts have no token of their current version. */
  ghost predicate Settled(w: World)
  {
    forall j :: j in w.issued ==> SettledToken(w, w.issued[j])
  }

  ghost predicate SettledToken(w: World, t: Token)
  {
    t.sub in w.db.users ==> w.db.users[t.sub].active || t.version < w.db.users[t.sub].version
  }

  /** Switching an account off in the user admin leaves its version alone. */
  ghost predicate SwitchesOff(r: Request)
  {
    r.DoEditUser? && !r.active
  }

  lemma SettledStep(cfg: Config, w: World, r: Request)
    requires WorldOk(w) && Settled(w) && !SwitchesOff(r)
    ensures Settled(Step(cfg, w, r).world)
  {
    var w' := Step(cfg, w, r).world;
    StepOk(cfg, w, r);
    forall j | j in w'.issued ensures SettledToken(w', w'.issued[j]) {
      if j in w.issued {
        var t := w.issued[j];
        assert SettledToken(w, t) && NonceRow(w, j) && NonceMoves(w, w', j) && NonceMoves(w, w', t.sub);
        if w.db.users[t.sub].active {
          UserChange(cfg, w, r, t.sub);
        }
      } else {
        MintedForActive(cfg, w, r, j);
      }
    }
  }

  /**
   The provider's path does not look at the active flag, yet in every run without a switch-off in the
   user admin both paths accept the same tokens.
   */
  lemma {:induction false} PathsAgreeInEveryRun(cfg: Config, start: World, requests: seq<Request>)
    requires Initial(start)
    requires forall i :: 0 <= i < |requests| ==> !SwitchesOff(requests[i])
    ensures var w := Run(cfg, start, requests); Settled(w) && PathsAgree(w)
  {
    InitialOk(start);
    RunOk(cfg, start, requests);
    if requests != [] {
      var front := requests[..|requests| - 1];
      PathsAgreeInEveryRun(cfg, start, front);
      RunOk(cfg, start, front);
      SettledStep(cfg, Run(cfg, start, front), requests[|requests| - 1]);
    }
    var w := Run(cfg, start, requests);
    forall t ensures Authenticate(w, t).Ok? <==> AuthenticateRequest(w, t).Ok? {
      if IsIssued(w, t) { assert SettledToken(w, w.issued[t.jti]); }
    }
  }

  /** A switch-off in the user admin parts the paths exactly when the account had a token in use. */
  lemma SwitchOffPartsPathsIff(w: World, u: UserId, email: Email)
    requires WorldOk(w) && Settled(w) && EditUser(w, u, email, false).response.Done?
    ensures PathsAgree(EditUser(w, u, email, false).world) <==>
              forall t: Token :: t.sub == u ==> Authenticate(w, t).Err?
  {
    var w' := EditUser(w, u, email, false).world;
    forall t ensures AuthenticateRequest(w', t).Ok? <==> AuthenticateRequest(w, t).Ok?
             ensures Authenticate(w', t).Ok? <==> Authenticate(w, t).Ok? && t.sub != u
             ensures AuthenticateRequest(w, t).Ok? <==> Authenticate(w, t).Ok? {
      if IsIssued(w, t) { assert SettledToken(w, w.issued[t.jti]); }
    }
  }
}
