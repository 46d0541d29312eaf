/** Requests that belong together: what one hands out, another accepts, for as long as promised and no longer. */
module RoundTrips {
  import opened Prelude
  import opened RateLimiting
  import opened AuthModel
  import opened AuthInvariants

  /** The world after some time without requests. */
  function Later(cfg: Config, w: World, elapsed: nat): World
  {
    Step(cfg, w, Tick(elapsed)).world
  }

  /** The login throttle lets an attempt through. */
  predicate Unthrottled(cfg: Config, w: World, email: Email, ip: string)
  {
    !Limited(w.attempts, LoginLimiterKey(cfg, email, ip), w.now, cfg.window, cfg.maxFailures)
  }

  // ---- Logging in ----

  /** The password opens the account, up to the second factor. */
  ghost predicate Opens(cfg: Config, w: World, email: Email, password: string, ip: string)
  {
    !Login(cfg, w, email, password, ip).response.Refused?
  }

  lemma OpensIff(cfg: Config, w: World, u: UserId, password: string, ip: string)
    requires WorldOk(w) && u in w.db.users && Unthrottled(cfg, w, w.db.users[u].email, ip)
    ensures Opens(cfg, w, w.db.users[u].email, password, ip) <==>
              w.db.users[u].hash == HashOf(password) && w.db.users[u].active
    ensures Opens(cfg, w, w.db.users[u].email, password, ip) ==>
              (Login(cfg, w, w.db.users[u].email, password, ip).response.MfaRequired? <==> w.db.users[u].totpEnabled)
  {
    assert NonceRow(w, u);
  }

  /** A pair just minted for an active account: either token works until it expires, and not a tick longer. */
  lemma PairLasts(cfg: Config, w: World, u: UserId, family: Option<Nonce>, elapsed: nat)
    requires u in w.db.users && w.db.users[u].active && w.next !in w.db.revoked && w.next + 1 !in w.db.revoked
    ensures var o := MintPair(cfg, w, u, family);
            var later := Later(cfg, o.world, elapsed);
            && (Authenticate(later, o.response.access) == Ok(u) <==> elapsed <= cfg.accessTtl)
            && (RefreshPair(cfg, later, o.response.refresh).response.Tokens? <==> elapsed <= cfg.refreshTtl)
            && o.response.access.sub == u == o.response.refresh.sub
  {
  }

  /** The tokens of a login are the account's, and last as long as configured. */
  lemma LoginTokensLast(cfg: Config, w: World, email: Email, password: string, ip: string, elapsed: nat)
    requires WorldOk(w) && Login(cfg, w, email, password, ip).response.Tokens?
    ensures var o := Login(cfg, w, email, password, ip);
            var later := Later(cfg, o.world, elapsed);
            && email in w.db.emails
            && (Authenticate(later, o.response.access) == Ok(w.db.emails[email]) <==> elapsed <= cfg.accessTtl)
            && (RefreshPair(cfg, later, o.response.refresh).response.Tokens? <==> elapsed <= cfg.refreshTtl)
  {
    assert NonceRow(w, w.next) && NonceRow(w, w.next + 1);
    var w1 := w.(attempts := Cleared(w.attempts, LoginLimiterKey(cfg, email, ip)));
    PairLasts(cfg, w1, w.db.emails[email], None, elapsed);
  }

  /** With a second factor the login hands out a challenge for the account, good for as long as configured. */
  lemma ChallengeLasts(cfg: Config, w: World, email: Email, password: string, ip: string, elapsed: nat)
    requires WorldOk(w) && Login(cfg, w, email, password, ip).response.MfaRequired?
    ensures var o := Login(cfg, w, email, password, ip);
            var t := o.response.challenge;
            && email in w.db.emails && t.sub == w.db.emails[email]
            && (ChallengeHolds(Later(cfg, o.world, elapsed), t) <==> elapsed <= cfg.challengeTtl)
            && Authenticate(o.world, t).Err? && RefreshPair(cfg, o.world, t).response.Refused?
  {
    assert NonceRow(w, w.next);
  }

  /** The right factor turns a challenge into a pair for the same account. */
  lemma SecondFactorTokensLast(cfg: Config, w: World, t: Token, factor: SecondFactor, elapsed: nat)
    requires WorldOk(w) && TotpLogin(cfg, w, t, factor).response.Tokens?
    ensures var o := TotpLogin(cfg, w, t, factor);
            var later := Later(cfg, o.world, elapsed);
            && (Authenticate(later, o.response.access) == Ok(t.sub) <==> elapsed <= cfg.accessTtl)
            && (RefreshPair(cfg, later, o.response.refresh).response.Tokens? <==> elapsed <= cfg.refreshTtl)
  {
    assert NonceRow(w, w.next) && NonceRow(w, w.next + 1) && NonceRow(w, t.jti);
    var w2 := if factor.BackupCode? then UseCode(w, factor.raw) else w;
    var w3 := Revoke(w2.(attempts := Cleared(w2.attempts, SecondFactorKey(t.sub))), t.jti);
    PairLasts(cfg, w3, t.sub, None, elapsed);
  }

  /** No token serves at two kinds of endpoint. */
  lemma KindsDoNotMix(cfg: Config, w: World, t: Token, factor: SecondFactor)
    ensures var bearer, refresh, challenge :=
              Authenticate(w, t).Ok?, RefreshPair(cfg, w, t).response.Tokens?,
              TotpLogin(cfg, w, t, factor).response.Tokens?;
            !(bearer && refresh) && !(bearer && challenge) && !(refresh && challenge)
  {
  }

  // ---- Passwords by token ----

  /** Setting a password by token opens the account with that password and with no other. */
  lemma ConfirmOpens(cfg: Config, w: World, raw: Nonce, password: string, other: string, ip: string)
    requires WorldOk(w) && ResetConfirm(cfg, w, raw, password).response.Done? && other != password
    ensures var w' := ResetConfirm(cfg, w, raw, password).world;
            var u := w.db.resets[raw].user;
            && u in w'.db.users
            && (Unthrottled(cfg, w', w'.db.users[u].email, ip) ==>
                  && Opens(cfg, w', w'.db.users[u].email, password, ip)
                  && !Opens(cfg, w', w'.db.users[u].email, other, ip))
  {
    ResetConfirmOk(cfg, w, raw, password);
    var w', u := ResetConfirm(cfg, w, raw, password).world, w.db.resets[raw].user;
    if Unthrottled(cfg, w', w'.db.users[u].email, ip) {
      OpensIff(cfg, w', u, password, ip);
      OpensIff(cfg, w', u, other, ip);
    }
  }

  /** An invitation can be taken up until it expires; then the new member is active and has a password. */
  lemma InviteRoundTrip(cfg: Config, w: World, address: Email, elapsed: nat, password: string)
    requires WorldOk(w) && cfg.lower(address) !in w.db.emails && cfg.acceptable(password)
    ensures var invited := Later(cfg, Invite(cfg, w, address).world, elapsed);
            var o := ResetConfirm(cfg, invited, w.next + 1, password);
            && (o.response.Done? <==> elapsed <= cfg.inviteTtl)
            && (o.response.Done? ==>
                  && w.next in o.world.db.users && o.world.db.users[w.next].email == cfg.lower(address)
                  && o.world.db.users[w.next].active && o.world.db.users[w.next].hash == HashOf(password))
  {
  }

  /** A requested reset can be confirmed until it expires, and then opens the account it was requested for. */
  lemma ResetRoundTrip(cfg: Config, w: World, u: UserId, elapsed: nat, password: string)
    requires WorldOk(w) && u in w.db.users && w.db.users[u].active && cfg.acceptable(password)
    requires ResetRequest(cfg, w, w.db.users[u].email).response.Done?
    ensures var requested := Later(cfg, ResetRequest(cfg, w, w.db.users[u].email).world, elapsed);
            var o := ResetConfirm(cfg, requested, w.next, password);
            && (o.response.Done? <==> !w.db.users[u].passwordLoginDisabled && elapsed <= cfg.resetTtl)
            && (o.response.Done? ==>
                  && u in o.world.db.users && o.world.db.users[u].hash == HashOf(password)
                  && forall v :: v != u && v in w.db.users ==>
                      v in o.world.db.users && o.world.db.users[v] == w.db.users[v])
  {
    assert NonceRow(w, u) && NonceRow(w, w.next);
  }

  // ---- The second factor ----

  /**
   Enabling the second factor hands out ten codes. Each completes a login for its user and for no one
   else, and no earlier code of the user does any more.
   */
  lemma EnrolmentRoundTrip(cfg: Config, w: World, bearer: Token, code: string, b: Nonce)
    requires WorldOk(w) && TotpEnable(cfg, w, bearer, code).response.BackupCodes?
    ensures var o := TotpEnable(cfg, w, bearer, code);
            && |o.response.codes| == BACKUP_CODE_COUNT
            && bearer.sub in o.world.db.users && o.world.db.users[bearer.sub].totpEnabled
            && (CodeUnused(o.world.db, bearer.sub, b) <==> b in o.response.codes)
            && (forall v :: v != bearer.sub ==> (CodeUnused(o.world.db, v, b) <==> CodeUnused(w.db, v, b)))
  {
    assert NonceRow(w, b);
    FreshSize(w.next, BACKUP_CODE_COUNT);
    assert b in Fresh(w.next, BACKUP_CODE_COUNT) <==> InBlock(b, w.next, BACKUP_CODE_COUNT);
  }

  lemma {:induction false} FreshSize(first: Nonce, count: nat)
    ensures |Fresh(first, count)| == count
  {
    if count > 0 {
      FreshSize(first, count - 1);
      forall n ensures n in Fresh(first, count) <==> n in Fresh(first, count - 1) + {first + count - 1} {
        assert InBlock(n, first, count) <==> InBlock(n, first, count - 1) || n == first + count - 1;
      }
      assert Fresh(first, count) == Fresh(first, count - 1) + {first + count - 1};
      assert first + count - 1 !in Fresh(first, count - 1);
    }
  }

  /** With a valid challenge and room in the window, exactly an unused code of the user completes the login. */
  lemma BackupCodeAcceptedIff(cfg: Config, w: World, t: Token, b: Nonce)
    requires ChallengeHolds(w, t) && !Limited(w.attempts, SecondFactorKey(t.sub), w.now, cfg.window, cfg.maxFailures)
    ensures TotpLogin(cfg, w, t, BackupCode(b)).response.Tokens? <==> CodeUnused(w.db, t.sub, b)
    ensures TotpLogin(cfg, w, t, BackupCode(b)).response.Tokens? ==>
              var w' := TotpLogin(cfg, w, t, BackupCode(b)).world;
              && !CodeUnused(w'.db, t.sub, b)
              && forall c :: c != b ==> (CodeUnused(w'.db, t.sub, c) <==> CodeUnused(w.db, t.sub, c))
  {
  }

  // ---- Impersonation ----

  /**
   An impersonation token acts as its target for the given minutes, in the tenant that was resolved, and
   can neither refresh nor impersonate.
   */
  lemma ImpersonationActsAsTarget(cfg: Config, w: World, bearer: Token, target: UserId, minutes: nat, reason: string,
                                  entry: Result<Option<TenantId>, Refusal>, elapsed: nat, r: Request)
    requires WorldOk(w) && Impersonate(cfg, w, bearer, target, minutes, reason, entry).response.AccessOnly?
    requires var t := Impersonate(cfg, w, bearer, target, minutes, reason, entry).response.token;
             (r.DoRefresh? && r.token == t) || (r.DoImpersonate? && r.bearer == t)
    ensures var o := Impersonate(cfg, w, bearer, target, minutes, reason, entry);
            var later := Later(cfg, o.world, elapsed);
            && target != bearer.sub && minutes <= MAX_IMPERSONATION_MINUTES && !ReasonMissing(cfg, reason)
            && entry == Ok(o.response.token.tenant)
            && (Authenticate(later, o.response.token) == Ok(target) <==> elapsed <= minutes * 60)
            && Step(cfg, later, r).response.Refused?
  {
    assert NonceRow(w, w.next);
  }
}
