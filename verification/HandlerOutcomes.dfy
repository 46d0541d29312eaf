/**
 When each request is granted, spelled out over the tables, and what it leaves in them.
 */
module HandlerOutcomes {
  import opened Prelude
  import opened Text
  import opened RateLimiting
  import opened AuthModel
  import opened AuthInvariants
  import opened RoundTrips

  // ---- Bearers ----

  /** A bearer token is its user's while it is genuine, unexpired, unrevoked, and the user active and unbumped. */
  lemma AuthenticateIff(w: World, t: Token, u: UserId)
    ensures Authenticate(w, t) == Ok(u) <==>
              && t.jti in w.issued && w.issued[t.jti] == t && w.now <= t.exp
              && (t.kind == Access || t.kind == Impersonation)
              && t.jti !in w.db.revoked
              && t.sub == u && u in w.db.users && w.db.users[u].active && w.db.users[u].version == t.version
    ensures AuthenticateRequest(w, t) == Ok(u) <==>
              && t.jti in w.issued && w.issued[t.jti] == t && w.now <= t.exp
              && (t.kind == Access || t.kind == Impersonation)
              && t.jti !in w.db.revoked
              && t.sub == u && u in w.db.users && w.db.users[u].version == t.version
  {
  }

  // ---- Counting failures ----

  /** Only the hits under `key` differ, by one new hit once the old ones are dropped. */
  ghost predicate OneMoreHit(cfg: Config, w: World, w': World, key: LimiterKey)
  {
    && w' == w.(attempts := w'.attempts)
    && HitsOf(w'.attempts, key) == Recent(HitsOf(w.attempts, key), w.now - cfg.window) + [w.now]
    && forall other :: other != key ==> HitsOf(w'.attempts, other) == HitsOf(w.attempts, other)
  }

  /** The hits under `key` are forgotten and the others kept. */
  ghost predicate HitsForgotten(w: World, w': World, key: LimiterKey)
  {
    && HitsOf(w'.attempts, key) == []
    && forall other :: other != key ==> HitsOf(w'.attempts, other) == HitsOf(w.attempts, other)
  }

  /** Two logins count together exactly when their addresses agree in lower case and, if asked for, their clients do. */
  lemma LoginsCountTogetherIff(cfg: Config, email: Email, ip: string, other: Email, otherIp: string)
    ensures LoginLimiterKey(cfg, email, ip) == LoginLimiterKey(cfg, other, otherIp) <==>
              cfg.lower(email) == cfg.lower(other) && (cfg.limitByIp ==> ip == otherIp)
  {
  }

  /** The password belongs to the e-mail's account. */
  ghost predicate RightPassword(w: World, email: Email, password: string)
  {
    && email in w.db.emails && w.db.emails[email] in w.db.users
    && w.db.users[w.db.emails[email]].hash == HashOf(password)
  }

  /** A throttled login is refused whatever the password is, and counts nothing. */
  lemma ThrottledLoginRefused(cfg: Config, w: World, email: Email, password: string, ip: string)
    ensures var o := Login(cfg, w, email, password, ip);
            && (o.response == Refused(TooManyAttempts) <==> !Unthrottled(cfg, w, email, ip))
            && (!Unthrottled(cfg, w, email, ip) ==>
                  o.world == w.(attempts := Trimmed(w.attempts, LoginLimiterKey(cfg, email, ip), w.now, cfg.window)))
  {
  }

  /** Of the others, a wrong password and an inactive account are refused and counted, the rest let through. */
  lemma LoginOutcome(cfg: Config, w: World, email: Email, password: string, ip: string)
    requires Unthrottled(cfg, w, email, ip)
    ensures var o, key := Login(cfg, w, email, password, ip), LoginLimiterKey(cfg, email, ip);
            if !RightPassword(w, email, password) then
              o.response == Refused(InvalidCredentials) && OneMoreHit(cfg, w, o.world, key)
            else if !w.db.users[w.db.emails[email]].active then
              o.response == Refused(InactiveUser) && OneMoreHit(cfg, w, o.world, key)
            else
              && !o.response.Refused? && o.world.db == w.db && HitsForgotten(w, o.world, key)
              && (if w.db.users[w.db.emails[email]].totpEnabled then o.response.MfaRequired? else o.response.Tokens?)
  {
    RecordedAfterTrim(w.attempts, LoginLimiterKey(cfg, email, ip), w.now, cfg.window);
  }

  // ---- The second factor ----

  /** What a challenge must be, over the tables. */
  lemma ChallengeHoldsIff(w: World, t: Token)
    ensures ChallengeHolds(w, t) <==>
              && t.jti in w.issued && w.issued[t.jti] == t && w.now <= t.exp && t.kind == Challenge
              && t.jti !in w.db.revoked && t.sub in w.db.users
              && w.db.users[t.sub].active && w.db.users[t.sub].version == t.version && w.db.users[t.sub].totpEnabled
  {
  }

  /** The second-factor throttle of the user lets an attempt through. */
  predicate FactorUnthrottled(cfg: Config, w: World, u: UserId)
  {
    !Limited(w.attempts, SecondFactorKey(u), w.now, cfg.window, cfg.maxFailures)
  }

  /**
   With a valid challenge and room in the window, exactly a code that the authenticator's secret
   produces completes the login; any other is refused, counts as one failure and changes nothing else.
   */
  lemma CodeAcceptedIff(cfg: Config, w: World, t: Token, code: string)
    requires ChallengeHolds(w, t) && FactorUnthrottled(cfg, w, t.sub)
    ensures var o, secret := TotpLogin(cfg, w, t, Code(code)), w.db.users[t.sub].totpSecret;
            && (o.response.Tokens? <==> secret.Some? && code != "" && cfg.totpMatches(secret.value, code, w.now))
            && (!o.response.Tokens? ==>
                  o.response == Refused(InvalidSecondFactor) && OneMoreHit(cfg, w, o.world, SecondFactorKey(t.sub)))
  {
    RecordedAfterTrim(w.attempts, SecondFactorKey(t.sub), w.now, cfg.window);
  }

  /** A backup code that is not an unused one of the user is refused and counted in the same way. */
  lemma WrongBackupCodeCounted(cfg: Config, w: World, t: Token, raw: Nonce)
    requires ChallengeHolds(w, t) && FactorUnthrottled(cfg, w, t.sub)
    requires !(raw in w.db.codes && w.db.codes[raw].user == t.sub && w.db.codes[raw].usedAt.None?)
    ensures var o := TotpLogin(cfg, w, t, BackupCode(raw));
            o.response == Refused(InvalidSecondFactor) && OneMoreHit(cfg, w, o.world, SecondFactorKey(t.sub))
  {
    RecordedAfterTrim(w.attempts, SecondFactorKey(t.sub), w.now, cfg.window);
  }

  /** A request with two factors or none, a bad challenge and a full window are refused, in this order. */
  lemma SecondFactorRefusals(cfg: Config, w: World, t: Token, factor: SecondFactor)
    ensures var response := TotpLogin(cfg, w, t, factor).response;
            && (factor.NotExactlyOne? ==> response == Refused(BadRequest))
            && (!factor.NotExactlyOne? && !ChallengeHolds(w, t) ==> response == Refused(BadChallenge))
            && (!factor.NotExactlyOne? && ChallengeHolds(w, t) && !FactorUnthrottled(cfg, w, t.sub) ==>
                  response == Refused(TooManyAttempts))
  {
  }

  /** A completed second factor burns the challenge, forgives the failures and leaves the accounts alone. */
  lemma SecondFactorLeaves(cfg: Config, w: World, t: Token, factor: SecondFactor)
    requires TotpLogin(cfg, w, t, factor).response.Tokens?
    ensures var w' := TotpLogin(cfg, w, t, factor).world;
            && w'.db.revoked == w.db.revoked + {t.jti} && HitsForgotten(w, w', SecondFactorKey(t.sub))
            && w'.db.users == w.db.users && w'.db.emails == w.db.emails && w'.db.resets == w.db.resets
  {
  }

  // ---- Sessions ----

  /** The rotated pair is for the same user, and lasts as configured. */
  lemma RefreshedTokensLast(cfg: Config, w: World, t: Token, elapsed: nat)
    requires WorldOk(w) && RefreshPair(cfg, w, t).response.Tokens?
    ensures var o := RefreshPair(cfg, w, t);
            var later := Later(cfg, o.world, elapsed);
            && (Authenticate(later, o.response.access) == Ok(t.sub) <==> elapsed <= cfg.accessTtl)
            && (RefreshPair(cfg, later, o.response.refresh).response.Tokens? <==> elapsed <= cfg.refreshTtl)
            && o.world.db == w.db.(revoked := w.db.revoked + {t.jti})
  {
    assert NonceRow(w, w.next) && NonceRow(w, w.next + 1) && NonceRow(w, t.jti);
    PairLasts(cfg, Revoke(w, t.jti), t.sub, Some(t.family), elapsed);
  }

  /** Any accepted bearer may log out of this session or of all; nothing but that changes. */
  lemma LogoutOutcome(w: World, t: Token)
    ensures var one, all := Logout(w, t), LogoutAll(w, t);
            && (one.response.Done? <==> Authenticate(w, t).Ok?) && (all.response.Done? <==> Authenticate(w, t).Ok?)
            && (one.response.Done? ==> one.world == w.(db := w.db.(revoked := w.db.revoked + {t.jti})))
            && (all.response.Done? ==>
                  var user := w.db.users[t.sub];
                  all.world == w.(db := w.db.(users := w.db.users[t.sub := user.(version := user.version + 1)])))
  {
  }

  // ---- Passwords by token ----

  /** A reset row is issued exactly for an active account that may have a password, and the answer never tells. */
  lemma ResetRequestOutcome(cfg: Config, w: World, email: Email)
    requires ResetRequest(cfg, w, email).response.Done?
    ensures var w' := ResetRequest(cfg, w, email).world;
            w'.db == if && email in w.db.emails && w.db.emails[email] in w.db.users
                        && w.db.users[w.db.emails[email]].active
                        && !w.db.users[w.db.emails[email]].passwordLoginDisabled
                     then w.db.(resets := w.db.resets[w.next := ResetRow(w.db.emails[email], w.now + cfg.resetTtl,
                                                                         None)])
                     else w.db
  {
  }

  /** A password is set exactly by an acceptable one with a known, unused, unexpired token, and then like this. */
  lemma ResetConfirmOutcome(cfg: Config, w: World, raw: Nonce, password: string)
    ensures var o := ResetConfirm(cfg, w, raw, password);
            && (o.response.Done? <==>
                  && cfg.acceptable(password) && raw in w.db.resets && w.db.resets[raw].usedAt.None?
                  && w.now <= w.db.resets[raw].expires && w.db.resets[raw].user in w.db.users)
            && (o.response.Done? ==>
                  var u := w.db.resets[raw].user;
                  var user := w.db.users[u];
                  && o.world.db.users == w.db.users[u := user.(hash := HashOf(password), active := true,
                                                               version := user.version + 1)]
                  && o.world.db.resets == w.db.resets[raw := w.db.resets[raw].(usedAt := Some(w.now))]
                  && o.world.db.emails == w.db.emails && o.world.db.codes == w.db.codes
                  && o.world.db.revoked == w.db.revoked)
  {
  }

  // ---- Enrolment ----

  /** Setup hands out the secret it stores, for an account without an enabled second factor. */
  lemma SetupOutcome(w: World, bearer: Token)
    ensures var o := TotpSetup(w, bearer);
            && (o.response.Pending? <==> Authenticate(w, bearer).Ok? && !w.db.users[bearer.sub].totpEnabled)
            && (o.response.Pending? ==>
                  o.world.db == w.db.(users := w.db.users[bearer.sub :=
                                                 w.db.users[bearer.sub].(totpSecret := Some(o.response.secret))]))
            && (!o.response.Pending? ==> o.world == w)
  {
  }

  /** The code is one that the account's secret produces now. */
  ghost predicate RightCode(cfg: Config, w: World, u: UserId, code: string)
  {
    u in w.db.users && w.db.users[u].totpSecret.Some? && code != ""
    && cfg.totpMatches(w.db.users[u].totpSecret.value, code, w.now)
  }

  /** Enabling needs a pending secret and a code of it, and sets the flag. */
  lemma EnableOutcome(cfg: Config, w: World, bearer: Token, code: string)
    ensures var o := TotpEnable(cfg, w, bearer, code);
            && (o.response.BackupCodes? <==>
                  && Authenticate(w, bearer).Ok? && !w.db.users[bearer.sub].totpEnabled
                  && RightCode(cfg, w, bearer.sub, code))
            && (o.response.BackupCodes? ==>
                  && |o.response.codes| == 10
                  && o.world.db.users == w.db.users[bearer.sub := w.db.users[bearer.sub].(totpEnabled := true)]
                  && o.world.db.emails == w.db.emails && o.world.db.resets == w.db.resets
                  && o.world.db.revoked == w.db.revoked)
            && (!o.response.BackupCodes? ==> o.world == w)
  {
    FreshSize(w.next, BACKUP_CODE_COUNT);
  }

  /** Disabling needs a code too, and clears flag, secret and every code of the user, but no one else's. */
  lemma DisableOutcome(cfg: Config, w: World, bearer: Token, code: string)
    ensures var o := TotpDisable(cfg, w, bearer, code);
            && (o.response.Done? <==>
                  && Authenticate(w, bearer).Ok? && w.db.users[bearer.sub].totpEnabled
                  && RightCode(cfg, w, bearer.sub, code))
            && (o.response.Done? ==>
                  && o.world.db.users == w.db.users[bearer.sub := w.db.users[bearer.sub].(totpEnabled := false,
                                                                                          totpSecret := None)]
                  && (forall n :: n in o.world.db.codes <==> n in w.db.codes && w.db.codes[n].user != bearer.sub)
                  && (forall n :: n in o.world.db.codes ==> o.world.db.codes[n] == w.db.codes[n]))
            && (!o.response.Done? ==> o.world == w)
  {
  }

  /**
   Set up, enable, disable: with codes of the secret that setup handed out both steps are granted, the
   account asks for a second factor in between, and is afterwards as it was before.
   */
  lemma EnrolmentComesBack(cfg: Config, w: World, bearer: Token, code: string, other: string)
    requires WorldOk(w) && TotpSetup(w, bearer).response.Pending? && code != "" && other != ""
    requires cfg.totpMatches(TotpSetup(w, bearer).response.secret, code, w.now)
    requires cfg.totpMatches(TotpSetup(w, bearer).response.secret, other, w.now)
    ensures var w1 := TotpSetup(w, bearer).world;
            var enabled := TotpEnable(cfg, w1, bearer, code);
            var disabled := TotpDisable(cfg, enabled.world, bearer, other);
            && enabled.response.BackupCodes? && enabled.world.db.users[bearer.sub].totpEnabled
            && disabled.response.Done?
            && disabled.world.db.users == w.db.users[bearer.sub := w.db.users[bearer.sub].(totpSecret := None)]
  {
    SetupOutcome(w, bearer);
    var w1 := TotpSetup(w, bearer).world;
    EnableOutcome(cfg, w1, bearer, code);
    DisableOutcome(cfg, TotpEnable(cfg, w1, bearer, code).world, bearer, other);
  }

  // ---- Accounts ----

  /** An address that has an account is invited without touching it. */
  lemma InviteOutcome(cfg: Config, w: World, address: Email)
    ensures var w', email := Invite(cfg, w, address).world, cfg.lower(address);
            && (email in w.db.emails ==> w' == w)
            && (email !in w.db.emails ==>
                  && w'.db.emails == w.db.emails[email := w.next]
                  && w'.db.users == w.db.users[w.next := User(email, Unusable, false, false, 0, false, None, false)]
                  && w'.db.resets == w.db.resets[w.next + 1 := ResetRow(w.next, w.now + cfg.inviteTtl, None)])
  {
  }

  /** A machine account is made exactly for a free address, is active, and its token lasts for the given time. */
  lemma ProvisionOutcome(cfg: Config, w: World, address: Email, ttl: nat, elapsed: nat)
    requires WorldOk(w)
    ensures var o, email := ProvisionMachine(cfg, w, address, ttl), cfg.lower(address);
            && (o.response.AccessOnly? <==> email !in w.db.emails)
            && (!o.response.AccessOnly? ==> o.world == w)
            && (o.response.AccessOnly? ==>
                  && o.world.db.emails == w.db.emails[email := w.next]
                  && o.world.db.users == w.db.users[w.next := User(email, Unusable, true, false, 0, true, None, false)]
                  && (Authenticate(Later(cfg, o.world, elapsed), o.response.token) == Ok(w.next) <==> elapsed <= ttl))
  {
    assert NonceRow(w, w.next + 1);
  }

  /** `user enable` and `user disable` leave the flag as asked, raise the version on switching off, and no more. */
  lemma SetActiveOutcome(w: World, email: Email, active: bool)
    requires WorldOk(w)
    ensures var o := SetActive(w, email, active);
            && (o.response.Done? <==> email in w.db.emails)
            && (!o.response.Done? ==> o.world == w)
            && (o.response.Done? ==>
                  var u := w.db.emails[email];
                  && u in w.db.users
                  && var was := w.db.users[u];
                     var version := was.version + if was.active && !active then 1 else 0;
                     o.world == w.(db := w.db.(users := w.db.users[u := was.(active := active, version := version)])))
  {
    assert EmailRow(w, email);
    if email in w.db.emails {
      var u := w.db.emails[email];
      assert w.db.users[u := w.db.users[u]] == w.db.users;
    }
  }

  /** A disabled account is inactive, and no password logs in to it from anywhere. */
  lemma DisabledIsShut(cfg: Config, w: World, email: Email, password: string, ip: string)
    requires WorldOk(w) && email in w.db.emails
    ensures var w', u := SetActive(w, email, false).world, w.db.emails[email];
            && u in w'.db.users && !w'.db.users[u].active
            && Login(cfg, w', email, password, ip).response.Refused?
  {
    SetActiveOutcome(w, email, false);
  }

  /** An enabled account is active and opens for its own password. */
  lemma EnabledOpens(cfg: Config, w: World, email: Email, password: string, ip: string)
    requires WorldOk(w) && RightPassword(w, email, password) && Unthrottled(cfg, w, email, ip)
    ensures var w' := SetActive(w, email, true).world;
            w'.db.users[w.db.emails[email]].active && !Login(cfg, w', email, password, ip).response.Refused?
  {
    SetActiveOutcome(w, email, true);
    LoginOutcome(cfg, SetActive(w, email, true).world, email, password, ip);
  }

  /** An edit is refused only for an unknown account or a taken address; it moves the e-mail index along. */
  lemma EditUserOutcome(w: World, u: UserId, email: Email, active: bool)
    requires WorldOk(w)
    ensures var o := EditUser(w, u, email, active);
            && (o.response.Done? <==> u in w.db.users && (email in w.db.emails ==> w.db.emails[email] == u))
            && (!o.response.Done? ==> o.world == w)
            && (o.response.Done? ==>
                  && o.world.db.users == w.db.users[u := w.db.users[u].(email := email, active := active)]
                  && email in o.world.db.emails && o.world.db.emails[email] == u
                  && (w.db.users[u].email != email ==> w.db.users[u].email !in o.world.db.emails)
                  && forall e :: e != email && e != w.db.users[u].email ==>
                       (e in o.world.db.emails <==> e in w.db.emails)
                       && (e in w.db.emails ==> o.world.db.emails[e] == w.db.emails[e]))
  {
    assert NonceRow(w, u);
  }

  /** Anonymising leaves the tombstone, no password, no second factor, and an old address that leads nowhere. */
  lemma AnonymiseOutcome(cfg: Config, w: World, u: UserId)
    requires WorldOk(w)
    ensures var o, tombstone := Anonymise(cfg, w, u), cfg.tombstone(u);
            && (o.response.Done? <==> u in w.db.users && (tombstone in w.db.emails ==> w.db.emails[tombstone] == u))
            && (!o.response.Done? ==> o.world == w)
            && (o.response.Done? ==>
                  var was := w.db.users[u];
                  && o.world.db.users == w.db.users[u := User(tombstone, Unusable, false, was.superadmin,
                                                              was.version + 1, was.passwordLoginDisabled, None, false)]
                  && tombstone in o.world.db.emails && o.world.db.emails[tombstone] == u
                  && (was.email != tombstone ==> was.email !in o.world.db.emails))
  {
    assert NonceRow(w, u);
  }

  /** Neither the old address nor the tombstone logs in afterwards. */
  lemma AnonymisedIsShut(cfg: Config, w: World, u: UserId, password: string, ip: string)
    requires WorldOk(w) && Anonymise(cfg, w, u).response.Done?
    ensures var w' := Anonymise(cfg, w, u).world;
            && Login(cfg, w', w.db.users[u].email, password, ip).response.Refused?
            && Login(cfg, w', cfg.tombstone(u), password, ip).response.Refused?
  {
    AnonymiseOutcome(cfg, w, u);
  }

  // ---- Impersonation ----

  /** A genuine access token of an active superadmin, a reason, a short time, and another active account. */
  lemma ImpersonateGrantedIff(cfg: Config, w: World, bearer: Token, target: UserId, minutes: nat, reason: string,
                              entry: Result<Option<TenantId>, Refusal>)
    ensures var o := Impersonate(cfg, w, bearer, target, minutes, reason, entry);
            && (o.response.AccessOnly? <==>
                  && Authenticate(w, bearer).Ok? && bearer.kind == Access && w.db.users[bearer.sub].superadmin
                  && 1 <= minutes <= 480 && target != bearer.sub
                  && (cfg.requireReason ==> Strip(reason) != "")
                  && target in w.db.users && w.db.users[target].active && entry.Ok?)
            && o.world.db == w.db && (!o.response.AccessOnly? ==> o.world == w)
  {
  }
}
