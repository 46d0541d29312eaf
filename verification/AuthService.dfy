/**
 The request handlers as the routers run them: an object that holds the tables and updates them in
 place. Each method is proved to do to the tables, and to answer, exactly what the step function of
 the same name says, so every property of runs holds of sequences of calls on the object.
 */
module AuthServing {
  import opened Prelude
  import opened RateLimiting
  import opened AuthModel
  import opened AuthInvariants

  lemma OneMoreCode(codes: map<Nonce, CodeRow>, u: UserId, first: Nonce, count: nat)
    ensures Fresh(first, count + 1) == Fresh(first, count) + {first + count}
    ensures WithNewCodes(codes, u, Fresh(first, count + 1))
         == WithNewCodes(codes, u, Fresh(first, count))[first + count := CodeRow(u, None)]
  {
    var more, some := Fresh(first, count + 1), Fresh(first, count) + {first + count};
    forall n ensures n in more <==> n in some {
      assert InBlock(n, first, count + 1) <==> InBlock(n, first, count) || n == first + count;
    }
  }

  class AuthService {
    const cfg: Config
    const limiter: InMemoryRateLimiter<LimiterKey>
    const resetLimiter: InMemoryRateLimiter<Email>

    var users: map<UserId, User>
    var emails: map<Email, UserId>
    var revoked: set<Nonce>
    var resets: map<Nonce, ResetRow>
    var codes: map<Nonce, CodeRow>
    var issued: map<Nonce, Token>
    ghost var heads: map<Nonce, Token>
    var next: Nonce
    var now: Instant

    /** The world the object stands for. */
    ghost function View(): World
      reads this, limiter, resetLimiter
    {
      World(Db(users, emails, revoked, resets, codes), limiter.failures, resetLimiter.failures, issued, heads,
            next, now)
    }

    ghost predicate Wired()
      reads this, limiter, resetLimiter
    {
      && (limiter as object) != resetLimiter
      && limiter.Valid() && limiter.lastSeen <= now
      && resetLimiter.Valid() && resetLimiter.lastSeen <= now
      && limiter.maxFailures == cfg.maxFailures && limiter.windowSeconds == cfg.window
      && resetLimiter.maxFailures == cfg.resetMaxRequests && resetLimiter.windowSeconds == cfg.resetWindow
    }

    ghost predicate Valid()
      reads this, limiter, resetLimiter
    {
      Wired() && WorldOk(View())
    }

    constructor (cfg: Config, users: map<UserId, User>, emails: map<Email, UserId>, next: Nonce, now: Instant)
      requires forall u :: u in users ==> u < next && users[u].email in emails && emails[users[u].email] == u
      requires forall u :: u in users && users[u].passwordLoginDisabled ==> users[u].hash.Unusable?
      requires forall e :: e in emails ==> emails[e] in users && users[emails[e]].email == e
      ensures Valid() && Initial(View()) && this.cfg == cfg
      ensures View().db.users == users && View().now == now
    {
      this.cfg := cfg;
      limiter := new InMemoryRateLimiter(cfg.maxFailures, cfg.window, now);
      resetLimiter := new InMemoryRateLimiter(cfg.resetMaxRequests, cfg.resetWindow, now);
      this.users, this.emails, this.next, this.now := users, emails, next, now;
      revoked, resets, codes, issued, heads := {}, map[], map[], map[], map[];
      new;
      InitialOk(View());
    }

    // ---- The pieces the handlers share ----

    method MintFor(kind: Kind, u: UserId, ttl: nat, family: Nonce, tenant: Option<TenantId>) returns (t: Token)
      requires Wired() && u in users
      modifies this
      ensures Wired() && t == NewToken(old(View()), kind, u, ttl, family).(tenant := tenant)
      ensures View() == Issue(old(View()), t)
    {
      t := Token(kind, u, users[u].version, next, now + ttl, family, tenant);
      issued := issued[t.jti := t];
      heads := if t.kind.Refresh? then heads[t.family := t] else heads;
      next := next + 1;
    }

    method Mint(kind: Kind, u: UserId, ttl: nat, family: Nonce) returns (t: Token)
      requires Wired() && u in users
      modifies this
      ensures Wired() && t == NewToken(old(View()), kind, u, ttl, family) && View() == Issue(old(View()), t)
    {
      t := MintFor(kind, u, ttl, family, None);
    }

    method MintTokens(u: UserId, family: Option<Nonce>) returns (response: Response)
      requires Wired() && u in users
      modifies this
      ensures Wired() && Outcome(View(), response) == MintPair(cfg, old(View()), u, family)
    {
      var access := Mint(Access, u, cfg.accessTtl, next);
      var refresh := Mint(Refresh, u, cfg.refreshTtl, if family.Some? then family.value else next);
      response := Tokens(access, refresh);
    }

    /** A no-op, answering false, when the jti is already revoked. */
    method RevokeToken(jti: Nonce) returns (newly: bool)
      requires Wired()
      modifies this
      ensures Wired() && View() == Revoke(old(View()), jti)
      ensures newly <==> jti !in old(revoked)
    {
      newly := jti !in revoked;
      if newly {
        revoked := revoked + {jti};
      } else {
        assert revoked + {jti} == revoked;
      }
    }

    method GetCurrentUser(t: Token) returns (who: Result<UserId, Refusal>)
      ensures who == Authenticate(View(), t)
    {
      if !(t.jti in issued && issued[t.jti] == t && now <= t.exp && IsBearer(t)) {
        return Err(InvalidToken);
      }
      if t.jti in revoked {
        return Err(RevokedToken);
      }
      if t.sub !in users {
        return Err(InvalidToken);
      }
      if !users[t.sub].active {
        return Err(InactiveUser);
      }
      if users[t.sub].version != t.version {
        return Err(RevokedToken);
      }
      return Ok(t.sub);
    }

    method CreatePasswordReset(u: UserId, ttl: nat)
      requires Wired()
      modifies this
      ensures Wired() && View() == AddReset(old(View()), u, ttl)
    {
      resets := resets[next := ResetRow(u, now + ttl, None)];
      next := next + 1;
    }

    /** Marks the row used and answers its owner; an unknown, used or expired token consumes nothing. */
    method ConsumePasswordReset(raw: Nonce) returns (owner: Option<UserId>)
      requires Wired()
      modifies this
      ensures Wired()
      ensures if ResetUsable(old(View()), raw)
              then owner == Some(old(resets)[raw].user) && View() == UseReset(old(View()), raw)
              else owner == None && View() == old(View())
    {
      if raw !in resets || resets[raw].usedAt.Some? {
        return None;
      }
      if resets[raw].expires < now {
        return None;
      }
      if resets[raw].user !in users {
        return None;
      }
      owner := Some(resets[raw].user);
      resets := resets[raw := resets[raw].(usedAt := Some(now))];
    }

    /** Deletes the user's backup codes row by row. */
    method ClearBackupCodes(u: UserId)
      requires Wired()
      modifies this
      ensures Wired() && View() == old(View()).(db := old(View()).db.(codes := WithoutCodes(old(codes), u)))
    {
      var rows := set n | n in codes && codes[n].user == u;
      ghost var before := codes;
      while rows != {}
        invariant Wired() && View() == old(View()).(db := old(View()).db.(codes := codes))
        invariant forall n :: n in codes <==> n in before && (before[n].user != u || n in rows)
        invariant forall n :: n in codes ==> codes[n] == before[n]
        invariant forall n :: n in rows ==> n in before && before[n].user == u
        decreases rows
      {
        var n :| n in rows;
        codes := codes - {n};
        rows := rows - {n};
      }
      assert codes == WithoutCodes(before, u);
    }

    /** Draws fresh codes and stores a row for each. */
    method StoreBackupCodes(u: UserId, count: nat) returns (added: set<Nonce>)
      requires Wired()
      modifies this
      ensures Wired() && added == Fresh(old(next), count)
      ensures View() == old(View()).(db := old(View()).db.(codes := WithNewCodes(old(codes), u, added)),
                                        next := old(next) + count)
    {
      added := {};
      var i := 0;
      while i < count
        invariant 0 <= i <= count && Wired() && next == old(next) + i
        invariant added == Fresh(old(next), i)
        invariant codes == WithNewCodes(old(codes), u, added)
        invariant View() == old(View()).(db := old(View()).db.(codes := codes), next := next)
      {
        OneMoreCode(old(codes), u, old(next), i);
        codes := codes[next := CodeRow(u, None)];
        added := added + {next};
        next := next + 1;
        i := i + 1;
      }
    }

    method ConsumeBackupCode(u: UserId, raw: Nonce) returns (ok: bool)
      requires Wired()
      modifies this
      ensures Wired() && ok == CodeUnused(old(View()).db, u, raw)
      ensures View() == if ok then UseCode(old(View()), raw) else old(View())
    {
      ok := raw in codes && codes[raw].user == u && codes[raw].usedAt.None?;
      if ok {
        codes := codes[raw := codes[raw].(usedAt := Some(now))];
      }
    }

    // ---- The handlers ----

    method Advance(elapsed: nat)
      requires Valid()
      modifies this
      ensures Valid() && View() == Step(cfg, old(View()), Tick(elapsed)).world
    {
      StepOk(cfg, View(), Tick(elapsed));
      now := now + elapsed;
    }

    /** The provider's part of a login: who the credentials belong to, or why they are refused. */
    method VerifyCredentials(email: Email, password: string) returns (who: Result<UserId, Refusal>)
      ensures who == if email !in emails || emails[email] !in users || users[emails[email]].hash != HashOf(password)
                     then Err(InvalidCredentials)
                     else if !users[emails[email]].active then Err(InactiveUser) else Ok(emails[email])
    {
      if email !in emails || emails[email] !in users || users[emails[email]].hash != HashOf(password) {
        return Err(InvalidCredentials);
      }
      if !users[emails[email]].active {
        return Err(InactiveUser);
      }
      return Ok(emails[email]);
    }

    method AttemptLogin(email: Email, password: string, ip: string) returns (response: Response)
      requires Wired()
      modifies this, limiter
      ensures Wired() && Outcome(View(), response) == Login(cfg, old(View()), email, password, ip)
    {
      var key := LoginLimiterKey(cfg, email, ip);
      var limited := limiter.IsLimited(key, now);
      if limited {
        return Refused(TooManyAttempts);
      }
      var who := VerifyCredentials(email, password);
      if who.Err? {
        limiter.RecordFailure(key, now);
        return Refused(who.error);
      }
      limiter.Clear(key);
      assert limiter.failures == Cleared(old(limiter.failures), key);
      var u := who.value;
      if users[u].totpEnabled {
        var challenge := Mint(Challenge, u, cfg.challengeTtl, next);
        return MfaRequired(challenge);
      }
      response := MintTokens(u, None);
    }

    method HandleLogin(email: Email, password: string, ip: string) returns (response: Response)
      requires Valid()
      modifies this, limiter
      ensures Valid() && Outcome(View(), response) == Login(cfg, old(View()), email, password, ip)
    {
      LoginOk(cfg, View(), email, password, ip);
      response := AttemptLogin(email, password, ip);
    }

    method HandleRefresh(t: Token) returns (response: Response)
      requires Valid()
      modifies this
      ensures Valid() && Outcome(View(), response) == RefreshPair(cfg, old(View()), t)
    {
      RefreshOk(cfg, View(), t);
      if !(t.jti in issued && issued[t.jti] == t && now <= t.exp && t.kind == Refresh) {
        return Refused(InvalidToken);
      }
      if t.jti in revoked {
        return Refused(RevokedToken);
      }
      if t.sub !in users || !users[t.sub].active {
        return Refused(InvalidToken);
      }
      if users[t.sub].version != t.version {
        return Refused(RevokedToken);
      }
      var _ := RevokeToken(t.jti);
      response := MintTokens(t.sub, Some(t.family));
    }

    method HandleLogout(bearer: Token) returns (response: Response)
      requires Valid()
      modifies this
      ensures Valid() && Outcome(View(), response) == Logout(old(View()), bearer)
    {
      LogoutOk(View(), bearer);
      var who := GetCurrentUser(bearer);
      if who.Err? {
        return Refused(who.error);
      }
      var _ := RevokeToken(bearer.jti);
      response := Done;
    }

    method HandleLogoutAll(bearer: Token) returns (response: Response)
      requires Valid()
      modifies this
      ensures Valid() && Outcome(View(), response) == LogoutAll(old(View()), bearer)
    {
      LogoutAllOk(View(), bearer);
      var who := GetCurrentUser(bearer);
      if who.Err? {
        return Refused(who.error);
      }
      var u := who.value;
      users := users[u := users[u].(version := users[u].version + 1)];
      response := Done;
    }

    method HandleResetRequest(email: Email) returns (response: Response)
      requires Valid()
      modifies this, resetLimiter
      ensures Valid() && Outcome(View(), response) == ResetRequest(cfg, old(View()), email)
    {
      ResetRequestOk(cfg, View(), email);
      var key := cfg.lower(email);
      RecordedAfterTrim(resetLimiter.failures, key, now, cfg.resetWindow);
      var limited := resetLimiter.IsLimited(key, now);
      if limited {
        return Refused(TooManyAttempts);
      }
      resetLimiter.RecordFailure(key, now);
      if email in emails && emails[email] in users {
        var user := users[emails[email]];
        if user.active && !user.passwordLoginDisabled {
          CreatePasswordReset(emails[email], cfg.resetTtl);
        }
      }
      response := Done;
    }

    method HandleResetConfirm(raw: Nonce, password: string) returns (response: Response)
      requires Valid()
      modifies this
      ensures Valid() && Outcome(View(), response) == ResetConfirm(cfg, old(View()), raw, password)
    {
      ResetConfirmOk(cfg, View(), raw, password);
      if !cfg.acceptable(password) {
        return Refused(Unprocessable);
      }
      var owner := ConsumePasswordReset(raw);
      if owner.None? {
        return Refused(InvalidResetToken);
      }
      var u := owner.value;
      var user := users[u];
      user := user.(hash := HashOf(password));
      user := user.(active := true);
      user := user.(version := user.version + 1);
      users := users[u := user];
      response := Done;
    }

    method HandleTotpSetup(bearer: Token) returns (response: Response)
      requires Valid()
      modifies this
      ensures Valid() && Outcome(View(), response) == TotpSetup(old(View()), bearer)
    {
      TotpSetupOk(View(), bearer);
      var who := GetCurrentUser(bearer);
      if who.Err? {
        return Refused(who.error);
      }
      var u := who.value;
      if users[u].totpEnabled {
        return Refused(Conflict);
      }
      var secret := next;
      next := next + 1;
      users := users[u := users[u].(totpSecret := Some(secret))];
      response := Pending(secret);
    }

    method HandleTotpEnable(bearer: Token, code: string) returns (response: Response)
      requires Valid()
      modifies this
      ensures Valid() && Outcome(View(), response) == TotpEnable(cfg, old(View()), bearer, code)
    {
      TotpEnableOk(cfg, View(), bearer, code);
      var who := GetCurrentUser(bearer);
      if who.Err? {
        return Refused(who.error);
      }
      var u := who.value;
      if users[u].totpEnabled {
        return Refused(Conflict);
      }
      if users[u].totpSecret.None? || !CodeMatches(cfg, users[u].totpSecret, code, now) {
        return Refused(BadRequest);
      }
      users := users[u := users[u].(totpEnabled := true)];
      ClearBackupCodes(u);
      var added := StoreBackupCodes(u, BACKUP_CODE_COUNT);
      response := BackupCodes(added);
    }

    method HandleTotpDisable(bearer: Token, code: string) returns (response: Response)
      requires Valid()
      modifies this
      ensures Valid() && Outcome(View(), response) == TotpDisable(cfg, old(View()), bearer, code)
    {
      TotpDisableOk(cfg, View(), bearer, code);
      var who := GetCurrentUser(bearer);
      if who.Err? {
        return Refused(who.error);
      }
      var u := who.value;
      if !users[u].totpEnabled || !CodeMatches(cfg, users[u].totpSecret, code, now) {
        return Refused(BadRequest);
      }
      var user := users[u];
      user := user.(totpEnabled := false);
      user := user.(totpSecret := None);
      users := users[u := user];
      ClearBackupCodes(u);
      response := Done;
    }

    method HoldsChallenge(t: Token) returns (holds: bool)
      ensures holds == ChallengeHolds(View(), t)
    {
      if !(t.jti in issued && issued[t.jti] == t && now <= t.exp && t.kind == Challenge) {
        return false;
      }
      if t.jti in revoked {
        return false;
      }
      return t.sub in users && users[t.sub].active && users[t.sub].version == t.version && users[t.sub].totpEnabled;
    }

    /** Checks the factor; a backup code that is right is used up. */
    method ConsumeFactor(u: UserId, factor: SecondFactor) returns (ok: bool)
      requires Wired() && u in users && !factor.NotExactlyOne?
      modifies this
      ensures Wired() && ok == FactorHolds(cfg, old(View()), u, factor)
      ensures View() == if ok && factor.BackupCode? then UseCode(old(View()), factor.raw) else old(View())
    {
      match factor {
        case Code(code) => ok := CodeMatches(cfg, users[u].totpSecret, code, now);
        case BackupCode(raw) => ok := ConsumeBackupCode(u, raw);
      }
    }

    /** Forgives the failures, burns the challenge and hands out the pair. */
    method CompleteChallenge(t: Token) returns (response: Response)
      requires Wired() && t.sub in users
      modifies this, limiter
      ensures Wired()
      ensures var w := old(View());
              Outcome(View(), response)
              == MintPair(cfg, Revoke(w.(attempts := Cleared(w.attempts, SecondFactorKey(t.sub))), t.jti), t.sub, None)
    {
      limiter.Clear(SecondFactorKey(t.sub));
      var _ := RevokeToken(t.jti);
      response := MintTokens(t.sub, None);
    }

    method AttemptSecondFactor(t: Token, factor: SecondFactor) returns (response: Response)
      requires Wired()
      modifies this, limiter
      ensures Wired() && Outcome(View(), response) == TotpLogin(cfg, old(View()), t, factor)
    {
      if factor.NotExactlyOne? {
        return Refused(BadRequest);
      }
      var holds := HoldsChallenge(t);
      if !holds {
        return Refused(BadChallenge);
      }
      var key := SecondFactorKey(t.sub);
      var limited := limiter.IsLimited(key, now);
      if limited {
        return Refused(TooManyAttempts);
      }
      var ok := ConsumeFactor(t.sub, factor);
      if !ok {
        limiter.RecordFailure(key, now);
        return Refused(InvalidSecondFactor);
      }
      assert Cleared(limiter.failures, key) == Cleared(old(limiter.failures), key);
      response := CompleteChallenge(t);
    }

    method HandleTotpLogin(t: Token, factor: SecondFactor) returns (response: Response)
      requires Valid()
      modifies this, limiter
      ensures Valid() && Outcome(View(), response) == TotpLogin(cfg, old(View()), t, factor)
    {
      TotpLoginOk(cfg, View(), t, factor);
      response := AttemptSecondFactor(t, factor);
    }

    method CreatePasswordlessUser(email: Email, active: bool, passwordLoginDisabled: bool) returns (u: UserId)
      requires Wired()
      modifies this
      ensures Wired() && u == old(next)
      ensures View()
           == AddUser(old(View()), User(email, Unusable, active, false, 0, passwordLoginDisabled, None, false))
    {
      u := next;
      users := users[u := User(email, Unusable, active, false, 0, passwordLoginDisabled, None, false)];
      emails := emails[email := u];
      next := next + 1;
    }

    method HandleInvite(address: Email) returns (response: Response)
      requires Valid()
      modifies this
      ensures Valid() && Outcome(View(), response) == Invite(cfg, old(View()), address)
    {
      InviteOk(cfg, View(), address);
      var email := cfg.lower(address);
      if email !in emails {
        var u := CreatePasswordlessUser(email, false, false);
        CreatePasswordReset(u, cfg.inviteTtl);
      }
      response := Done;
    }

    method HandleProvisionMachine(address: Email, ttl: nat) returns (response: Response)
      requires Valid()
      modifies this
      ensures Valid() && Outcome(View(), response) == ProvisionMachine(cfg, old(View()), address, ttl)
    {
      ProvisionOk(cfg, View(), address, ttl);
      var email := cfg.lower(address);
      if email in emails {
        return Refused(Conflict);
      }
      var u := CreatePasswordlessUser(email, true, true);
      var token := Mint(Access, u, ttl, next);
      response := AccessOnly(token);
    }

    method HandleSetActive(email: Email, active: bool) returns (response: Response)
      requires Valid()
      modifies this
      ensures Valid() && Outcome(View(), response) == SetActive(old(View()), email, active)
    {
      SetActiveOk(View(), email, active);
      if email !in emails || emails[email] !in users {
        return Refused(NotFound);
      }
      var u := emails[email];
      var user := users[u];
      if user.active != active {
        user := user.(active := active);
        if !active {
          user := user.(version := user.version + 1);
        }
        users := users[u := user];
      }
      response := Done;
    }

    method HandleEditUser(u: UserId, email: Email, active: bool) returns (response: Response)
      requires Valid()
      modifies this
      ensures Valid() && Outcome(View(), response) == EditUser(old(View()), u, email, active)
    {
      EditUserOk(View(), u, email, active);
      if u !in users {
        return Refused(NotFound);
      }
      if email in emails && emails[email] != u {
        return Refused(Conflict);
      }
      var user := users[u];
      emails := (emails - {user.email})[email := u];
      user := user.(email := email);
      user := user.(active := active);
      users := users[u := user];
      response := Done;
    }

    method HandleAnonymise(u: UserId) returns (response: Response)
      requires Valid()
      modifies this
      ensures Valid() && Outcome(View(), response) == Anonymise(cfg, old(View()), u)
    {
      AnonymiseOk(cfg, View(), u);
      if u !in users {
        return Refused(NotFound);
      }
      var email := cfg.tombstone(u);
      if email in emails && emails[email] != u {
        return Refused(Conflict);
      }
      var user := users[u];
      emails := (emails - {user.email})[email := u];
      user := user.(email := email);
      user := user.(totpSecret := None, totpEnabled := false);
      user := user.(hash := Unusable);
      user := user.(active := false);
      user := user.(version := user.version + 1);
      users := users[u := user];
      response := Done;
    }

    method HandleImpersonate(bearer: Token, target: UserId, minutes: nat, reason: string,
                             entry: Result<Option<TenantId>, Refusal>)
      returns (response: Response)
      requires Valid()
      modifies this
      ensures Valid()
      ensures Outcome(View(), response) == Impersonate(cfg, old(View()), bearer, target, minutes, reason, entry)
    {
      ImpersonateOk(cfg, View(), bearer, target, minutes, reason, entry);
      var who := GetCurrentUser(bearer);
      if who.Err? {
        return Refused(who.error);
      }
      if bearer.kind == Impersonation || !users[who.value].superadmin {
        return Refused(Forbidden);
      }
      if !(1 <= minutes <= MAX_IMPERSONATION_MINUTES) {
        return Refused(Unprocessable);
      }
      if target == who.value {
        return Refused(BadRequest);
      }
      if ReasonMissing(cfg, reason) {
        return Refused(Unprocessable);
      }
      if target !in users {
        return Refused(NotFound);
      }
      if !users[target].active {
        return Refused(Conflict);
      }
      if entry.Err? {
        return Refused(entry.error);
      }
      var token := MintFor(Impersonation, target, minutes * 60, next, entry.value);
      response := AccessOnly(token);
    }
  }
}
