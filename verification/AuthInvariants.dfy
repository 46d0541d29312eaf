/** What every request keeps, whatever it is and whether or not it succeeds. */
module AuthInvariants {
  import opened Prelude
  import opened RateLimiting
  import opened AuthModel

  // ---- The invariant, row by row ----

  /** The e-mail index leads to a user with that e-mail. */
  ghost predicate EmailRow(w: World, e: Email)
  {
    e in w.db.emails ==> w.db.emails[e] in w.db.users && w.db.users[w.db.emails[e]].email == e
  }

  /** A user is indexed under its e-mail; an account locked out of passwords has no usable hash. */
  ghost predicate UserRow(w: World, u: UserId)
  {
    u in w.db.users ==>
      && u < w.next
      && w.db.users[u].email in w.db.emails && w.db.emails[w.db.users[u].email] == u
      && (w.db.users[u].passwordLoginDisabled ==> w.db.users[u].hash.Unusable?)
  }

  /**
   An issued token belongs to a known user and carries no version from the future. A refresh token
   that has not been exchanged is the head of its family.
   */
  ghost predicate TokenRow(w: World, j: Nonce)
  {
    j in w.issued ==>
      var t := w.issued[j];
      && t.jti == j < w.next && t.family <= j
      && t.sub in w.db.users && t.version <= w.db.users[t.sub].version
      && (t.kind.Refresh? ==> t.family in w.heads && (j !in w.db.revoked ==> w.heads[t.family] == t))
  }

  /** The head of a family is an issued refresh token of that family that has not been exchanged. */
  ghost predicate HeadRow(w: World, f: Nonce)
  {
    f in w.heads ==>
      var h := w.heads[f];
      f < w.next && IsIssued(w, h) && h.kind.Refresh? && h.family == f && h.jti !in w.db.revoked
  }

  /** A reset row was drawn from the supply and belongs to an account that may have a password. */
  ghost predicate ResetRowOk(w: World, n: Nonce)
  {
    n in w.db.resets ==>
      && n < w.next
      && w.db.resets[n].user in w.db.users && !w.db.users[w.db.resets[n].user].passwordLoginDisabled
  }

  ghost predicate NonceRow(w: World, n: Nonce)
  {
    && UserRow(w, n) && TokenRow(w, n) && HeadRow(w, n) && ResetRowOk(w, n)
    && (n in w.db.codes ==> n < w.next)
    && (n in w.db.revoked ==> n < w.next)
  }

  ghost predicate WorldOk(w: World)
  {
    && (forall n: Nonce :: NonceRow(w, n))
    && (forall e :: EmailRow(w, e))
  }

  // ---- The order in which worlds evolve ----

  /** Versions only grow, and an account stays locked out of passwords or not for good. */
  ghost predicate UserMoves(w: World, w': World, u: UserId)
  {
    u in w.db.users ==>
      && u in w'.db.users
      && w.db.users[u].version <= w'.db.users[u].version
      && w.db.users[u].passwordLoginDisabled == w'.db.users[u].passwordLoginDisabled
  }

  /** A used reset row or backup code stays used, and none that is gone comes back. */
  ghost predicate RowMoves(w: World, w': World, n: Nonce)
  {
    && (n in w.db.resets ==>
          && n in w'.db.resets && w'.db.resets[n].user == w.db.resets[n].user
          && w'.db.resets[n].expires == w.db.resets[n].expires
          && (w.db.resets[n].usedAt.Some? ==> w'.db.resets[n].usedAt.Some?))
    && (n in w'.db.resets && n !in w.db.resets ==> w.next <= n)
    && (n in w.db.codes && n in w'.db.codes ==>
          w'.db.codes[n].user == w.db.codes[n].user && (w.db.codes[n].usedAt.Some? ==> w'.db.codes[n].usedAt.Some?))
    && (n in w'.db.codes && n !in w.db.codes ==> w.next <= n)
  }

  ghost predicate NonceMoves(w: World, w': World, n: Nonce)
  {
    && UserMoves(w, w', n) && RowMoves(w, w', n)
    && (n in w.issued ==> n in w'.issued && w'.issued[n] == w.issued[n])
    && (n in w'.issued && n !in w.issued ==> w.next <= n)
    && (n in w.db.revoked ==> n in w'.db.revoked)
  }

  /** Nothing is un-issued, un-revoked, un-used or forgotten; versions and the clock only grow. */
  ghost predicate Evolves(w: World, w': World)
  {
    && w.next <= w'.next && w.now <= w'.now
    && forall n: Nonce :: NonceMoves(w, w', n)
  }

  lemma EvolvesTransitively(a: World, b: World, c: World)
    requires WorldOk(a) && Evolves(a, b) && Evolves(b, c)
    ensures Evolves(a, c)
  {
    forall n: Nonce ensures NonceMoves(a, c, n) {
      assert NonceRow(a, n) && NonceMoves(a, b, n) && NonceMoves(b, c, n);
    }
  }

  /** A step from a good world that keeps it good. */
  ghost predicate Good(w: World, w': World)
  {
    WorldOk(w') && Evolves(w, w')
  }

  // ---- The elementary changes ----

  /** Changes to the limiters and the passing of time touch no table. */
  lemma SameTables(w: World, w': World)
    requires WorldOk(w) && w.db == w'.db && w.issued == w'.issued && w.heads == w'.heads
    requires w.next == w'.next && w.now <= w'.now
    ensures Good(w, w')
  {
    forall n: Nonce ensures NonceRow(w', n) && NonceMoves(w, w', n) { assert NonceRow(w, n); }
    forall e ensures EmailRow(w', e) { assert EmailRow(w, e); }
  }

  /** Handing out a token that starts a family of its own, or is no refresh token. */
  lemma IssueOk(w: World, t: Token)
    requires WorldOk(w) && t.sub in w.db.users
    requires t.jti == w.next && t.family == w.next && t.version == w.db.users[t.sub].version
    ensures Good(w, Issue(w, t))
  {
    var w' := Issue(w, t);
    forall n: Nonce ensures NonceRow(w', n) && NonceMoves(w, w', n) {
      assert NonceRow(w, n);
      if n in w.heads { assert NonceRow(w, w.heads[n].jti); }
    }
    forall e ensures EmailRow(w', e) { assert EmailRow(w, e); }
  }

  /** Revoking a token that is not a refresh token. */
  lemma RevokeOk(w: World, t: Token)
    requires WorldOk(w) && IsIssued(w, t) && !t.kind.Refresh?
    ensures Good(w, Revoke(w, t.jti))
  {
    var w' := Revoke(w, t.jti);
    forall n: Nonce ensures NonceRow(w', n) && NonceMoves(w, w', n) {
      assert NonceRow(w, n) && NonceRow(w, t.jti);
    }
    forall e ensures EmailRow(w', e) { assert EmailRow(w, e); }
  }

  /** Rotation: the head is revoked and the next head of the same family issued. */
  lemma RotateOk(w: World, t: Token, t': Token)
    requires WorldOk(w) && IsIssued(w, t) && t.kind.Refresh? && t.jti !in w.db.revoked
    requires t'.kind.Refresh? && t'.jti == w.next && t'.family == t.family && t'.sub == t.sub
    requires t.sub in w.db.users && t'.version == w.db.users[t.sub].version
    ensures Good(w, Issue(Revoke(w, t.jti), t'))
  {
    var w' := Issue(Revoke(w, t.jti), t');
    forall n: Nonce ensures NonceRow(w', n) && NonceMoves(w, w', n) {
      assert NonceRow(w, n) && NonceRow(w, t.jti) && NonceRow(w, w.next);
      if n in w.heads { assert NonceRow(w, w.heads[n].jti); }
    }
    forall e ensures EmailRow(w', e) { assert EmailRow(w, e); }
  }

  /** Rewriting a user, under the same e-mail or one nobody else has. */
  lemma PutOk(w: World, u: UserId, user: User)
    requires WorldOk(w) && u in w.db.users
    requires user.email in w.db.emails ==> w.db.emails[user.email] == u
    requires w.db.users[u].version <= user.version
    requires user.passwordLoginDisabled == w.db.users[u].passwordLoginDisabled
    requires user.passwordLoginDisabled ==> user.hash.Unusable?
    ensures Good(w, Readdress(w, u, user))
    ensures user.email == w.db.users[u].email ==> Readdress(w, u, user) == PutUser(w, u, user)
  {
    var w' := Readdress(w, u, user);
    assert NonceRow(w, u);
    forall n: Nonce ensures NonceRow(w', n) && NonceMoves(w, w', n) { assert NonceRow(w, n); }
    forall e ensures EmailRow(w', e) { assert EmailRow(w, e); }
    if user.email == w.db.users[u].email {
      assert (w.db.emails - {user.email})[user.email := u] == w.db.emails;
    }
  }

  /** A new account under an unused e-mail. */
  function AddUser(w: World, user: User): World
  {
    w.(db := w.db.(users := w.db.users[w.next := user], emails := w.db.emails[user.email := w.next]),
       next := w.next + 1)
  }

  lemma AddUserOk(w: World, user: User)
    requires WorldOk(w) && user.email !in w.db.emails && user.hash.Unusable?
    ensures Good(w, AddUser(w, user))
  {
    var w' := AddUser(w, user);
    forall n: Nonce ensures NonceRow(w', n) && NonceMoves(w, w', n) { assert NonceRow(w, n) && NonceRow(w, w.next); }
    forall e ensures EmailRow(w', e) { assert EmailRow(w, e) && NonceRow(w, w.next); }
  }

  lemma AddResetOk(w: World, u: UserId, ttl: nat)
    requires WorldOk(w) && u in w.db.users && !w.db.users[u].passwordLoginDisabled
    ensures Good(w, AddReset(w, u, ttl))
  {
    var w' := AddReset(w, u, ttl);
    forall n: Nonce ensures NonceRow(w', n) && NonceMoves(w, w', n) { assert NonceRow(w, n); }
    forall e ensures EmailRow(w', e) { assert EmailRow(w, e); }
  }

  lemma UseResetOk(w: World, raw: Nonce)
    requires WorldOk(w) && raw in w.db.resets
    ensures Good(w, UseReset(w, raw))
  {
    var w' := UseReset(w, raw);
    forall n: Nonce ensures NonceRow(w', n) && NonceMoves(w, w', n) { assert NonceRow(w, n); }
    forall e ensures EmailRow(w', e) { assert EmailRow(w, e); }
  }

  /** Deleting backup codes, using one, or adding fresh ones. */
  lemma CodesOk(w: World, w': World)
    requires WorldOk(w) && w' == w.(db := w.db.(codes := w'.db.codes), next := w'.next) && w.next <= w'.next
    requires forall n :: n in w'.db.codes ==>
      if n in w.db.codes then
        && w'.db.codes[n].user == w.db.codes[n].user
        && (w.db.codes[n].usedAt.Some? ==> w'.db.codes[n].usedAt.Some?)
      else w.next <= n < w'.next
    ensures Good(w, w')
  {
    forall n: Nonce ensures NonceRow(w', n) && NonceMoves(w, w', n) { assert NonceRow(w, n); }
    forall e ensures EmailRow(w', e) { assert EmailRow(w, e); }
  }

  lemma Then(a: World, b: World, c: World)
    requires WorldOk(a) && Good(a, b) && Good(b, c)
    ensures Good(a, c)
  {
    EvolvesTransitively(a, b, c);
  }

  /** A login that returns tokens starts a family of its own. */
  lemma StartFamilyOk(cfg: Config, w: World, u: UserId)
    requires WorldOk(w) && u in w.db.users
    ensures Good(w, MintPair(cfg, w, u, None).world)
  {
    var access := NewToken(w, Access, u, cfg.accessTtl, w.next);
    var w1 := Issue(w, access);
    var refresh := NewToken(w1, Refresh, u, cfg.refreshTtl, w1.next);
    IssueOk(w, access);
    IssueOk(w1, refresh);
    Then(w, w1, Issue(w1, refresh));
  }

  // ---- One step ----

  lemma LoginOk(cfg: Config, w: World, email: Email, password: string, ip: string)
    requires WorldOk(w)
    ensures Good(w, Login(cfg, w, email, password, ip).world)
  {
    var o := Login(cfg, w, email, password, ip);
    if o.response.Refused? {
      SameTables(w, o.world);
    } else {
      var u := w.db.emails[email];
      var w2 := w.(attempts := Cleared(w.attempts, LoginLimiterKey(cfg, email, ip)));
      SameTables(w, w2);
      if o.response.MfaRequired? {
        IssueOk(w2, o.response.challenge);
      } else {
        StartFamilyOk(cfg, w2, u);
      }
      Then(w, w2, o.world);
    }
  }

  lemma RefreshOk(cfg: Config, w: World, t: Token)
    requires WorldOk(w)
    ensures Good(w, RefreshPair(cfg, w, t).world)
  {
    var o := RefreshPair(cfg, w, t);
    if o.response.Refused? {
      SameTables(w, w);
    } else {
      var access := o.response.access;
      var w1 := Issue(w, access);
      IssueOk(w, access);
      assert NonceRow(w, t.jti);
      RotateOk(w1, t, o.response.refresh);
      Then(w, w1, Issue(Revoke(w1, t.jti), o.response.refresh));
      assert o.world == Issue(Revoke(w1, t.jti), o.response.refresh);
    }
  }

  lemma LogoutOk(w: World, t: Token)
    requires WorldOk(w)
    ensures Good(w, Logout(w, t).world)
  {
    if Authenticate(w, t).Ok? {
      RevokeOk(w, t);
    } else {
      SameTables(w, w);
    }
  }

  /** Rewriting a user under the same e-mail. */
  lemma PutSameOk(w: World, u: UserId, user: User)
    requires WorldOk(w) && u in w.db.users
    requires user.email == w.db.users[u].email && w.db.users[u].version <= user.version
    requires user.passwordLoginDisabled == w.db.users[u].passwordLoginDisabled
    requires user.passwordLoginDisabled ==> user.hash.Unusable?
    ensures Good(w, PutUser(w, u, user))
  {
    assert NonceRow(w, u);
    PutOk(w, u, user);
  }

  lemma LogoutAllOk(w: World, t: Token)
    requires WorldOk(w)
    ensures Good(w, LogoutAll(w, t).world)
  {
    if Authenticate(w, t).Ok? {
      assert NonceRow(w, t.sub);
      PutSameOk(w, t.sub, BumpVersion(w.db.users[t.sub]));
    } else {
      SameTables(w, w);
    }
  }

  lemma ResetRequestOk(cfg: Config, w: World, email: Email)
    requires WorldOk(w)
    ensures Good(w, ResetRequest(cfg, w, email).world)
  {
    var w' := ResetRequest(cfg, w, email).world;
    var w1 := w.(resetAttempts := w'.resetAttempts);
    SameTables(w, w1);
    if w' != w1 {
      AddResetOk(w1, w.db.emails[email], cfg.resetTtl);
      Then(w, w1, w');
    }
  }

  lemma ResetConfirmOk(cfg: Config, w: World, raw: Nonce, password: string)
    requires WorldOk(w)
    ensures Good(w, ResetConfirm(cfg, w, raw, password).world)
  {
    var w' := ResetConfirm(cfg, w, raw, password).world;
    if ResetConfirm(cfg, w, raw, password).response.Refused? {
      SameTables(w, w);
    } else {
      var w1, u := UseReset(w, raw), w.db.resets[raw].user;
      assert NonceRow(w, raw);
      UseResetOk(w, raw);
      PutSameOk(w1, u, w'.db.users[u]);
      Then(w, w1, w');
    }
  }

  lemma TotpSetupOk(w: World, t: Token)
    requires WorldOk(w)
    ensures Good(w, TotpSetup(w, t).world)
  {
    var o := TotpSetup(w, t);
    if o.response.Refused? {
      SameTables(w, w);
    } else {
      var w1 := PutUser(w, t.sub, o.world.db.users[t.sub]);
      assert NonceRow(w, t.sub);
      PutSameOk(w, t.sub, o.world.db.users[t.sub]);
      CodesOk(w1, o.world);
      Then(w, w1, o.world);
    }
  }

  lemma TotpEnableOk(cfg: Config, w: World, t: Token, code: string)
    requires WorldOk(w)
    ensures Good(w, TotpEnable(cfg, w, t, code).world)
  {
    var o := TotpEnable(cfg, w, t, code);
    if o.response.Refused? {
      SameTables(w, w);
    } else {
      var w1 := PutUser(w, t.sub, o.world.db.users[t.sub]);
      assert NonceRow(w, t.sub);
      PutSameOk(w, t.sub, o.world.db.users[t.sub]);
      forall n | n in w.db.codes ensures n < w.next { assert NonceRow(w, n); }
      CodesOk(w1, o.world);
      Then(w, w1, o.world);
    }
  }

  lemma TotpDisableOk(cfg: Config, w: World, t: Token, code: string)
    requires WorldOk(w)
    ensures Good(w, TotpDisable(cfg, w, t, code).world)
  {
    var o := TotpDisable(cfg, w, t, code);
    if o.response.Refused? {
      SameTables(w, w);
    } else {
      var w1 := PutUser(w, t.sub, o.world.db.users[t.sub]);
      assert NonceRow(w, t.sub);
      PutSameOk(w, t.sub, o.world.db.users[t.sub]);
      CodesOk(w1, o.world);
      Then(w, w1, o.world);
    }
  }

  lemma TotpLoginOk(cfg: Config, w: World, t: Token, factor: SecondFactor)
    requires WorldOk(w)
    ensures Good(w, TotpLogin(cfg, w, t, factor).world)
  {
    var o := TotpLogin(cfg, w, t, factor);
    if o.response.Refused? {
      SameTables(w, o.world);
    } else {
      var w1 := w.(attempts := Cleared(w.attempts, SecondFactorKey(t.sub)));
      var w2 := if factor.BackupCode? then UseCode(w1, factor.raw) else w1;
      SameTables(w, w1);
      CodesOk(w1, w2);
      Then(w, w1, w2);
      RevokeOk(w2, t);
      Then(w, w2, Revoke(w2, t.jti));
      StartFamilyOk(cfg, Revoke(w2, t.jti), t.sub);
      Then(w, Revoke(w2, t.jti), o.world);
    }
  }

  lemma InviteOk(cfg: Config, w: World, address: Email)
    requires WorldOk(w)
    ensures Good(w, Invite(cfg, w, address).world)
  {
    var email := cfg.lower(address);
    if email in w.db.emails {
      SameTables(w, w);
    } else {
      var user := User(email, Unusable, false, false, 0, false, None, false);
      AddUserOk(w, user);
      AddResetOk(AddUser(w, user), w.next, cfg.inviteTtl);
      Then(w, AddUser(w, user), Invite(cfg, w, address).world);
    }
  }

  lemma ProvisionOk(cfg: Config, w: World, address: Email, ttl: nat)
    requires WorldOk(w)
    ensures Good(w, ProvisionMachine(cfg, w, address, ttl).world)
  {
    var email := cfg.lower(address);
    if email in w.db.emails {
      SameTables(w, w);
    } else {
      var user := User(email, Unusable, true, false, 0, true, None, false);
      AddUserOk(w, user);
      IssueOk(AddUser(w, user), NewToken(AddUser(w, user), Access, w.next, ttl, w.next + 1));
      Then(w, AddUser(w, user), ProvisionMachine(cfg, w, address, ttl).world);
    }
  }

  lemma SetActiveOk(w: World, email: Email, active: bool)
    requires WorldOk(w)
    ensures Good(w, SetActive(w, email, active).world)
  {
    SameTables(w, w);
    if email in w.db.emails && w.db.emails[email] in w.db.users {
      var u := w.db.emails[email];
      var user := w.db.users[u];
      assert NonceRow(w, u);
      PutSameOk(w, u, user.(active := true));
      PutSameOk(w, u, BumpVersion(user.(active := false)));
    }
  }

  lemma EditUserOk(w: World, u: UserId, email: Email, active: bool)
    requires WorldOk(w)
    ensures Good(w, EditUser(w, u, email, active).world)
  {
    SameTables(w, w);
    if !EditUser(w, u, email, active).response.Refused? {
      assert NonceRow(w, u);
      PutOk(w, u, w.db.users[u].(email := email, active := active));
    }
  }

  lemma AnonymiseOk(cfg: Config, w: World, u: UserId)
    requires WorldOk(w)
    ensures Good(w, Anonymise(cfg, w, u).world)
  {
    SameTables(w, w);
    if !Anonymise(cfg, w, u).response.Refused? {
      PutOk(w, u, Anonymise(cfg, w, u).world.db.users[u]);
    }
  }

  lemma ImpersonateOk(cfg: Config, w: World, t: Token, target: UserId, minutes: nat, reason: string,
                      entry: Result<Option<TenantId>, Refusal>)
    requires WorldOk(w)
    ensures Good(w, Impersonate(cfg, w, t, target, minutes, reason, entry).world)
  {
    var o := Impersonate(cfg, w, t, target, minutes, reason, entry);
    SameTables(w, w);
    if !o.response.Refused? {
      IssueOk(w, o.response.token);
    }
  }

  /** Every request, granted or refused, keeps the invariant and moves the world forward. */
  lemma StepOk(cfg: Config, w: World, r: Request)
    requires WorldOk(w)
    ensures Good(w, Step(cfg, w, r).world)
  {
    match r
    case Tick(_) => SameTables(w, Step(cfg, w, r).world);
    case DoLogin(email, password, ip) => LoginOk(cfg, w, email, password, ip);
    case DoRefresh(t) => RefreshOk(cfg, w, t);
    case DoLogout(t) => LogoutOk(w, t);
    case DoLogoutAll(t) => LogoutAllOk(w, t);
    case DoResetRequest(email) => ResetRequestOk(cfg, w, email);
    case DoResetConfirm(raw, password) => ResetConfirmOk(cfg, w, raw, password);
    case DoTotpSetup(t) => TotpSetupOk(w, t);
    case DoTotpEnable(t, code) => TotpEnableOk(cfg, w, t, code);
    case DoTotpDisable(t, code) => TotpDisableOk(cfg, w, t, code);
    case DoTotpLogin(t, factor) => TotpLoginOk(cfg, w, t, factor);
    case DoInvite(email) => InviteOk(cfg, w, email);
    case DoProvisionMachine(email, ttl) => ProvisionOk(cfg, w, email, ttl);
    case DoSetActive(email, active) => SetActiveOk(w, email, active);
    case DoEditUser(u, email, active) => EditUserOk(w, u, email, active);
    case DoAnonymise(u) => AnonymiseOk(cfg, w, u);
    case DoImpersonate(t, target, minutes, reason, entry) =>
      ImpersonateOk(cfg, w, t, target, minutes, reason, entry);
  }

  /** The same over every run. */
  lemma {:induction false} RunOk(cfg: Config, w: World, requests: seq<Request>)
    requires WorldOk(w)
    ensures Good(w, Run(cfg, w, requests))
  {
    if requests == [] {
      SameTables(w, w);
    } else {
      var front, last := requests[..|requests| - 1], requests[|requests| - 1];
      RunOk(cfg, w, front);
      StepOk(cfg, Run(cfg, w, front), last);
      Then(w, Run(cfg, w, front), Run(cfg, w, requests));
    }
  }

  /** A deployment before its first request: accounts, but nothing issued and no reset or backup rows. */
  ghost predicate Initial(w: World)
  {
    && (forall u :: u in w.db.users ==> UserRow(w, u))
    && (forall e :: e in w.db.emails ==> EmailRow(w, e))
    && w.issued == map[] && w.heads == map[] && w.db.revoked == {}
    && w.db.resets == map[] && w.db.codes == map[]
    && w.attempts == map[] && w.resetAttempts == map[]
  }

  lemma InitialOk(w: World)
    requires Initial(w)
    ensures WorldOk(w)
  {
    forall n: Nonce ensures NonceRow(w, n) { assert n in w.db.users ==> UserRow(w, n); }
    forall e ensures EmailRow(w, e) { assert e in w.db.emails ==> EmailRow(w, e); }
  }
}
