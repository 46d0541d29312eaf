/** What a request cannot touch. */
module AuthFrames {
  import opened Prelude
  import opened RateLimiting
  import opened AuthModel
  import opened AuthInvariants

  predicate MayMint(r: Request)
  {
    r.DoLogin? || r.DoRefresh? || r.DoTotpLogin? || r.DoProvisionMachine? || r.DoImpersonate?
  }

  predicate MayWriteUsers(r: Request)
  {
    || r.DoLogoutAll? || r.DoResetConfirm? || r.DoTotpSetup? || r.DoTotpEnable? || r.DoTotpDisable?
    || r.DoInvite? || r.DoProvisionMachine? || r.DoSetActive? || r.DoEditUser? || r.DoAnonymise?
  }

  lemma NothingMinted(cfg: Config, w: World, r: Request)
    requires !MayMint(r)
    ensures Step(cfg, w, r).world.issued == w.issued
  {
    match r
    case Tick(_) =>
    case DoLogout(t) =>
    case DoLogoutAll(t) =>
    case DoResetRequest(email) =>
    case DoResetConfirm(raw, password) =>
    case DoTotpSetup(t) =>
    case DoTotpEnable(t, code) =>
    case DoTotpDisable(t, code) =>
    case DoInvite(email) =>
    case DoSetActive(email, active) =>
    case DoEditUser(_, email, active) =>
    case DoAnonymise(_) =>
  }

  lemma UsersUntouched(cfg: Config, w: World, r: Request)
    requires !MayWriteUsers(r)
    ensures Step(cfg, w, r).world.db.users == w.db.users
  {
    match r
    case Tick(_) =>
    case DoLogin(email, password, ip) =>
    case DoRefresh(t) =>
    case DoLogout(t) =>
    case DoResetRequest(email) =>
    case DoTotpLogin(t, factor) =>
    case DoImpersonate(t, target, minutes, reason, entry) =>
  }

  /** A token issued by the step belongs to an account that is active after it. */
  ghost predicate MintedActive(w: World, w': World, j: Nonce)
  {
    j in w'.issued && j !in w.issued ==> w'.issued[j].sub in w'.db.users && w'.db.users[w'.issued[j].sub].active
  }

  lemma PairMinted(cfg: Config, w: World, u: UserId, family: Option<Nonce>, j: Nonce)
    requires u in w.db.users
    ensures var w' := MintPair(cfg, w, u, family).world;
            && w'.db == w.db && w'.attempts == w.attempts && w'.now == w.now
            && (j in w'.issued && j !in w.issued ==> w'.issued[j].sub == u)
  {
  }

  lemma LoginMints(cfg: Config, w: World, email: Email, password: string, ip: string, j: Nonce)
    ensures MintedActive(w, Login(cfg, w, email, password, ip).world, j)
  {
    var o := Login(cfg, w, email, password, ip);
    if o.response.Tokens? {
      var w1 := w.(attempts := Cleared(w.attempts, LoginLimiterKey(cfg, email, ip)));
      PairMinted(cfg, w1, w.db.emails[email], None, j);
    }
  }

  lemma RefreshMints(cfg: Config, w: World, t: Token, j: Nonce)
    ensures MintedActive(w, RefreshPair(cfg, w, t).world, j)
  {
    if RefreshPair(cfg, w, t).response.Tokens? {
      PairMinted(cfg, Revoke(w, t.jti), t.sub, Some(t.family), j);
    }
  }

  lemma TotpLoginMints(cfg: Config, w: World, t: Token, factor: SecondFactor, j: Nonce)
    ensures MintedActive(w, TotpLogin(cfg, w, t, factor).world, j)
  {
    if TotpLogin(cfg, w, t, factor).response.Tokens? {
      var w2 := if factor.BackupCode? then UseCode(w, factor.raw) else w;
      var w3 := w2.(attempts := Cleared(w2.attempts, SecondFactorKey(t.sub)));
      PairMinted(cfg, Revoke(w3, t.jti), t.sub, None, j);
    }
  }

  /** Tokens are minted for active accounts only. */
  lemma MintedForActive(cfg: Config, w: World, r: Request, j: Nonce)
    requires WorldOk(w)
    ensures MintedActive(w, Step(cfg, w, r).world, j)
  {
    if !MayMint(r) {
      NothingMinted(cfg, w, r);
    } else {
      match r
      case DoLogin(email, password, ip) => LoginMints(cfg, w, email, password, ip, j);
      case DoRefresh(t) => RefreshMints(cfg, w, t, j);
      case DoTotpLogin(t, factor) => TotpLoginMints(cfg, w, t, factor, j);
      case DoProvisionMachine(email, ttl) =>
      case DoImpersonate(t, target, minutes, reason, entry) =>
    }
  }

  /** How a user's row may move: which way the flags go, and who may turn them. */
  ghost predicate AccountMoves(users: map<UserId, User>, users': map<UserId, User>, u: UserId, mayDisable: bool,
                               mayEnable: bool, maySetPassword: bool)
    requires u in users
  {
    && u in users'
    && (users[u].active && !users'[u].active ==> users[u].version < users'[u].version || mayDisable)
    && (!users[u].active && users'[u].active ==> mayEnable)
    && (users[u].hash.Unusable? && !users'[u].hash.Unusable? ==> maySetPassword)
  }

  lemma LogoutAllMoves(cfg: Config, w: World, t: Token, u: UserId)
    requires u in w.db.users
    ensures AccountMoves(w.db.users, LogoutAll(w, t).world.db.users, u, false, false, false)
  {
  }

  lemma TotpSetupMoves(cfg: Config, w: World, t: Token, u: UserId)
    requires u in w.db.users
    ensures AccountMoves(w.db.users, TotpSetup(w, t).world.db.users, u, false, false, false)
  {
    var users' := TotpSetup(w, t).world.db.users;
    assert users' == w.db.users
        || (t.sub in w.db.users && users' == w.db.users[t.sub := w.db.users[t.sub].(totpSecret := Some(w.next))]);
  }

  lemma TotpEnableMoves(cfg: Config, w: World, t: Token, code: string, u: UserId)
    requires u in w.db.users
    ensures AccountMoves(w.db.users, TotpEnable(cfg, w, t, code).world.db.users, u, false, false, false)
  {
  }

  lemma TotpDisableMoves(cfg: Config, w: World, t: Token, code: string, u: UserId)
    requires u in w.db.users
    ensures AccountMoves(w.db.users, TotpDisable(cfg, w, t, code).world.db.users, u, false, false, false)
  {
  }

  lemma ResetMoves(cfg: Config, w: World, raw: Nonce, password: string, u: UserId)
    requires u in w.db.users
    ensures var confirms := ResetUsable(w, raw) && w.db.resets[raw].user == u
                            && ResetConfirm(cfg, w, raw, password).response.Done?;
            AccountMoves(w.db.users, ResetConfirm(cfg, w, raw, password).world.db.users, u, false, confirms, confirms)
  {
  }

  lemma InviteMoves(cfg: Config, w: World, email: Email, u: UserId)
    requires WorldOk(w) && u in w.db.users
    ensures AccountMoves(w.db.users, Invite(cfg, w, email).world.db.users, u, false, false, false)
  {
    assert NonceRow(w, u);
  }

  lemma ProvisionMoves(cfg: Config, w: World, email: Email, ttl: nat, u: UserId)
    requires WorldOk(w) && u in w.db.users
    ensures AccountMoves(w.db.users, ProvisionMachine(cfg, w, email, ttl).world.db.users, u, false, false, false)
  {
    assert NonceRow(w, u);
  }

  lemma SetActiveMoves(cfg: Config, w: World, email: Email, active: bool, u: UserId)
    requires u in w.db.users
    ensures AccountMoves(w.db.users, SetActive(w, email, active).world.db.users, u, false,
                         active && email in w.db.emails && w.db.emails[email] == u, false)
  {
  }

  lemma EditUserMoves(cfg: Config, w: World, v: UserId, email: Email, active: bool, u: UserId)
    requires u in w.db.users
    ensures AccountMoves(w.db.users, EditUser(w, v, email, active).world.db.users, u, !active, active && v == u, false)
  {
  }

  lemma AnonymiseMoves(cfg: Config, w: World, v: UserId, u: UserId)
    requires u in w.db.users
    ensures AccountMoves(w.db.users, Anonymise(cfg, w, v).world.db.users, u, false, false, false)
  {
  }

  lemma HolderChange(cfg: Config, w: World, r: Request, u: UserId)
    requires u in w.db.users && (r.DoLogoutAll? || r.DoTotpSetup? || r.DoTotpEnable? || r.DoTotpDisable?)
    ensures AccountMoves(w.db.users, Step(cfg, w, r).world.db.users, u, false, false, false)
  {
    match r
    case DoLogoutAll(t) => LogoutAllMoves(cfg, w, t, u);
    case DoTotpSetup(t) => TotpSetupMoves(cfg, w, t, u);
    case DoTotpEnable(t, code) => TotpEnableMoves(cfg, w, t, code, u);
    case DoTotpDisable(t, code) => TotpDisableMoves(cfg, w, t, code, u);
  }

  lemma OperatorChange(cfg: Config, w: World, r: Request, u: UserId)
    requires WorldOk(w) && u in w.db.users
    requires r.DoInvite? || r.DoProvisionMachine? || r.DoSetActive? || r.DoEditUser? || r.DoAnonymise?
    ensures AccountMoves(w.db.users, Step(cfg, w, r).world.db.users, u, r.DoEditUser? && !r.active,
                         Enables(w, r, u), false)
  {
    match r
    case DoInvite(email) => InviteMoves(cfg, w, email, u);
    case DoProvisionMachine(email, ttl) => ProvisionMoves(cfg, w, email, ttl, u);
    case DoSetActive(email, active) => SetActiveMoves(cfg, w, email, active, u);
    case DoEditUser(v, email, active) => EditUserMoves(cfg, w, v, email, active, u);
    case DoAnonymise(v) => AnonymiseMoves(cfg, w, v, u);
  }

  lemma ConfirmChange(cfg: Config, w: World, r: Request, u: UserId)
    requires u in w.db.users && r.DoResetConfirm?
    ensures AccountMoves(w.db.users, Step(cfg, w, r).world.db.users, u, false,
                         ConfirmsResetOf(cfg, w, r, u), ConfirmsResetOf(cfg, w, r, u))
  {
    ResetMoves(cfg, w, r.raw, r.password, u);
  }

  /** A user's row changes only at the hands of the requests that may write it, and then like this. */
  lemma UserChange(cfg: Config, w: World, r: Request, u: UserId)
    requires WorldOk(w) && u in w.db.users
    ensures AccountMoves(w.db.users, Step(cfg, w, r).world.db.users, u, r.DoEditUser? && !r.active,
                         Enables(w, r, u) || ConfirmsResetOf(cfg, w, r, u), ConfirmsResetOf(cfg, w, r, u))
  {
    if !MayWriteUsers(r) {
      UsersUntouched(cfg, w, r);
    } else if r.DoResetConfirm? {
      ConfirmChange(cfg, w, r, u);
    } else if r.DoLogoutAll? || r.DoTotpSetup? || r.DoTotpEnable? || r.DoTotpDisable? {
      HolderChange(cfg, w, r, u);
    } else {
      OperatorChange(cfg, w, r, u);
    }
  }

  /** An operator switches the account on, on the command line or in the user admin. */
  predicate Enables(w: World, r: Request, u: UserId)
  {
    || (r.DoSetActive? && r.active && r.email in w.db.emails && w.db.emails[r.email] == u)
    || (r.DoEditUser? && r.active && r.user == u)
  }

  /** A password is set by consuming a reset or invite token issued to the account. */
  predicate ConfirmsResetOf(cfg: Config, w: World, r: Request, u: UserId)
  {
    && r.DoResetConfirm? && ResetUsable(w, r.raw) && w.db.resets[r.raw].user == u
    && Step(cfg, w, r).response.Done?
  }

  predicate MayWriteResets(r: Request)
  {
    r.DoResetRequest? || r.DoResetConfirm? || r.DoInvite?
  }

  lemma LogoutAllKeepsResets(w: World, t: Token)
    ensures LogoutAll(w, t).world.db.resets == w.db.resets
  {
  }

  lemma TotpSetupKeepsResets(w: World, t: Token)
    ensures TotpSetup(w, t).world.db.resets == w.db.resets
  {
  }

  lemma TotpEnableKeepsResets(cfg: Config, w: World, t: Token, code: string)
    ensures TotpEnable(cfg, w, t, code).world.db.resets == w.db.resets
  {
  }

  lemma TotpDisableKeepsResets(cfg: Config, w: World, t: Token, code: string)
    ensures TotpDisable(cfg, w, t, code).world.db.resets == w.db.resets
  {
  }

  lemma ProvisionKeepsResets(cfg: Config, w: World, email: Email, ttl: nat)
    ensures ProvisionMachine(cfg, w, email, ttl).world.db.resets == w.db.resets
  {
  }

  lemma SetActiveKeepsResets(w: World, email: Email, active: bool)
    ensures SetActive(w, email, active).world.db.resets == w.db.resets
  {
  }

  lemma EditUserKeepsResets(w: World, u: UserId, email: Email, active: bool)
    ensures EditUser(w, u, email, active).world.db.resets == w.db.resets
  {
  }

  lemma AnonymiseKeepsResets(cfg: Config, w: World, u: UserId)
    ensures Anonymise(cfg, w, u).world.db.resets == w.db.resets
  {
  }

  lemma ResetsUntouchedByUserWrites(cfg: Config, w: World, r: Request)
    requires !MayWriteResets(r) && MayWriteUsers(r)
    ensures Step(cfg, w, r).world.db.resets == w.db.resets
  {
    match r
    case DoLogoutAll(t) => LogoutAllKeepsResets(w, t);
    case DoTotpSetup(t) => TotpSetupKeepsResets(w, t);
    case DoTotpEnable(t, code) => TotpEnableKeepsResets(cfg, w, t, code);
    case DoTotpDisable(t, code) => TotpDisableKeepsResets(cfg, w, t, code);
    case DoProvisionMachine(email, ttl) => ProvisionKeepsResets(cfg, w, email, ttl);
    case DoSetActive(email, active) => SetActiveKeepsResets(w, email, active);
    case DoEditUser(u, email, active) => EditUserKeepsResets(w, u, email, active);
    case DoAnonymise(u) => AnonymiseKeepsResets(cfg, w, u);
  }

  lemma ResetsUntouched(cfg: Config, w: World, r: Request)
    requires !MayWriteResets(r)
    ensures Step(cfg, w, r).world.db.resets == w.db.resets
  {
    if MayWriteUsers(r) {
      ResetsUntouchedByUserWrites(cfg, w, r);
    } else {
      match r
      case Tick(_) =>
      case DoLogin(email, password, ip) =>
      case DoRefresh(t) =>
      case DoLogout(t) =>
      case DoTotpLogin(t, factor) =>
      case DoImpersonate(t, target, minutes, reason, entry) =>
    }
  }

  /** A reset row appears only for an account that is active, or for one the request creates. */
  lemma NewReset(cfg: Config, w: World, r: Request, n: Nonce)
    requires WorldOk(w)
    requires n in Step(cfg, w, r).world.db.resets && n !in w.db.resets
    ensures var u := Step(cfg, w, r).world.db.resets[n].user; u in w.db.users ==> w.db.users[u].active
  {
    assert NonceRow(w, w.next);
    if !MayWriteResets(r) {
      ResetsUntouched(cfg, w, r);
    } else {
      match r
      case DoResetRequest(email) =>
      case DoResetConfirm(raw, password) =>
      case DoInvite(email) =>
    }
  }
}
