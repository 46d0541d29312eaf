/**
 The credential tables and the request handlers of asterion/auth, one atomic step per request.

 A request runs in one database transaction that is rolled back when the handler raises; the
 in-process rate limiters survive the rollback. Every handler is therefore a function from a world
 to a world and a response, and a refusal leaves the tables as they were.
 */
module AuthModel {
  import opened Prelude
  import opened RateLimiting
  import opened Text

  /** A random UUID or secret: drawn from a supply that never repeats. */
  type Nonce = nat
  type UserId = Nonce
  type TenantId = Nonce
  type Email = string

  /** A password hash: of a known password, or of a discarded random secret. */
  datatype PasswordHash = Unusable | HashOf(password: string)

  datatype User = User(
    email: Email,
    hash: PasswordHash,
    active: bool,
    superadmin: bool,
    version: nat,
    passwordLoginDisabled: bool,
    totpSecret: Option<Nonce>,
    totpEnabled: bool)

  datatype Kind = Access | Impersonation | Refresh | Challenge

  /**
   A signed token. `family` is not a claim: it names the login a refresh token descends from, as the
   jti of the first refresh token of that login. No handler reads it except to pass it on.
   */
  datatype Token = Token(kind: Kind, sub: UserId, version: nat, jti: Nonce, exp: Instant, family: Nonce,
                         tenant: Option<TenantId>)

  datatype ResetRow = ResetRow(user: UserId, expires: Instant, usedAt: Option<Instant>)

  datatype CodeRow = CodeRow(user: UserId, usedAt: Option<Instant>)

  /** Login failures count per e-mail (optionally per address too), second-factor failures per user. */
  datatype LimiterKey = LoginKey(email: Email, ip: Option<string>) | SecondFactorKey(user: UserId)

  datatype Db = Db(
    users: map<UserId, User>,
    emails: map<Email, UserId>,
    revoked: set<Nonce>,
    resets: map<Nonce, ResetRow>,
    codes: map<Nonce, CodeRow>)

  /**
   `issued` holds every token ever handed out, by jti: a signature verifies iff its token is in there.
   `heads` records the refresh token last handed out in each family; no handler reads it.
   */
  datatype World = World(
    db: Db,
    attempts: Table<LimiterKey>,
    resetAttempts: Table<Email>,
    issued: map<Nonce, Token>,
    heads: map<Nonce, Token>,
    next: Nonce,
    now: Instant)

  /** Settings, and the library calls the handlers make. */
  datatype Config = Config(
    accessTtl: nat,
    refreshTtl: nat,
    challengeTtl: nat,
    resetTtl: nat,
    inviteTtl: nat,
    maxFailures: nat,
    window: nat,
    resetMaxRequests: nat,
    resetWindow: nat,
    limitByIp: bool,
    requireReason: bool,
    lower: string -> string,
    tombstone: UserId -> Email,
    acceptable: string -> bool,
    totpMatches: (Nonce, string, Instant) -> bool)

  const BACKUP_CODE_COUNT: nat := 10
  const MAX_IMPERSONATION_MINUTES: nat := 480

  datatype Refusal =
    | InvalidCredentials | InactiveUser | TooManyAttempts | InvalidToken | RevokedToken
    | BadRequest | Conflict | Forbidden | NotFound | Unprocessable
    | BadChallenge | InvalidSecondFactor | InvalidResetToken

  datatype Response =
    | Tokens(access: Token, refresh: Token)
    | MfaRequired(challenge: Token)
    | AccessOnly(token: Token)
    | Pending(secret: Nonce)
    | BackupCodes(codes: set<Nonce>)
    | Done
    | Refused(reason: Refusal)

  datatype Outcome = Outcome(world: World, response: Response)

  /** Exactly one of the two factors must be sent. */
  datatype SecondFactor = Code(code: string) | BackupCode(raw: Nonce) | NotExactlyOne

  // ---- Tables ----

  function PutUser(w: World, u: UserId, user: User): World
  {
    w.(db := w.db.(users := w.db.users[u := user]))
  }

  function Revoke(w: World, jti: Nonce): World
  {
    w.(db := w.db.(revoked := w.db.revoked + {jti}))
  }

  function AddReset(w: World, u: UserId, ttl: nat): World
  {
    w.(db := w.db.(resets := w.db.resets[w.next := ResetRow(u, w.now + ttl, None)]), next := w.next + 1)
  }

  function UseReset(w: World, raw: Nonce): World
    requires raw in w.db.resets
  {
    w.(db := w.db.(resets := w.db.resets[raw := w.db.resets[raw].(usedAt := Some(w.now))]))
  }

  function WithoutCodes(codes: map<Nonce, CodeRow>, u: UserId): map<Nonce, CodeRow>
  {
    map n | n in codes && codes[n].user != u :: codes[n]
  }

  predicate InBlock(n: Nonce, first: Nonce, count: nat)
  {
    first <= n < first + count
  }

  /** The next `count` random values. */
  function Fresh(first: Nonce, count: nat): set<Nonce>
  {
    set n | first <= n < first + count && InBlock(n, first, count)
  }

  function WithNewCodes(codes: map<Nonce, CodeRow>, u: UserId, added: set<Nonce>): map<Nonce, CodeRow>
  {
    codes + map n | n in added :: CodeRow(u, None)
  }

  predicate CodeUnused(db: Db, u: UserId, raw: Nonce)
  {
    raw in db.codes && db.codes[raw].user == u && db.codes[raw].usedAt.None?
  }

  function UseCode(w: World, raw: Nonce): World
    requires raw in w.db.codes
  {
    w.(db := w.db.(codes := w.db.codes[raw := w.db.codes[raw].(usedAt := Some(w.now))]))
  }

  // ---- Tokens ----

  /** The token a mint hands out: a fresh jti, the user's current version. */
  function NewToken(w: World, kind: Kind, u: UserId, ttl: nat, family: Nonce): Token
    requires u in w.db.users
  {
    Token(kind, u, w.db.users[u].version, w.next, w.now + ttl, family, None)
  }

  function Issue(w: World, t: Token): World
  {
    w.(issued := w.issued[t.jti := t], next := w.next + 1,
       heads := if t.kind.Refresh? then w.heads[t.family := t] else w.heads)
  }

  predicate IsIssued(w: World, t: Token)
  {
    t.jti in w.issued && w.issued[t.jti] == t
  }

  /** An access and a refresh token; the refresh token joins `family`, or starts one. */
  function MintPair(cfg: Config, w: World, u: UserId, family: Option<Nonce>): Outcome
    requires u in w.db.users
  {
    var access := NewToken(w, Access, u, cfg.accessTtl, w.next);
    var w1 := Issue(w, access);
    var refresh := NewToken(w1, Refresh, u, cfg.refreshTtl, if family.Some? then family.value else w1.next);
    Outcome(Issue(w1, refresh), Tokens(access, refresh))
  }

  /** Signature and expiry check of the decoders; each then checks the type. */
  predicate Decodes(w: World, t: Token)
  {
    IsIssued(w, t) && w.now <= t.exp
  }

  predicate IsBearer(t: Token)
  {
    t.kind.Access? || t.kind.Impersonation?
  }

  /** The `get_current_user` dependency. */
  function Authenticate(w: World, t: Token): Result<UserId, Refusal>
  {
    if !(Decodes(w, t) && IsBearer(t)) then Err(InvalidToken)
    else if t.jti in w.db.revoked then Err(RevokedToken)
    else if t.sub !in w.db.users then Err(InvalidToken)
    else if !w.db.users[t.sub].active then Err(InactiveUser)
    else if w.db.users[t.sub].version != t.version then Err(RevokedToken)
    else Ok(t.sub)
  }

  /** The built-in provider's `authenticate_request`, the second acceptance path. */
  function AuthenticateRequest(w: World, t: Token): Result<UserId, Refusal>
  {
    if !(Decodes(w, t) && IsBearer(t)) then Err(InvalidToken)
    else if t.jti in w.db.revoked then Err(RevokedToken)
    else if t.sub !in w.db.users then Err(InvalidToken)
    else if w.db.users[t.sub].version != t.version then Err(RevokedToken)
    else Ok(t.sub)
  }

  // ---- Handlers ----

  function Refuse(w: World, reason: Refusal): Outcome
  {
    Outcome(w, Refused(reason))
  }

  function LoginLimiterKey(cfg: Config, email: Email, ip: string): LimiterKey
  {
    LoginKey(cfg.lower(email), if cfg.limitByIp then Some(ip) else None)
  }

  function FailAttempt(cfg: Config, w: World, key: LimiterKey, reason: Refusal): Outcome
  {
    Refuse(w.(attempts := Recorded(w.attempts, key, w.now, cfg.window)), reason)
  }

  function Login(cfg: Config, w: World, email: Email, password: string, ip: string): Outcome
  {
    var key := LoginLimiterKey(cfg, email, ip);
    var w1 := w.(attempts := Trimmed(w.attempts, key, w.now, cfg.window));
    if Limited(w.attempts, key, w.now, cfg.window, cfg.maxFailures) then Refuse(w1, TooManyAttempts)
    else if email !in w.db.emails || w.db.emails[email] !in w.db.users then
      FailAttempt(cfg, w1, key, InvalidCredentials)
    else
      var u := w.db.emails[email];
      var user := w.db.users[u];
      if user.hash != HashOf(password) then FailAttempt(cfg, w1, key, InvalidCredentials)
      else if !user.active then FailAttempt(cfg, w1, key, InactiveUser)
      else
        var w2 := w.(attempts := Cleared(w.attempts, key));
        if user.totpEnabled then
          var challenge := NewToken(w2, Challenge, u, cfg.challengeTtl, w2.next);
          Outcome(Issue(w2, challenge), MfaRequired(challenge))
        else MintPair(cfg, w2, u, None)
  }

  function RefreshPair(cfg: Config, w: World, t: Token): Outcome
  {
    if !(Decodes(w, t) && t.kind.Refresh?) then Refuse(w, InvalidToken)
    else if t.jti in w.db.revoked then Refuse(w, RevokedToken)
    else if t.sub !in w.db.users || !w.db.users[t.sub].active then Refuse(w, InvalidToken)
    else if w.db.users[t.sub].version != t.version then Refuse(w, RevokedToken)
    else MintPair(cfg, Revoke(w, t.jti), t.sub, Some(t.family))
  }

  function Logout(w: World, bearer: Token): Outcome
  {
    var who := Authenticate(w, bearer);
    if who.Err? then Refuse(w, who.error) else Outcome(Revoke(w, bearer.jti), Done)
  }

  function BumpVersion(user: User): User
  {
    user.(version := user.version + 1)
  }

  function LogoutAll(w: World, bearer: Token): Outcome
  {
    var who := Authenticate(w, bearer);
    if who.Err? then Refuse(w, who.error)
    else Outcome(PutUser(w, who.value, BumpVersion(w.db.users[who.value])), Done)
  }

  function ResetRequest(cfg: Config, w: World, email: Email): Outcome
  {
    var key := cfg.lower(email);
    if Limited(w.resetAttempts, key, w.now, cfg.resetWindow, cfg.resetMaxRequests) then
      Refuse(w.(resetAttempts := Trimmed(w.resetAttempts, key, w.now, cfg.resetWindow)), TooManyAttempts)
    else
      var w1 := w.(resetAttempts := Recorded(w.resetAttempts, key, w.now, cfg.resetWindow));
      if email in w.db.emails && w.db.emails[email] in w.db.users
         && w.db.users[w.db.emails[email]].active
         && !w.db.users[w.db.emails[email]].passwordLoginDisabled
      then Outcome(AddReset(w1, w.db.emails[email], cfg.resetTtl), Done)
      else Outcome(w1, Done)
  }

  /** A reset row that can still be consumed. */
  predicate ResetUsable(w: World, raw: Nonce)
  {
    && raw in w.db.resets
    && w.db.resets[raw].usedAt.None?
    && w.now <= w.db.resets[raw].expires
    && w.db.resets[raw].user in w.db.users
  }

  function ResetConfirm(cfg: Config, w: World, raw: Nonce, password: string): Outcome
  {
    if !cfg.acceptable(password) then Refuse(w, Unprocessable)
    else if !ResetUsable(w, raw) then Refuse(w, InvalidResetToken)
    else
      var u := w.db.resets[raw].user;
      var user := w.db.users[u];
      Outcome(PutUser(UseReset(w, raw), u, BumpVersion(user.(hash := HashOf(password), active := true))), Done)
  }

  predicate CodeMatches(cfg: Config, secret: Option<Nonce>, code: string, now: Instant)
  {
    secret.Some? && code != "" && cfg.totpMatches(secret.value, code, now)
  }

  function TotpSetup(w: World, bearer: Token): Outcome
  {
    var who := Authenticate(w, bearer);
    if who.Err? then Refuse(w, who.error)
    else if w.db.users[who.value].totpEnabled then Refuse(w, Conflict)
    else
      var user := w.db.users[who.value];
      Outcome(PutUser(w, who.value, user.(totpSecret := Some(w.next))).(next := w.next + 1), Pending(w.next))
  }

  function TotpEnable(cfg: Config, w: World, bearer: Token, code: string): Outcome
  {
    var who := Authenticate(w, bearer);
    if who.Err? then Refuse(w, who.error)
    else
      var u := who.value;
      var user := w.db.users[u];
      if user.totpEnabled then Refuse(w, Conflict)
      else if user.totpSecret.None? then Refuse(w, BadRequest)
      else if !CodeMatches(cfg, user.totpSecret, code, w.now) then Refuse(w, BadRequest)
      else
        var added := Fresh(w.next, BACKUP_CODE_COUNT);
        var codes := WithNewCodes(WithoutCodes(w.db.codes, u), u, added);
        var w1 := PutUser(w, u, user.(totpEnabled := true));
        Outcome(w1.(db := w1.db.(codes := codes), next := w.next + BACKUP_CODE_COUNT),
                BackupCodes(added))
  }

  function TotpDisable(cfg: Config, w: World, bearer: Token, code: string): Outcome
  {
    var who := Authenticate(w, bearer);
    if who.Err? then Refuse(w, who.error)
    else
      var u := who.value;
      var user := w.db.users[u];
      if !user.totpEnabled then Refuse(w, BadRequest)
      else if !CodeMatches(cfg, user.totpSecret, code, w.now) then Refuse(w, BadRequest)
      else
        var w1 := PutUser(w, u, user.(totpEnabled := false, totpSecret := None));
        Outcome(w1.(db := w1.db.(codes := WithoutCodes(w.db.codes, u))), Done)
  }

  /** The checks of the second-factor login that come before the throttle. */
  predicate ChallengeHolds(w: World, t: Token)
  {
    && Decodes(w, t) && t.kind.Challenge?
    && t.jti !in w.db.revoked
    && t.sub in w.db.users
    && w.db.users[t.sub].active
    && w.db.users[t.sub].version == t.version
    && w.db.users[t.sub].totpEnabled
  }

  predicate FactorHolds(cfg: Config, w: World, u: UserId, factor: SecondFactor)
    requires u in w.db.users
  {
    match factor
    case Code(code) => CodeMatches(cfg, w.db.users[u].totpSecret, code, w.now)
    case BackupCode(raw) => CodeUnused(w.db, u, raw)
    case NotExactlyOne => false
  }

  function TotpLogin(cfg: Config, w: World, t: Token, factor: SecondFactor): Outcome
  {
    if factor.NotExactlyOne? then Refuse(w, BadRequest)
    else if !ChallengeHolds(w, t) then Refuse(w, BadChallenge)
    else
      var u := t.sub;
      var key := SecondFactorKey(u);
      var w1 := w.(attempts := Trimmed(w.attempts, key, w.now, cfg.window));
      if Limited(w.attempts, key, w.now, cfg.window, cfg.maxFailures) then Refuse(w1, TooManyAttempts)
      else if !FactorHolds(cfg, w, u, factor) then FailAttempt(cfg, w1, key, InvalidSecondFactor)
      else
        var w2 := if factor.BackupCode? then UseCode(w, factor.raw) else w;
        var w3 := w2.(attempts := Cleared(w2.attempts, key));
        MintPair(cfg, Revoke(w3, t.jti), u, None)
  }

  /** A tenant operator adds a member by e-mail; an unknown address becomes an invited account. */
  function Invite(cfg: Config, w: World, address: Email): Outcome
  {
    var email := cfg.lower(address);
    if email in w.db.emails then Outcome(w, Done)
    else
      var user := User(email, Unusable, false, false, 0, false, None, false);
      var w1 := PutUser(w, w.next, user);
      var w2 := w1.(db := w1.db.(emails := w1.db.emails[email := w.next]), next := w.next + 1);
      Outcome(AddReset(w2, w.next, cfg.inviteTtl), Done)
  }

  /** The operator creates a machine account and mints its access token. */
  function ProvisionMachine(cfg: Config, w: World, address: Email, ttl: nat): Outcome
  {
    var email := cfg.lower(address);
    if email in w.db.emails then Refuse(w, Conflict)
    else
      var user := User(email, Unusable, true, false, 0, true, None, false);
      var w1 := PutUser(w, w.next, user);
      var w2 := w1.(db := w1.db.(emails := w1.db.emails[email := w.next]), next := w.next + 1);
      var token := NewToken(w2, Access, w.next, ttl, w2.next);
      Outcome(Issue(w2, token), AccessOnly(token))
  }

  /** The `user enable` and `user disable` commands: nothing happens when the flag is already right. */
  function SetActive(w: World, email: Email, active: bool): Outcome
  {
    if email !in w.db.emails || w.db.emails[email] !in w.db.users then Refuse(w, NotFound)
    else
      var u := w.db.emails[email];
      var user := w.db.users[u];
      if user.active == active then Outcome(w, Done)
      else if active then Outcome(PutUser(w, u, user.(active := true)), Done)
      else Outcome(PutUser(w, u, BumpVersion(user.(active := false))), Done)
  }

  /** An edit through the built-in user admin, where e-mail and active flag are writable columns. */
  function EditUser(w: World, u: UserId, email: Email, active: bool): Outcome
  {
    if u !in w.db.users then Refuse(w, NotFound)
    else if email in w.db.emails && w.db.emails[email] != u then Refuse(w, Conflict)
    else Outcome(Readdress(w, u, w.db.users[u].(email := email, active := active)), Done)
  }

  /** Stores a user whose e-mail may have changed, keeping the unique index on e-mails in step. */
  function Readdress(w: World, u: UserId, user: User): World
    requires u in w.db.users
  {
    var w1 := PutUser(w, u, user);
    w1.(db := w1.db.(emails := (w.db.emails - {w.db.users[u].email})[user.email := u]))
  }

  function Anonymise(cfg: Config, w: World, u: UserId): Outcome
  {
    if u !in w.db.users then Refuse(w, NotFound)
    else if cfg.tombstone(u) in w.db.emails && w.db.emails[cfg.tombstone(u)] != u then Refuse(w, Conflict)
    else
      var user := w.db.users[u].(email := cfg.tombstone(u), hash := Unusable, active := false,
                                 totpSecret := None, totpEnabled := false);
      Outcome(Readdress(w, u, BumpVersion(user)), Done)
  }

  /** A reason is wanted and none but blanks is given. */
  predicate ReasonMissing(cfg: Config, reason: string)
  {
    cfg.requireReason && Strip(reason) == ""
  }

  /** `entry` is what resolving the tenant to enter gives: a tenant, none, or a refusal. */
  function Impersonate(cfg: Config, w: World, bearer: Token, target: UserId, minutes: nat, reason: string,
                       entry: Result<Option<TenantId>, Refusal>): Outcome
  {
    var who := Authenticate(w, bearer);
    if who.Err? then Refuse(w, who.error)
    else if bearer.kind == Impersonation || !w.db.users[who.value].superadmin then Refuse(w, Forbidden)
    else if !(1 <= minutes <= MAX_IMPERSONATION_MINUTES) then Refuse(w, Unprocessable)
    else if target == who.value then Refuse(w, BadRequest)
    else if ReasonMissing(cfg, reason) then Refuse(w, Unprocessable)
    else if target !in w.db.users then Refuse(w, NotFound)
    else if !w.db.users[target].active then Refuse(w, Conflict)
    else if entry.Err? then Refuse(w, entry.error)
    else
      var token := NewToken(w, Impersonation, target, minutes * 60, w.next).(tenant := entry.value);
      Outcome(Issue(w, token), AccessOnly(token))
  }

  // ---- Runs ----

  datatype Request =
    | Tick(elapsed: nat)
    | DoLogin(email: Email, password: string, ip: string)
    | DoRefresh(token: Token)
    | DoLogout(bearer: Token)
    | DoLogoutAll(bearer: Token)
    | DoResetRequest(email: Email)
    | DoResetConfirm(raw: Nonce, password: string)
    | DoTotpSetup(bearer: Token)
    | DoTotpEnable(bearer: Token, code: string)
    | DoTotpDisable(bearer: Token, code: string)
    | DoTotpLogin(token: Token, factor: SecondFactor)
    | DoInvite(email: Email)
    | DoProvisionMachine(email: Email, ttl: nat)
    | DoSetActive(email: Email, active: bool)
    | DoEditUser(user: UserId, email: Email, active: bool)
    | DoAnonymise(user: UserId)
    | DoImpersonate(bearer: Token, target: UserId, minutes: nat, reason: string,
                    entry: Result<Option<TenantId>, Refusal>)

  function Step(cfg: Config, w: World, r: Request): Outcome
  {
    match r
    case Tick(elapsed) => Outcome(w.(now := w.now + elapsed), Done)
    case DoLogin(email, password, ip) => Login(cfg, w, email, password, ip)
    case DoRefresh(t) => RefreshPair(cfg, w, t)
    case DoLogout(t) => Logout(w, t)
    case DoLogoutAll(t) => LogoutAll(w, t)
    case DoResetRequest(email) => ResetRequest(cfg, w, email)
    case DoResetConfirm(raw, password) => ResetConfirm(cfg, w, raw, password)
    case DoTotpSetup(t) => TotpSetup(w, t)
    case DoTotpEnable(t, code) => TotpEnable(cfg, w, t, code)
    case DoTotpDisable(t, code) => TotpDisable(cfg, w, t, code)
    case DoTotpLogin(t, factor) => TotpLogin(cfg, w, t, factor)
    case DoInvite(email) => Invite(cfg, w, email)
    case DoProvisionMachine(email, ttl) => ProvisionMachine(cfg, w, email, ttl)
    case DoSetActive(email, active) => SetActive(w, email, active)
    case DoEditUser(u, email, active) => EditUser(w, u, email, active)
    case DoAnonymise(u) => Anonymise(cfg, w, u)
    case DoImpersonate(t, target, minutes, reason, entry) =>
      Impersonate(cfg, w, t, target, minutes, reason, entry)
  }

  /** The world after a sequence of requests. */
  function Run(cfg: Config, w: World, requests: seq<Request>): World
  {
    if requests == [] then w
    else Step(cfg, Run(cfg, w, requests[..|requests| - 1]), requests[|requests| - 1]).world
  }

  lemma RunSnoc(cfg: Config, w: World, requests: seq<Request>, r: Request)
    ensures Run(cfg, w, requests + [r]) == Step(cfg, Run(cfg, w, requests), r).world
  {
    assert (requests + [r])[..|requests|] == requests;
  }
}
