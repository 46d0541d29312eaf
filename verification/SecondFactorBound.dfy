/** Failed attempts, at the password and at the second factor, are bounded in every window of every run. */
module SecondFactorBound {
  import opened Prelude
  import opened RateLimiting
  import opened AuthModel
  import opened AuthInvariants
  import opened AuthFrames

  /** The limiter key a request counts against. */
  function KeyOf(cfg: Config, r: Request): Option<LimiterKey>
  {
    match r
    case DoLogin(email, _, ip) => Some(LoginLimiterKey(cfg, email, ip))
    case DoTotpLogin(t, _) => Some(SecondFactorKey(t.sub))
    case _ => None
  }

  predicate Failed(response: Response)
  {
    && response.Refused?
    && (response.reason.InvalidCredentials? || response.reason.InactiveUser? || response.reason.InvalidSecondFactor?)
  }

  predicate Succeeded(response: Response)
  {
    response.Tokens? || response.MfaRequired?
  }

  /** Read off the responses alone: when the attempts under `key` failed since the last one succeeded. */
  function FailedSince(cfg: Config, start: World, requests: seq<Request>, key: LimiterKey): seq<Instant>
  {
    if requests == [] then []
    else
      var front, last := requests[..|requests| - 1], requests[|requests| - 1];
      var w, log := Run(cfg, start, front), FailedSince(cfg, start, front, key);
      var response := Step(cfg, w, last).response;
      if KeyOf(cfg, last) != Some(key) then log
      else if Failed(response) then log + [w.now]
      else if Succeeded(response) then []
      else log
  }

  ghost predicate InStep(cfg: Config, w: World, log: seq<Instant>, key: LimiterKey)
  {
    Metered(HitsOf(w.attempts, key), log, w.now, cfg.window, cfg.maxFailures)
  }

  lemma ClockAdvances(cfg: Config, w: World, r: Request)
    ensures w.now <= Step(cfg, w, r).world.now
    ensures !r.Tick? ==> Step(cfg, w, r).world.now == w.now
  {
  }

  lemma UserWritesUncounted(cfg: Config, w: World, r: Request)
    requires MayWriteUsers(r)
    ensures Step(cfg, w, r).world.attempts == w.attempts
  {
    match r
    case DoLogoutAll(t) =>
    case DoResetConfirm(raw, password) =>
    case DoTotpSetup(t) =>
    case DoTotpEnable(t, code) =>
    case DoTotpDisable(t, code) =>
    case DoInvite(email) =>
    case DoProvisionMachine(email, ttl) =>
    case DoSetActive(email, active) =>
    case DoEditUser(_, email, active) =>
    case DoAnonymise(_) =>
  }

  /** Requests that are no login attempts leave the counted failures alone. */
  lemma OthersUncounted(cfg: Config, w: World, r: Request)
    requires KeyOf(cfg, r).None?
    ensures Step(cfg, w, r).world.attempts == w.attempts
  {
    if MayWriteUsers(r) {
      UserWritesUncounted(cfg, w, r);
    } else {
      match r
      case Tick(_) =>
      case DoRefresh(t) =>
      case DoLogout(t) =>
      case DoResetRequest(email) =>
      case DoImpersonate(t, target, minutes, reason, entry) =>
    }
  }

  /** What an attempt does to the table of hits. */
  ghost predicate AttemptEffect(cfg: Config, w: World, o: Outcome, key: LimiterKey)
  {
    if Failed(o.response) then
      && !Limited(w.attempts, key, w.now, cfg.window, cfg.maxFailures)
      && o.world.attempts == Recorded(w.attempts, key, w.now, cfg.window)
    else if Succeeded(o.response) then
      o.world.attempts == Cleared(w.attempts, key)
    else
      o.world.attempts == w.attempts || o.world.attempts == Trimmed(w.attempts, key, w.now, cfg.window)
  }

  lemma LoginEffect(cfg: Config, w: World, email: Email, password: string, ip: string)
    ensures AttemptEffect(cfg, w, Login(cfg, w, email, password, ip), LoginLimiterKey(cfg, email, ip))
  {
    RecordedAfterTrim(w.attempts, LoginLimiterKey(cfg, email, ip), w.now, cfg.window);
  }

  lemma TotpLoginEffect(cfg: Config, w: World, t: Token, factor: SecondFactor)
    ensures AttemptEffect(cfg, w, TotpLogin(cfg, w, t, factor), SecondFactorKey(t.sub))
  {
    RecordedAfterTrim(w.attempts, SecondFactorKey(t.sub), w.now, cfg.window);
  }

  lemma StepEffect(cfg: Config, w: World, r: Request, key: LimiterKey)
    requires KeyOf(cfg, r) == Some(key)
    ensures AttemptEffect(cfg, w, Step(cfg, w, r), key)
  {
    match r
    case DoLogin(email, password, ip) => LoginEffect(cfg, w, email, password, ip);
    case DoTotpLogin(t, factor) => TotpLoginEffect(cfg, w, t, factor);
  }

  lemma AttemptKeepsInStep(cfg: Config, w: World, o: Outcome, key: LimiterKey, log: seq<Instant>)
    requires InStep(cfg, w, log, key) && AttemptEffect(cfg, w, o, key) && o.world.now == w.now
    ensures var log' := if Failed(o.response) then log + [w.now] else if Succeeded(o.response) then [] else log;
            InStep(cfg, o.world, log', key)
  {
    LimitedByLog(w.attempts, key, log, w.now, cfg.window, cfg.maxFailures);
    AgreesTrimmed(HitsOf(w.attempts, key), log, w.now, cfg.window);
    AgreesRecorded(HitsOf(w.attempts, key), log, w.now, cfg.window);
    if Failed(o.response) {
      RecordKeepsBound(log, w.now, cfg.window, cfg.maxFailures);
    }
  }

  lemma {:induction false} RunInStep(cfg: Config, start: World, requests: seq<Request>, key: LimiterKey)
    requires start.attempts == map[]
    ensures InStep(cfg, Run(cfg, start, requests), FailedSince(cfg, start, requests, key), key)
  {
    if requests != [] {
      var front, last := requests[..|requests| - 1], requests[|requests| - 1];
      var w, log := Run(cfg, start, front), FailedSince(cfg, start, front, key);
      var o := Step(cfg, w, last);
      RunInStep(cfg, start, front, key);
      ClockAdvances(cfg, w, last);
      if KeyOf(cfg, last).Some? {
        StepEffect(cfg, w, last, KeyOf(cfg, last).value);
      } else {
        OthersUncounted(cfg, w, last);
      }
      if KeyOf(cfg, last) == Some(key) {
        AttemptKeepsInStep(cfg, w, o, key, log);
      } else {
        assert HitsOf(o.world.attempts, key) == HitsOf(w.attempts, key);
        AgreesLater(HitsOf(w.attempts, key), log, w.now, o.world.now, cfg.window);
      }
    }
  }

  /**
   However the run goes and however many challenges it mints, no window holds more than the allowed
   number of attempts that failed under one key since the last success under it. For
   `SecondFactorKey(u)` these are the failed second-factor attempts of user `u`.
   */
  lemma FailedAttemptsBounded(cfg: Config, start: World, requests: seq<Request>, key: LimiterKey, t: Instant)
    requires Initial(start)
    ensures Load(FailedSince(cfg, start, requests, key), t, cfg.window) <= cfg.maxFailures
  {
    RunInStep(cfg, start, requests, key);
  }

  lemma ThrottleBranch(cfg: Config, w: World, t: Token, factor: SecondFactor)
    requires !factor.NotExactlyOne? && ChallengeHolds(w, t)
    ensures TotpLogin(cfg, w, t, factor).response == Refused(TooManyAttempts)
            <==> Limited(w.attempts, SecondFactorKey(t.sub), w.now, cfg.window, cfg.maxFailures)
  {
  }

  /** With a valid challenge, the throttle answers exactly when the window before now is full of failures. */
  lemma ThrottledIffWindowFull(cfg: Config, start: World, requests: seq<Request>, t: Token, factor: SecondFactor)
    requires Initial(start) && !factor.NotExactlyOne? && ChallengeHolds(Run(cfg, start, requests), t)
    ensures var w := Run(cfg, start, requests);
            var log := FailedSince(cfg, start, requests, SecondFactorKey(t.sub));
            TotpLogin(cfg, w, t, factor).response == Refused(TooManyAttempts)
            <==> Load(log, w.now, cfg.window) >= cfg.maxFailures
  {
    var w, key := Run(cfg, start, requests), SecondFactorKey(t.sub);
    RunInStep(cfg, start, requests, key);
    ThrottleBranch(cfg, w, t, factor);
    LimitedByLog(w.attempts, key, FailedSince(cfg, start, requests, key), w.now, cfg.window, cfg.maxFailures);
  }

  /** A throttled attempt consumes no backup code, revokes no challenge and issues nothing. */
  lemma RefusedAttemptChangesNoTable(cfg: Config, w: World, t: Token, factor: SecondFactor)
    ensures var o := Step(cfg, w, DoTotpLogin(t, factor));
            o.response.Refused? ==> o.world == w.(attempts := o.world.attempts)
    ensures var o := Step(cfg, w, DoTotpLogin(t, factor));
            o.response == Refused(TooManyAttempts) && factor.BackupCode? && CodeUnused(w.db, t.sub, factor.raw) ==>
              CodeUnused(o.world.db, t.sub, factor.raw) && t.jti !in o.world.db.revoked
  {
  }
}
