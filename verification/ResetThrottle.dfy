/** Reset requests, and the reset rows they issue, are bounded in every window of every run. */
module ResetThrottle {
  import opened Prelude
  import opened RateLimiting
  import opened AuthModel
  import opened AuthInvariants
  import opened AuthFrames
  import opened SecondFactorBound

  /** The request asks for a reset under this key. */
  predicate AsksUnder(cfg: Config, r: Request, key: Email)
  {
    r.DoResetRequest? && cfg.lower(r.email) == key
  }

  /** When the reset requests under `key` were let through, read off the responses. */
  function AdmittedSince(cfg: Config, start: World, requests: seq<Request>, key: Email): seq<Instant>
  {
    if requests == [] then []
    else
      var front, last := requests[..|requests| - 1], requests[|requests| - 1];
      var w, log := Run(cfg, start, front), AdmittedSince(cfg, start, front, key);
      if AsksUnder(cfg, last, key) && Step(cfg, w, last).response.Done? then log + [w.now] else log
  }

  /** When a reset request under `key` put a row into the table of resets. */
  function IssuedSince(cfg: Config, start: World, requests: seq<Request>, key: Email): seq<Instant>
  {
    if requests == [] then []
    else
      var front, last := requests[..|requests| - 1], requests[|requests| - 1];
      var w, log := Run(cfg, start, front), IssuedSince(cfg, start, front, key);
      if AsksUnder(cfg, last, key) && Step(cfg, w, last).world.db.resets != w.db.resets then log + [w.now] else log
  }

  lemma LoginKeepsResetHits(cfg: Config, w: World, email: Email, password: string, ip: string)
    ensures Login(cfg, w, email, password, ip).world.resetAttempts == w.resetAttempts
  {
  }

  lemma TotpLoginKeepsResetHits(cfg: Config, w: World, t: Token, factor: SecondFactor)
    ensures TotpLogin(cfg, w, t, factor).world.resetAttempts == w.resetAttempts
  {
  }

  lemma UserWritesKeepResetHits(cfg: Config, w: World, r: Request)
    requires MayWriteUsers(r)
    ensures Step(cfg, w, r).world.resetAttempts == w.resetAttempts
  {
    match r
    case DoLogoutAll(t) =>
    case DoResetConfirm(raw, password) =>
    case DoTotpSetup(t) =>
    case DoTotpEnable(t, code) =>
    case DoTotpDisable(t, code) =>
    case DoInvite(email) =>
    case DoProvisionMachine(email, ttl) =>
    case DoSetActive(email, active) =>
    case DoEditUser(_, email, active) =>
    case DoAnonymise(_) =>
  }

  /** Only reset requests touch the hits of the reset throttle. */
  lemma OthersKeepResetHits(cfg: Config, w: World, r: Request)
    requires !r.DoResetRequest?
    ensures Step(cfg, w, r).world.resetAttempts == w.resetAttempts
  {
    if MayWriteUsers(r) {
      UserWritesKeepResetHits(cfg, w, r);
    } else {
      match r
      case Tick(_) =>
      case DoLogin(email, password, ip) => LoginKeepsResetHits(cfg, w, email, password, ip);
      case DoRefresh(t) =>
      case DoLogout(t) =>
      case DoTotpLogin(t, factor) => TotpLoginKeepsResetHits(cfg, w, t, factor);
      case DoImpersonate(t, target, minutes, reason, entry) =>
    }
  }

  ghost predicate ResetMetered(cfg: Config, w: World, log: seq<Instant>, key: Email)
  {
    Metered(HitsOf(w.resetAttempts, key), log, w.now, cfg.resetWindow, cfg.resetMaxRequests)
  }

  /** What a reset request does to the hits of its key: checked, then recorded. */
  lemma ResetRequestEffect(cfg: Config, w: World, email: Email)
    ensures var o, key := ResetRequest(cfg, w, email), cfg.lower(email);
            var full := Limited(w.resetAttempts, key, w.now, cfg.resetWindow, cfg.resetMaxRequests);
            && o.world.now == w.now
            && (o.response.Done? <==> !full)
            && o.world.resetAttempts == (if full then Trimmed(w.resetAttempts, key, w.now, cfg.resetWindow)
                                         else Recorded(w.resetAttempts, key, w.now, cfg.resetWindow))
            && (full ==> o.world.db.resets == w.db.resets)
  {
  }

  lemma ResetKeepsMetered(cfg: Config, w: World, email: Email, log: seq<Instant>)
    requires ResetMetered(cfg, w, log, cfg.lower(email))
    ensures var o := ResetRequest(cfg, w, email);
            ResetMetered(cfg, o.world, if o.response.Done? then log + [w.now] else log, cfg.lower(email))
  {
    var key := cfg.lower(email);
    ResetRequestEffect(cfg, w, email);
    LimitedByLog(w.resetAttempts, key, log, w.now, cfg.resetWindow, cfg.resetMaxRequests);
    AgreesTrimmed(HitsOf(w.resetAttempts, key), log, w.now, cfg.resetWindow);
    AgreesRecorded(HitsOf(w.resetAttempts, key), log, w.now, cfg.resetWindow);
    if ResetRequest(cfg, w, email).response.Done? {
      RecordKeepsBound(log, w.now, cfg.resetWindow, cfg.resetMaxRequests);
    }
  }

  lemma {:induction false} RunResetMetered(cfg: Config, start: World, requests: seq<Request>, key: Email)
    requires start.resetAttempts == map[]
    ensures ResetMetered(cfg, Run(cfg, start, requests), AdmittedSince(cfg, start, requests, key), key)
  {
    if requests != [] {
      var front, last := requests[..|requests| - 1], requests[|requests| - 1];
      var w, log := Run(cfg, start, front), AdmittedSince(cfg, start, front, key);
      var w' := Step(cfg, w, last).world;
      RunResetMetered(cfg, start, front, key);
      ClockAdvances(cfg, w, last);
      if AsksUnder(cfg, last, key) {
        ResetKeepsMetered(cfg, w, last.email, log);
      } else {
        if last.DoResetRequest? {
          ResetRequestEffect(cfg, w, last.email);
        } else {
          OthersKeepResetHits(cfg, w, last);
        }
        assert HitsOf(w'.resetAttempts, key) == HitsOf(w.resetAttempts, key);
        AgreesLater(HitsOf(w.resetAttempts, key), log, w.now, w'.now, cfg.resetWindow);
      }
    }
  }

  lemma BothGrow(small: seq<Instant>, large: seq<Instant>, now: Instant, lo: Instant, hi: Instant)
    requires InWindow(small, lo, hi) <= InWindow(large, lo, hi)
    ensures InWindow(small, lo, hi) <= InWindow(large + [now], lo, hi)
    ensures InWindow(small + [now], lo, hi) <= InWindow(large + [now], lo, hi)
  {
    WindowSnoc(small, now, lo, hi);
    WindowSnoc(large, now, lo, hi);
  }

  /** A request that issues a row was let through. */
  lemma IssuingIsAdmitted(cfg: Config, w: World, r: Request, key: Email)
    requires AsksUnder(cfg, r, key) && Step(cfg, w, r).world.db.resets != w.db.resets
    ensures Step(cfg, w, r).response.Done?
  {
    ResetRequestEffect(cfg, w, r.email);
  }

  lemma {:induction false} IssuedWithinAdmitted(cfg: Config, start: World, requests: seq<Request>, key: Email,
                                                lo: Instant, hi: Instant)
    ensures InWindow(IssuedSince(cfg, start, requests, key), lo, hi)
         <= InWindow(AdmittedSince(cfg, start, requests, key), lo, hi)
  {
    if requests != [] {
      var front, last := requests[..|requests| - 1], requests[|requests| - 1];
      var w := Run(cfg, start, front);
      IssuedWithinAdmitted(cfg, start, front, key, lo, hi);
      if AsksUnder(cfg, last, key) && Step(cfg, w, last).world.db.resets != w.db.resets {
        IssuingIsAdmitted(cfg, w, last, key);
      }
      BothGrow(IssuedSince(cfg, start, front, key), AdmittedSince(cfg, start, front, key), w.now, lo, hi);
    }
  }

  /** In every run no window holds more than the allowed number of reset requests let through under one key. */
  lemma ResetRequestsBounded(cfg: Config, start: World, requests: seq<Request>, key: Email, t: Instant)
    requires Initial(start)
    ensures Load(AdmittedSince(cfg, start, requests, key), t, cfg.resetWindow) <= cfg.resetMaxRequests
  {
    RunResetMetered(cfg, start, requests, key);
  }

  lemma IssuedLoad(cfg: Config, start: World, requests: seq<Request>, key: Email, t: Instant, window: int)
    ensures Load(IssuedSince(cfg, start, requests, key), t, window)
              <= Load(AdmittedSince(cfg, start, requests, key), t, window)
  {
    IssuedWithinAdmitted(cfg, start, requests, key, t - window, t);
  }

  /** And so no window holds more reset rows issued by such requests. */
  lemma ResetRowsBounded(cfg: Config, start: World, requests: seq<Request>, key: Email, t: Instant)
    requires Initial(start)
    ensures Load(IssuedSince(cfg, start, requests, key), t, cfg.resetWindow) <= cfg.resetMaxRequests
  {
    ResetRequestsBounded(cfg, start, requests, key, t);
    IssuedLoad(cfg, start, requests, key, t, cfg.resetWindow);
  }

  /** In every run a reset request is turned away exactly when the window before it is full. */
  lemma ResetRefusedIffWindowFull(cfg: Config, start: World, requests: seq<Request>, email: Email)
    requires Initial(start)
    ensures var w := Run(cfg, start, requests);
            ResetRequest(cfg, w, email).response.Refused?
            <==>
            Load(AdmittedSince(cfg, start, requests, cfg.lower(email)), w.now, cfg.resetWindow) >= cfg.resetMaxRequests
  {
    var w, key := Run(cfg, start, requests), cfg.lower(email);
    RunResetMetered(cfg, start, requests, key);
    ResetRequestEffect(cfg, w, email);
    var log := AdmittedSince(cfg, start, requests, key);
    LimitedByLog(w.resetAttempts, key, log, w.now, cfg.resetWindow, cfg.resetMaxRequests);
  }
}
