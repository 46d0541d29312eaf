/** Refresh tokens, challenges, reset tokens and backup codes succeed at most once, over every run. */
module SingleUse {
  import opened Prelude
  import opened AuthModel
  import opened AuthInvariants

  /** The refresh tokens of a family that have not been exchanged, by jti. */
  function Unexchanged(w: World, family: Nonce): set<Nonce>
  {
    set j | j in w.issued && w.issued[j].kind.Refresh? && w.issued[j].family == family && j !in w.db.revoked
  }

  /** In every run, a family that has started has exactly one refresh token left to exchange. */
  lemma OneTokenPerFamily(cfg: Config, start: World, requests: seq<Request>, t: Token)
    requires Initial(start)
    requires IsIssued(Run(cfg, start, requests), t) && t.kind.Refresh?
    ensures |Unexchanged(Run(cfg, start, requests), t.family)| == 1
  {
    InitialOk(start);
    RunOk(cfg, start, requests);
    var w := Run(cfg, start, requests);
    assert NonceRow(w, t.jti) && NonceRow(w, t.family);
    var head := w.heads[t.family];
    forall j ensures j in Unexchanged(w, t.family) <==> j == head.jti {
      assert NonceRow(w, j);
    }
    assert Unexchanged(w, t.family) == {head.jti};
  }

  /** A refresh is granted exactly to the last token of a family, while its user's sessions stand. */
  lemma RefreshGrantedIff(cfg: Config, w: World, t: Token)
    requires WorldOk(w) && IsIssued(w, t) && t.kind.Refresh?
    ensures RefreshPair(cfg, w, t).response.Tokens? <==>
              && Unexchanged(w, t.family) == {t.jti} && w.now <= t.exp
              && t.sub in w.db.users && w.db.users[t.sub].active && w.db.users[t.sub].version == t.version
  {
    assert NonceRow(w, t.jti) && NonceRow(w, t.family);
    forall j | j in Unexchanged(w, t.family) ensures j == w.heads[t.family].jti {
      assert NonceRow(w, j);
    }
    if t.jti !in w.db.revoked {
      assert t.jti in Unexchanged(w, t.family);
      assert Unexchanged(w, t.family) == {t.jti};
    }
  }

  /** The exchanged token hands its place to the returned one: that is the next and only one granted. */
  lemma RefreshHandsOn(cfg: Config, w: World, t: Token)
    requires WorldOk(w) && RefreshPair(cfg, w, t).response.Tokens?
    ensures var o := RefreshPair(cfg, w, t);
            && o.response.refresh.family == t.family && o.response.refresh.sub == t.sub
            && Unexchanged(o.world, t.family) == {o.response.refresh.jti}
            && RefreshPair(cfg, o.world, o.response.refresh).response.Tokens?
  {
    var o := RefreshPair(cfg, w, t);
    RefreshOk(cfg, w, t);
    assert NonceRow(w, w.next + 1) && NonceRow(w, t.jti);
    RefreshGrantedIff(cfg, o.world, o.response.refresh);
  }

  /** Revoked once, revoked for good. */
  lemma StaysRevoked(cfg: Config, w: World, requests: seq<Request>, jti: Nonce)
    requires WorldOk(w) && jti in w.db.revoked
    ensures jti in Run(cfg, w, requests).db.revoked
  {
    RunOk(cfg, w, requests);
    assert NonceMoves(w, Run(cfg, w, requests), jti);
  }

  /** A refresh token is exchanged at most once. */
  lemma ExchangedOnce(cfg: Config, w: World, t: Token, requests: seq<Request>)
    requires WorldOk(w) && Step(cfg, w, DoRefresh(t)).response.Tokens?
    ensures Step(cfg, Run(cfg, Step(cfg, w, DoRefresh(t)).world, requests), DoRefresh(t)).response.Refused?
  {
    StepOk(cfg, w, DoRefresh(t));
    StaysRevoked(cfg, Step(cfg, w, DoRefresh(t)).world, requests, t.jti);
  }

  /** A challenge completes at most one login, whatever factors are tried with it. */
  lemma ChallengeUsedOnce(cfg: Config, w: World, t: Token, factor: SecondFactor, requests: seq<Request>,
                          again: SecondFactor)
    requires WorldOk(w) && Step(cfg, w, DoTotpLogin(t, factor)).response.Tokens?
    ensures var w' := Run(cfg, Step(cfg, w, DoTotpLogin(t, factor)).world, requests);
            Step(cfg, w', DoTotpLogin(t, again)).response.Refused?
  {
    StepOk(cfg, w, DoTotpLogin(t, factor));
    StaysRevoked(cfg, Step(cfg, w, DoTotpLogin(t, factor)).world, requests, t.jti);
  }

  /** A reset or invite token sets at most one password. */
  lemma ResetTokenUsedOnce(cfg: Config, w: World, raw: Nonce, password: string, requests: seq<Request>, again: string)
    requires WorldOk(w) && Step(cfg, w, DoResetConfirm(raw, password)).response.Done?
    ensures var w' := Run(cfg, Step(cfg, w, DoResetConfirm(raw, password)).world, requests);
            Step(cfg, w', DoResetConfirm(raw, again)).response.Refused?
  {
    StepOk(cfg, w, DoResetConfirm(raw, password));
    var w1 := Step(cfg, w, DoResetConfirm(raw, password)).world;
    RunOk(cfg, w1, requests);
    assert NonceMoves(w1, Run(cfg, w1, requests), raw);
  }

  /** A backup code completes at most one login, even with another challenge and after re-enrolment. */
  lemma BackupCodeUsedOnce(cfg: Config, w: World, t: Token, raw: Nonce, requests: seq<Request>, t': Token)
    requires WorldOk(w) && Step(cfg, w, DoTotpLogin(t, BackupCode(raw))).response.Tokens?
    ensures var w' := Run(cfg, Step(cfg, w, DoTotpLogin(t, BackupCode(raw))).world, requests);
            Step(cfg, w', DoTotpLogin(t', BackupCode(raw))).response.Refused?
  {
    StepOk(cfg, w, DoTotpLogin(t, BackupCode(raw)));
    var w1 := Step(cfg, w, DoTotpLogin(t, BackupCode(raw))).world;
    assert NonceRow(w1, raw);
    RunOk(cfg, w1, requests);
    assert NonceMoves(w1, Run(cfg, w1, requests), raw);
  }
}
