/** Which accounts can come to have a password, and how. */
module Accounts {
  import opened Prelude
  import opened AuthModel
  import opened AuthInvariants
  import opened AuthFrames

  /** No password opens the account. */
  ghost predicate PasswordCloses(cfg: Config, w: World, u: UserId)
  {
    forall password, ip :: u in w.db.users ==> Login(cfg, w, w.db.users[u].email, password, ip).response.Refused?
  }

  lemma UnusableHashCloses(cfg: Config, w: World, u: UserId)
    requires WorldOk(w) && u in w.db.users && w.db.users[u].hash.Unusable?
    ensures PasswordCloses(cfg, w, u)
  {
    assert NonceRow(w, u);
  }

  /**
   An account created with password login disabled never gets a reset row, its hash never becomes
   usable, and no password ever opens it, in any run.
   */
  lemma MachineAccountsStayClosed(cfg: Config, w: World, u: UserId, requests: seq<Request>)
    requires WorldOk(w) && u in w.db.users && w.db.users[u].passwordLoginDisabled
    ensures var w' := Run(cfg, w, requests);
            && u in w'.db.users && w'.db.users[u].hash.Unusable?
            && (forall n :: n in w'.db.resets ==> w'.db.resets[n].user != u)
            && PasswordCloses(cfg, w', u)
  {
    RunOk(cfg, w, requests);
    var w' := Run(cfg, w, requests);
    assert NonceMoves(w, w', u) && NonceRow(w', u);
    forall n | n in w'.db.resets ensures w'.db.resets[n].user != u { assert NonceRow(w', n); }
    UnusableHashCloses(cfg, w', u);
  }

  /** The account the provisioning command creates is one of those. */
  lemma ProvisionedIsMachine(cfg: Config, w: World, address: Email, ttl: nat, requests: seq<Request>)
    requires WorldOk(w) && ProvisionMachine(cfg, w, address, ttl).response.AccessOnly?
    ensures var o := ProvisionMachine(cfg, w, address, ttl);
            var u := o.response.token.sub;
            var w' := Run(cfg, o.world, requests);
            u !in w.db.users && u in w'.db.users && PasswordCloses(cfg, w', u)
  {
    var o := ProvisionMachine(cfg, w, address, ttl);
    assert NonceRow(w, w.next);
    ProvisionOk(cfg, w, address, ttl);
    MachineAccountsStayClosed(cfg, o.world, o.response.token.sub, requests);
  }

  /** Request `k` of the run sets the account's password with a token issued to it. */
  ghost predicate ConfirmsAt(cfg: Config, w: World, requests: seq<Request>, k: nat, u: UserId)
    requires k < |requests|
  {
    ConfirmsResetOf(cfg, Run(cfg, w, requests[..k]), requests[k], u)
  }

  /** An account without a usable hash gets one only by consuming a token issued to it. */
  lemma {:induction false} UsableOnlyByToken(cfg: Config, w: World, u: UserId, requests: seq<Request>)
    requires WorldOk(w) && u in w.db.users && w.db.users[u].hash.Unusable?
    requires u in Run(cfg, w, requests).db.users && !Run(cfg, w, requests).db.users[u].hash.Unusable?
    ensures exists k :: 0 <= k < |requests| && ConfirmsAt(cfg, w, requests, k, u)
  {
    var n := |requests|;
    var front, last := requests[..n - 1], requests[n - 1];
    RunOk(cfg, w, front);
    var before := Run(cfg, w, front);
    assert NonceMoves(w, before, u);
    if before.db.users[u].hash.Unusable? {
      UserChange(cfg, before, last, u);
      assert ConfirmsAt(cfg, w, requests, n - 1, u);
    } else {
      UsableOnlyByToken(cfg, w, u, front);
      var k :| 0 <= k < |front| && ConfirmsAt(cfg, w, front, k, u);
      assert front[..k] == requests[..k];
      assert ConfirmsAt(cfg, w, requests, k, u);
    }
  }

  /** The invited account starts closed, with exactly one token to open it, and is active only after. */
  lemma InvitedStartsClosed(cfg: Config, w: World, address: Email)
    requires WorldOk(w) && cfg.lower(address) !in w.db.emails
    ensures var w' := Invite(cfg, w, address).world;
            var email := cfg.lower(address);
            && email in w'.db.emails && w'.db.emails[email] in w'.db.users && w'.db.emails[email] !in w.db.users
            && var u := w'.db.emails[email];
               && Dormant(w', u) && PasswordCloses(cfg, w', u)
               && forall n :: ResetUsable(w', n) && w'.db.resets[n].user == u <==> n == w.next + 1
  {
    var w' := Invite(cfg, w, address).world;
    InviteOk(cfg, w, address);
    assert NonceRow(w, w.next);
    forall n | n in w.db.resets ensures w.db.resets[n].user < w.next {
      assert NonceRow(w, n) && NonceRow(w, w.db.resets[n].user);
    }
    UnusableHashCloses(cfg, w', w.next);
  }

  // ---- Anonymised accounts ----

  /** Inactive and without a password. */
  ghost predicate Dormant(w: World, u: UserId)
  {
    u in w.db.users && !w.db.users[u].active && w.db.users[u].hash.Unusable?
  }

  /** No request of the run switches the account on. */
  ghost predicate NeverEnabled(cfg: Config, w: World, requests: seq<Request>, u: UserId)
  {
    forall k :: 0 <= k < |requests| ==> !EnablesAt(cfg, w, requests, k, u)
  }

  ghost predicate EnablesAt(cfg: Config, w: World, requests: seq<Request>, k: nat, u: UserId)
    requires k < |requests|
  {
    Enables(Run(cfg, w, requests[..k]), requests[k], u)
  }

  ghost predicate NoUsableReset(w: World, u: UserId)
  {
    forall n :: ResetUsable(w, n) ==> w.db.resets[n].user != u
  }

  lemma {:induction false} DormantStays(cfg: Config, w: World, u: UserId, requests: seq<Request>)
    requires WorldOk(w) && Dormant(w, u) && NoUsableReset(w, u) && NeverEnabled(cfg, w, requests, u)
    ensures Dormant(Run(cfg, w, requests), u) && NoUsableReset(Run(cfg, w, requests), u)
  {
    if requests != [] {
      var front, last := requests[..|requests| - 1], requests[|requests| - 1];
      forall k | 0 <= k < |front| ensures !EnablesAt(cfg, w, front, k, u) {
        assert front[..k] == requests[..k] && !EnablesAt(cfg, w, requests, k, u);
      }
      DormantStays(cfg, w, u, front);
      RunOk(cfg, w, front);
      assert !EnablesAt(cfg, w, requests, |requests| - 1, u);
      DormantStep(cfg, Run(cfg, w, front), u, last);
    }
  }

  lemma DormantStep(cfg: Config, w: World, u: UserId, r: Request)
    requires WorldOk(w) && Dormant(w, u) && NoUsableReset(w, u) && !Enables(w, r, u)
    ensures Dormant(Step(cfg, w, r).world, u) && NoUsableReset(Step(cfg, w, r).world, u)
  {
    var w' := Step(cfg, w, r).world;
    StepOk(cfg, w, r);
    UserChange(cfg, w, r, u);
    forall n | ResetUsable(w', n) ensures w'.db.resets[n].user != u {
      assert NonceMoves(w, w', n) && NonceRow(w, n);
      if n in w.db.resets {
        assert ResetUsable(w, n);
      } else {
        NewReset(cfg, w, r, n);
      }
    }
  }

  /**
   Anonymising promises that login can never succeed again. Short of an operator switching the account
   on, that holds exactly when no reset token issued to the account could still be consumed: consuming
   one sets a password and activates the account.
   */
  lemma AnonymisedStaysDormantIff(cfg: Config, w: World, u: UserId, password: string)
    requires WorldOk(w) && Anonymise(cfg, w, u).response.Done? && cfg.acceptable(password)
    ensures var w' := Anonymise(cfg, w, u).world;
            (forall requests :: NeverEnabled(cfg, w', requests, u) ==> Dormant(Run(cfg, w', requests), u))
            <==> NoUsableReset(w, u)
  {
    var w' := Anonymise(cfg, w, u).world;
    AnonymiseOk(cfg, w, u);
    forall n ensures ResetUsable(w', n) <==> ResetUsable(w, n) { assert NonceRow(w, n); }
    if NoUsableReset(w, u) {
      forall requests | NeverEnabled(cfg, w', requests, u) ensures Dormant(Run(cfg, w', requests), u) {
        DormantStays(cfg, w', u, requests);
      }
    } else {
      var raw :| ResetUsable(w, raw) && w.db.resets[raw].user == u;
      ReturnsByToken(cfg, w', u, raw, password);
    }
  }

  /** A consumable reset token brings the account back, and the new password opens it. */
  lemma ReturnsByToken(cfg: Config, w: World, u: UserId, raw: Nonce, password: string)
    requires WorldOk(w) && Dormant(w, u) && cfg.acceptable(password)
    requires ResetUsable(w, raw) && w.db.resets[raw].user == u
    ensures var requests := [DoResetConfirm(raw, password)];
            && NeverEnabled(cfg, w, requests, u)
            && !Dormant(Run(cfg, w, requests), u)
            && u in Run(cfg, w, requests).db.users && Run(cfg, w, requests).db.users[u].hash == HashOf(password)
  {
    var requests := [DoResetConfirm(raw, password)];
    assert requests[..0] == [] && Run(cfg, w, []) == w;
    assert Run(cfg, w, requests) == ResetConfirm(cfg, w, raw, password).world;
    forall k | 0 <= k < |requests| ensures !EnablesAt(cfg, w, requests, k, u) { }
  }
}
