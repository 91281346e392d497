/** How long a worker can hold a run.

    The time limits of `claim`, `renew` and `authorize` of `broker.py`, over every
    interleaving of the protocol. */
module LeaseTimes {
  import opened Common
  import opened Runs
  import opened Protocol
  import opened ExecutionSafety
  import opened RunAnswers
  import Captures

  /** A lease was redeemed inside its bootstrap window, and no renewal carries it further than
      one lifetime past the run limit. */
  predicate Timely(lease: Lease, cfg: Config) {
    lease.claim.Some? ==>
      && lease.claim.value.at < lease.bootstrapExpires
      && lease.claim.value.expires <= lease.claim.value.at + MAX_RUN_SECONDS + cfg.leaseTtl
  }

  predicate AllTimely(run: Run, cfg: Config) { forall k :: 0 <= k < |run.leases| ==> Timely(run.leases[k], cfg) }

  lemma WorkerIsTimely(run: Run, act: RunAction, now: int, cfg: Config)
    requires AllTimely(run, cfg) && RequestOf(act).Some?
    ensures AllTimely(Transact(run, act, now, cfg).0, cfg)
  {
  }

  lemma LauncherIsTimely(run: Run, act: RunAction, now: int, cfg: Config)
    requires AllTimely(run, cfg) && RequestOf(act).None?
    ensures AllTimely(Transact(run, act, now, cfg).0, cfg)
  {
  }

  lemma StepIsTimely(s: System, a: Action, cfg: Config)
    requires forall i :: 0 <= i < |s.world.runs| ==> AllTimely(s.world.runs[i], cfg)
    ensures forall i :: 0 <= i < |Step(s, a, cfg).world.runs| ==> AllTimely(Step(s, a, cfg).world.runs[i], cfg)
  {
    var t := Step(s, a, cfg);
    forall i | 0 <= i < |t.world.runs| ensures AllTimely(t.world.runs[i], cfg) {
      if i < |s.world.runs| {
        RunAfter(s, a, cfg, i);
        FinishIsTimely(s.world.runs[i], a, cfg);
        if a.On? && a.run == i {
          if RequestOf(a.act).Some? {
            WorkerIsTimely(s.world.runs[i], a.act, s.clock, cfg);
          } else {
            LauncherIsTimely(s.world.runs[i], a.act, s.clock, cfg);
          }
        }
      } else {
        NewRunIsUnleased(s, a, cfg, i);
      }
    }
  }

  lemma FinishIsTimely(run: Run, a: Action, cfg: Config)
    requires AllTimely(run, cfg)
    ensures a.Finishing? ==> AllTimely(Finish(run, a.call.report, a.finality), cfg)
  {
  }

  lemma NewRunIsUnleased(s: System, a: Action, cfg: Config, i: nat)
    requires |s.world.runs| <= i < |Step(s, a, cfg).world.runs|
    ensures Step(s, a, cfg).world.runs[i].leases == []
  {
  }

  lemma {:induction false} ExecuteIsTimely(s: System, actions: seq<Action>, cfg: Config)
    requires forall i :: 0 <= i < |s.world.runs| ==> AllTimely(s.world.runs[i], cfg)
    ensures forall i :: 0 <= i < |Execute(s, actions, cfg).world.runs| ==> AllTimely(Execute(s, actions, cfg).world.runs[i], cfg)
    decreases |actions|
  {
    if actions != [] {
      StepIsTimely(s, actions[0], cfg);
      ExecuteIsTimely(Step(s, actions[0], cfg), actions[1..], cfg);
    }
  }

  /** Over every interleaving, no worker request on a run is accepted once the run limit and one
      lease lifetime have passed since its lease was redeemed, however often it was renewed. */
  lemma WorkEndsInTime(limit: nat, clock: int, before: seq<Action>, cfg: Config, i: nat, req: Request, authorized: bool)
    requires var s := Reach(limit, clock, before, cfg);
      i < |s.world.runs| && Authorize(s.world.runs[i], req, s.clock, authorized) == 200
    ensures var s := Reach(limit, clock, before, cfg);
      var lease := s.world.runs[i].leases[req.lease];
      lease.claim.Some? && s.clock < lease.claim.value.at + MAX_RUN_SECONDS + cfg.leaseTtl
        && lease.claim.value.at < lease.bootstrapExpires
  {
    var s := Reach(limit, clock, before, cfg);
    ReachableIsValid(limit, clock, before, cfg);
    ExecuteIsTimely(Initial(limit, clock), before, cfg);
    hide Step, Execute;
    assert AllTimely(s.world.runs[i], cfg);
    AcceptedMeansClaimant(s.world.runs[i], req, s.clock, authorized);
    assert Timely(s.world.runs[i].leases[req.lease], cfg);
  }

  // ---- A live worker keeps its run -------------------------------------------------------------------

  /** No claim lasts longer than one lifetime from now. */
  predicate Current(run: Run, now: int, cfg: Config) {
    forall k :: 0 <= k < |run.leases| && run.leases[k].claim.Some? ==> run.leases[k].claim.value.expires <= now + cfg.leaseTtl
  }

  predicate AllCurrent(s: System, cfg: Config) {
    forall i :: 0 <= i < |s.world.runs| ==> Current(s.world.runs[i], s.clock, cfg)
  }

  /** Claims stay, and are only ever prolonged. */
  predicate Prolonged(run: Run, later: Run) {
    && |run.leases| <= |later.leases|
    && forall k :: 0 <= k < |run.leases| && run.leases[k].claim.Some? ==>
         later.leases[k].claim.Some? && run.leases[k].claim.value.expires <= later.leases[k].claim.value.expires
  }

  lemma WorkerProlongs(run: Run, act: RunAction, now: int, cfg: Config)
    requires Current(run, now, cfg) && RequestOf(act).Some?
    ensures Current(Transact(run, act, now, cfg).0, now, cfg) && Prolonged(run, Transact(run, act, now, cfg).0)
  {
  }

  lemma LauncherProlongs(run: Run, act: RunAction, now: int, cfg: Config)
    requires Current(run, now, cfg) && RequestOf(act).None?
    ensures Current(Transact(run, act, now, cfg).0, now, cfg) && Prolonged(run, Transact(run, act, now, cfg).0)
  {
  }

  lemma RunProlongs(s: System, a: Action, cfg: Config, i: nat)
    requires AllCurrent(s, cfg) && i < |s.world.runs|
    ensures var t := Step(s, a, cfg);
      i < |t.world.runs| && s.clock <= t.clock && Current(t.world.runs[i], t.clock, cfg)
      && Prolonged(s.world.runs[i], t.world.runs[i])
  {
    RunAfter(s, a, cfg, i);
    if a.On? && a.run == i {
      if RequestOf(a.act).Some? {
        WorkerProlongs(s.world.runs[i], a.act, s.clock, cfg);
      } else {
        LauncherProlongs(s.world.runs[i], a.act, s.clock, cfg);
      }
    }
    hide Transact;
  }

  lemma StepProlongs(s: System, a: Action, cfg: Config)
    requires AllCurrent(s, cfg)
    ensures var t := Step(s, a, cfg);
      && AllCurrent(t, cfg) && s.clock <= t.clock && |s.world.runs| <= |t.world.runs|
      && forall i :: 0 <= i < |s.world.runs| ==> Prolonged(s.world.runs[i], t.world.runs[i])
  {
    var t := Step(s, a, cfg);
    forall i | 0 <= i < |s.world.runs|
      ensures i < |t.world.runs| && Current(t.world.runs[i], t.clock, cfg) && Prolonged(s.world.runs[i], t.world.runs[i])
    {
      RunProlongs(s, a, cfg, i);
    }
    forall i | |s.world.runs| <= i < |t.world.runs| ensures Current(t.world.runs[i], t.clock, cfg) {
      NewRunIsUnleased(s, a, cfg, i);
    }
    ClockAdvances(s, a, cfg);
    hide Step;
  }

  lemma ClockAdvances(s: System, a: Action, cfg: Config)
    ensures s.clock <= Step(s, a, cfg).clock && |s.world.runs| <= |Step(s, a, cfg).world.runs|
  {
  }

  lemma {:induction false} ExecuteProlongs(s: System, actions: seq<Action>, cfg: Config)
    requires AllCurrent(s, cfg)
    ensures var t := Execute(s, actions, cfg);
      && AllCurrent(t, cfg) && s.clock <= t.clock && |s.world.runs| <= |t.world.runs|
      && forall i :: 0 <= i < |s.world.runs| ==> Prolonged(s.world.runs[i], t.world.runs[i])
    decreases |actions|
  {
    if actions != [] {
      var next := Step(s, actions[0], cfg);
      StepProlongs(s, actions[0], cfg);
      ExecuteProlongs(next, actions[1..], cfg);
      var t := Execute(next, actions[1..], cfg);
      hide Step, AllCurrent;
      forall i | 0 <= i < |s.world.runs| ensures Prolonged(s.world.runs[i], t.world.runs[i]) {
        assert Prolonged(s.world.runs[i], next.world.runs[i]) && Prolonged(next.world.runs[i], t.world.runs[i]);
      }
    }
  }

  /** Over every interleaving: until the claim of a worker, as it stood at any moment, runs out or the
      run is twenty minutes old, no reconciliation times the run out, whatever happens in between. */
  lemma LiveWorkerKeepsItsRun(limit: nat, clock: int, before: seq<Action>, more: seq<Action>, cfg: Config, i: nat)
    requires var s := Reach(limit, clock, before, cfg);
      i < |s.world.runs| && s.world.runs[i].leases != [] && Newest(s.world.runs[i]).claim.Some?
    ensures var s := Reach(limit, clock, before, cfg);
      var t := Execute(s, more, cfg);
      && i < |t.world.runs|
      && (t.clock < Newest(s.world.runs[i]).claim.value.expires && t.clock < s.world.runs[i].spec.createdAt + 20 * 60 ==>
            Reconcile(t.world.runs[i], t.clock).1 != Some(TIMEOUT_REPORT))
  {
    var s := Reach(limit, clock, before, cfg);
    var t := Execute(s, more, cfg);
    ReachableIsValid(limit, clock, before, cfg);
    ExecuteProlongs(Initial(limit, clock), before, cfg);
    ExecuteProlongs(s, more, cfg);
    Ancestry(s, more, cfg, i);
    hide Reach, Execute, Valid, Progressed, Inv, AllCurrent, Evolves, Prolonged, Reconcile;
    if t.clock < Newest(s.world.runs[i]).claim.value.expires && t.clock < s.world.runs[i].spec.createdAt + 20 * 60 {
      LiveClaimIsLeftAlone(s.world.runs[i], t.world.runs[i], t.clock);
    }
  }

  /** A run that came from this one is not timed out while the claim it had then would still last. */
  lemma LiveClaimIsLeftAlone(run: Run, later: Run, now: int)
    requires run.leases != [] && Newest(run).claim.Some? && now < Newest(run).claim.value.expires
    requires Inv(later) && Evolves(run, later) && Prolonged(run, later) && now < run.spec.createdAt + 20 * 60
    ensures Reconcile(later, now).1 != Some(TIMEOUT_REPORT)
  {
    assert Claimed(run);
    assert |later.leases| == |run.leases| && later.spec == run.spec;
    assert Newest(later).claim.Some? && now < Newest(later).claim.value.expires;
    if later.settled || later.completions != [] {
      ReconcileRecovers(later, now);
      assert later.completions != [] ==> later.completions[0] in later.completions;
    } else {
      ReconcileExactlyWhen(later, now);
    }
    hide Reconcile, Evolves, Prolonged, LeaseDiscipline;
  }

  /** An accepted reading or renewal takes effect on its run at once: the nonce is spent, and a renewed
      lease lasts one lifetime from now. */
  lemma AcceptedTakesEffect(limit: nat, clock: int, before: seq<Action>, cfg: Config, i: nat, req: Request, renewing: bool)
    requires var s := Reach(limit, clock, before, cfg);
      && i < |s.world.runs| && Speaks(s.world.runs[i], req, s.clock)
      && (renewing ==>
            && Captures.CapturedBytes(s.world.runs[i].captures) <= 14 * 1024 * 1024
            && s.clock <= Newest(s.world.runs[i]).claim.value.at + 15 * 60)
    ensures var s := Reach(limit, clock, before, cfg);
      var t := Step(s, On(i, if renewing then Renewing(req, true) else Reading(req, true)), cfg);
      && i < |t.world.runs| && t.world.runs[i].leases != [] && (req.lease, req.nonce) in t.world.runs[i].nonces
      && (renewing ==> Newest(t.world.runs[i]).claim.Some?
                       && Newest(t.world.runs[i]).claim.value.expires == s.clock + cfg.leaseTtl)
  {
    var s := Reach(limit, clock, before, cfg);
    ReachableIsValid(limit, clock, before, cfg);
    assert Inv(s.world.runs[i]);
    hide Reach, Execute, Valid, Inv, Speaks;
    if renewing {
      RenewExactlyWhen(s.world.runs[i], req, s.clock, true, cfg);
    } else {
      ReadExactlyWhen(s.world.runs[i], req, s.clock, true);
    }
    hide Renew, ReadAssignment;
  }
}
