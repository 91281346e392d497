/** Theorems about every interleaving of the execution protocol, crashes included.

    `Execute(Initial(..), before, cfg)` ranges over every reachable system; a further
    `Execute(s, more, cfg)` over everything that can happen from there on. */
module ExecutionSafety {
  import opened Common
  import opened Runs
  import opened Protocol
  import Captures

  function Reach(limit: nat, clock: int, before: seq<Action>, cfg: Config): System {
    Execute(Initial(limit, clock), before, cfg)
  }

  lemma ReachableIsValid(limit: nat, clock: int, before: seq<Action>, cfg: Config)
    ensures Valid(Reach(limit, clock, before, cfg))
  {
    ExecuteKeeps(Initial(limit, clock), before, cfg);
  }

  // ---- Leases and workers ------------------------------------------------------------

  /** A run's fences are exactly 1..n, at most one of its leases was ever claimed, and only
      the highest fence can be unrevoked. */
  lemma FencesAndClaims(limit: nat, clock: int, before: seq<Action>, cfg: Config, i: nat)
    requires i < |Reach(limit, clock, before, cfg).world.runs|
    ensures var leases := Reach(limit, clock, before, cfg).world.runs[i].leases;
      && (forall k :: 0 <= k < |leases| ==> leases[k].fence == k + 1)
      && (forall j, k :: 0 <= j < |leases| && 0 <= k < |leases| && leases[j].claim.Some? && leases[k].claim.Some? ==> j == k)
      && (forall k :: 0 <= k < |leases| && !leases[k].revoked ==> leases[k].fence == |leases|)
  {
    ReachableIsValid(limit, clock, before, cfg);
    assert Inv(Reach(limit, clock, before, cfg).world.runs[i]);
  }

  /** Any two worker requests ever accepted on a run use the same lease and the same key. */
  lemma OneWorkerPerRun(limit: nat, clock: int, before: seq<Action>, more: seq<Action>, cfg: Config, i: nat,
                        first: Request, second: Request, a1: bool, a2: bool)
    requires var s := Reach(limit, clock, before, cfg);
      i < |s.world.runs| && Authorize(s.world.runs[i], first, s.clock, a1) == 200
    requires var t := Execute(Reach(limit, clock, before, cfg), more, cfg);
      i < |t.world.runs| && Authorize(t.world.runs[i], second, t.clock, a2) == 200
    ensures first.signer == second.signer && first.lease == second.lease && first.fence == second.fence
  {
    var s := Reach(limit, clock, before, cfg);
    var t := Execute(s, more, cfg);
    ReachableIsValid(limit, clock, before, cfg);
    ExecuteKeeps(s, more, cfg);
    AcceptedMeansClaimant(s.world.runs[i], first, s.clock, a1);
    AcceptedMeansClaimant(t.world.runs[i], second, t.clock, a2);
    assert Evolves(s.world.runs[i], t.world.runs[i]);
  }

  /** The worker request an action carries. */
  function RequestOf(act: RunAction): Option<Request> {
    match act
    case Reading(req, _) => Some(req)
    case Renewing(req, _) => Some(req)
    case Observing(req, _, _) => Some(req)
    case Completing(req, _, _, _) => Some(req)
    case Failing(req, _) => Some(req)
    case _ => None
  }

  /** A worker request that had any effect was accepted, and its nonce is spent. */
  lemma EffectSpends(run: Run, act: RunAction, now: int, cfg: Config)
    requires RequestOf(act).Some? && Transact(run, act, now, cfg).0 != run
    ensures Authorize(run, RequestOf(act).value, now, act.authorized) == 200
    ensures (RequestOf(act).value.lease, RequestOf(act).value.nonce) in Transact(run, act, now, cfg).0.nonces
  {
  }

  /** The nonce of a worker request that had any effect is spent for good: no later request
      with the same lease and nonce is accepted, whatever it asks. */
  lemma NoReplay(limit: nat, clock: int, before: seq<Action>, more: seq<Action>, cfg: Config, i: nat,
                 act: RunAction, copy: Request, authorized: bool)
    requires var s := Reach(limit, clock, before, cfg);
      i < |s.world.runs| && RequestOf(act).Some? && Transact(s.world.runs[i], act, s.clock, cfg).0 != s.world.runs[i]
    requires copy.lease == RequestOf(act).value.lease && copy.nonce == RequestOf(act).value.nonce
    ensures var t := Execute(Step(Reach(limit, clock, before, cfg), On(i, act), cfg), more, cfg);
      i < |t.world.runs| && Authorize(t.world.runs[i], copy, t.clock, authorized) != 200
  {
    var s := Reach(limit, clock, before, cfg);
    ReachableIsValid(limit, clock, before, cfg);
    hide Reach, Valid, Step, Authorize, Evolves, Transact;
    var spent := Step(s, On(i, act), cfg);
    var t := Execute(spent, more, cfg);
    StepKeeps(s, On(i, act), cfg);
    ExecuteKeeps(spent, more, cfg);
    EffectSpends(s.world.runs[i], act, s.clock, cfg);
    OnReplaces(s, i, act, cfg);
    SpentIsRefused(spent.world.runs[i], t.world.runs[i], copy, t.clock, authorized);
  }

  lemma OnReplaces(s: System, i: nat, act: RunAction, cfg: Config)
    requires i < |s.world.runs|
    ensures var t := Step(s, On(i, act), cfg);
      i < |t.world.runs| && t.world.runs[i] == Transact(s.world.runs[i], act, s.clock, cfg).0
  {
  }

  lemma SpentIsRefused(spent: Run, later: Run, copy: Request, now: int, authorized: bool)
    requires Evolves(spent, later) && (copy.lease, copy.nonce) in spent.nonces
    ensures Authorize(later, copy, now, authorized) != 200
  {
  }

  // ---- Money ----------------------------------------------------------------------------

  /** Reserved units are exactly those of unsettled runs; every unit ever charged is either
      still counted as consumed or was forgiven by a rollover; use never exceeded the
      highest allowance under which a run was admitted; and a settled run was charged in
      full if a worker claimed it and not at all otherwise. */
  lemma Ledger(limit: nat, clock: int, before: seq<Action>, cfg: Config)
    ensures var s := Reach(limit, clock, before, cfg);
      && s.world.account.reserved == Outstanding(s.world.runs)
      && s.world.account.consumed + s.forgiven == Charged(s.world.runs)
      && s.world.account.consumed + s.world.account.reserved <= s.peak
      && forall i :: 0 <= i < |s.world.runs| && s.world.runs[i].settled ==>
           Charge(s.world.runs[i]) == if Claimed(s.world.runs[i]) then s.world.runs[i].reserved else 0
  {
    ReachableIsValid(limit, clock, before, cfg);
    var s := Reach(limit, clock, before, cfg);
    forall i | 0 <= i < |s.world.runs| && s.world.runs[i].settled
      ensures Charge(s.world.runs[i]) == if Claimed(s.world.runs[i]) then s.world.runs[i].reserved else 0
    {
      assert Inv(s.world.runs[i]);
    }
  }

  /** An accepted creation fits the allowance in force; a repeated key creates nothing. */
  lemma CreationFits(w: World, spec: Spec, admitted: bool, now: int)
    ensures var r := CreateRun(w, spec, admitted, now);
      r.Ok? ==>
        && r.value.1 < |r.value.0.runs|
        && r.value.0.runs[r.value.1].spec.idempotencyKey == spec.idempotencyKey
        && r.value.0.runs[r.value.1].spec.digest == spec.digest
        && (if exists k :: 0 <= k < |w.runs| && w.runs[k].spec.idempotencyKey == spec.idempotencyKey then r.value.0 == w
            else
              && r.value.0.account.consumed + r.value.0.account.reserved <= w.account.limit
              && r.value.0.account.reserved - w.account.reserved == r.value.0.runs[r.value.1].reserved >= 1
              && |r.value.0.runs| == |w.runs| + 1)
  {
  }

  /** Neither a settlement nor a rollover raises consumed plus reserved. */
  lemma UseOnlyFalls(limit: nat, clock: int, before: seq<Action>, cfg: Config, a: Action)
    requires a.Finishing? || a.Rollover?
    ensures var s := Reach(limit, clock, before, cfg); var t := Step(s, a, cfg);
      t.world.account.consumed + t.world.account.reserved <= s.world.account.consumed + s.world.account.reserved
  {
    var s := Reach(limit, clock, before, cfg);
    ReachableIsValid(limit, clock, before, cfg);
    if a.Finishing? && a.call in s.calls {
      FinishingKeeps(s, a.call, a.finality, cfg);
    }
  }

  // ---- Evidence -----------------------------------------------------------------------

  /** A FAIL captured at any moment decides the run: however and whenever it is settled
      afterwards, the verdict is FAIL and the release action BLOCK, and after settlement
      nothing about the run's evidence, result or charge changes any more. */
  lemma CapturedFailureBlocks(limit: nat, clock: int, before: seq<Action>, more: seq<Action>, cfg: Config, i: nat)
    requires i < |Reach(limit, clock, before, cfg).world.runs|
    ensures var s := Reach(limit, clock, before, cfg); var t := Execute(s, more, cfg);
      && i < |t.world.runs|
      && (FailureCaptured(s.world.runs[i]) && t.world.runs[i].settled ==>
            && t.world.runs[i].result.Some?
            && t.world.runs[i].result.value.verdict == Captures.FAIL && t.world.runs[i].result.value.action == BLOCK)
      && (s.world.runs[i].settled ==>
            && t.world.runs[i].settled && t.world.runs[i].result == s.world.runs[i].result
            && t.world.runs[i].captures == s.world.runs[i].captures
            && Charge(t.world.runs[i]) == Charge(s.world.runs[i]))
  {
    var s := Reach(limit, clock, before, cfg);
    var t := Execute(s, more, cfg);
    ReachableIsValid(limit, clock, before, cfg);
    ExecuteKeeps(s, more, cfg);
    assert Evolves(s.world.runs[i], t.world.runs[i]) && Inv(t.world.runs[i]);
    if FailureCaptured(s.world.runs[i]) {
      var c :| c in s.world.runs[i].captures && c.evaluation.verdict == Captures.FAIL;
      assert c in t.world.runs[i].captures;
    }
  }

  /** An ALLOW is only ever given to a complete, passing, currently authorized run. */
  lemma AllowMeansProven(run: Run, report: Report, f: Finality)
    ensures var r := Settle(run, report, f);
      && (r.action == ALLOW <==>
            && report.verdict == Captures.PASS && !FailureCaptured(run)
            && report.task == Captures.SUCCESS && report.execution == COMPLETED
            && f.authorized && !f.blocked && !run.spec.qualification
            && (run.spec.hasObserver ==> report.candidateObserved)
            && (run.spec.hasBaseline ==> f.compatible))
      && (!f.authorized || f.blocked || r.verdict == Captures.FAIL ==> r.action == BLOCK)
  {
  }

  // ---- One step, seen from one run -----------------------------------------------------

  predicate SettledBy(run: Run, report: Report) {
    run.settled && run.result.Some? && run.result.value.report == report
  }

  lemma Lineage(s: System, a: Action, cfg: Config, i: nat)
    requires Valid(s) && i < |s.world.runs|
    ensures var t := Step(s, a, cfg);
      Valid(t) && i < |t.world.runs| && Inv(s.world.runs[i]) && Inv(t.world.runs[i]) && Evolves(s.world.runs[i], t.world.runs[i])
  {
    StepKeeps(s, a, cfg);
  }

  lemma Ancestry(s: System, more: seq<Action>, cfg: Config, i: nat)
    requires Valid(s) && i < |s.world.runs|
    ensures var t := Execute(s, more, cfg);
      && Valid(t) && Progressed(s, t) && i < |t.world.runs|
      && Inv(s.world.runs[i]) && Inv(t.world.runs[i]) && Evolves(s.world.runs[i], t.world.runs[i])
  {
    ExecuteKeeps(s, more, cfg);
  }

  /** A step leaves a run alone, transacts on it, or executes an issued settlement of it. */
  lemma RunAfter(s: System, a: Action, cfg: Config, i: nat)
    requires i < |s.world.runs|
    ensures var run := s.world.runs[i]; var t := Step(s, a, cfg);
      && i < |t.world.runs|
      && (|| t.world.runs[i] == run
          || (a.On? && a.run == i && t.world.runs[i] == Transact(run, a.act, s.clock, cfg).0)
          || (a.Finishing? && a.call in s.calls && a.call.run == i && t.world.runs[i] == Finish(run, a.call.report, a.finality)))
  {
  }

  /** A settlement call on a run is issued only by a transaction on that run. */
  lemma CallsAfter(s: System, a: Action, cfg: Config, c: Call)
    requires c in Step(s, a, cfg).calls && c !in s.calls && c.run < |s.world.runs|
    ensures a.On? && a.run == c.run && Transact(s.world.runs[c.run], a.act, s.clock, cfg).1 == Some(c.report)
  {
  }

  // ---- Completion against timeout ---------------------------------------------------------

  /** A recorded completion with no timeout in flight. */
  ghost predicate CompletionStands(s: System, i: nat, report: Report) {
    && Valid(s) && i < |s.world.runs|
    && s.world.runs[i].completions == [report]
    && Call(i, TIMEOUT_REPORT) !in s.calls
    && (s.world.runs[i].settled ==> SettledBy(s.world.runs[i], report))
  }

  /** After a completion, the only result a transaction can issue is the recorded one. */
  lemma OnlyTheRecordedResult(run: Run, act: RunAction, now: int, cfg: Config, report: Report)
    requires Inv(run) && run.completions == [report]
    ensures report.execution != TIMEOUT
    ensures var (r, issued) := Transact(run, act, now, cfg);
      && r.completions == [report] && r.settled == run.settled && r.result == run.result
      && (issued.Some? ==> issued.value == report)
  {
    assert report in run.completions;
    TransactKeeps(run, act, now, cfg);
    NeverIssuesTimeout(run, act, now, cfg);
    hide Transact;
    var (r, issued) := Transact(run, act, now, cfg);
    assert run.completions <= r.completions && |r.completions| <= 1;
  }

  /** With a completion on record, no transaction issues a timeout. */
  lemma NeverIssuesTimeout(run: Run, act: RunAction, now: int, cfg: Config)
    requires run.completions != [] && forall r :: r in run.completions ==> r.execution != TIMEOUT
    ensures Transact(run, act, now, cfg).1 != Some(TIMEOUT_REPORT)
  {
    assert run.completions[0] in run.completions;
  }

  lemma CompletionStandsStep(s: System, a: Action, cfg: Config, i: nat, report: Report)
    requires CompletionStands(s, i, report)
    ensures CompletionStands(Step(s, a, cfg), i, report)
  {
    Lineage(s, a, cfg, i);
    RunAfter(s, a, cfg, i);
    if a.On? && a.run == i {
      OnlyTheRecordedResult(s.world.runs[i], a.act, s.clock, cfg, report);
    }
    if Call(i, TIMEOUT_REPORT) in Step(s, a, cfg).calls {
      CallsAfter(s, a, cfg, Call(i, TIMEOUT_REPORT));
    }
    if a.Finishing? && a.call in s.calls && a.call.run == i {
      assert a.call.report in s.world.runs[i].completions;
    }
  }

  lemma {:induction false} CompletionStandsForever(s: System, more: seq<Action>, cfg: Config, i: nat, report: Report)
    requires CompletionStands(s, i, report)
    ensures CompletionStands(Execute(s, more, cfg), i, report)
    decreases |more|
  {
    if more != [] {
      CompletionStandsStep(s, more[0], cfg, i, report);
      CompletionStandsForever(Step(s, more[0], cfg), more[1..], cfg, i, report);
    }
  }

  /** However execution continues, the run can only be settled by this report. */
  ghost predicate OnlySettledBy(s: System, cfg: Config, i: nat, report: Report) {
    forall more: seq<Action> :: var t := Execute(s, more, cfg);
      i < |t.world.runs| && t.world.runs[i].settled ==> SettledBy(t.world.runs[i], report)
  }

  /** A recorded completion decides the run, through crashes and recovery, exactly when no
      earlier timeout pass still has its settlement in flight. */
  lemma CompletionDecidesExactlyWhen(s: System, cfg: Config, i: nat, report: Report)
    requires Valid(s) && i < |s.world.runs|
    requires s.world.runs[i].completions == [report] && !s.world.runs[i].settled
    ensures OnlySettledBy(s, cfg, i, report) <==> Call(i, TIMEOUT_REPORT) !in s.calls
  {
    if Call(i, TIMEOUT_REPORT) !in s.calls {
      forall more: seq<Action> ensures CompletionStands(Execute(s, more, cfg), i, report) {
        CompletionStandsForever(s, more, cfg, i, report);
      }
    } else {
      OnlyTheRecordedResult(s.world.runs[i], Reconciling, s.clock, cfg, report);
      TimeoutCallSettles(s, cfg, i);
      var finish := Finishing(Call(i, TIMEOUT_REPORT), Finality(true, false, true));
      assert SettledBy(Execute(s, [finish], cfg).world.runs[i], TIMEOUT_REPORT);
    }
  }

  lemma TimeoutCallSettles(s: System, cfg: Config, i: nat)
    requires Valid(s) && i < |s.world.runs| && !s.world.runs[i].settled && Call(i, TIMEOUT_REPORT) in s.calls
    ensures var t := Execute(s, [Finishing(Call(i, TIMEOUT_REPORT), Finality(true, false, true))], cfg);
      i < |t.world.runs| && SettledBy(t.world.runs[i], TIMEOUT_REPORT) && t.world.runs[i].completions == s.world.runs[i].completions
  {
    var finish := Finishing(Call(i, TIMEOUT_REPORT), Finality(true, false, true));
    ExecuteAppend(s, [], finish, cfg);
    assert [] + [finish] == [finish];
  }

  lemma {:induction false} ExecuteAppend(s: System, a: seq<Action>, last: Action, cfg: Config)
    ensures Execute(s, a + [last], cfg) == Step(Execute(s, a, cfg), last, cfg)
    decreases |a|
  {
    if a == [] {
      assert ([] + [last])[1..] == [];
    } else {
      ExecuteAppend(Step(s, a[0], cfg), a[1..], last, cfg);
      assert (a + [last])[1..] == a[1..] + [last];
    }
  }

  /** The recovery itself: if the process died after recording, a reconciliation step issues
      that same result again, and executing it settles the run with it. */
  lemma RecoverySettles(s: System, cfg: Config, i: nat, f: Finality)
    requires Valid(s) && i < |s.world.runs| && s.world.runs[i].completions != [] && !s.world.runs[i].settled
    ensures var report := s.world.runs[i].completions[0];
      var t := Step(Step(s, On(i, Reconciling), cfg), Finishing(Call(i, report), f), cfg);
      && s.world.runs[i].completions == [report]
      && SettledBy(t.world.runs[i], report)
      && t.world.account.reserved == s.world.account.reserved - s.world.runs[i].reserved
  {
    assert Inv(s.world.runs[i]);
  }

  // ---- A timeout is final exactly on claimed work -----------------------------------------

  ghost predicate AbandonedWhileClaimed(s: System, i: nat) {
    && Valid(s) && i < |s.world.runs|
    && Claimed(s.world.runs[i])
    && s.world.runs[i].leases[|s.world.runs[i].leases| - 1].revoked
    && s.world.runs[i].completions == []
    && (s.world.runs[i].settled ==> SettledBy(s.world.runs[i], TIMEOUT_REPORT))
  }

  lemma RevokedClaimRecordsNothing(run: Run, act: RunAction, now: int, cfg: Config)
    requires Inv(run) && Claimed(run) && run.leases[|run.leases| - 1].revoked && run.completions == []
    ensures Transact(run, act, now, cfg).0.completions == []
    ensures Transact(run, act, now, cfg).0.settled == run.settled && Transact(run, act, now, cfg).0.result == run.result
  {
    TransactKeeps(run, act, now, cfg);
    if act.Completing? || act.Failing? {
      assert Authorize(run, act.req, now, act.authorized) != 200;
    }
  }

  lemma AbandonedStep(s: System, a: Action, cfg: Config, i: nat)
    requires AbandonedWhileClaimed(s, i)
    ensures AbandonedWhileClaimed(Step(s, a, cfg), i)
  {
    hide Step, Transact;
    Lineage(s, a, cfg, i);
    RunAfter(s, a, cfg, i);
    if a.On? && a.run == i {
      RevokedClaimRecordsNothing(s.world.runs[i], a.act, s.clock, cfg);
    }
    if a.Finishing? && a.call in s.calls && a.call.run == i {
      assert a.call.report == TIMEOUT_REPORT;
    }
  }

  lemma {:induction false} AbandonedForever(s: System, more: seq<Action>, cfg: Config, i: nat)
    requires AbandonedWhileClaimed(s, i)
    ensures AbandonedWhileClaimed(Execute(s, more, cfg), i)
    decreases |more|
  {
    if more != [] {
      AbandonedStep(s, more[0], cfg, i);
      AbandonedForever(Step(s, more[0], cfg), more[1..], cfg, i);
    }
  }

  /** Once reconciliation times out a claimed run, no completion is ever recorded for it and
      it can only be settled as a timeout, charged in full. */
  lemma ClaimedTimeoutIsFinal(s: System, more: seq<Action>, cfg: Config, i: nat)
    requires Valid(s) && i < |s.world.runs| && Claimed(s.world.runs[i])
    requires Reconcile(s.world.runs[i], s.clock).1 == Some(TIMEOUT_REPORT)
    ensures var t := Execute(Step(s, On(i, Reconciling), cfg), more, cfg);
      && i < |t.world.runs|
      && t.world.runs[i].completions == []
      && (t.world.runs[i].settled ==>
            SettledBy(t.world.runs[i], TIMEOUT_REPORT) && Charge(t.world.runs[i]) == t.world.runs[i].reserved)
  {
    hide Reconcile, Execute;
    Lineage(s, On(i, Reconciling), cfg, i);
    ReconcileKeeps(s.world.runs[i], s.clock);
    var decided := Step(s, On(i, Reconciling), cfg);
    AbandonedForever(decided, more, cfg, i);
    Ancestry(decided, more, cfg, i);
  }

  /** An unclaimed, unsettled run can always be dispatched, claimed and reported on again. */
  lemma Redispatched(run: Run, now: int, cfg: Config)
    requires Inv(run) && !run.settled && !Claimed(run) && cfg.bootstrapTtl >= 1 && cfg.leaseTtl >= 1
    ensures var n := |run.leases|;
      var r1 := Transact(run, Dispatch(0, true), now, cfg).0;
      var r2 := Transact(r1, Claiming(0, 1, 0, cfg.identity, true), now, cfg).0;
      var r3 := Transact(r2, Failing(Request(n, n + 1, 0, now, cfg.identity, 1), true), now, cfg).0;
      r3.completions == [FAILURE_REPORT] && r3.settled == false
  {
    NextFence(run.leases);
    assert run.status == QUEUED || run.status == DISPATCHED;
    var r1 := Transact(run, Dispatch(0, true), now, cfg).0;
    TransactKeeps(run, Dispatch(0, true), now, cfg);
    assert |r1.leases| == |run.leases| + 1 && r1.leases[|run.leases|].token == 0 && Routed(r1.leases, 0) == Some(|run.leases|);
    var r2 := Transact(r1, Claiming(0, 1, 0, cfg.identity, true), now, cfg).0;
    TransactKeeps(r1, Claiming(0, 1, 0, cfg.identity, true), now, cfg);
    assert r2.status == RUNNING && |r2.leases| == |run.leases| + 1;
  }

  /** No completion is ever recorded for the run, however execution continues. */
  ghost predicate NeverCompleted(s: System, cfg: Config, i: nat) {
    forall more: seq<Action> :: var t := Execute(s, more, cfg); i < |t.world.runs| ==> t.world.runs[i].completions == []
  }

  /** A timeout decision rules out a later completion exactly when a worker had claimed the
      run. Otherwise the launcher can dispatch the run again before the timeout settles. */
  lemma TimeoutFinalExactlyWhenClaimed(s: System, cfg: Config, i: nat)
    requires Valid(s) && i < |s.world.runs| && cfg.bootstrapTtl >= 1 && cfg.leaseTtl >= 1
    requires Reconcile(s.world.runs[i], s.clock).1 == Some(TIMEOUT_REPORT)
    ensures NeverCompleted(Step(s, On(i, Reconciling), cfg), cfg, i) <==> Claimed(s.world.runs[i])
  {
    var decided := Step(s, On(i, Reconciling), cfg);
    if Claimed(s.world.runs[i]) {
      forall more: seq<Action> ensures i < |Execute(decided, more, cfg).world.runs|
                                       && Execute(decided, more, cfg).world.runs[i].completions == [] {
        ClaimedTimeoutIsFinal(s, more, cfg, i);
      }
    } else {
      UnclaimedTimeoutIsNotFinal(s, cfg, i);
    }
  }

  lemma UnclaimedTimeoutIsNotFinal(s: System, cfg: Config, i: nat)
    requires Valid(s) && i < |s.world.runs| && cfg.bootstrapTtl >= 1 && cfg.leaseTtl >= 1
    requires !Claimed(s.world.runs[i]) && Reconcile(s.world.runs[i], s.clock).1 == Some(TIMEOUT_REPORT)
    ensures !NeverCompleted(Step(s, On(i, Reconciling), cfg), cfg, i)
  {
    hide Inv, Valid, Transact, Reconcile, Claimed, Evolves, Progressed, Step, Execute, Decide;
    assert Inv(s.world.runs[i]) by {
      ValidRun(s, i);
    }
    DecisionIssues(s, i);
    var decided := Decide(s, i);
    var run := decided.world.runs[i];
    UnclaimedStays(s.world.runs[i], s.clock);
    Redispatched(run, decided.clock, cfg);
    var n := |run.leases|;
    ThreeTransactions(decided, cfg, i, Dispatch(0, true), Claiming(0, 1, 0, cfg.identity, true),
                      Failing(Request(n, n + 1, 0, decided.clock, cfg.identity, 1), true));
  }

  lemma ValidRun(s: System, i: nat)
    requires Valid(s) && i < |s.world.runs|
    ensures Inv(s.world.runs[i])
  {
  }

  lemma UnclaimedStays(run: Run, now: int)
    requires Inv(run) && !Claimed(run)
    ensures Inv(Reconcile(run, now).0) && !Claimed(Reconcile(run, now).0)
    ensures Reconcile(run, now).1.Some? ==> !Reconcile(run, now).0.settled
  {
    ReconcileKeeps(run, now);
  }

  lemma ThreeTransactions(s: System, cfg: Config, i: nat, a: RunAction, b: RunAction, c: RunAction)
    requires i < |s.world.runs|
    ensures var t := Execute(s, [On(i, a), On(i, b), On(i, c)], cfg);
      var r1 := Transact(s.world.runs[i], a, s.clock, cfg).0;
      var r2 := Transact(r1, b, s.clock, cfg).0;
      i < |t.world.runs| && t.world.runs[i] == Transact(r2, c, s.clock, cfg).0
  {
    ExecuteAppend(s, [], On(i, a), cfg);
    ExecuteAppend(s, [On(i, a)], On(i, b), cfg);
    ExecuteAppend(s, [On(i, a), On(i, b)], On(i, c), cfg);
    assert [] + [On(i, a)] == [On(i, a)];
    assert [On(i, a)] + [On(i, b)] == [On(i, a), On(i, b)];
    assert [On(i, a), On(i, b)] + [On(i, c)] == [On(i, a), On(i, b), On(i, c)];
  }

  // ---- Progress ----------------------------------------------------------------------------

  /** One route of a reconciliation pass. Other processes may do anything `before` it is
      reached and `between` its two transactions; a locked row is skipped. */
  datatype Visit = Visit(run: nat, before: seq<Action>, locked: bool, between: seq<Action>, finality: Finality)

  function VisitRoute(s: System, v: Visit, cfg: Config): System {
    var reached := Execute(s, v.before, cfg);
    if v.locked || v.run >= |reached.world.runs| then reached
    else
      var decided := Decide(reached, v.run);
      var report := Reconcile(reached.world.runs[v.run], reached.clock).1;
      if report.None? then decided
      else Step(Execute(decided, v.between, cfg), Finishing(Call(v.run, report.value), v.finality), cfg)
  }

  /** The first transaction of a route. */
  function Decide(s: System, i: nat): System
    requires i < |s.world.runs|
  {
    var (run, report) := Reconcile(s.world.runs[i], s.clock);
    s.(world := s.world.(runs := s.world.runs[i := run]),
       calls := if report.Some? then s.calls + {Call(i, report.value)} else s.calls)
  }

  function Pass(s: System, visits: seq<Visit>, cfg: Config): System
    decreases |visits|
  {
    if visits == [] then s else Pass(VisitRoute(s, visits[0], cfg), visits[1..], cfg)
  }

  /** The visit finds an unlocked run that is past its deadline. */
  ghost predicate Overdue(s: System, v: Visit) {
    !v.locked && v.run < |s.world.runs| && PastDeadline(s.world.runs[v.run], s.clock)
  }

  /** It is one of the system's steps, and issues the settlement it decided. */
  lemma DecisionIssues(s: System, i: nat)
    requires Valid(s) && i < |s.world.runs|
    ensures forall cfg: Config :: Step(s, On(i, Reconciling), cfg) == Decide(s, i)
    ensures var t := Decide(s, i); var (run, report) := Reconcile(s.world.runs[i], s.clock);
      && Valid(t) && Progressed(s, t) && t.clock == s.clock
      && |t.world.runs| == |s.world.runs| && t.world.runs[i] == run
      && (report.Some? ==> Call(i, report.value) in t.calls)
  {
    hide Reconcile, Keeps, Evolves, Step, Valid, Progressed;
    assert Inv(s.world.runs[i]) by {
      ValidRun(s, i);
    }
    var (run, report) := Reconcile(s.world.runs[i], s.clock);
    ReconcileKeeps(s.world.runs[i], s.clock);
    HandledKeeps(s, i, run, report);
    forall cfg: Config ensures Step(s, On(i, Reconciling), cfg) == Decide(s, i) {
      ReconcilingDecides(s, i, cfg);
    }
  }

  lemma ReconcilingDecides(s: System, i: nat, cfg: Config)
    requires i < |s.world.runs|
    ensures Step(s, On(i, Reconciling), cfg) == Decide(s, i)
  {
  }

  lemma VisitKeeps(s: System, v: Visit, cfg: Config)
    requires Valid(s)
    ensures Valid(VisitRoute(s, v, cfg)) && Progressed(s, VisitRoute(s, v, cfg))
  {
    var reached := Execute(s, v.before, cfg);
    ExecuteKeeps(s, v.before, cfg);
    if !v.locked && v.run < |reached.world.runs| {
      DecideAndSettle(reached, v, cfg);
      ProgressedTransitively(s, reached, VisitRoute(s, v, cfg));
    }
  }

  /** The two transactions of one reached route. */
  lemma DecideAndSettle(reached: System, v: Visit, cfg: Config)
    requires Valid(reached) && !v.locked && v.run < |reached.world.runs|
    ensures var t := VisitRoute(reached, v.(before := []), cfg);
      && Valid(t) && Progressed(reached, t) && v.run < |t.world.runs|
      && (Reconcile(reached.world.runs[v.run], reached.clock).1.Some? ==> t.world.runs[v.run].settled)
  {
    hide Reconcile, Valid, Progressed, Decide;
    var decided := Decide(reached, v.run);
    DecisionIssues(reached, v.run);
    var report := Reconcile(reached.world.runs[v.run], reached.clock).1;
    if report.Some? {
      SettleLater(decided, v, report.value, cfg);
      ProgressedTransitively(reached, decided, VisitRoute(reached, v.(before := []), cfg));
    }
  }

  lemma SettleLater(decided: System, v: Visit, report: Report, cfg: Config)
    requires Valid(decided) && v.run < |decided.world.runs| && Call(v.run, report) in decided.calls
    ensures var t := Step(Execute(decided, v.between, cfg), Finishing(Call(v.run, report), v.finality), cfg);
      Valid(t) && Progressed(decided, t) && v.run < |t.world.runs| && t.world.runs[v.run].settled
  {
    var later := Execute(decided, v.between, cfg);
    ExecuteKeeps(decided, v.between, cfg);
    FinishingKeeps(later, Call(v.run, report), v.finality, cfg);
    ProgressedTransitively(decided, later, Step(later, Finishing(Call(v.run, report), v.finality), cfg));
  }

  lemma VisitSettles(s: System, v: Visit, cfg: Config)
    requires Valid(s) && Overdue(s, v)
    ensures v.run < |VisitRoute(s, v, cfg).world.runs| && VisitRoute(s, v, cfg).world.runs[v.run].settled
  {
    hide Reconcile, Valid, Inv, Decide, Step, PastDeadline, Progressed, Claimed;
    var reached := Execute(s, v.before, cfg);
    Ancestry(s, v.before, cfg, v.run);
    OverdueLater(s, reached, v);
    DecideAndSettle(reached, v, cfg);
    if reached.world.runs[v.run].settled {
      VisitKeeps(reached, v.(before := []), cfg);
      SettledStays(reached, VisitRoute(reached, v.(before := []), cfg), v.run);
    } else {
      OverdueIsDecided(reached.world.runs[v.run], reached.clock);
    }
  }

  lemma OverdueLater(s: System, t: System, v: Visit)
    requires Overdue(s, v) && Progressed(s, t)
    ensures v.run < |t.world.runs| && PastDeadline(t.world.runs[v.run], t.clock)
  {
    assert Evolves(s.world.runs[v.run], t.world.runs[v.run]);
  }

  lemma OverdueIsDecided(run: Run, now: int)
    requires PastDeadline(run, now) && !run.settled
    ensures Reconcile(run, now).1.Some?
  {
  }

  /** One reconciliation pass twenty minutes after creation settles every run it reaches and
      can lock, whatever other processes do meanwhile. */
  lemma {:induction false} PassSettlesOverdueRuns(s: System, visits: seq<Visit>, cfg: Config)
    requires Valid(s)
    ensures Valid(Pass(s, visits, cfg)) && Progressed(s, Pass(s, visits, cfg))
    ensures forall k :: 0 <= k < |visits| && Overdue(s, visits[k]) ==> Pass(s, visits, cfg).world.runs[visits[k].run].settled
    decreases |visits|
  {
    if visits != [] {
      var t := VisitRoute(s, visits[0], cfg);
      VisitKeeps(s, visits[0], cfg);
      PassSettlesOverdueRuns(t, visits[1..], cfg);
      ProgressedTransitively(s, t, Pass(t, visits[1..], cfg));
      forall k | 0 <= k < |visits| && Overdue(s, visits[k])
        ensures Pass(t, visits[1..], cfg).world.runs[visits[k].run].settled
      {
        if k == 0 {
          VisitSettles(s, visits[0], cfg);
          SettledStays(t, Pass(t, visits[1..], cfg), visits[0].run);
        } else {
          StillOverdue(s, t, visits[k]);
          assert visits[1..][k - 1] == visits[k];
        }
      }
    }
  }

  lemma SettledStays(s: System, t: System, i: nat)
    requires Progressed(s, t) && i < |s.world.runs| && s.world.runs[i].settled
    ensures t.world.runs[i].settled
  {
    assert Evolves(s.world.runs[i], t.world.runs[i]);
  }

  lemma StillOverdue(s: System, t: System, v: Visit)
    requires Progressed(s, t) && Overdue(s, v)
    ensures Overdue(t, v)
  {
    assert Evolves(s.world.runs[v.run], t.world.runs[v.run]);
  }

  /** After the deadline a pass never retries a run; before it, exactly an unclaimed one, queued or
      dispatched, whose newest of at most two leases expired. A retry revokes that lease, queues
      the run and opens its route; only a dispatched run changes status by it. */
  lemma RequeueExactlyWhen(run: Run, now: int)
    requires Inv(run)
    ensures Retries(run, now) <==>
      && (run.status == QUEUED || run.status == DISPATCHED) && !PastDeadline(run, now)
      && 0 < |run.leases| < MAX_LEASES && run.leases[|run.leases| - 1].bootstrapExpires <= now
    ensures Retries(run, now) ==>
      var (r, report) := Reconcile(run, now); var n := |run.leases|;
      && report.None? && r.status == QUEUED && r.route == PENDING
      && r.leases == run.leases[n - 1 := run.leases[n - 1].(revoked := true)]
      && r == run.(status := r.status, route := r.route, leases := r.leases)
    ensures (run.status != QUEUED && Reconcile(run, now).0.status == QUEUED) <==> run.status == DISPATCHED && Retries(run, now)
  {
    if !run.settled && 0 < |run.leases| && run.leases[|run.leases| - 1].claim.None? {
      assert !Claimed(run) && run.status != RUNNING;
    }
  }
}
