/** When each transaction on a run is accepted, and exactly what it leaves.

    Models the transactions of `broker.py`, the decision of `reconcile_runs` of `maintenance.py`
    and the release action of `finish_run` of `api.py` on any run that the protocol can reach.
    On such a run only the newest lease matters, so every answer is given in its terms. */
module RunAnswers {
  import opened Common
  import opened Runs
  import Captures

  function Newest(run: Run): Lease
    requires run.leases != []
  {
    run.leases[|run.leases| - 1]
  }

  /** The run with its newest lease replaced. */
  function WithNewest(run: Run, lease: Lease): Run
    requires run.leases != []
  {
    run.(leases := run.leases[..|run.leases| - 1] + [lease])
  }

  lemma NewestReplaced(run: Run, lease: Lease)
    requires run.leases != []
    ensures run.leases[|run.leases| - 1 := lease] == run.leases[..|run.leases| - 1] + [lease]
  {
  }

  // ---- Dispatch and claim ----------------------------------------------------------------------------

  /** A run that nobody has claimed can be dispatched, again and again: every dispatch leaves one
      live lease, with the next fence and a fresh bootstrap window. */
  lemma DispatchExactlyWhen(run: Run, token: nat, now: int, authorized: bool, cfg: Config)
    requires Inv(run)
    ensures var r := PrepareDispatch(run, token, now, authorized, cfg);
      if run.settled || run.status == RUNNING then r == Rejected(409)
      else if !authorized then r == Rejected(403)
      else
        && r.Ok? && |r.value.leases| == |run.leases| + 1
        && (forall k :: 0 <= k < |run.leases| ==> r.value.leases[k] == run.leases[k].(revoked := true))
        && Newest(r.value) ==
             Lease(|run.leases| + 1, token, now + cfg.bootstrapTtl, run.spec.digest, cfg.identity, false, None)
        && r.value == run.(leases := r.value.leases, status := DISPATCHED)
  {
    NextFence(run.leases);
  }

  lemma RoutedToNewest(leases: seq<Lease>, token: nat)
    requires leases != []
    ensures Routed(leases, token) == Some(|leases| - 1) <==> leases[|leases| - 1].token == token
    ensures Routed(leases, token).Some? ==> Routed(leases, token).value < |leases|
  {
  }

  /** A claim redeems the newest lease once, inside its bootstrap window, for the run it was made
      for; the same worker may repeat it while the lease lives. Nothing else is accepted. */
  lemma ClaimExactlyWhen(run: Run, token: nat, worker: nat, nonce: nat, now: int, identity: nat, authorized: bool, cfg: Config)
    requires Inv(run)
    ensures var r := ClaimLease(run, token, worker, nonce, now, identity, authorized, cfg);
      var routed := run.leases != [] && Newest(run).token == token && !Newest(run).revoked
                    && Newest(run).identity == identity && !run.settled;
      r.Ok? <==>
        routed && (if Newest(run).claim.Some?
                   then run.status == RUNNING && Newest(run).claim.value.worker == worker
                        && Newest(run).claim.value.nonce == nonce && now < Newest(run).claim.value.expires
                   else run.status == DISPATCHED && now < Newest(run).bootstrapExpires && authorized
                        && Newest(run).specDigest == run.spec.digest)
    ensures var r := ClaimLease(run, token, worker, nonce, now, identity, authorized, cfg);
      r.Rejected? ==>
        r.code ==
          if run.leases != [] && Newest(run).token == token && !Newest(run).revoked && Newest(run).identity == identity
             && (run.status == DISPATCHED || run.status == RUNNING)
             && (Newest(run).claim.Some? || (now < Newest(run).bootstrapExpires && authorized))
          then 409 else 403
    ensures var r := ClaimLease(run, token, worker, nonce, now, identity, authorized, cfg);
      r.Ok? ==>
        r.value.1 == |run.leases|
        && r.value.0 == if Newest(run).claim.Some? then run
                        else WithNewest(run, Newest(run).(claim := Some(Claim(now, now + cfg.leaseTtl, worker, nonce))))
                             .(status := RUNNING)
  {
    if run.leases != [] {
      RoutedToNewest(run.leases, token);
    }
  }

  // ---- Worker requests -------------------------------------------------------------------------------

  /** The request speaks for the live claim of a run in progress: its lease, fence and identity, signed
      by its claimant within thirty seconds, under a nonce not used before. */
  predicate Speaks(run: Run, req: Request, now: int) {
    && run.leases != [] && run.status == RUNNING && req.lease == |run.leases| - 1 && req.fence == |run.leases|
    && !Newest(run).revoked && Newest(run).specDigest == run.spec.digest && Newest(run).identity == req.identity
    && Newest(run).claim.Some? && now < Newest(run).claim.value.expires && Newest(run).claim.value.worker == req.signer
    && req.timestamp - 30 <= now <= req.timestamp + 30 && (req.lease, req.nonce) !in run.nonces
  }

  /** A worker request is accepted exactly when it speaks for the claim of a target that is still
      authorized. A request that only another key signed is answered 401, one that only repeats a
      nonce 409, and any other refusal is 403. */
  lemma AcceptedExactlyWhen(run: Run, req: Request, now: int, authorized: bool)
    requires Inv(run)
    ensures Authorize(run, req, now, authorized) == 200 <==> Speaks(run, req, now) && authorized
    ensures Authorize(run, req, now, authorized) == 401 <==>
      Authorize(run, req, now, authorized) != 200 && run.leases != [] && Newest(run).claim.Some?
      && Newest(run).claim.value.worker != req.signer
      && Speaks(run.(nonces := {}), req.(signer := Newest(run).claim.value.worker), now)
    ensures Authorize(run, req, now, authorized) == 409 <==>
      (req.lease, req.nonce) in run.nonces && Speaks(run.(nonces := {}), req, now)
    ensures Authorize(run, req, now, authorized) in {200, 401, 403, 409}
  {
  }

  lemma SpeaksForClaim(run: Run, req: Request, now: int)
    requires Inv(run) && Speaks(run, req, now)
    ensures !run.settled && run.completions == [] && run.leases[req.lease] == Newest(run)
  {
  }

  /** A renewal makes the lease last one lifetime from now, if the log has room for one more capture
      and the claim is at most fifteen minutes old; nothing else of the lease changes. */
  lemma RenewExactlyWhen(run: Run, req: Request, now: int, authorized: bool, cfg: Config)
    requires Inv(run)
    ensures var r := Renew(run, req, now, authorized, cfg);
      && (r.Ok? <==>
            && Speaks(run, req, now) && authorized
            && Captures.CapturedBytes(run.captures) <= 14 * 1024 * 1024
            && now <= Newest(run).claim.value.at + 15 * 60)
      && (r.Ok? ==>
            var claim := Newest(run).claim.value;
            r.value == WithNewest(run, Newest(run).(claim := Some(claim.(expires := now + cfg.leaseTtl))))
                       .(nonces := run.nonces + {(req.lease, req.nonce)}))
      && (Speaks(run, req, now) && authorized && Captures.CapturedBytes(run.captures) > 14 * 1024 * 1024 ==> r == Rejected(413))
      && (Speaks(run, req, now) && authorized && Captures.CapturedBytes(run.captures) <= 14 * 1024 * 1024 && r.Rejected? ==>
            r == Rejected(403))
  {
    AcceptedExactlyWhen(run, req, now, authorized);
    hide Authorize, Inv;
    if Speaks(run, req, now) {
      assert run.leases[req.lease] == Newest(run);
    }
  }

  /** A reading of the assignment or its credentials spends its nonce and changes nothing else. */
  lemma ReadExactlyWhen(run: Run, req: Request, now: int, authorized: bool)
    requires Inv(run)
    ensures var r := ReadAssignment(run, req, now, authorized);
      && (r.Ok? <==> Speaks(run, req, now) && authorized)
      && (r.Ok? ==> r.value == run.(nonces := run.nonces + {(req.lease, req.nonce)}))
  {
    AcceptedExactlyWhen(run, req, now, authorized);
    hide Authorize, Inv, Speaks;
  }

  /** An observation is taken for an active run only, on the log's own terms. */
  lemma ObserveExactlyWhen(run: Run, req: Request, now: int, authorized: bool, item: Captures.Item, cfg: Config)
    requires Inv(run)
    ensures var r := Observe(run, req, now, authorized, item, cfg);
      var kept := Captures.Persist(run.spec.plan, run.spec.id, run.captures, item, now, cfg.evaluate);
      && (r.Ok? <==> Speaks(run, req, now) && authorized && run.spec.adapter == Active && kept.Ok?)
      && (r.Ok? ==> r.value == run.(nonces := run.nonces + {(req.lease, req.nonce)}, captures := kept.value.0))
      && (Speaks(run, req, now) && authorized && r.Rejected? ==>
            r.code == if run.spec.adapter == Active then kept.code else 422)
  {
    AcceptedExactlyWhen(run, req, now, authorized);
    hide Authorize, Inv, Speaks, Captures.Persist;
  }

  /** What the worker of this run may hand in: nothing for an active run, whose log must be full, and
      nothing for a trace, which has been evaluated; a fixture must have been. */
  predicate Ready(run: Run, payloadEmpty: bool, fixture: Option<Report>) {
    match run.spec.adapter
    case Active => payloadEmpty && |run.captures| == run.spec.plan.trials * run.spec.plan.variants
    case StructuredTrace => payloadEmpty && fixture.Some?
    case SyntheticFixture => fixture.Some?
  }

  /** The result of a full log: its worst verdict and outcome, PASS only if the plan asks for no
      recorded sample. */
  ghost predicate Sums(run: Run, report: Report) {
    && report.execution == COMPLETED
    && (report.verdict == Captures.FAIL <==> exists c :: c in run.captures && c.evaluation.verdict == Captures.FAIL)
    && (report.verdict == Captures.PASS <==>
          !run.spec.plan.recorded && forall c :: c in run.captures ==> c.evaluation.verdict == Captures.PASS)
    && (report.task == Captures.SUCCESS <==> forall c :: c in run.captures ==> c.evaluation.task == Captures.SUCCESS)
    && (report.task == Captures.FAILURE <==> exists c :: c in run.captures && c.evaluation.task == Captures.FAILURE)
  }

  /** A completion is taken exactly when it is complete; it consumes the lease and the nonce and records
      one result: the log's own for an active run, the assigned evaluation otherwise. */
  lemma CompleteExactlyWhen(run: Run, req: Request, now: int, authorized: bool, payloadEmpty: bool, fixture: Option<Report>,
                            cfg: Config)
    requires Inv(run) && Captures.EvaluatedBy(run.captures, cfg.evaluate)
    requires run.spec.plan.trials >= 1 && run.spec.plan.variants >= 1
    ensures var r := Complete(run, req, now, authorized, payloadEmpty, fixture, cfg);
      && (r.Ok? <==> Speaks(run, req, now) && authorized && Ready(run, payloadEmpty, fixture))
      && (r.Ok? ==> r.value.0 == Recorded(run, req, r.value.1))
      && (r.Ok? && run.spec.adapter == Active ==> Sums(run, r.value.1))
      && (r.Ok? && run.spec.adapter != Active ==> r.value.1 == fixture.value.(execution := COMPLETED))
      && (Speaks(run, req, now) && authorized && r.Rejected? ==> r.code == 422)
  {
    AcceptedExactlyWhen(run, req, now, authorized);
    if Speaks(run, req, now) {
      SpeaksForClaim(run, req, now);
      NewestReplaced(run, Newest(run).(revoked := true));
    }
    if run.spec.adapter == Active {
      FullLogSums(run, payloadEmpty, fixture, cfg);
    }
    hide Authorize, Inv, Captures.EvaluatePersisted, Captures.EvaluatedBy, Sums;
  }

  /** The run after a result was recorded: its newest lease consumed, the nonce spent. */
  function Recorded(run: Run, req: Request, report: Report): Run
    requires run.leases != []
  {
    WithNewest(run, Newest(run).(revoked := true))
      .(nonces := run.nonces + {(req.lease, req.nonce)}, completions := run.completions + [report])
  }

  lemma FullLogSums(run: Run, payloadEmpty: bool, fixture: Option<Report>, cfg: Config)
    requires Inv(run) && Captures.EvaluatedBy(run.captures, cfg.evaluate) && run.spec.adapter == Active
    requires run.spec.plan.trials >= 1 && run.spec.plan.variants >= 1
    ensures var r := Evaluated(run, payloadEmpty, fixture, cfg);
      && (r.Ok? <==> Ready(run, payloadEmpty, fixture)) && (r.Ok? ==> Sums(run, r.value)) && (r.Rejected? ==> r.code == 422)
  {
    var acquired := Captures.EvaluatePersisted(run.spec.plan, run.captures, cfg.evaluate, cfg.attest);
    Product(run.spec.plan.trials, run.spec.plan.variants);
    Captures.PersistedVerdict(run.spec.plan, run.spec.id, run.captures, cfg.evaluate, cfg.attest);
    hide *;
    EvaluatedIs(run, payloadEmpty, fixture, cfg);
    if payloadEmpty && acquired.Ok? {
      SumsIs(run, Report(acquired.value.verdict, acquired.value.task, COMPLETED, acquired.value.candidateObserved));
    }
    ReadyIs(run, payloadEmpty, fixture);
  }

  lemma Product(x: nat, y: nat)
    requires x >= 1 && y >= 1
    ensures x * y >= 1
  {
  }

  lemma EvaluatedIs(run: Run, payloadEmpty: bool, fixture: Option<Report>, cfg: Config)
    requires run.spec.adapter == Active
    ensures var acquired := Captures.EvaluatePersisted(run.spec.plan, run.captures, cfg.evaluate, cfg.attest);
      Evaluated(run, payloadEmpty, fixture, cfg) ==
        if !payloadEmpty then Rejected(422)
        else if acquired.Rejected? then Rejected(acquired.code)
        else Ok(Report(acquired.value.verdict, acquired.value.task, COMPLETED, acquired.value.candidateObserved))
  {
    hide Captures.EvaluatePersisted;
  }

  lemma ReadyIs(run: Run, payloadEmpty: bool, fixture: Option<Report>)
    requires run.spec.adapter == Active
    ensures Ready(run, payloadEmpty, fixture) <==>
      payloadEmpty && |run.captures| == run.spec.plan.trials * run.spec.plan.variants
  {
  }

  lemma SumsIs(run: Run, report: Report)
    requires report.execution == COMPLETED
    requires report.verdict == Captures.FAIL <==> exists c :: c in run.captures && c.evaluation.verdict == Captures.FAIL
    requires report.verdict == Captures.PASS <==>
      !run.spec.plan.recorded && forall c :: c in run.captures ==> c.evaluation.verdict == Captures.PASS
    requires report.task == Captures.SUCCESS <==>
      run.captures != [] && forall c :: c in run.captures ==> c.evaluation.task == Captures.SUCCESS
    requires report.task == Captures.FAILURE <==> exists c :: c in run.captures && c.evaluation.task == Captures.FAILURE
    requires run.captures != []
    ensures Sums(run, report)
  {
  }

  /** A worker's failure report is recorded like a completion, as an inconclusive error. */
  lemma FailExactlyWhen(run: Run, req: Request, now: int, authorized: bool)
    requires Inv(run)
    ensures var r := Fail(run, req, now, authorized);
      && (r.Ok? <==> Speaks(run, req, now) && authorized)
      && (r.Ok? ==>
            && r.value.1 == Report(Captures.INCONCLUSIVE, Captures.UNKNOWN, ERROR, false)
            && r.value.0 == Recorded(run, req, r.value.1))
  {
    AcceptedExactlyWhen(run, req, now, authorized);
    if Speaks(run, req, now) {
      SpeaksForClaim(run, req, now);
      NewestReplaced(run, Newest(run).(revoked := true));
    }
    hide Authorize, Inv, Speaks;
  }

  // ---- Reconciliation --------------------------------------------------------------------------------

  /** Twenty minutes after its creation a run is late, whoever works on it. */
  predicate Overdue(run: Run, now: int) { run.spec.createdAt + 20 * 60 <= now }

  /** The newest lease was never redeemed, and can no longer be. */
  predicate Unredeemed(run: Run, now: int) {
    run.leases != [] && Newest(run).claim.None? && Newest(run).bootstrapExpires <= now
  }

  /** A worker claimed the run, and its lease ran out. */
  predicate Abandoned(run: Run, now: int) {
    run.leases != [] && Newest(run).claim.Some? && Newest(run).claim.value.expires <= now
  }

  /** What reconciliation decides about a run without a result. It times out exactly when the run is
      late, its worker's lease ran out, or three leases ran out unredeemed; then every lease is revoked
      and nothing else changes. Before that an unredeemed lease sends the run back to the queue. In
      particular a run whose worker still holds its lease is left alone. */
  lemma ReconcileExactlyWhen(run: Run, now: int)
    requires Inv(run) && !run.settled && run.completions == []
    ensures var (r, report) := Reconcile(run, now);
      var timedOut := Overdue(run, now) || Abandoned(run, now) || (Unredeemed(run, now) && |run.leases| >= 3);
      && (report.Some? <==> timedOut)
      && (timedOut ==>
            && report.value == Report(Captures.INCONCLUSIVE, Captures.UNKNOWN, TIMEOUT, false)
            && |r.leases| == |run.leases|
            && (forall k :: 0 <= k < |r.leases| ==> r.leases[k] == run.leases[k].(revoked := true))
            && r == run.(leases := r.leases))
      && (!timedOut && Unredeemed(run, now) ==>
            r == WithNewest(run, Newest(run).(revoked := true)).(status := QUEUED, route := PENDING))
      && (!timedOut && !Unredeemed(run, now) ==> r == run)
  {
    if run.leases != [] {
      NewestReplaced(run, Newest(run).(revoked := true));
    }
    hide Inv;
  }

  /** A run with a recorded result is settled with that result; a settled run only closes its route. */
  lemma ReconcileRecovers(run: Run, now: int)
    requires Inv(run) && (run.settled || run.completions != [])
    ensures Reconcile(run, now) ==
      if run.settled then (run.(route := SETTLED), None) else (run, Some(run.completions[0]))
  {
  }

  // ---- Settlement ------------------------------------------------------------------------------------

  /** A FAIL was reported, or captured at any time. */
  predicate Failed(run: Run, report: Report) { report.verdict == Captures.FAIL || FailureCaptured(run) }

  /** The run may count as a fix: it passed with its task done, currently authorized, with no adverse
      memory, as no qualification case, and on the candidate if someone observes it. */
  predicate Fixes(run: Run, report: Report, f: Finality) {
    && !Failed(run, report) && report.verdict == Captures.PASS && report.task == Captures.SUCCESS
    && report.execution == COMPLETED && f.authorized && !f.blocked && !run.spec.qualification
    && (run.spec.hasObserver ==> report.candidateObserved)
  }

  /** The settlement a run merits: ALLOW for a fix that is comparable where a baseline asks for it; else
      BLOCK after a failure, with adverse memory, without authorization or under a BLOCK policy; else
      WARN. A run that anyone started, or that completed, pays its whole reservation. */
  predicate Merits(run: Run, report: Report, f: Finality, r: Settlement) {
    && r.report == report && r.authorized == f.authorized && r.blocked == f.blocked
    && r.verdict == (if Failed(run, report) then Captures.FAIL else report.verdict)
    && (r.fixEligible <==> Fixes(run, report, f))
    && (r.action == ALLOW <==> Fixes(run, report, f) && (run.spec.hasBaseline ==> f.compatible))
    && (r.action == BLOCK <==>
          r.action != ALLOW && (Failed(run, report) || f.blocked || !f.authorized || run.spec.blockPolicy))
  }

  lemma SettleIsMerited(run: Run, report: Report, f: Finality)
    ensures Merits(run, report, f, Settle(run, report, f))
  {
  }
}
