/** One run of the execution broker: the effect of each database transaction on it.

    Models the transactions of `broker.py`, `maintenance.py` and `api.py` that touch one
    run. Every function is one transaction under the row lock; a rejected transaction rolls
    back, so it returns no new run. Foreign answers (target authorization, adverse memory,
    fixture evaluation) are inputs. A request's signature is represented by the worker key
    that produced it, a bootstrap token by itself. */
module Runs {
  import opened Common
  import Captures

  datatype Adapter = SyntheticFixture | StructuredTrace | Active
  datatype Execution = COMPLETED | ERROR | TIMEOUT
  datatype Status = QUEUED | DISPATCHED | RUNNING | ENDED(execution: Execution)
  datatype Route = PENDING | DELIVERED | SETTLED
  datatype Release = ALLOW | WARN | BLOCK

  /** Deployment settings and the evaluator the control plane runs. */
  datatype Config = Config(
    bootstrapTtl: nat, leaseTtl: nat, identity: nat, evaluate: Captures.Evaluator, attest: Captures.Attestor)

  /** The frozen `run` record. */
  datatype Spec = Spec(
    id: nat, createdAt: int, digest: nat, idempotencyKey: nat, plan: Captures.Plan, adapter: Adapter,
    blockPolicy: bool, hasBaseline: bool, qualification: bool, hasObserver: bool)

  datatype Claim = Claim(at: int, expires: int, worker: nat, nonce: nat)
  datatype Lease = Lease(
    fence: nat, token: nat, bootstrapExpires: int, specDigest: nat, identity: nat, revoked: bool, claim: Option<Claim>)

  /** The result handed to `finish_run`. */
  datatype Report = Report(
    verdict: Captures.Verdict, task: Captures.Task, execution: Execution, candidateObserved: bool)

  const TIMEOUT_REPORT := Report(Captures.INCONCLUSIVE, Captures.UNKNOWN, TIMEOUT, false)
  const FAILURE_REPORT := Report(Captures.INCONCLUSIVE, Captures.UNKNOWN, ERROR, false)
  const MAX_RUN_SECONDS := 900
  const DEADLINE_SECONDS := 20 * 60
  const MAX_LEASES := 3

  /** The `result` record and the charge made when a run is settled. */
  datatype Settlement = Settlement(
    report: Report, verdict: Captures.Verdict, authorized: bool, blocked: bool, fixEligible: bool, action: Release, units: nat)

  datatype Run = Run(
    spec: Spec, reserved: nat, status: Status, settled: bool, result: Option<Settlement>, leases: seq<Lease>,
    nonces: set<(nat, nat)>, completions: seq<Report>, captures: seq<Captures.Capture>, route: Route)

  /** A signed worker request; `signer` is the key whose signature verifies on it. */
  datatype Request = Request(lease: nat, fence: nat, nonce: nat, timestamp: int, identity: nat, signer: nat)

  function NewRun(spec: Spec, reserved: nat): Run {
    Run(spec, reserved, QUEUED, false, None, [], {}, [], [], PENDING)
  }

  // ---- Leases --------------------------------------------------------------------

  function Revoked(leases: seq<Lease>): (r: seq<Lease>)
    ensures |r| == |leases| && forall i :: 0 <= i < |r| ==> r[i] == leases[i].(revoked := true)
  {
    seq(|leases|, i requires 0 <= i < |leases| => leases[i].(revoked := true))
  }

  function MaxFence(leases: seq<Lease>): nat {
    if leases == [] then 0
    else
      var rest := MaxFence(leases[..|leases| - 1]);
      if leases[|leases| - 1].fence > rest then leases[|leases| - 1].fence else rest
  }

  /** `prepare_dispatch`: revoke every earlier lease and mint the next fence. */
  function PrepareDispatch(run: Run, token: nat, now: int, authorized: bool, cfg: Config): Outcome<Run> {
    if run.status != QUEUED && run.status != DISPATCHED then Rejected(409)
    else if !authorized then Rejected(403)
    else
      var lease := Lease(MaxFence(run.leases) + 1, token, now + cfg.bootstrapTtl, run.spec.digest, cfg.identity, false, None);
      Ok(run.(leases := Revoked(run.leases) + [lease], status := DISPATCHED))
  }

  /** The position of the lease a bootstrap token routes to. */
  function Routed(leases: seq<Lease>, token: nat): (r: Option<nat>)
    ensures r.Some? ==> r.value < |leases| && leases[r.value].token == token
    ensures r.None? ==> forall i :: 0 <= i < |leases| ==> leases[i].token != token
  {
    if leases == [] then None
    else if leases[|leases| - 1].token == token then Some(|leases| - 1)
    else Routed(leases[..|leases| - 1], token)
  }

  /** `claim`: redeem a bootstrap token once, or repeat the same redemption. */
  function ClaimLease(run: Run, token: nat, worker: nat, nonce: nat, now: int, identity: nat, authorized: bool, cfg: Config)
    : Outcome<(Run, nat)>
  {
    var route := Routed(run.leases, token);
    if route.None? then Rejected(403)
    else
      var lease := run.leases[route.value];
      if run.settled || (run.status != DISPATCHED && run.status != RUNNING) then Rejected(403)
      else if lease.revoked || lease.identity != identity then Rejected(403)
      else if lease.claim.Some? then
        if lease.claim.value.worker != worker || lease.claim.value.nonce != nonce || lease.claim.value.expires <= now
        then Rejected(409) else Ok((run, lease.fence))
      else if lease.bootstrapExpires <= now || !authorized then Rejected(403)
      else if run.status != DISPATCHED || run.spec.digest != lease.specDigest then Rejected(409)
      else
        var claimed := lease.(claim := Some(Claim(now, now + cfg.leaseTtl, worker, nonce)));
        Ok((run.(leases := run.leases[route.value := claimed], status := RUNNING), lease.fence))
  }

  // ---- Worker requests -------------------------------------------------------------

  /** `authorize`: 200 when a worker request is accepted, otherwise the refusal. */
  function Authorize(run: Run, req: Request, now: int, authorized: bool): (code: int)
    ensures code == 200 ==> req.lease < |run.leases|
  {
    if req.lease >= |run.leases| then 403
    else
      var lease := run.leases[req.lease];
      if run.status != RUNNING || run.settled || run.spec.digest != lease.specDigest then 403
      else if lease.revoked || lease.claim.None? || lease.claim.value.expires <= now || lease.fence != req.fence
              || lease.identity != req.identity || now - req.timestamp > 30 || req.timestamp - now > 30 then 403
      else if lease.claim.value.worker != req.signer then 401
      else if (req.lease, req.nonce) in run.nonces then 409
      else if !authorized then 403
      else 200
  }

  /** The nonce an accepted request spends. */
  function Spend(run: Run, req: Request): Run {
    run.(nonces := run.nonces + {(req.lease, req.nonce)})
  }

  /** `spec` and `credential`: read-only beyond the nonce. */
  function ReadAssignment(run: Run, req: Request, now: int, authorized: bool): Outcome<Run> {
    var code := Authorize(run, req, now, authorized);
    if code != 200 then Rejected(code) else Ok(Spend(run, req))
  }

  function Renew(run: Run, req: Request, now: int, authorized: bool, cfg: Config): Outcome<Run> {
    var code := Authorize(run, req, now, authorized);
    if code != 200 then Rejected(code)
    else if !Captures.HasCapacity(run.captures) then Rejected(413)
    else
      var lease := run.leases[req.lease];
      if now - lease.claim.value.at > MAX_RUN_SECONDS then Rejected(403)
      else
        var renewed := lease.(claim := Some(lease.claim.value.(expires := now + cfg.leaseTtl)));
        Ok(Spend(run, req).(leases := run.leases[req.lease := renewed]))
  }

  function Observe(run: Run, req: Request, now: int, authorized: bool, item: Captures.Item, cfg: Config): Outcome<Run> {
    var code := Authorize(run, req, now, authorized);
    if code != 200 then Rejected(code)
    else if run.spec.adapter != Active then Rejected(422)
    else
      var kept := Captures.Persist(run.spec.plan, run.spec.id, run.captures, item, now, cfg.evaluate);
      if kept.Rejected? then Rejected(kept.code) else Ok(Spend(run, req).(captures := kept.value.0))
  }

  /** What a completion evaluates to: durable captures for an active run, otherwise `fixture`,
      the foreign evaluation of the assigned observations (`None` when it is refused). */
  function Evaluated(run: Run, payloadEmpty: bool, fixture: Option<Report>, cfg: Config): Outcome<Report> {
    if run.spec.adapter == Active then
      if !payloadEmpty then Rejected(422)
      else
        var acquired := Captures.EvaluatePersisted(run.spec.plan, run.captures, cfg.evaluate, cfg.attest);
        if acquired.Rejected? then Rejected(acquired.code)
        else Ok(Report(acquired.value.verdict, acquired.value.task, COMPLETED, acquired.value.candidateObserved))
    else if run.spec.adapter == StructuredTrace && !payloadEmpty then Rejected(422)
    else if fixture.None? then Rejected(422)
    else Ok(fixture.value.(execution := COMPLETED))
  }

  /** The commit `complete` and `fail` share: consume the lease and record the result. */
  function RecordCompletion(run: Run, req: Request, report: Report): Run
    requires req.lease < |run.leases|
  {
    Spend(run, req).(leases := run.leases[req.lease := run.leases[req.lease].(revoked := true)],
                     completions := run.completions + [report])
  }

  function Complete(run: Run, req: Request, now: int, authorized: bool, payloadEmpty: bool, fixture: Option<Report>, cfg: Config)
    : Outcome<(Run, Report)>
  {
    var code := Authorize(run, req, now, authorized);
    if code != 200 then Rejected(code)
    else
      var report := Evaluated(run, payloadEmpty, fixture, cfg);
      if report.Rejected? then Rejected(report.code) else Ok((RecordCompletion(run, req, report.value), report.value))
  }

  function Fail(run: Run, req: Request, now: int, authorized: bool): Outcome<(Run, Report)> {
    var code := Authorize(run, req, now, authorized);
    if code != 200 then Rejected(code) else Ok((RecordCompletion(run, req, FAILURE_REPORT), FAILURE_REPORT))
  }

  // ---- Recovery and settlement --------------------------------------------------------

  function Expired(lease: Lease, now: int): bool {
    if lease.claim.Some? then lease.claim.value.expires <= now else lease.bootstrapExpires <= now
  }

  predicate PastDeadline(run: Run, now: int) { run.spec.createdAt + DEADLINE_SECONDS <= now }

  /** The pass lists the run as retried: its newest lease ran out unclaimed, early enough to try again. */
  predicate Retries(run: Run, now: int) {
    var n := |run.leases|;
    && !run.settled && run.completions == [] && 0 < n < MAX_LEASES && !PastDeadline(run, now)
    && run.leases[n - 1].claim.None? && Expired(run.leases[n - 1], now)
  }

  /** One route of `reconcile_runs`, first transaction: the run after it, and the result to
      settle with, if one was decided. Leases are kept in fence order, so the latest is last. */
  function Reconcile(run: Run, now: int): (Run, Option<Report>) {
    if run.settled then (run.(route := SETTLED), None)
    else if run.completions != [] then (run, Some(run.completions[0]))
    else
      var n := |run.leases|;
      var expired := n > 0 && Expired(run.leases[n - 1], now);
      var late := PastDeadline(run, now);
      if Retries(run, now) then
        (run.(leases := run.leases[n - 1 := run.leases[n - 1].(revoked := true)], status := QUEUED, route := PENDING), None)
      else if expired || late then
        (run.(leases := Revoked(run.leases)), Some(TIMEOUT_REPORT))
      else (run, None)
  }

  /** Foreign answers `finish_run` reads: current authorization, adverse memory, baseline match. */
  datatype Finality = Finality(authorized: bool, blocked: bool, compatible: bool)

  predicate FailureCaptured(run: Run) {
    exists c :: c in run.captures && c.evaluation.verdict == Captures.FAIL
  }

  function Settle(run: Run, report: Report, f: Finality): Settlement {
    var verdict := if FailureCaptured(run) then Captures.FAIL else report.verdict;
    var fix := verdict == Captures.PASS && !f.blocked && report.task == Captures.SUCCESS && report.execution == COMPLETED
      && f.authorized && !run.spec.qualification && (!run.spec.hasObserver || report.candidateObserved);
    var action :=
      if fix && (!run.spec.hasBaseline || f.compatible) then ALLOW
      else if verdict == Captures.FAIL || f.blocked || !f.authorized || run.spec.blockPolicy then BLOCK
      else WARN;
    var units := if run.status == RUNNING || report.execution == COMPLETED then run.reserved else 0;
    Settlement(report, verdict, f.authorized, f.blocked, fix, action, units)
  }

  /** `finish_run`: settle once; a run already settled is left alone. */
  function Finish(run: Run, report: Report, f: Finality): Run {
    if run.settled then run
    else run.(result := Some(Settle(run, report, f)), status := ENDED(report.execution), settled := true)
  }

  // ---- What every run satisfies ------------------------------------------------------

  ghost predicate Claimed(run: Run) {
    |run.leases| > 0 && run.leases[|run.leases| - 1].claim.Some?
  }

  /** Fences are 1..n in order and only the newest lease can be live or ever redeemed. */
  ghost predicate LeaseDiscipline(leases: seq<Lease>) {
    && (forall i :: 0 <= i < |leases| ==> leases[i].fence == i + 1)
    && (forall i :: 0 <= i < |leases| - 1 ==> leases[i].revoked && leases[i].claim.None?)
  }

  ghost predicate SettledSoundly(run: Run) {
    && run.result.Some?
    && run.status == ENDED(run.result.value.report.execution)
    && (FailureCaptured(run) ==> run.result.value.verdict == Captures.FAIL && run.result.value.action == BLOCK)
    && run.result.value.units == (if Claimed(run) then run.reserved else 0)
  }

  ghost predicate Inv(run: Run) {
    && LeaseDiscipline(run.leases)
    && (run.status == RUNNING ==> Claimed(run))
    && (run.status == QUEUED || run.status == DISPATCHED ==> !Claimed(run))
    && (run.settled <==> run.status.ENDED?)
    && (run.settled ==> SettledSoundly(run))
    && |run.completions| <= 1
    && (run.completions != [] ==> Claimed(run) && run.leases[|run.leases| - 1].revoked)
    && (forall r :: r in run.completions ==> r.execution != TIMEOUT)
    && (run.captures != [] ==> Claimed(run))
    && Captures.Sound(run.spec.plan, run.spec.id, run.captures)
    && (forall p :: p in run.nonces ==> p.0 < |run.leases|)
    && (run.route == SETTLED ==> run.settled)
  }

  /** What no later transaction takes back. */
  ghost predicate Evolves(a: Run, b: Run) {
    && a.spec == b.spec && a.reserved == b.reserved
    && |a.leases| <= |b.leases|
    && (forall i :: 0 <= i < |a.leases| ==>
          && (a.leases[i].revoked ==> b.leases[i].revoked)
          && (a.leases[i].claim.Some? ==>
                b.leases[i].claim.Some? && b.leases[i].claim.value.worker == a.leases[i].claim.value.worker))
    && (Claimed(a) ==> |b.leases| == |a.leases|)
    && a.completions <= b.completions
    && a.captures <= b.captures
    && a.nonces <= b.nonces
    && (a.settled ==> b.settled && b.result == a.result && b.captures == a.captures && b.completions == a.completions)
  }

  lemma EvolvesTransitively(a: Run, b: Run, c: Run)
    requires Evolves(a, b) && Evolves(b, c)
    ensures Evolves(a, c)
  {
  }

  lemma {:induction false} NextFence(leases: seq<Lease>)
    requires forall i :: 0 <= i < |leases| ==> leases[i].fence == i + 1
    ensures MaxFence(leases) == |leases|
  {
    if leases != [] {
      NextFence(leases[..|leases| - 1]);
    }
  }

  /** What one transaction other than a settlement does to a valid run. */
  ghost predicate Keeps(a: Run, b: Run) {
    Inv(b) && Evolves(a, b) && b.settled == a.settled && b.result == a.result
  }

  lemma DispatchKeeps(run: Run, token: nat, now: int, authorized: bool, cfg: Config)
    requires Inv(run)
    ensures var r := PrepareDispatch(run, token, now, authorized, cfg);
      r.Ok? ==> Keeps(run, r.value) && |r.value.leases| == |run.leases| + 1
  {
    NextFence(run.leases);
  }

  lemma ClaimKeeps(run: Run, token: nat, worker: nat, nonce: nat, now: int, identity: nat, authorized: bool, cfg: Config)
    requires Inv(run)
    ensures var r := ClaimLease(run, token, worker, nonce, now, identity, authorized, cfg);
      r.Ok? ==>
        && Keeps(run, r.value.0) && Claimed(r.value.0)
        && r.value.1 == |run.leases|
        && r.value.0.leases[|run.leases| - 1].claim.value.worker == worker
  {
  }

  /** An accepted worker request names the newest lease and carries its claimant's signature. */
  lemma AcceptedMeansClaimant(run: Run, req: Request, now: int, authorized: bool)
    requires Inv(run) && Authorize(run, req, now, authorized) == 200
    ensures Claimed(run) && req.lease == |run.leases| - 1 && req.fence == |run.leases|
    ensures run.leases[req.lease].claim.value.worker == req.signer && run.leases[req.lease].claim.value.expires > now
    ensures run.completions == [] && !run.settled && run.status == RUNNING
    ensures authorized && req.timestamp - 30 <= now <= req.timestamp + 30
  {
  }

  lemma ReadKeeps(run: Run, req: Request, now: int, authorized: bool)
    requires Inv(run)
    ensures var r := ReadAssignment(run, req, now, authorized); r.Ok? ==> Keeps(run, r.value)
  {
  }

  lemma RenewKeeps(run: Run, req: Request, now: int, authorized: bool, cfg: Config)
    requires Inv(run)
    ensures var r := Renew(run, req, now, authorized, cfg); r.Ok? ==> Keeps(run, r.value)
  {
    if Authorize(run, req, now, authorized) == 200 {
      AcceptedMeansClaimant(run, req, now, authorized);
    }
  }

  lemma ObserveKeeps(run: Run, req: Request, now: int, authorized: bool, item: Captures.Item, cfg: Config)
    requires Inv(run)
    ensures var r := Observe(run, req, now, authorized, item, cfg); r.Ok? ==> Keeps(run, r.value)
  {
    if Authorize(run, req, now, authorized) == 200 {
      AcceptedMeansClaimant(run, req, now, authorized);
      Captures.PersistKeepsSound(run.spec.plan, run.spec.id, run.captures, item, now, cfg.evaluate);
    }
  }

  lemma CompletionKeeps(run: Run, req: Request, now: int, authorized: bool, report: Report)
    requires Inv(run) && Authorize(run, req, now, authorized) == 200 && report.execution != TIMEOUT
    ensures var r := RecordCompletion(run, req, report); Keeps(run, r) && r.completions == [report]
  {
    AcceptedMeansClaimant(run, req, now, authorized);
  }

  lemma ReconcileKeeps(run: Run, now: int)
    requires Inv(run)
    ensures var (r, report) := Reconcile(run, now);
      && Keeps(run, r)
      && (report.Some? ==> !r.settled && (report.value in r.completions || report.value == TIMEOUT_REPORT))
      && (report == Some(TIMEOUT_REPORT) ==> r.completions == [] && forall l :: l in r.leases ==> l.revoked)
  {
    if run.completions != [] {
      assert run.completions[0] in run.completions;
    }
  }

  lemma FinishKeeps(run: Run, report: Report, f: Finality)
    requires Inv(run) && (report == TIMEOUT_REPORT || report in run.completions)
    ensures Inv(Finish(run, report, f)) && Evolves(run, Finish(run, report, f)) && Finish(run, report, f).settled
  {
  }
}
