/** The rows of one run, updated in place by each transaction.

    `LeaseRow` and `RunRow` are the mutable rows of `db.py`; a `RunRow` also carries the
    records of its run (completions, captures) and its outbox route. Each method is one
    transaction: it checks first and writes last, so a refusal leaves every row as it was,
    and its effect is the one `Runs` specifies. */
module RunRows {
  import opened Common
  import Runs
  import Captures

  class LeaseRow {
    const fence: nat
    const token: nat
    const bootstrapExpires: int
    const specDigest: nat
    const identity: nat
    var revoked: bool
    var claim: Option<Runs.Claim>

    constructor (fence: nat, token: nat, bootstrapExpires: int, specDigest: nat, identity: nat)
      ensures View() == Runs.Lease(fence, token, bootstrapExpires, specDigest, identity, false, None)
    {
      this.fence, this.token, this.bootstrapExpires := fence, token, bootstrapExpires;
      this.specDigest, this.identity := specDigest, identity;
      revoked, claim := false, None;
    }

    ghost function View(): Runs.Lease
      reads this
    {
      Runs.Lease(fence, token, bootstrapExpires, specDigest, identity, revoked, claim)
    }
  }

  class RunRow {
    const spec: Runs.Spec
    const reserved: nat
    var status: Runs.Status
    var settled: bool
    var result: Option<Runs.Settlement>
    var leases: seq<LeaseRow>
    var nonces: set<(nat, nat)>
    var completions: seq<Runs.Report>
    var captures: seq<Captures.Capture>
    var route: Runs.Route

    constructor (spec: Runs.Spec, reserved: nat)
      ensures Valid() && leases == [] && View() == Runs.NewRun(spec, reserved)
    {
      this.spec, this.reserved := spec, reserved;
      status, settled, result, leases := Runs.QUEUED, false, None, [];
      nonces, completions, captures, route := {}, [], [], Runs.PENDING;
    }

    ghost predicate Valid()
      reads this
    {
      forall i, j :: 0 <= i < j < |leases| ==> leases[i] != leases[j]
    }

    ghost function Rows(): set<object>
      reads this
    {
      {this as object} + (set l: LeaseRow | l in leases :: l as object)
    }

    ghost function LeaseViews(): (r: seq<Runs.Lease>)
      reads this, leases
      ensures |r| == |leases| && forall i :: 0 <= i < |r| ==> r[i] == leases[i].View()
    {
      seq(|leases|, i requires 0 <= i < |leases| reads this, leases => leases[i].View())
    }

    ghost function View(): Runs.Run
      reads this, leases
    {
      Runs.Run(spec, reserved, status, settled, result, LeaseViews(), nonces, completions, captures, route)
    }

    /** Revoke every lease of the run. */
    method RevokeAll()
      requires Valid()
      modifies leases
      ensures Valid() && LeaseViews() == Runs.Revoked(old(LeaseViews()))
    {
      for k := 0 to |leases|
        invariant forall i :: 0 <= i < k ==> leases[i].View() == old(leases[i].View()).(revoked := true)
        invariant forall i :: k <= i < |leases| ==> leases[i].View() == old(leases[i].View())
      {
        leases[k].revoked := true;
      }
    }

    method HighestFence() returns (highest: nat)
      requires Valid()
      ensures highest == Runs.MaxFence(LeaseViews())
    {
      highest := 0;
      for k := 0 to |leases|
        invariant highest == Runs.MaxFence(LeaseViews()[..k])
      {
        assert LeaseViews()[..k + 1][..k] == LeaseViews()[..k];
        if leases[k].fence > highest {
          highest := leases[k].fence;
        }
      }
      assert LeaseViews()[..|leases|] == LeaseViews();
    }

    /** Add a fresh lease row with the given fence. */
    method Mint(fence: nat, token: nat, now: int, cfg: Runs.Config)
      requires Valid()
      modifies this`leases
      ensures Valid() && fresh(Rows() - old(Rows()))
      ensures LeaseViews() ==
        old(LeaseViews()) + [Runs.Lease(fence, token, now + cfg.bootstrapTtl, spec.digest, cfg.identity, false, None)]
    {
      var lease := new LeaseRow(fence, token, now + cfg.bootstrapTtl, spec.digest, cfg.identity);
      leases := leases + [lease];
    }

    /** Revoke every earlier lease and mint the next fence. */
    method ReplaceLease(token: nat, now: int, cfg: Runs.Config)
      requires Valid()
      modifies this`leases, leases
      ensures Valid() && fresh(Rows() - old(Rows()))
      ensures LeaseViews() == Runs.Revoked(old(LeaseViews()))
        + [Runs.Lease(Runs.MaxFence(old(LeaseViews())) + 1, token, now + cfg.bootstrapTtl, spec.digest, cfg.identity, false, None)]
    {
      var fence := HighestFence();
      RevokeAll();
      Mint(fence + 1, token, now, cfg);
    }

    method PrepareDispatch(token: nat, now: int, authorized: bool, cfg: Runs.Config) returns (code: int)
      requires Valid()
      modifies this, leases
      ensures Valid() && fresh(Rows() - old(Rows()))
      ensures var r := Runs.PrepareDispatch(old(View()), token, now, authorized, cfg);
        if r.Ok? then code == 200 && View() == r.value else code == r.code && View() == old(View())
    {
      hide Runs.MaxFence;
      if status != Runs.QUEUED && status != Runs.DISPATCHED {
        return 409;
      }
      if !authorized {
        return 403;
      }
      ReplaceLease(token, now, cfg);
      status := Runs.DISPATCHED;
      code := 200;
    }

    method RouteOf(token: nat) returns (found: Option<nat>)
      requires Valid()
      ensures found == Runs.Routed(LeaseViews(), token)
    {
      var k := |leases|;
      ghost var views := LeaseViews();
      assert views[..k] == views;
      while k > 0
        invariant k <= |leases|
        invariant Runs.Routed(views, token) == Runs.Routed(views[..k], token)
      {
        assert views[..k][..k - 1] == views[..k - 1];
        if leases[k - 1].token == token {
          return Some(k - 1);
        }
        k := k - 1;
      }
      found := None;
    }

    method Claim(token: nat, worker: nat, nonce: nat, now: int, identity: nat, authorized: bool, cfg: Runs.Config)
      returns (code: int, fence: nat)
      requires Valid()
      modifies this, leases
      ensures Valid() && leases == old(leases)
      ensures var r := Runs.ClaimLease(old(View()), token, worker, nonce, now, identity, authorized, cfg);
        if r.Ok? then code == 200 && View() == r.value.0 && fence == r.value.1 else code == r.code && View() == old(View())
    {
      hide Runs.Routed;
      fence := 0;
      var found := RouteOf(token);
      if found.None? || settled || (status != Runs.DISPATCHED && status != Runs.RUNNING) {
        return 403, 0;
      }
      var lease := leases[found.value];
      if lease.revoked || lease.identity != identity {
        return 403, 0;
      }
      if lease.claim.Some? {
        if lease.claim.value.worker != worker || lease.claim.value.nonce != nonce || lease.claim.value.expires <= now {
          return 409, 0;
        }
        return 200, lease.fence;
      }
      if lease.bootstrapExpires <= now || !authorized {
        return 403, 0;
      }
      if status != Runs.DISPATCHED || spec.digest != lease.specDigest {
        return 409, 0;
      }
      lease.claim := Some(Runs.Claim(now, now + cfg.leaseTtl, worker, nonce));
      status := Runs.RUNNING;
      assert LeaseViews() == old(LeaseViews())[found.value := lease.View()];
      return 200, lease.fence;
    }

    /** The checks every worker request passes before it may write anything. */
    method Authorize(req: Runs.Request, now: int, authorized: bool) returns (code: int)
      requires Valid()
      ensures code == Runs.Authorize(View(), req, now, authorized)
    {
      if req.lease >= |leases| {
        return 403;
      }
      var lease := leases[req.lease];
      if status != Runs.RUNNING || settled || spec.digest != lease.specDigest {
        return 403;
      }
      if lease.revoked || lease.claim.None? || lease.claim.value.expires <= now || lease.fence != req.fence
         || lease.identity != req.identity || now - req.timestamp > 30 || req.timestamp - now > 30 {
        return 403;
      }
      if lease.claim.value.worker != req.signer {
        return 401;
      }
      if (req.lease, req.nonce) in nonces {
        return 409;
      }
      if !authorized {
        return 403;
      }
      return 200;
    }

    method ReadAssignment(req: Runs.Request, now: int, authorized: bool) returns (code: int)
      requires Valid()
      modifies this
      ensures Valid() && leases == old(leases)
      ensures var r := Runs.ReadAssignment(old(View()), req, now, authorized);
        if r.Ok? then code == 200 && View() == r.value else code == r.code && View() == old(View())
    {
      code := Authorize(req, now, authorized);
      if code == 200 {
        nonces := nonces + {(req.lease, req.nonce)};
      }
    }

    method Renew(req: Runs.Request, now: int, authorized: bool, cfg: Runs.Config) returns (code: int)
      requires Valid()
      modifies this, leases
      ensures Valid() && leases == old(leases)
      ensures var r := Runs.Renew(old(View()), req, now, authorized, cfg);
        if r.Ok? then code == 200 && View() == r.value else code == r.code && View() == old(View())
    {
      code := Authorize(req, now, authorized);
      if code != 200 {
        return;
      }
      if !Captures.HasCapacity(captures) {
        return 413;
      }
      var lease := leases[req.lease];
      if now - lease.claim.value.at > Runs.MAX_RUN_SECONDS {
        return 403;
      }
      nonces := nonces + {(req.lease, req.nonce)};
      lease.claim := Some(lease.claim.value.(expires := now + cfg.leaseTtl));
      assert LeaseViews() == old(LeaseViews())[req.lease := lease.View()];
    }

    method Observe(req: Runs.Request, now: int, authorized: bool, item: Captures.Item, cfg: Runs.Config) returns (code: int)
      requires Valid()
      modifies this
      ensures Valid() && leases == old(leases)
      ensures var r := Runs.Observe(old(View()), req, now, authorized, item, cfg);
        if r.Ok? then code == 200 && View() == r.value else code == r.code && View() == old(View())
    {
      code := Authorize(req, now, authorized);
      if code != 200 {
        return;
      }
      if spec.adapter != Runs.Active {
        return 422;
      }
      var kept := Captures.Persist(spec.plan, spec.id, captures, item, now, cfg.evaluate);
      if kept.Rejected? {
        return kept.code;
      }
      nonces := nonces + {(req.lease, req.nonce)};
      captures := kept.value.0;
    }

    /** Consume the lease of an accepted request and record its result. */
    method RecordCompletion(req: Runs.Request, report: Runs.Report)
      requires Valid() && req.lease < |leases|
      modifies this, leases
      ensures Valid() && leases == old(leases)
      ensures View() == Runs.RecordCompletion(old(View()), req, report)
    {
      var lease := leases[req.lease];
      nonces := nonces + {(req.lease, req.nonce)};
      lease.revoked := true;
      completions := completions + [report];
      assert LeaseViews() == old(LeaseViews())[req.lease := lease.View()];
    }

    method EvaluateCompletion(payloadEmpty: bool, fixture: Option<Runs.Report>, cfg: Runs.Config)
      returns (code: int, report: Runs.Report)
      requires Valid()
      ensures var r := Runs.Evaluated(View(), payloadEmpty, fixture, cfg);
        if r.Ok? then code == 200 && report == r.value else code == r.code
    {
      code, report := 422, Runs.FAILURE_REPORT;
      if spec.adapter == Runs.Active {
        if payloadEmpty {
          var acquired := Captures.EvaluatePersisted(spec.plan, captures, cfg.evaluate, cfg.attest);
          if acquired.Rejected? {
            return acquired.code, report;
          }
          code := 200;
          report := Runs.Report(acquired.value.verdict, acquired.value.task, Runs.COMPLETED, acquired.value.candidateObserved);
        }
      } else if (spec.adapter != Runs.StructuredTrace || payloadEmpty) && fixture.Some? {
        code, report := 200, fixture.value.(execution := Runs.COMPLETED);
      }
    }

    /** First transaction of a completion; the caller then settles with `report`. */
    method Complete(req: Runs.Request, now: int, authorized: bool, payloadEmpty: bool, fixture: Option<Runs.Report>,
                    cfg: Runs.Config)
      returns (code: int, report: Runs.Report)
      requires Valid()
      modifies this, leases
      ensures Valid() && leases == old(leases)
      ensures var r := Runs.Complete(old(View()), req, now, authorized, payloadEmpty, fixture, cfg);
        if r.Ok? then code == 200 && View() == r.value.0 && report == r.value.1 else code == r.code && View() == old(View())
    {
      report := Runs.FAILURE_REPORT;
      code := Authorize(req, now, authorized);
      if code == 200 {
        code, report := EvaluateCompletion(payloadEmpty, fixture, cfg);
        if code == 200 {
          RecordCompletion(req, report);
        }
      }
    }

    /** First transaction of a worker failure. */
    method Fail(req: Runs.Request, now: int, authorized: bool) returns (code: int, report: Runs.Report)
      requires Valid()
      modifies this, leases
      ensures Valid() && leases == old(leases)
      ensures var r := Runs.Fail(old(View()), req, now, authorized);
        if r.Ok? then code == 200 && View() == r.value.0 && report == r.value.1 else code == r.code && View() == old(View())
    {
      report := Runs.FAILURE_REPORT;
      code := Authorize(req, now, authorized);
      if code == 200 {
        RecordCompletion(req, report);
      }
    }

    /** First transaction of one reconciliation route. */
    method Reconcile(now: int) returns (report: Option<Runs.Report>)
      requires Valid()
      modifies this, leases
      ensures Valid() && leases == old(leases)
      ensures (View(), report) == Runs.Reconcile(old(View()), now)
    {
      if settled {
        route := Runs.SETTLED;
        assert LeaseViews() == old(LeaseViews());
        return None;
      }
      if completions != [] {
        return Some(completions[0]);
      }
      var late := spec.createdAt + Runs.DEADLINE_SECONDS <= now;
      var n := |leases|;
      var expired := false;
      if n > 0 {
        var latest := leases[n - 1];
        expired := if latest.claim.Some? then latest.claim.value.expires <= now else latest.bootstrapExpires <= now;
        if expired && latest.claim.None? && n < Runs.MAX_LEASES && !late {
          latest.revoked := true;
          status, route := Runs.QUEUED, Runs.PENDING;
          assert LeaseViews() == old(LeaseViews())[n - 1 := latest.View()];
          return None;
        }
      }
      if expired || late {
        RevokeAll();
        return Some(Runs.TIMEOUT_REPORT);
      }
      return None;
    }

    method AnyFailure() returns (found: bool)
      requires Valid()
      ensures found <==> Runs.FailureCaptured(View())
    {
      for k := 0 to |captures|
        invariant forall i :: 0 <= i < k ==> captures[i].evaluation.verdict != Captures.FAIL
      {
        if captures[k].evaluation.verdict == Captures.FAIL {
          assert captures[k] in captures;
          return true;
        }
      }
      return false;
    }

    /** Settlement of the run itself; returns the units it consumed. */
    method Finish(report: Runs.Report, f: Runs.Finality) returns (units: nat)
      requires Valid() && !settled
      modifies this
      ensures Valid() && leases == old(leases)
      ensures View() == Runs.Finish(old(View()), report, f)
      ensures units == Runs.Settle(old(View()), report, f).units
    {
      var started := status == Runs.RUNNING;
      var failed := AnyFailure();
      var verdict := if failed then Captures.FAIL else report.verdict;
      var fix := verdict == Captures.PASS && !f.blocked && report.task == Captures.SUCCESS
        && report.execution == Runs.COMPLETED && f.authorized && !spec.qualification
        && (!spec.hasObserver || report.candidateObserved);
      var action := Runs.WARN;
      if fix && (!spec.hasBaseline || f.compatible) {
        action := Runs.ALLOW;
      } else if verdict == Captures.FAIL || f.blocked || !f.authorized || spec.blockPolicy {
        action := Runs.BLOCK;
      }
      units := if started || report.execution == Runs.COMPLETED then reserved else 0;
      result := Some(Runs.Settlement(report, verdict, f.authorized, f.blocked, fix, action, units));
      status := Runs.ENDED(report.execution);
      settled := true;
    }
  }
}
