/** The guarantees of the execution protocol are not empty: an honest run is allowed.

    From a new account with room for one unit, the transactions of `api.py` and `broker.py` in their
    ordinary order create, dispatch, claim, observe, complete and settle a run of one trial, which an
    observer watches: it ends as ALLOW, and the account pays its unit. */
module HonestRun {
  import opened Common
  import opened Runs
  import opened Protocol
  import opened ExecutionSafety
  import opened RunAnswers
  import opened Admission
  import Captures

  const SLOT := Captures.Slot(Captures.Explicit(0), 0)

  function Item(bytes: nat, body: nat): Captures.Item {
    Captures.Item(Captures.Explicit(0), Some(0), Captures.Observation(Captures.Correlation(0, SLOT), bytes, body))
  }

  /** One trial of one variant, observed and compared with nothing. */
  predicate Simple(spec: Spec) {
    && spec.plan == Captures.Plan(1, 1, false, true, true, true) && spec.adapter == Active
    && !spec.hasBaseline && !spec.qualification && spec.hasObserver
  }

  /** The evaluator passes the trial, and its observer attests it. */
  predicate Passes(cfg: Config, item: Captures.Item, clock: int) {
    && item.observation.bytes <= 2 * 1024 * 1024 && cfg.attest(item.observation)
    && cfg.evaluate(item.observation, clock) == Captures.Evaluation(Captures.PASS, Captures.SUCCESS)
    && cfg.bootstrapTtl >= 1 && cfg.leaseTtl >= 1
  }

  function Ask(cfg: Config, worker: nat, nonce: nat, clock: int): Request {
    Request(0, 1, nonce, clock, cfg.identity, worker)
  }

  const PASSED := Report(Captures.PASS, Captures.SUCCESS, COMPLETED, true)

  function Queued(spec: Spec, clock: int): Run { NewRun(spec.(id := 0, createdAt := clock), 1) }

  function Held(cfg: Config, spec: Spec, worker: nat, clock: int, revoked: bool): Lease {
    Lease(1, 7, clock + cfg.bootstrapTtl, spec.digest, cfg.identity, revoked, Some(Claim(clock, clock + cfg.leaseTtl, worker, 3)))
  }

  function Working(cfg: Config, spec: Spec, worker: nat, clock: int): Run {
    Queued(spec, clock).(leases := [Held(cfg, spec, worker, clock, false)], status := RUNNING)
  }

  lemma IsClaimed(cfg: Config, spec: Spec, worker: nat, clock: int)
    requires Simple(spec) && cfg.bootstrapTtl >= 1
    ensures var dispatched := Transact(Queued(spec, clock), Dispatch(7, true), clock, cfg).0;
      Transact(dispatched, Claiming(7, worker, 3, cfg.identity, true), clock, cfg).0 == Working(cfg, spec, worker, clock)
  {
    var queued := Queued(spec, clock);
    assert Inv(queued);
    DispatchExactlyWhen(queued, 7, clock, true, cfg);
    DispatchKeeps(queued, 7, clock, true, cfg);
    var dispatched := PrepareDispatch(queued, 7, clock, true, cfg).value;
    assert dispatched.leases == [Newest(dispatched)];
    ClaimExactlyWhen(dispatched, 7, worker, 3, clock, cfg.identity, true, cfg);
    hide PrepareDispatch, ClaimLease, Inv;
  }

  function Seen(cfg: Config, spec: Spec, worker: nat, item: Captures.Item, clock: int): Run {
    Working(cfg, spec, worker, clock)
      .(nonces := {(0, 4)},
        captures := [Captures.Capture(SLOT, item.observation, clock, Captures.Evaluation(Captures.PASS, Captures.SUCCESS))])
  }

  function Done(cfg: Config, spec: Spec, worker: nat, item: Captures.Item, clock: int): Run {
    Seen(cfg, spec, worker, item, clock)
      .(leases := [Held(cfg, spec, worker, clock, true)], nonces := {(0, 4), (0, 5)}, completions := [PASSED])
  }

  lemma WorkingIsValid(cfg: Config, spec: Spec, worker: nat, clock: int)
    requires Simple(spec)
    ensures Inv(Working(cfg, spec, worker, clock))
  {
  }

  lemma Admitted(cfg: Config, spec: Spec, bytes: nat, body: nat, clock: int)
    requires Simple(spec) && Passes(cfg, Item(bytes, body), clock)
    ensures var item := Item(bytes, body);
      var capture := Captures.Capture(SLOT, item.observation, clock, Captures.Evaluation(Captures.PASS, Captures.SUCCESS));
      Captures.Persist(spec.plan, 0, [], item, clock, cfg.evaluate) == Ok(([capture], capture))
  {
    var item := Item(bytes, body);
    var capture := Captures.Capture(SLOT, item.observation, clock, Captures.Evaluation(Captures.PASS, Captures.SUCCESS));
    assert [] + [capture] == [capture];
  }

  lemma Speaking(cfg: Config, spec: Spec, worker: nat, clock: int, run: Run, nonce: nat)
    requires Simple(spec) && cfg.leaseTtl >= 1 && Inv(run) && (0, nonce) !in run.nonces && run.spec == spec.(id := 0, createdAt := clock)
    requires run.status == RUNNING && run.leases == [Held(cfg, spec, worker, clock, false)]
    ensures Authorize(run, Ask(cfg, worker, nonce, clock), clock, true) == 200
  {
    AcceptedExactlyWhen(run, Ask(cfg, worker, nonce, clock), clock, true);
    hide Inv, Authorize;
  }

  lemma Observes(cfg: Config, run: Run, req: Request, item: Captures.Item, capture: Captures.Capture, clock: int)
    requires Inv(run) && Authorize(run, req, clock, true) == 200 && run.spec.adapter == Active
    requires Captures.Persist(run.spec.plan, run.spec.id, run.captures, item, clock, cfg.evaluate) == Ok(([capture], capture))
    ensures var next := Transact(run, Observing(req, true, item), clock, cfg).0;
      next == run.(nonces := run.nonces + {(req.lease, req.nonce)}, captures := [capture]) && Inv(next)
  {
    ObserveKeeps(run, req, clock, true, item, cfg);
    hide Inv, Captures.Persist, Authorize, Evolves;
  }

  lemma IsSeen(cfg: Config, spec: Spec, worker: nat, bytes: nat, body: nat, clock: int)
    requires Simple(spec) && Passes(cfg, Item(bytes, body), clock)
    ensures var working, item := Working(cfg, spec, worker, clock), Item(bytes, body);
      && Transact(working, Observing(Ask(cfg, worker, 4, clock), true, item), clock, cfg).0 == Seen(cfg, spec, worker, item, clock)
      && Inv(Seen(cfg, spec, worker, item, clock))
  {
    var working, item := Working(cfg, spec, worker, clock), Item(bytes, body);
    var capture := Captures.Capture(SLOT, item.observation, clock, Captures.Evaluation(Captures.PASS, Captures.SUCCESS));
    assert working.nonces + {(0, 4)} == {(0, 4)};
    hide Inv, Captures.Persist, Authorize, Transact, Passes;
    WorkingIsValid(cfg, spec, worker, clock);
    Admitted(cfg, spec, bytes, body, clock);
    LongLease(cfg, Item(bytes, body), clock);
    Speaking(cfg, spec, worker, clock, working, 4);
    Observes(cfg, working, Ask(cfg, worker, 4, clock), item, capture, clock);
  }

  lemma LongLease(cfg: Config, item: Captures.Item, clock: int)
    requires Passes(cfg, item, clock)
    ensures cfg.leaseTtl >= 1
  {
  }

  /** The full log of one attested, passing trial is a pass on the observed candidate. */
  lemma Evaluates(cfg: Config, spec: Spec, worker: nat, bytes: nat, body: nat, clock: int)
    requires Simple(spec) && Passes(cfg, Item(bytes, body), clock)
    ensures Evaluated(Seen(cfg, spec, worker, Item(bytes, body), clock), true, None, cfg) == Ok(PASSED)
  {
    var item := Item(bytes, body);
    var seen := Seen(cfg, spec, worker, item, clock);
    var items := Captures.Resubmitted(seen.captures);
    assert items == [item];
    var again := (i: Captures.Item) =>
      cfg.evaluate(i.observation, Captures.TrustedTime(seen.captures, Captures.SlotOf(i)));
    assert seen.captures[0].slot == Captures.SlotOf(item);
    assert Captures.TrustedTime(seen.captures, Captures.SlotOf(item)) == clock;
    assert again(item) == Captures.Evaluation(Captures.PASS, Captures.SUCCESS);
    OneAnswer(spec.plan, item);
    Captures.ObservedExactlyWhen(spec.plan, items, again, cfg.attest);
    Captures.OutcomeExactlyWhen(spec.plan, items, again, cfg.attest);
    hide Captures.Evaluate, Captures.AnswersEachOnce;
  }

  lemma OneAnswer(plan: Captures.Plan, item: Captures.Item)
    requires plan == Captures.Plan(1, 1, false, true, true, true) && item.variant == Captures.Explicit(0) && item.index == Some(0)
    ensures Captures.AnswersEachOnce(plan, [item]) && Captures.CorrelationsDiffer([item])
  {
    forall slot | Captures.Asked(plan, slot) ensures exists i :: 0 <= i < 1 && Captures.Answers([item][i], slot) {
      assert Captures.Answers([item][0], slot);
    }
  }

  lemma Completes(cfg: Config, run: Run, req: Request, report: Report, clock: int)
    requires Authorize(run, req, clock, true) == 200 && Evaluated(run, true, None, cfg) == Ok(report)
    ensures Transact(run, Completing(req, true, true, None), clock, cfg) == (RecordCompletion(run, req, report), Some(report))
  {
    hide Authorize, Evaluated, RecordCompletion;
  }

  lemma RecordsPass(cfg: Config, spec: Spec, worker: nat, item: Captures.Item, clock: int)
    ensures RecordCompletion(Seen(cfg, spec, worker, item, clock), Ask(cfg, worker, 5, clock), PASSED)
      == Done(cfg, spec, worker, item, clock)
  {
    var seen := Seen(cfg, spec, worker, item, clock);
    assert seen.nonces + {(0, 5)} == {(0, 4), (0, 5)};
    assert seen.completions + [PASSED] == [PASSED];
    assert seen.leases[0 := Held(cfg, spec, worker, clock, true)] == [Held(cfg, spec, worker, clock, true)];
  }

  lemma IsDone(cfg: Config, spec: Spec, worker: nat, bytes: nat, body: nat, clock: int)
    requires Simple(spec) && Passes(cfg, Item(bytes, body), clock)
    ensures var seen := Seen(cfg, spec, worker, Item(bytes, body), clock);
      Transact(seen, Completing(Ask(cfg, worker, 5, clock), true, true, None), clock, cfg)
        == (Done(cfg, spec, worker, Item(bytes, body), clock), Some(PASSED))
  {
    var seen := Seen(cfg, spec, worker, Item(bytes, body), clock);
    assert (0, 5) !in seen.nonces && seen.spec == spec.(id := 0, createdAt := clock) && seen.status == RUNNING;
    assert seen.leases == [Held(cfg, spec, worker, clock, false)];
    hide *;
    IsSeen(cfg, spec, worker, bytes, body, clock);
    Evaluates(cfg, spec, worker, bytes, body, clock);
    LongLease(cfg, Item(bytes, body), clock);
    Speaking(cfg, spec, worker, clock, seen, 5);
    Completes(cfg, seen, Ask(cfg, worker, 5, clock), PASSED, clock);
    RecordsPass(cfg, spec, worker, Item(bytes, body), clock);
  }

  /** Created, dispatched, claimed, observed, completed and settled, in this order. */
  function Ordinary(cfg: Config, spec: Spec, worker: nat, item: Captures.Item, clock: int): seq<Action> {
    [Create(spec, true), On(0, Dispatch(7, true)), On(0, Claiming(7, worker, 3, cfg.identity, true)),
     On(0, Observing(Ask(cfg, worker, 4, clock), true, item)),
     On(0, Completing(Ask(cfg, worker, 5, clock), true, true, None)),
     Finishing(Call(0, PASSED), Finality(true, false, true))]
  }

  function Alone(limit: nat, run: Run, calls: set<Call>, clock: int, consumed: nat, reserved: nat): System {
    System(World(Account(consumed, reserved, limit, true), [run]), calls, clock, 0, limit)
  }

  lemma CreatedAlone(limit: nat, cfg: Config, spec: Spec, clock: int)
    requires Simple(spec) && limit >= 1
    ensures Step(Initial(limit, clock), Create(spec, true), cfg) == Alone(limit, Queued(spec, clock), {}, clock, 0, 1)
  {
    ReservationIs(spec);
    assert [] + [Queued(spec, clock)] == [Queued(spec, clock)];
    hide Reservation;
  }

  lemma OnAlone(limit: nat, cfg: Config, run: Run, clock: int, act: RunAction)
    ensures var (next, report) := Transact(run, act, clock, cfg);
      Step(Alone(limit, run, {}, clock, 0, 1), On(0, act), cfg) ==
        Alone(limit, next, if report.Some? then {Call(0, report.value)} else {}, clock, 0, 1)
  {
    var (next, report) := Transact(run, act, clock, cfg);
    assert [run][0 := next] == [next];
    hide Transact;
  }

  lemma SettledAlone(limit: nat, cfg: Config, run: Run, clock: int)
    requires !run.settled && run.reserved == 1
    ensures var f := Finality(true, false, true);
      var t := Step(Alone(limit, run, {Call(0, PASSED)}, clock, 0, 1), Finishing(Call(0, PASSED), f), cfg);
      t == Alone(limit, Finish(run, PASSED, f), {Call(0, PASSED)}, clock, 1, 0)
  {
    assert [run][0 := Finish(run, PASSED, Finality(true, false, true))] == [Finish(run, PASSED, Finality(true, false, true))];
  }

  /** Actions executed one after the other pass through the states they lead to. */
  lemma {:induction false} Passing(states: seq<System>, actions: seq<Action>, cfg: Config)
    requires |states| == |actions| + 1
    requires forall k :: 0 <= k < |actions| ==> Step(states[k], actions[k], cfg) == states[k + 1]
    ensures Execute(states[0], actions, cfg) == states[|actions|]
    decreases |actions|
  {
    hide Step;
    if actions != [] {
      Passing(states[1..], actions[1..], cfg);
    }
  }

  /** An honest run on a new account with room for it ends as ALLOW, and pays its unit. */
  lemma HonestRunIsAllowed(limit: nat, cfg: Config, spec: Spec, worker: nat, bytes: nat, body: nat, clock: int)
    requires Simple(spec) && limit >= 1 && Passes(cfg, Item(bytes, body), clock)
    ensures var s := Reach(limit, clock, Ordinary(cfg, spec, worker, Item(bytes, body), clock), cfg);
      && |s.world.runs| == 1 && s.world.runs[0].settled && s.world.runs[0].result.Some?
      && s.world.runs[0].result.value.action == ALLOW && s.world.runs[0].result.value.report == PASSED
      && s.world.account == Account(1, 0, limit, true)
  {
    var item := Item(bytes, body);
    var done := Done(cfg, spec, worker, item, clock);
    var f := Finality(true, false, true);
    HonestSteps(limit, cfg, spec, worker, bytes, body, clock);
    SettleIsMerited(done, PASSED, f);
    assert Fixes(done, PASSED, f);
    hide Execute, Settle, Passes, Done, Ordinary, Simple;
  }

  lemma HonestSteps(limit: nat, cfg: Config, spec: Spec, worker: nat, bytes: nat, body: nat, clock: int)
    requires Simple(spec) && limit >= 1 && Passes(cfg, Item(bytes, body), clock)
    ensures var item := Item(bytes, body);
      Reach(limit, clock, Ordinary(cfg, spec, worker, item, clock), cfg) ==
        Alone(limit, Finish(Done(cfg, spec, worker, item, clock), PASSED, Finality(true, false, true)),
              {Call(0, PASSED)}, clock, 1, 0)
  {
    var item := Item(bytes, body);
    var acts := Ordinary(cfg, spec, worker, item, clock);
    var queued, working := Queued(spec, clock), Working(cfg, spec, worker, clock);
    var seen, done := Seen(cfg, spec, worker, item, clock), Done(cfg, spec, worker, item, clock);
    var dispatched := Transact(queued, acts[1].act, clock, cfg).0;
    IsClaimed(cfg, spec, worker, clock);
    IsSeen(cfg, spec, worker, bytes, body, clock);
    IsDone(cfg, spec, worker, bytes, body, clock);
    NoReport(queued, acts[1].act, clock, cfg);
    NoReport(dispatched, acts[2].act, clock, cfg);
    NoReport(working, acts[3].act, clock, cfg);
    assert !done.settled && done.reserved == 1;
    hide Transact, Step, Execute, Passes, Simple, Inv, Done, Seen, Working, Queued, Finish, Initial;
    CreatedAlone(limit, cfg, spec, clock);
    OnAlone(limit, cfg, queued, clock, acts[1].act);
    OnAlone(limit, cfg, dispatched, clock, acts[2].act);
    OnAlone(limit, cfg, working, clock, acts[3].act);
    OnAlone(limit, cfg, seen, clock, acts[4].act);
    SettledAlone(limit, cfg, done, clock);
    var last := Alone(limit, Finish(done, PASSED, Finality(true, false, true)), {Call(0, PASSED)}, clock, 1, 0);
    Passing([Initial(limit, clock), Alone(limit, queued, {}, clock, 0, 1), Alone(limit, dispatched, {}, clock, 0, 1),
             Alone(limit, working, {}, clock, 0, 1), Alone(limit, seen, {}, clock, 0, 1),
             Alone(limit, done, {Call(0, PASSED)}, clock, 0, 1), last], acts, cfg);
  }

  lemma NoReport(run: Run, act: RunAction, now: int, cfg: Config)
    requires act.Dispatch? || act.Claiming? || act.Observing?
    ensures Transact(run, act, now, cfg).1.None?
  {
  }
}
