/** The execution protocol of one organization: every interleaving of its transactions.

    A `System` holds the account, all runs, and the `finish_run` calls that a committed
    transaction has issued. An issued call may be executed at any later time, more than
    once, or never (the process died), so every crash point between two transactions is an
    interleaving here. `forgiven` and `peak` are bookkeeping of the proofs: usage wiped by
    period rollovers, and the highest allowance under which a new run was admitted. */
module Protocol {
  import opened Common
  import opened Runs
  import Captures

  datatype Account = Account(consumed: int, reserved: int, limit: int, active: bool)
  datatype World = World(account: Account, runs: seq<Run>)
  datatype Call = Call(run: nat, report: Report)
  datatype System = System(world: World, calls: set<Call>, clock: int, forgiven: int, peak: int)

  datatype RunAction =
    | Dispatch(token: nat, authorized: bool)
    | Claiming(token: nat, worker: nat, nonce: nat, identity: nat, authorized: bool)
    | Reading(req: Request, authorized: bool)
    | Renewing(req: Request, authorized: bool)
    | Observing(req: Request, authorized: bool, item: Captures.Item)
    | Completing(req: Request, authorized: bool, payloadEmpty: bool, fixture: Option<Report>)
    | Failing(req: Request, authorized: bool)
    | Reconciling
    | Delivering

  datatype Action =
    | Create(spec: Spec, admitted: bool)
    | On(run: nat, act: RunAction)
    | Finishing(call: Call, finality: Finality)
    | Rollover
    | Entitle(limit: nat, active: bool)
    | Tick(seconds: nat)

  // ---- Account --------------------------------------------------------------------

  function Reservation(spec: Spec): nat {
    spec.plan.trials * spec.plan.variants * (if spec.adapter == SyntheticFixture then 2 else 1)
  }

  function WithKey(runs: seq<Run>, key: nat): (r: Option<nat>)
    ensures r.Some? ==> r.value < |runs| && runs[r.value].spec.idempotencyKey == key
    ensures r.None? ==> forall i :: 0 <= i < |runs| ==> runs[i].spec.idempotencyKey != key
  {
    if runs == [] then None
    else if runs[|runs| - 1].spec.idempotencyKey == key then Some(|runs| - 1)
    else WithKey(runs[..|runs| - 1], key)
  }

  /** `create_run`; `admitted` stands for the foreign checks of target, property and observer. */
  function CreateRun(w: World, spec: Spec, admitted: bool, now: int): Outcome<(World, nat)> {
    var existing := WithKey(w.runs, spec.idempotencyKey);
    if existing.Some? then
      if w.runs[existing.value].spec.digest != spec.digest then Rejected(409) else Ok((w, existing.value))
    else if !admitted then Rejected(403)
    else
      var reserve := Reservation(spec);
      if reserve < 1 then Rejected(422)
      else if !w.account.active || w.account.consumed + w.account.reserved + reserve > w.account.limit then Rejected(402)
      else
        var run := NewRun(spec.(id := |w.runs|, createdAt := now), reserve);
        Ok((World(w.account.(reserved := w.account.reserved + reserve), w.runs + [run]), |w.runs|))
  }

  /** `finish_run` on run `i`, with its charge to the account. */
  function FinishRun(w: World, i: nat, report: Report, f: Finality): World
    requires i < |w.runs|
  {
    var run := w.runs[i];
    if run.settled then w
    else
      var done := Finish(run, report, f);
      World(w.account.(reserved := w.account.reserved - run.reserved,
                       consumed := w.account.consumed + done.result.value.units),
            w.runs[i := done])
  }

  // ---- Steps -------------------------------------------------------------------------

  /** One transaction on a run: the run after it and the settlement call it issues. */
  function Transact(run: Run, act: RunAction, now: int, cfg: Config): (Run, Option<Report>) {
    match act
    case Dispatch(token, authorized) =>
      var r := PrepareDispatch(run, token, now, authorized, cfg);
      (if r.Ok? then r.value else run, None)
    case Claiming(token, worker, nonce, identity, authorized) =>
      var r := ClaimLease(run, token, worker, nonce, now, identity, authorized, cfg);
      (if r.Ok? then r.value.0 else run, None)
    case Reading(req, authorized) =>
      var r := ReadAssignment(run, req, now, authorized);
      (if r.Ok? then r.value else run, None)
    case Renewing(req, authorized) =>
      var r := Renew(run, req, now, authorized, cfg);
      (if r.Ok? then r.value else run, None)
    case Observing(req, authorized, item) =>
      var r := Observe(run, req, now, authorized, item, cfg);
      (if r.Ok? then r.value else run, None)
    case Completing(req, authorized, payloadEmpty, fixture) =>
      var r := Complete(run, req, now, authorized, payloadEmpty, fixture, cfg);
      if r.Ok? then (r.value.0, Some(r.value.1)) else (run, None)
    case Failing(req, authorized) =>
      var r := Fail(run, req, now, authorized);
      if r.Ok? then (r.value.0, Some(r.value.1)) else (run, None)
    case Reconciling => Reconcile(run, now)
    case Delivering => (run.(route := DELIVERED), None)
  }

  function Step(s: System, a: Action, cfg: Config): System {
    match a
    case Create(spec, admitted) =>
      var r := CreateRun(s.world, spec, admitted, s.clock);
      if r.Rejected? then s
      else
        var admitted := |r.value.0.runs| > |s.world.runs| && s.world.account.limit > s.peak;
        s.(world := r.value.0, peak := if admitted then s.world.account.limit else s.peak)
    case On(i, act) =>
      if i >= |s.world.runs| then s
      else
        var (run, report) := Transact(s.world.runs[i], act, s.clock, cfg);
        s.(world := s.world.(runs := s.world.runs[i := run]),
           calls := if report.Some? then s.calls + {Call(i, report.value)} else s.calls)
    case Finishing(call, f) =>
      if call !in s.calls || call.run >= |s.world.runs| then s
      else s.(world := FinishRun(s.world, call.run, call.report, f))
    case Rollover =>
      s.(world := s.world.(account := s.world.account.(consumed := 0)), forgiven := s.forgiven + s.world.account.consumed)
    case Entitle(limit, active) =>
      s.(world := s.world.(account := s.world.account.(limit := limit, active := active)))
    case Tick(seconds) => s.(clock := s.clock + seconds)
  }

  function Execute(s: System, actions: seq<Action>, cfg: Config): System
    decreases |actions|
  {
    if actions == [] then s else Execute(Step(s, actions[0], cfg), actions[1..], cfg)
  }

  function Initial(limit: nat, clock: int): System {
    System(World(Account(0, 0, limit, true), []), {}, clock, 0, 0)
  }

  // ---- Sums over runs -------------------------------------------------------------------

  /** Units held for runs that are not settled yet. */
  function Outstanding(runs: seq<Run>): int {
    if runs == [] then 0
    else Outstanding(runs[..|runs| - 1]) + (if runs[|runs| - 1].settled then 0 else runs[|runs| - 1].reserved)
  }

  /** Units charged by settlements. */
  function Charged(runs: seq<Run>): int {
    if runs == [] then 0
    else Charged(runs[..|runs| - 1]) + Charge(runs[|runs| - 1])
  }

  function Charge(run: Run): int { if run.settled && run.result.Some? then run.result.value.units else 0 }

  lemma {:induction false} ReplaceRun(runs: seq<Run>, i: nat, run: Run)
    requires i < |runs|
    ensures Outstanding(runs[i := run]) == Outstanding(runs)
      - (if runs[i].settled then 0 else runs[i].reserved) + (if run.settled then 0 else run.reserved)
    ensures Charged(runs[i := run]) == Charged(runs) - Charge(runs[i]) + Charge(run)
  {
    var n := |runs| - 1;
    if i == n {
      assert runs[i := run][..n] == runs[..n];
    } else {
      ReplaceRun(runs[..n], i, run);
      assert runs[i := run][..n] == runs[..n][i := run];
    }
  }

  lemma AddRun(runs: seq<Run>, run: Run)
    ensures Outstanding(runs + [run]) == Outstanding(runs) + (if run.settled then 0 else run.reserved)
    ensures Charged(runs + [run]) == Charged(runs) + Charge(run)
  {
    assert (runs + [run])[..|runs|] == runs;
  }

  // ---- What every reachable system satisfies ----------------------------------------------

  ghost predicate RunsValid(runs: seq<Run>) {
    && (forall i :: 0 <= i < |runs| ==> Inv(runs[i]) && runs[i].spec.id == i && runs[i].reserved >= 1)
    && (forall i, j :: 0 <= i < j < |runs| ==> runs[i].spec.idempotencyKey != runs[j].spec.idempotencyKey)
  }

  ghost predicate AccountValid(s: System) {
    && s.world.account.reserved == Outstanding(s.world.runs)
    && Charged(s.world.runs) == s.world.account.consumed + s.forgiven
    && s.world.account.consumed >= 0 && s.forgiven >= 0
    && s.world.account.consumed + s.world.account.reserved <= s.peak
  }

  ghost predicate CallsValid(s: System) {
    forall c :: c in s.calls ==>
      && c.run < |s.world.runs|
      && (c.report == TIMEOUT_REPORT || c.report in s.world.runs[c.run].completions)
  }

  ghost predicate Valid(s: System) { RunsValid(s.world.runs) && AccountValid(s) && CallsValid(s) }

  ghost predicate Progressed(a: System, b: System) {
    && |a.world.runs| <= |b.world.runs|
    && (forall i :: 0 <= i < |a.world.runs| ==> Evolves(a.world.runs[i], b.world.runs[i]))
    && a.calls <= b.calls
    && a.clock <= b.clock
  }

  /** What a transaction on a run leaves behind, with the settlement call it issues. */
  ghost predicate Handled(run: Run, r: Run, report: Option<Report>) {
    && Keeps(run, r)
    && (report.Some? ==> report.value == TIMEOUT_REPORT || report.value in r.completions)
  }

  lemma WorkerTransactKeeps(run: Run, act: RunAction, now: int, cfg: Config)
    requires Inv(run) && (act.Reading? || act.Renewing? || act.Observing?)
    ensures Handled(run, Transact(run, act, now, cfg).0, Transact(run, act, now, cfg).1)
  {
    match act
    case Reading(req, authorized) => ReadKeeps(run, req, now, authorized);
    case Renewing(req, authorized) => RenewKeeps(run, req, now, authorized, cfg);
    case Observing(req, authorized, item) => ObserveKeeps(run, req, now, authorized, item, cfg);
  }

  lemma CompletingTransactKeeps(run: Run, act: RunAction, now: int, cfg: Config)
    requires Inv(run) && (act.Completing? || act.Failing?)
    ensures Handled(run, Transact(run, act, now, cfg).0, Transact(run, act, now, cfg).1)
  {
    var report :=
      if act.Failing? then Ok(FAILURE_REPORT) else Evaluated(run, act.payloadEmpty, act.fixture, cfg);
    if Authorize(run, act.req, now, act.authorized) == 200 && report.Ok? {
      CompletionKeeps(run, act.req, now, act.authorized, report.value);
    }
  }

  lemma TransactKeeps(run: Run, act: RunAction, now: int, cfg: Config)
    requires Inv(run)
    ensures Handled(run, Transact(run, act, now, cfg).0, Transact(run, act, now, cfg).1)
  {
    if act.Dispatch? {
      DispatchKeeps(run, act.token, now, act.authorized, cfg);
    } else if act.Claiming? {
      ClaimKeeps(run, act.token, act.worker, act.nonce, now, act.identity, act.authorized, cfg);
    } else if act.Reconciling? {
      ReconcileKeeps(run, now);
    } else if act.Completing? || act.Failing? {
      CompletingTransactKeeps(run, act, now, cfg);
    } else if !act.Delivering? {
      WorkerTransactKeeps(run, act, now, cfg);
    }
  }

  lemma ReplacedRunsValid(runs: seq<Run>, i: nat, r: Run)
    requires RunsValid(runs) && i < |runs| && Inv(r) && Evolves(runs[i], r)
    ensures RunsValid(runs[i := r])
    ensures forall k :: 0 <= k < |runs| ==> Evolves(runs[k], runs[i := r][k])
  {
  }

  lemma CallsStayValid(s: System, t: System)
    requires CallsValid(s) && |s.world.runs| <= |t.world.runs| && t.calls == s.calls
    requires forall k :: 0 <= k < |s.world.runs| ==> Evolves(s.world.runs[k], t.world.runs[k])
    ensures CallsValid(t)
  {
    forall c | c in t.calls
      ensures c.run < |t.world.runs| && (c.report == TIMEOUT_REPORT || c.report in t.world.runs[c.run].completions)
    {
      assert Evolves(s.world.runs[c.run], t.world.runs[c.run]);
    }
  }

  lemma OnKeeps(s: System, i: nat, act: RunAction, cfg: Config)
    requires Valid(s) && i < |s.world.runs|
    ensures Valid(Step(s, On(i, act), cfg)) && Progressed(s, Step(s, On(i, act), cfg))
  {
    var (r, report) := Transact(s.world.runs[i], act, s.clock, cfg);
    TransactKeeps(s.world.runs[i], act, s.clock, cfg);
    HandledKeeps(s, i, r, report);
  }

  /** Replacing one run by a handled one, and noting its call, keeps the whole system valid. */
  lemma HandledKeeps(s: System, i: nat, r: Run, report: Option<Report>)
    requires Valid(s) && i < |s.world.runs| && Handled(s.world.runs[i], r, report)
    ensures var t := s.(world := s.world.(runs := s.world.runs[i := r]),
                        calls := if report.Some? then s.calls + {Call(i, report.value)} else s.calls);
      Valid(t) && Progressed(s, t)
  {
    var quiet := s.(world := s.world.(runs := s.world.runs[i := r]));
    ReplacedRunsValid(s.world.runs, i, r);
    ReplaceRun(s.world.runs, i, r);
    CallsStayValid(s, quiet);
  }

  lemma FinishingKeeps(s: System, call: Call, f: Finality, cfg: Config)
    requires Valid(s) && call in s.calls
    ensures var t := Step(s, Finishing(call, f), cfg);
      && Valid(t) && Progressed(s, t) && t.world.runs[call.run].settled
      && t.world.account.consumed + t.world.account.reserved <= s.world.account.consumed + s.world.account.reserved
  {
    var run := s.world.runs[call.run];
    if !run.settled {
      var t := Step(s, Finishing(call, f), cfg);
      assert t.world.runs == s.world.runs[call.run := Finish(run, call.report, f)];
      FinishedRuns(s, call, f);
      FinishedAccount(s, call, f, cfg);
      CallsStayValid(s, t);
    }
  }

  lemma FinishedRuns(s: System, call: Call, f: Finality)
    requires Valid(s) && call in s.calls
    ensures var done := Finish(s.world.runs[call.run], call.report, f);
      && done.settled
      && RunsValid(s.world.runs[call.run := done])
      && forall k :: 0 <= k < |s.world.runs| ==> Evolves(s.world.runs[k], s.world.runs[call.run := done][k])
  {
    FinishKeeps(s.world.runs[call.run], call.report, f);
    ReplacedRunsValid(s.world.runs, call.run, Finish(s.world.runs[call.run], call.report, f));
  }

  lemma FinishedAccount(s: System, call: Call, f: Finality, cfg: Config)
    requires AccountValid(s) && call in s.calls && call.run < |s.world.runs| && !s.world.runs[call.run].settled
    ensures var t := Step(s, Finishing(call, f), cfg);
      && AccountValid(t)
      && t.world.account.consumed + t.world.account.reserved <= s.world.account.consumed + s.world.account.reserved
  {
    FinishCharges(s.world.runs[call.run], call.report, f);
    ReplaceRun(s.world.runs, call.run, Finish(s.world.runs[call.run], call.report, f));
  }

  lemma FinishCharges(run: Run, report: Report, f: Finality)
    requires !run.settled
    ensures var done := Finish(run, report, f);
      done.settled && done.result.Some? && 0 <= Charge(done) <= run.reserved && Charge(done) == done.result.value.units
  {
  }

  /** The system after a creation: unchanged, or one new run longer. */
  lemma CreateIs(s: System, spec: Spec, admitted: bool, cfg: Config)
    ensures var t := Step(s, Create(spec, admitted), cfg);
      var run := NewRun(spec.(id := |s.world.runs|, createdAt := s.clock), Reservation(spec));
      t == s || (&& WithKey(s.world.runs, spec.idempotencyKey).None? && run.reserved >= 1
                 && s.world.account.consumed + s.world.account.reserved + run.reserved <= s.world.account.limit
                 && t == Grown(s, run))
  {
  }

  function Grown(s: System, run: Run): System {
    s.(world := World(s.world.account.(reserved := s.world.account.reserved + run.reserved), s.world.runs + [run]),
       peak := if s.world.account.limit > s.peak then s.world.account.limit else s.peak)
  }

  lemma GrownKeeps(s: System, run: Run)
    requires Valid(s) && Inv(run) && !run.settled && run.spec.id == |s.world.runs| && run.reserved >= 1
    requires forall k :: 0 <= k < |s.world.runs| ==> s.world.runs[k].spec.idempotencyKey != run.spec.idempotencyKey
    requires s.world.account.consumed + s.world.account.reserved + run.reserved <= s.world.account.limit
    ensures Valid(Grown(s, run)) && Progressed(s, Grown(s, run))
  {
    AddRun(s.world.runs, run);
    AppendedRunsValid(s.world.runs, run);
    CallsStayValid(s, Grown(s, run));
    hide RunsValid, CallsValid, Inv, Evolves, Outstanding, Charged;
  }

  lemma CreateKeeps(s: System, spec: Spec, admitted: bool, cfg: Config)
    requires Valid(s)
    ensures var t := Step(s, Create(spec, admitted), cfg); Valid(t) && Progressed(s, t)
  {
    var run := NewRun(spec.(id := |s.world.runs|, createdAt := s.clock), Reservation(spec));
    CreateIs(s, spec, admitted, cfg);
    StandingKeeps(s);
    NewRunValid(run);
    hide Step, Valid, Progressed, Inv, WithKey, Reservation, Grown;
    if Step(s, Create(spec, admitted), cfg) != s {
      GrownKeeps(s, run);
    }
  }

  lemma AppendedRunsValid(runs: seq<Run>, run: Run)
    requires RunsValid(runs) && Inv(run) && run.spec.id == |runs| && run.reserved >= 1
    requires forall k :: 0 <= k < |runs| ==> runs[k].spec.idempotencyKey != run.spec.idempotencyKey
    ensures RunsValid(runs + [run])
    ensures forall k :: 0 <= k < |runs| ==> Evolves(runs[k], (runs + [run])[k])
  {
  }

  lemma NewRunValid(run: Run)
    requires run == NewRun(run.spec, run.reserved)
    ensures Inv(run)
  {
  }

  /** Time, entitlement and the start of a period touch no run. */
  lemma QuietKeeps(s: System, a: Action, cfg: Config)
    requires Valid(s) && (a.Rollover? || a.Entitle? || a.Tick?)
    ensures Valid(Step(s, a, cfg)) && Progressed(s, Step(s, a, cfg))
  {
    hide RunsValid, Evolves, Transact, CreateRun, FinishRun, Charged, Outstanding;
    OutstandingIsNatural(s.world.runs);
    StandingKeeps(s);
  }

  lemma StandingKeeps(s: System)
    ensures Progressed(s, s)
  {
  }

  lemma StepKeeps(s: System, a: Action, cfg: Config)
    requires Valid(s)
    ensures Valid(Step(s, a, cfg)) && Progressed(s, Step(s, a, cfg))
  {
    hide Valid, Progressed, Transact, CreateRun, FinishRun;
    StandingKeeps(s);
    match a
    case Create(spec, admitted) => CreateKeeps(s, spec, admitted, cfg);
    case On(i, act) => if i < |s.world.runs| { OnKeeps(s, i, act, cfg); }
    case Finishing(call, f) => if call in s.calls { FinishingKeeps(s, call, f, cfg); }
    case _ => QuietKeeps(s, a, cfg);
  }

  lemma {:induction false} OutstandingIsNatural(runs: seq<Run>)
    ensures Outstanding(runs) >= 0
  {
    if runs != [] {
      OutstandingIsNatural(runs[..|runs| - 1]);
    }
  }

  lemma ProgressedTransitively(a: System, b: System, c: System)
    requires Progressed(a, b) && Progressed(b, c)
    ensures Progressed(a, c)
  {
    forall i | 0 <= i < |a.world.runs| ensures Evolves(a.world.runs[i], c.world.runs[i]) {
      EvolvesTransitively(a.world.runs[i], b.world.runs[i], c.world.runs[i]);
    }
  }

  lemma {:induction false} ExecuteKeeps(s: System, actions: seq<Action>, cfg: Config)
    requires Valid(s)
    ensures Valid(Execute(s, actions, cfg)) && Progressed(s, Execute(s, actions, cfg))
    decreases |actions|
  {
    if actions != [] {
      var t := Step(s, actions[0], cfg);
      StepKeeps(s, actions[0], cfg);
      ExecuteKeeps(t, actions[1..], cfg);
      ProgressedTransitively(s, t, Execute(t, actions[1..], cfg));
    }
  }
}
