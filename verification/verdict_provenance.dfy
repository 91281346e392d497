/** Where a PASS comes from: from the worker's requests to the settled verdict.

    Joins the capture log, completion and settlement over every interleaving: an active run
    is only ever settled as PASS when each slot of its frozen plan holds one durable
    capture that passed. */
module VerdictProvenance {
  import opened Common
  import opened Runs
  import opened Protocol
  import opened ExecutionSafety
  import opened RunAnswers
  import Captures

  /** Every slot of the plan was captured exactly once, and every capture passed. */
  ghost predicate EverySlotPassed(run: Run) {
    && (forall slot :: Captures.AssignedSlot(run.spec.plan, slot) ==>
          exists i :: 0 <= i < |run.captures| && run.captures[i].slot == slot)
    && (forall i, j :: 0 <= i < j < |run.captures| ==> run.captures[i].slot != run.captures[j].slot)
    && (forall c :: c in run.captures ==> c.evaluation.verdict == Captures.PASS)
  }

  /** The exact candidate was seen through a bound, approved observer that attested every trial. */
  ghost predicate CandidateObserved(run: Run, cfg: Config) {
    && run.spec.plan.bound && run.spec.plan.approved && run.spec.plan.exactCandidate && run.captures != []
    && forall c :: c in run.captures ==> cfg.attest(c.observation)
  }

  ghost predicate Backed(run: Run, cfg: Config) {
    && run.reserved == Reservation(run.spec)
    && Captures.EvaluatedBy(run.captures, cfg.evaluate)
    && (run.spec.adapter == Active ==>
          forall r :: r in run.completions && r.verdict == Captures.PASS ==> EverySlotPassed(run))
    && (run.spec.adapter == Active ==>
          forall r :: r in run.completions && r.candidateObserved ==> CandidateObserved(run, cfg))
    && (run.result.Some? ==>
          run.result.value.report == TIMEOUT_REPORT || run.result.value.report in run.completions)
    && (run.result.Some? && run.result.value.verdict == Captures.PASS ==> run.result.value.report.verdict == Captures.PASS)
    && (run.result.Some? && run.result.value.action == ALLOW ==> Earned(run, run.result.value))
  }

  /** Everything an ALLOW stands on. */
  ghost predicate Earned(run: Run, r: Settlement) {
    && r.verdict == Captures.PASS && r.report.verdict == Captures.PASS && r.report.task == Captures.SUCCESS
    && r.report.execution == COMPLETED && r.authorized && !r.blocked && !run.spec.qualification
    && (run.spec.hasObserver ==> r.report.candidateObserved)
  }

  lemma PositivePlan(spec: Spec)
    requires Reservation(spec) >= 1
    ensures spec.plan.trials >= 1 && spec.plan.variants >= 1
  {
  }

  lemma FullSlots(run: Run)
    requires Inv(run) && !run.spec.plan.recorded
    requires |run.captures| == run.spec.plan.trials * run.spec.plan.variants
    ensures forall slot :: Captures.AssignedSlot(run.spec.plan, slot) ==>
      exists i :: 0 <= i < |run.captures| && run.captures[i].slot == slot
  {
    Captures.FullLogCoversEverySlot(run.spec.plan, run.spec.id, run.captures);
    var items := Captures.Resubmitted(run.captures);
    forall slot | Captures.AssignedSlot(run.spec.plan, slot)
      ensures exists i :: 0 <= i < |run.captures| && run.captures[i].slot == slot
    {
      assert slot == Captures.Slot(Captures.Explicit(slot.variant.number), slot.index);
      assert slot in Elements(Captures.Slots(items));
      var i :| 0 <= i < |items| && Captures.Slots(items)[i] == slot;
      assert run.captures[i].slot == slot;
    }
  }

  /** The result a completion computes is PASS only over a full, passing log. */
  lemma CompletionIsBacked(run: Run, payloadEmpty: bool, fixture: Option<Report>, cfg: Config)
    requires Inv(run) && Backed(run, cfg) && run.reserved >= 1 && run.spec.adapter == Active
    ensures var r := Evaluated(run, payloadEmpty, fixture, cfg);
      r.Ok? && r.value.verdict == Captures.PASS ==> EverySlotPassed(run)
  {
    PositivePlan(run.spec);
    Captures.PersistedVerdict(run.spec.plan, run.spec.id, run.captures, cfg.evaluate, cfg.attest);
    var r := Evaluated(run, payloadEmpty, fixture, cfg);
    if r.Ok? && r.value.verdict == Captures.PASS {
      FullSlots(run);
    }
  }

  /** And it observes the candidate only when every captured trial was attested. */
  lemma CompletionIsObserved(run: Run, payloadEmpty: bool, fixture: Option<Report>, cfg: Config)
    requires run.spec.adapter == Active
    ensures var r := Evaluated(run, payloadEmpty, fixture, cfg);
      r.Ok? && r.value.candidateObserved ==> CandidateObserved(run, cfg)
  {
    var items := Captures.Resubmitted(run.captures);
    var again := (item: Captures.Item) =>
      cfg.evaluate(item.observation, Captures.TrustedTime(run.captures, Captures.SlotOf(item)));
    Captures.ObservedExactlyWhen(run.spec.plan, items, again, cfg.attest);
    hide Captures.Evaluate, Captures.AnswersEachOnce, Captures.CorrelationsDiffer;
    var r := Evaluated(run, payloadEmpty, fixture, cfg);
    if r.Ok? && r.value.candidateObserved {
      forall c | c in run.captures ensures cfg.attest(c.observation) {
        var i :| 0 <= i < |run.captures| && run.captures[i] == c;
        assert items[i].observation == c.observation;
      }
    }
  }

  lemma ObservingIsBacked(run: Run, act: RunAction, now: int, cfg: Config)
    requires Inv(run) && Backed(run, cfg) && act.Observing?
    ensures Backed(Transact(run, act, now, cfg).0, cfg)
  {
    if Authorize(run, act.req, now, act.authorized) == 200 {
      AcceptedMeansClaimant(run, act.req, now, act.authorized);
      Captures.PersistKeepsSound(run.spec.plan, run.spec.id, run.captures, act.item, now, cfg.evaluate);
    }
  }

  /** A result that is backed by its log leaves the run backed once it is recorded. */
  lemma RecordingIsBacked(run: Run, req: Request, report: Report, cfg: Config)
    requires Backed(run, cfg) && run.completions == [] && req.lease < |run.leases|
    requires run.spec.adapter == Active ==>
      (report.verdict == Captures.PASS ==> EverySlotPassed(run)) && (report.candidateObserved ==> CandidateObserved(run, cfg))
    ensures Backed(RecordCompletion(run, req, report), cfg)
  {
    assert run.completions + [report] == [report];
    var next := RecordCompletion(run, req, report);
    assert EverySlotPassed(run) ==> EverySlotPassed(next);
    assert CandidateObserved(run, cfg) ==> CandidateObserved(next, cfg);
    hide EverySlotPassed, CandidateObserved, Captures.EvaluatedBy, Reservation;
  }

  lemma CompletingIsBacked(run: Run, act: RunAction, now: int, cfg: Config)
    requires Inv(run) && Backed(run, cfg) && run.reserved >= 1 && (act.Completing? || act.Failing?)
    ensures Backed(Transact(run, act, now, cfg).0, cfg)
  {
    if Authorize(run, act.req, now, act.authorized) == 200 {
      AcceptedMeansClaimant(run, act.req, now, act.authorized);
      if act.Failing? {
        RecordingIsBacked(run, act.req, FAILURE_REPORT, cfg);
      } else {
        var report := Evaluated(run, act.payloadEmpty, act.fixture, cfg);
        if run.spec.adapter == Active {
          CompletionIsBacked(run, act.payloadEmpty, act.fixture, cfg);
          CompletionIsObserved(run, act.payloadEmpty, act.fixture, cfg);
        }
        hide Evaluated, EverySlotPassed, CandidateObserved;
        if report.Ok? {
          RecordingIsBacked(run, act.req, report.value, cfg);
        }
      }
    }
    hide Inv, Authorize, Backed, RecordCompletion, Evaluated;
  }

  /** Any other transaction touches neither evidence, completion nor result. */
  lemma OthersAreQuiet(run: Run, act: RunAction, now: int, cfg: Config)
    requires !act.Observing? && !act.Completing? && !act.Failing?
    ensures var r := Transact(run, act, now, cfg).0;
      && r.spec == run.spec && r.reserved == run.reserved && r.captures == run.captures
      && r.completions == run.completions && r.result == run.result
  {
  }

  lemma TransactIsBacked(run: Run, act: RunAction, now: int, cfg: Config)
    requires Inv(run) && Backed(run, cfg) && run.reserved >= 1
    ensures Backed(Transact(run, act, now, cfg).0, cfg)
  {
    if act.Observing? {
      ObservingIsBacked(run, act, now, cfg);
    } else if act.Completing? || act.Failing? {
      CompletingIsBacked(run, act, now, cfg);
    } else {
      OthersAreQuiet(run, act, now, cfg);
    }
  }

  lemma FinishIsBacked(run: Run, report: Report, f: Finality, cfg: Config)
    requires Inv(run) && Backed(run, cfg) && (report == TIMEOUT_REPORT || report in run.completions)
    ensures Backed(Finish(run, report, f), cfg)
  {
    AllowMeansProven(run, report, f);
    hide Inv, FailureCaptured;
  }

  ghost predicate AllBacked(s: System, cfg: Config) {
    Valid(s) && forall i :: 0 <= i < |s.world.runs| ==> Backed(s.world.runs[i], cfg)
  }

  lemma OldRunIsBacked(s: System, a: Action, cfg: Config, i: nat)
    requires AllBacked(s, cfg) && i < |s.world.runs|
    ensures i < |Step(s, a, cfg).world.runs| && Backed(Step(s, a, cfg).world.runs[i], cfg)
  {
    RunAfter(s, a, cfg, i);
    var run := s.world.runs[i];
    assert Inv(run) && Backed(run, cfg) && run.reserved >= 1;
    hide Step, Backed, Inv, Transact, Finish;
    if a.On? && a.run == i {
      TransactIsBacked(run, a.act, s.clock, cfg);
    }
    if a.Finishing? && a.call in s.calls && a.call.run == i {
      FinishIsBacked(run, a.call.report, a.finality, cfg);
    }
  }

  lemma StepIsBacked(s: System, a: Action, cfg: Config)
    requires AllBacked(s, cfg)
    ensures AllBacked(Step(s, a, cfg), cfg)
  {
    hide Step, Valid, Backed, Progressed;
    StepKeeps(s, a, cfg);
    var t := Step(s, a, cfg);
    forall i | 0 <= i < |t.world.runs| ensures Backed(t.world.runs[i], cfg) {
      if i < |s.world.runs| {
        OldRunIsBacked(s, a, cfg, i);
      } else {
        CreatedIsBacked(s, a, cfg);
      }
    }
  }

  lemma CreatedIsBacked(s: System, a: Action, cfg: Config)
    requires |Step(s, a, cfg).world.runs| > |s.world.runs|
    ensures |Step(s, a, cfg).world.runs| == |s.world.runs| + 1 && Backed(Step(s, a, cfg).world.runs[|s.world.runs|], cfg)
  {
  }

  lemma {:induction false} ExecuteIsBacked(s: System, actions: seq<Action>, cfg: Config)
    requires AllBacked(s, cfg)
    ensures AllBacked(Execute(s, actions, cfg), cfg)
    decreases |actions|
  {
    if actions != [] {
      StepIsBacked(s, actions[0], cfg);
      ExecuteIsBacked(Step(s, actions[0], cfg), actions[1..], cfg);
    }
  }

  /** No active run is ever settled as PASS, let alone allowed, unless every slot of its plan
      holds exactly one capture and all of them passed. */
  lemma PassIsProven(limit: nat, clock: int, before: seq<Action>, cfg: Config, i: nat)
    requires i < |Reach(limit, clock, before, cfg).world.runs|
    ensures var run := Reach(limit, clock, before, cfg).world.runs[i];
      run.spec.adapter == Active && run.settled && run.result.Some?
        && (run.result.value.verdict == Captures.PASS || run.result.value.action == ALLOW) ==>
          EverySlotPassed(run)
  {
    ExecuteIsBacked(Initial(limit, clock), before, cfg);
    var run := Reach(limit, clock, before, cfg).world.runs[i];
    assert Backed(run, cfg);
  }

  /** Over every interleaving, however the run ended: an ALLOW was earned by the one completion on
      record, which a worker that claimed the run reported and the account paid in full, with
      every claim of `finish_run` met at that moment and no captured trial failed; an active run
      with an observer had every captured trial attested on its exact candidate. */
  lemma AllowIsEarned(limit: nat, clock: int, before: seq<Action>, cfg: Config, i: nat)
    requires i < |Reach(limit, clock, before, cfg).world.runs|
    ensures var run := Reach(limit, clock, before, cfg).world.runs[i];
      run.settled && run.result.Some? && run.result.value.action == ALLOW ==>
        && Earned(run, run.result.value)
        && run.completions == [run.result.value.report] && Claimed(run)
        && run.result.value.units == run.reserved && Charge(run) == run.reserved
        && !FailureCaptured(run)
        && (run.spec.adapter == Active && run.spec.hasObserver ==> CandidateObserved(run, cfg))
  {
    ExecuteIsBacked(Initial(limit, clock), before, cfg);
    var run := Reach(limit, clock, before, cfg).world.runs[i];
    assert Backed(run, cfg) && Inv(run);
    hide Execute, Valid;
  }

  /** Everything `finish_run` asks before it allows a completed run. */
  predicate Deserved(spec: Spec, report: Report, f: Finality) {
    && report.verdict == Captures.PASS && report.task == Captures.SUCCESS && report.execution == COMPLETED
    && f.authorized && !f.blocked && !spec.qualification
    && (spec.hasObserver ==> report.candidateObserved) && (spec.hasBaseline ==> f.compatible)
  }

  /** Through a crash and its recovery: a recorded completion ends as ALLOW exactly when it passed
      with its task done on an unfailed log and everything `finish_run` asks holds then. */
  lemma RecoveredAllowExactlyWhen(s: System, cfg: Config, i: nat, f: Finality)
    requires Valid(s) && i < |s.world.runs| && s.world.runs[i].completions != [] && !s.world.runs[i].settled
    ensures var run := s.world.runs[i];
      var report := run.completions[0];
      var t := Step(Step(s, On(i, Reconciling), cfg), Finishing(Call(i, report), f), cfg);
      && i < |t.world.runs| && t.world.runs[i].result.Some?
      && (t.world.runs[i].result.value.action == ALLOW <==> Deserved(run.spec, report, f) && !FailureCaptured(run))
  {
    var run := s.world.runs[i];
    var report := run.completions[0];
    RecoveredRun(s, cfg, i, f);
    AllowMeansProven(run, report, f);
    hide Settle, Step, Valid, FailureCaptured;
  }

  lemma RecoveredRun(s: System, cfg: Config, i: nat, f: Finality)
    requires Valid(s) && i < |s.world.runs| && s.world.runs[i].completions != [] && !s.world.runs[i].settled
    ensures var run := s.world.runs[i];
      var report := run.completions[0];
      var t := Step(Step(s, On(i, Reconciling), cfg), Finishing(Call(i, report), f), cfg);
      i < |t.world.runs| && t.world.runs[i].result == Some(Settle(run, report, f))
  {
    hide Settle;
  }

  // ---- What a recorded completion comes to ---------------------------------------------------------

  /** One of these settlement calls of the recorded result ended the run: as an ALLOW exactly when
      it passed on the log as it was recorded and everything asked held at that call, and otherwise
      as a BLOCK exactly after a failure, with adverse memory, unauthorized or under such a policy. */
  ghost predicate EndedAsRecorded(before: Run, after: Run, i: nat, report: Report, more: seq<Action>) {
    exists f: Finality :: Finishing(Call(i, report), f) in more
      && after.result.Some? && after.result.value.report == report
      && (after.result.value.action == ALLOW <==> Deserved(before.spec, report, f) && !FailureCaptured(before))
      && (after.result.value.action == BLOCK <==>
            && !(Deserved(before.spec, report, f) && !FailureCaptured(before))
            && (Failed(before, report) || f.blocked || !f.authorized || before.spec.blockPolicy))
  }

  /** Once a result is recorded, no transaction touches the plan or the log. */
  lemma RecordedIsFrozen(run: Run, act: RunAction, now: int, cfg: Config)
    requires Inv(run) && run.completions != []
    ensures var r := Transact(run, act, now, cfg).0; r.spec == run.spec && r.captures == run.captures
  {
    if act.Observing? {
      if Authorize(run, act.req, now, act.authorized) == 200 {
        AcceptedMeansClaimant(run, act.req, now, act.authorized);
        assert false;
      }
    } else if act.Completing? || act.Failing? {
      hide Evaluated;
    } else {
      OthersAreQuiet(run, act, now, cfg);
    }
  }

  /** A step leaves a completed run as it was recorded, or settles it with what was recorded. */
  lemma RecordedStep(s: System, a: Action, cfg: Config, i: nat, report: Report)
    requires CompletionStands(s, i, report) && !s.world.runs[i].settled
    ensures var run := s.world.runs[i]; var t := Step(s, a, cfg);
      && CompletionStands(t, i, report) && t.world.runs[i].spec == run.spec && t.world.runs[i].captures == run.captures
      && (t.world.runs[i].settled ==> EndedAsRecorded(run, t.world.runs[i], i, report, [a]))
  {
    CompletionStandsStep(s, a, cfg, i, report);
    RunAfter(s, a, cfg, i);
    var run := s.world.runs[i];
    hide Step, Transact, Settle, Progressed;
    if a.On? && a.run == i {
      RecordedIsFrozen(run, a.act, s.clock, cfg);
      OnlyTheRecordedResult(run, a.act, s.clock, cfg, report);
    } else if a.Finishing? && a.call in s.calls && a.call.run == i {
      assert a.call.report in run.completions;
      SettleIsMerited(run, report, a.finality);
      assert a == Finishing(Call(i, report), a.finality) && a in [a];
    }
  }

  lemma {:induction false} RecordedContinues(s: System, more: seq<Action>, cfg: Config, i: nat, report: Report)
    requires CompletionStands(s, i, report) && !s.world.runs[i].settled
    ensures var t := Execute(s, more, cfg);
      i < |t.world.runs| && (t.world.runs[i].settled ==> EndedAsRecorded(s.world.runs[i], t.world.runs[i], i, report, more))
    decreases |more|
  {
    if more != [] {
      var run, next := s.world.runs[i], Step(s, more[0], cfg);
      var t := Execute(next, more[1..], cfg);
      RecordedStep(s, more[0], cfg, i, report);
      Ancestry(next, more[1..], cfg, i);
      hide Step, Execute, Valid, Progressed, Inv;
      if next.world.runs[i].settled {
        EndedEarlier(run, next.world.runs[i], t.world.runs[i], i, report, [more[0]], more);
      } else {
        RecordedContinues(next, more[1..], cfg, i, report);
        if t.world.runs[i].settled {
          EndedEarlier(next.world.runs[i], t.world.runs[i], t.world.runs[i], i, report, more[1..], more);
          SameLogSameEnd(run, next.world.runs[i], t.world.runs[i], i, report, more);
        }
      }
    }
  }

  lemma EndedEarlier(before: Run, after: Run, later: Run, i: nat, report: Report, part: seq<Action>, more: seq<Action>)
    requires EndedAsRecorded(before, after, i, report, part) && later.result == after.result
    requires forall a :: a in part ==> a in more
    ensures EndedAsRecorded(before, later, i, report, more)
  {
  }

  lemma SameLogSameEnd(before: Run, same: Run, after: Run, i: nat, report: Report, more: seq<Action>)
    requires EndedAsRecorded(same, after, i, report, more)
    requires before.spec == same.spec && before.captures == same.captures
    ensures EndedAsRecorded(before, after, i, report, more)
  {
  }

  /** However execution continues, a settlement is one of the recorded result, on its merits. */
  ghost predicate EndsOnItsMerits(s: System, cfg: Config, i: nat, report: Report)
    requires i < |s.world.runs|
  {
    forall more: seq<Action> :: var t := Execute(s, more, cfg);
      i < |t.world.runs| && t.world.runs[i].settled ==> EndedAsRecorded(s.world.runs[i], t.world.runs[i], i, report, more)
  }

  /** Through any crashes, recoveries and other traffic, whatever settles a completed run makes it
      an ALLOW exactly when the recorded result deserved it at that call; that can be said before
      the settlement exactly when no timeout call is still in flight. */
  lemma CompletedAllowExactlyWhen(s: System, cfg: Config, i: nat, report: Report)
    requires Valid(s) && i < |s.world.runs|
    requires s.world.runs[i].completions == [report] && !s.world.runs[i].settled
    ensures EndsOnItsMerits(s, cfg, i, report) <==> Call(i, TIMEOUT_REPORT) !in s.calls
  {
    if Call(i, TIMEOUT_REPORT) !in s.calls {
      forall more: seq<Action>
        ensures var t := Execute(s, more, cfg);
          i < |t.world.runs| && (t.world.runs[i].settled ==> EndedAsRecorded(s.world.runs[i], t.world.runs[i], i, report, more))
      {
        RecordedContinues(s, more, cfg, i, report);
      }
    } else {
      OnlyTheRecordedResult(s.world.runs[i], Reconciling, s.clock, cfg, report);
      TimeoutCallSettles(s, cfg, i);
      var late := [Finishing(Call(i, TIMEOUT_REPORT), Finality(true, false, true))];
      hide Execute, Valid, Transact;
      assert !EndedAsRecorded(s.world.runs[i], Execute(s, late, cfg).world.runs[i], i, report, late);
    }
  }

  // ---- What every settlement is ----------------------------------------------------------------------

  /** One of these calls settled the run with its report, on its merits. */
  ghost predicate SettledOn(run: Run, i: nat, actions: seq<Action>) {
    exists f: Finality :: run.result.Some?
      && Finishing(Call(i, run.result.value.report), f) in actions
      && Merits(run, run.result.value.report, f, run.result.value)
  }

  ghost predicate AllSettledOn(s: System, actions: seq<Action>) {
    forall i :: 0 <= i < |s.world.runs| && s.world.runs[i].settled ==> SettledOn(s.world.runs[i], i, actions)
  }

  lemma FinishIsMerited(run: Run, i: nat, report: Report, f: Finality, actions: seq<Action>)
    requires !run.settled && Finishing(Call(i, report), f) in actions
    ensures SettledOn(Finish(run, report, f), i, actions)
  {
    var done := Finish(run, report, f);
    SettleIsMerited(run, report, f);
    assert Merits(done, report, f, done.result.value);
  }

  lemma MoreActions(run: Run, later: Run, i: nat, actions: seq<Action>, more: seq<Action>)
    requires SettledOn(run, i, actions) && forall a :: a in actions ==> a in more
    requires later.spec == run.spec && later.captures == run.captures && later.result == run.result
    ensures SettledOn(later, i, more)
  {
    var f: Finality :| Finishing(Call(i, run.result.value.report), f) in actions
      && Merits(run, run.result.value.report, f, run.result.value);
    assert Merits(later, run.result.value.report, f, run.result.value);
  }

  lemma StepIsMerited(s: System, actions: seq<Action>, a: Action, cfg: Config)
    requires Valid(s) && AllSettledOn(s, actions)
    ensures AllSettledOn(Step(s, a, cfg), actions + [a])
  {
    var t := Step(s, a, cfg);
    forall i | 0 <= i < |t.world.runs| && t.world.runs[i].settled ensures SettledOn(t.world.runs[i], i, actions + [a]) {
      if i < |s.world.runs| {
        Lineage(s, a, cfg, i);
        RunAfter(s, a, cfg, i);
        SettledRun(s.world.runs[i], t.world.runs[i], i, s, a, actions, cfg);
      } else {
        CreatedIsOpen(s, a, cfg, i);
      }
    }
  }

  lemma CreatedIsOpen(s: System, a: Action, cfg: Config, i: nat)
    requires |s.world.runs| <= i < |Step(s, a, cfg).world.runs|
    ensures !Step(s, a, cfg).world.runs[i].settled
  {
  }

  lemma SettledRun(run: Run, later: Run, i: nat, s: System, a: Action, actions: seq<Action>, cfg: Config)
    requires Inv(run) && Evolves(run, later) && later.settled && (run.settled ==> SettledOn(run, i, actions))
    requires later == run
             || (a.On? && a.run == i && later == Transact(run, a.act, s.clock, cfg).0)
             || (a.Finishing? && a.call in s.calls && a.call.run == i && later == Finish(run, a.call.report, a.finality))
    ensures SettledOn(later, i, actions + [a])
  {
    if run.settled {
      MoreActions(run, later, i, actions, actions + [a]);
    } else if a.On? && a.run == i && later == Transact(run, a.act, s.clock, cfg).0 {
      TransactKeeps(run, a.act, s.clock, cfg);
      hide Transact;
      assert false;
    } else {
      assert a == Finishing(Call(i, a.call.report), a.finality) && a in actions + [a];
      FinishIsMerited(run, i, a.call.report, a.finality, actions + [a]);
    }
  }

  lemma {:induction false} ExecuteIsMerited(s: System, actions: seq<Action>, cfg: Config)
    requires Valid(s) && forall i :: 0 <= i < |s.world.runs| ==> !s.world.runs[i].settled
    ensures Valid(Execute(s, actions, cfg)) && AllSettledOn(Execute(s, actions, cfg), actions)
    decreases |actions|
  {
    if actions != [] {
      var init, last := actions[..|actions| - 1], actions[|actions| - 1];
      ExecuteIsMerited(s, init, cfg);
      ExecuteAppend(s, init, last, cfg);
      assert actions == init + [last];
      hide Execute, Step, Valid, AllSettledOn;
      StepIsMerited(Execute(s, init, cfg), init, last, cfg);
      StepKeeps(Execute(s, init, cfg), last, cfg);
    }
  }

  /** Every settlement of every interleaving is what the run merits by its plan, its log and the
      answers of the very call that settled it: ALLOW, BLOCK and WARN alike. A run that did not
      complete is never allowed; it is blocked after a captured failure, with adverse memory, without
      authorization or under a BLOCK policy, and else only warned of. */
  lemma SettledOnItsMerits(limit: nat, clock: int, before: seq<Action>, cfg: Config, i: nat)
    requires i < |Reach(limit, clock, before, cfg).world.runs| && Reach(limit, clock, before, cfg).world.runs[i].settled
    ensures var run := Reach(limit, clock, before, cfg).world.runs[i];
      exists f: Finality :: run.result.Some?
        && Finishing(Call(i, run.result.value.report), f) in before
        && Merits(run, run.result.value.report, f, run.result.value)
        && (run.result.value.report.execution != COMPLETED ==>
              run.result.value.action ==
                if Failed(run, run.result.value.report) || f.blocked || !f.authorized || run.spec.blockPolicy then BLOCK else WARN)
  {
    var run := Reach(limit, clock, before, cfg).world.runs[i];
    ReachableIsValid(limit, clock, [], cfg);
    ExecuteIsMerited(Initial(limit, clock), before, cfg);
    hide Reach, Execute, Valid;
    assert SettledOn(run, i, before);
    var f: Finality :| Finishing(Call(i, run.result.value.report), f) in before
      && Merits(run, run.result.value.report, f, run.result.value);
    assert run.result.value.action != ALLOW && run.result.value.action != BLOCK ==> run.result.value.action == WARN;
  }
}
