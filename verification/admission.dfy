/** When a run is created, in every system that the protocol can reach.

    Models the idempotency key, the admission and the reservation of `create_run` of `api.py`. */
module Admission {
  import opened Common
  import opened Runs
  import opened Protocol
  import opened ExecutionSafety

  /** No two runs were created under one idempotency key. */
  predicate KeysDiffer(runs: seq<Run>) {
    forall i, j :: 0 <= i < j < |runs| ==> runs[i].spec.idempotencyKey != runs[j].spec.idempotencyKey
  }

  lemma StepKeepsKeys(s: System, a: Action, cfg: Config)
    requires Valid(s) && KeysDiffer(s.world.runs)
    ensures KeysDiffer(Step(s, a, cfg).world.runs)
  {
    var t := Step(s, a, cfg);
    StepKeeps(s, a, cfg);
    assert forall i :: 0 <= i < |s.world.runs| ==> t.world.runs[i].spec == s.world.runs[i].spec by {
      forall i | 0 <= i < |s.world.runs| ensures t.world.runs[i].spec == s.world.runs[i].spec {
        assert Evolves(s.world.runs[i], t.world.runs[i]);
      }
    }
    NewKey(s, a, cfg);
    hide Step, Valid, Progressed;
  }

  /** At most one run is added, under a key that no run had. */
  lemma NewKey(s: System, a: Action, cfg: Config)
    ensures var t := Step(s, a, cfg);
      && |s.world.runs| <= |t.world.runs| <= |s.world.runs| + 1
      && (|t.world.runs| == |s.world.runs| + 1 ==>
            forall i :: 0 <= i < |s.world.runs| ==>
              s.world.runs[i].spec.idempotencyKey != t.world.runs[|s.world.runs|].spec.idempotencyKey)
  {
  }

  lemma {:induction false} ExecuteKeepsKeys(s: System, actions: seq<Action>, cfg: Config)
    requires Valid(s) && KeysDiffer(s.world.runs)
    ensures KeysDiffer(Execute(s, actions, cfg).world.runs)
    decreases |actions|
  {
    if actions != [] {
      StepKeepsKeys(s, actions[0], cfg);
      StepKeeps(s, actions[0], cfg);
      ExecuteKeepsKeys(Step(s, actions[0], cfg), actions[1..], cfg);
    }
  }

  /** One unit for each trial of each variant, twice for a synthetic fixture, which also runs the
      baseline. */
  function Units(spec: Spec): nat {
    if spec.adapter == SyntheticFixture then 2 * (spec.plan.trials * spec.plan.variants)
    else spec.plan.trials * spec.plan.variants
  }

  lemma ReservationIs(spec: Spec)
    ensures Reservation(spec) == Units(spec)
  {
  }

  /** A creation in a reachable system: its key decides first, and answers with the one run it made; a
      new key makes a queued run and reserves its units, if they are admitted, positive and within the
      allowance of an active account. */
  lemma CreateExactlyWhen(limit: nat, clock: int, before: seq<Action>, cfg: Config, spec: Spec, admitted: bool)
    ensures var s := Reach(limit, clock, before, cfg);
      var w := s.world;
      var r := CreateRun(w, spec, admitted, s.clock);
      if exists i :: 0 <= i < |w.runs| && w.runs[i].spec.idempotencyKey == spec.idempotencyKey then
        forall i :: 0 <= i < |w.runs| && w.runs[i].spec.idempotencyKey == spec.idempotencyKey ==>
          r == if w.runs[i].spec.digest == spec.digest then Ok((w, i)) else Rejected(409)
      else if !admitted then r == Rejected(403)
      else if Units(spec) == 0 then r == Rejected(422)
      else if !w.account.active || w.account.consumed + w.account.reserved + Units(spec) > w.account.limit then r == Rejected(402)
      else
        var run := Run(spec.(id := |w.runs|, createdAt := s.clock), Units(spec), QUEUED, false, None, [], {}, [], [], PENDING);
        r == Ok((World(w.account.(reserved := w.account.reserved + Units(spec)), w.runs + [run]), |w.runs|))
  {
    var s := Reach(limit, clock, before, cfg);
    ReachableIsValid(limit, clock, [], cfg);
    ExecuteKeepsKeys(Initial(limit, clock), before, cfg);
    assert KeysDiffer(s.world.runs);
    hide Reach, Execute, Valid, Reservation;
    ReservationIs(spec);
    hide Units;
    var found := WithKey(s.world.runs, spec.idempotencyKey);
    forall i | 0 <= i < |s.world.runs| && s.world.runs[i].spec.idempotencyKey == spec.idempotencyKey
      ensures found == Some(i)
    {
    }
    hide KeysDiffer;
  }
}
