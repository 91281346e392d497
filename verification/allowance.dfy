/** The execution protocol's account is the subscription's account.

    `Protocol` lets a period roll over and an allowance change at any time; `Contracts` says
    when they do. Here each commercial operation is shown to be protocol steps, so what is
    proved over every run of the protocol holds under the lazily reconciled subscription. */
module Allowance {
  import opened Common
  import opened Subscription
  import opened Contracts
  import Protocol
  import Runs

  function AccountOf(b: Book): Protocol.Account {
    Protocol.Account(b.account.consumed, b.account.reserved, Budget(b), Live(b))
  }

  /** The protocol steps one reconciliation stands for. */
  function StepsOf(b: Book, clock: int): seq<Protocol.Action>
    requires Sound(b.state)
  {
    var r := Reconcile(b, clock);
    (if Due(b, clock) then [Protocol.Rollover] else []) + [Protocol.Entitle(Budget(r), Live(r))]
  }

  lemma OneStep(s: Protocol.System, a: Protocol.Action, cfg: Runs.Config)
    ensures Protocol.Execute(s, [a], cfg) == Protocol.Step(s, a, cfg)
  {
    assert [a][1..] == [];
  }

  lemma TwoSteps(s: Protocol.System, a: Protocol.Action, b: Protocol.Action, cfg: Runs.Config)
    ensures Protocol.Execute(s, [a, b], cfg) == Protocol.Step(Protocol.Step(s, a, cfg), b, cfg)
  {
    assert [a, b][1..] == [b];
    OneStep(Protocol.Step(s, a, cfg), b, cfg);
  }

  lemma ReconciliationKeeps(b: Book, clock: int)
    requires Sound(b.state)
    ensures Reconcile(b, clock).account.reserved == b.account.reserved
    ensures Reconcile(b, clock).account.consumed == if Due(b, clock) then 0 else b.account.consumed
  {
    hide Settled;
  }

  lemma RolledOver(s: Protocol.System, cfg: Runs.Config)
    ensures Protocol.Step(s, Protocol.Rollover, cfg).world ==
            Protocol.World(s.world.account.(consumed := 0), s.world.runs)
  {
  }

  lemma Entitled(s: Protocol.System, limit: nat, active: bool, cfg: Runs.Config)
    ensures Protocol.Step(s, Protocol.Entitle(limit, active), cfg).world ==
            Protocol.World(s.world.account.(limit := limit, active := active), s.world.runs)
  {
  }

  /** Reconciling rolls the period over if one is due, fixes the allowance, and nothing else. */
  lemma ReconciliationIsSteps(s: Protocol.System, b: Book, clock: int, cfg: Runs.Config)
    requires Sound(b.state) && s.world.account == AccountOf(b)
    ensures Protocol.Execute(s, StepsOf(b, clock), cfg).world == Protocol.World(AccountOf(Reconcile(b, clock)), s.world.runs)
  {
    var r := Reconcile(b, clock);
    var entitle := Protocol.Entitle(Budget(r), Live(r));
    ReconciliationKeeps(b, clock);
    hide Reconcile, Budget, Live, Due, Sound, Protocol.Step, Protocol.Execute;
    if Due(b, clock) {
      assert StepsOf(b, clock) == [Protocol.Rollover, entitle];
      TwoSteps(s, Protocol.Rollover, entitle, cfg);
      RolledOver(s, cfg);
      Entitled(Protocol.Step(s, Protocol.Rollover, cfg), Budget(r), Live(r), cfg);
    } else {
      assert StepsOf(b, clock) == [entitle];
      OneStep(s, entitle, cfg);
      Entitled(s, Budget(r), Live(r), cfg);
    }
  }

  /** A new run is admitted exactly when the reconciled book can hold its reservation. */
  lemma AdmissionIsReservation(w: Protocol.World, b: Book, spec: Runs.Spec, now: int)
    requires w.account == AccountOf(b)
    requires Protocol.WithKey(w.runs, spec.idempotencyKey).None? && Protocol.Reservation(spec) >= 1
    ensures var created := Protocol.CreateRun(w, spec, true, now);
      var held := Held(b, Protocol.Reservation(spec));
      && (created.Ok? <==> held.Ok?)
      && (created.Ok? ==> created.value.0.account == AccountOf(held.value))
      && (created.Rejected? ==> created.code == held.code)
  {
    hide Protocol.Reservation;
  }

  /** Settling a run is the charge that finds the book as it is. */
  lemma SettlementIsCharge(w: Protocol.World, b: Book, i: nat, report: Runs.Report, f: Runs.Finality)
    requires w.account == AccountOf(b) && i < |w.runs| && !w.runs[i].settled && w.runs[i].reserved <= b.account.reserved
    ensures Protocol.FinishRun(w, i, report, f).account ==
            AccountOf(Charged(b, w.runs[i].reserved, Runs.Finish(w.runs[i], report, f).result.value.units))
  {
  }
}
