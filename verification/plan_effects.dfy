/** What a commercial command turns out to mean later.

    Commands of `mutate` and the expiries of `_reconcile` of `commercial.py`, taken together:
    the plan in force at any later time, if nothing else is asked meanwhile. */
module PlanEffects {
  import opened Common
  import opened Calendar
  import opened Subscription
  import opened Contracts

  /** The state found at `later` after an accepted command. */
  function Found(next: State, later: int): State
    requires Sound(next)
  {
    Settled(next, later)
  }

  lemma FoundIsReconciled(next: State, account: Account, later: int)
    requires Sound(next)
    ensures Reconcile(Book(next, Project(account, next)), later).state == Found(next, later)
  {
    if !Changes(next, later) {
      NoChangeSettles(next, later);
    }
  }

  /** An upgrade lasts: the chosen plan with its own entitlements, at every later time. */
  lemma UpgradeLasts(s: State, c: Offers, clock: int, plan: string, later: int)
    requires s.fallback.Some? && Transition(s, c, clock, Upgrade(plan)).Ok?
    ensures var next := Transition(s, c, clock, Upgrade(plan)).value;
      && Sound(next)
      && plan in c.plans && !c.plans[plan].salesAssisted && plan != "free"
      && c.plans[plan].entitlements.systems >= s.version.entitlements.systems
      && Found(next, later).plan == plan && Effective(Found(next, later)) == c.plans[plan].entitlements
      && Found(next, later).status == ACTIVE
  {
    var next := Transition(s, c, clock, Upgrade(plan)).value;
    hide Settled;
    PlanIs(next, later);
    TermsAre(next, later);
  }

  /** A trial holds its plan for exactly its days and then gives way to the fallback. */
  lemma TrialEnds(s: State, c: Offers, clock: int, plan: string, later: int)
    requires s.fallback.Some? && Transition(s, c, clock, StartTrial(plan)).Ok?
    ensures var next := Transition(s, c, clock, StartTrial(plan)).value;
      && Sound(next) && next.trialUsed && s.plan == "free" && !s.trialUsed
      && (if later < clock + c.trialDays * DAY
          then Found(next, later).plan == plan && Found(next, later).status == TRIALING
          else Found(next, later).plan == s.fallback.value.id && Found(next, later).status == FREE
               && Found(next, later).trial.None?)
  {
    var next := Transition(s, c, clock, StartTrial(plan)).value;
    hide Settled;
    PlanIs(next, later);
    TermsAre(next, later);
  }

  /** A downgrade or cancellation changes nothing until the period ends, and takes effect then
      unless a trial or grace ended first. */
  lemma DowngradeWaits(s: State, c: Offers, clock: int, command: Command, later: int)
    requires Sound(s) && (command.Downgrade? || command.Cancel?) && Transition(s, c, clock, command).Ok?
    ensures var next := Transition(s, c, clock, command).value;
      var id := if command.Cancel? then "free" else command.plan;
      && Sound(next) && id in c.plans
      && c.plans[id].entitlements.systems <= s.version.entitlements.systems
      && (!PeriodOver(s, later) && !TermOver(s, later) && !OverrideOver(s, later) ==>
            Found(next, later).plan == s.plan && Effective(Found(next, later)) == Effective(s) && Found(next, later).status == s.status)
      && (PeriodOver(s, later) && !TermOver(s, later) ==>
            Found(next, later).plan == id && Effective(Found(next, later)) == c.plans[id].entitlements)
      && (TermOver(s, later) ==> Found(next, later).plan == s.fallback.value.id && Found(next, later).scheduled.None?)
  {
    var next := Transition(s, c, clock, command).value;
    hide Settled;
    PlanIs(next, later);
    TermsAre(next, later);
  }

  /** A contract replaces exactly the entitlements it names. */
  lemma PatchReplaces(e: Entitlements, p: Patch)
    ensures var r := Patched(e, p);
      && (p.systems.None? ==> r.systems == e.systems) && (p.systems.Some? ==> r.systems == p.systems.value)
      && (p.environments.None? ==> r.environments == e.environments)
      && (p.environments.Some? ==> r.environments == p.environments.value)
      && (p.properties.None? ==> r.properties == e.properties) && (p.properties.Some? ==> r.properties == p.properties.value)
      && (p.budget.None? ==> r.budget == e.budget) && (p.budget.Some? ==> r.budget == p.budget.value)
      && (p.retention.None? ==> r.retention == e.retention) && (p.retention.Some? ==> r.retention == p.retention.value)
      && (p.capabilities.None? ==> r.capabilities == e.capabilities)
      && (p.capabilities.Some? ==> r.capabilities == p.capabilities.value)
  {
  }

  /** Contract terms replace just the entitlements they name, until they expire; then the
      organization is back on the fallback plan. */
  lemma OverrideEnds(s: State, c: Offers, clock: int, patch: Patch, expiresAt: int, terms: nat, later: int)
    requires s.fallback.Some? && Transition(s, c, clock, OverrideTerms(patch, expiresAt, terms)).Ok?
    ensures var next := Transition(s, c, clock, OverrideTerms(patch, expiresAt, terms)).value;
      && Sound(next) && clock < expiresAt
      && (if later < expiresAt
          then Found(next, later).plan == "enterprise" && Effective(Found(next, later)) == Patched(s.version.entitlements, patch)
          else Found(next, later).plan == s.fallback.value.id
               && Effective(Found(next, later)) == s.fallback.value.entitlements && Found(next, later).status == FREE)
  {
    var next := Transition(s, c, clock, OverrideTerms(patch, expiresAt, terms)).value;
    hide Settled;
    PlanIs(next, later);
    TermsAre(next, later);
  }

  /** A failed payment keeps the plan until the grace deadline and no longer; recovering in time
      keeps it for good. */
  lemma GraceDecides(s: State, c: Offers, clock: int, later: int)
    requires s.fallback.Some? && s.trial.None? && s.override.None? && s.scheduled.None? && s.plan != "free"
    ensures Transition(s, c, clock, PaymentFailed).Ok? && Sound(Transition(s, c, clock, PaymentFailed).value)
    ensures var failed := Transition(s, c, clock, PaymentFailed).value;
      var deadline := if s.graceUntil.Some? then s.graceUntil.value else clock + c.graceDays * DAY;
      if later < deadline then Found(failed, later).plan == s.plan && Found(failed, later).status == GRACE
      else Found(failed, later).plan == s.fallback.value.id && Found(failed, later).status == FREE
    ensures var failed := Transition(s, c, clock, PaymentFailed).value;
      var recovered := Transition(failed, c, clock, PaymentRecovered);
      recovered.Ok? && Sound(recovered.value)
      && Found(recovered.value, later).plan == s.plan && Found(recovered.value, later).status == ACTIVE
  {
    var failed := Transition(s, c, clock, PaymentFailed).value;
    var recovered := Transition(failed, c, clock, PaymentRecovered).value;
    hide Settled;
    PlanIs(failed, later);
    PlanIs(recovered, later);
  }
}
