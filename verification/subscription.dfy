/** The lazily reconciled subscription.

    Models `_reconcile`, `_project`, `_effective`, `require_verification_capacity` and `mutate`
    of `commercial.py`. Times are microseconds on the calendar's time line. A book whose
    subscription does not match the account's plan is a legacy contract and is left alone. */
module Subscription {
  import opened Common
  import opened Calendar

  datatype Entitlements = Entitlements(
    systems: nat, environments: nat, properties: nat, budget: nat, retention: nat, capabilities: set<string>)

  datatype PlanVersion = PlanVersion(id: string, salesAssisted: bool, entitlements: Entitlements)

  datatype Status = FREE | ACTIVE | TRIALING | GRACE | MANUAL_PILOT | UNASSIGNED
  datatype Provider = NONE | MOCK | STRIPE

  datatype Override = Override(entitlements: Entitlements, expiresAt: int, terms: nat)
  datatype Promotion = Promotion(terms: nat, expiresAt: int)

  datatype State = State(
    plan: string, status: Status, provider: Provider, version: PlanVersion, fallback: Option<PlanVersion>,
    periodStart: Option<Moment>, periodEnd: Option<Moment>, scheduled: Option<PlanVersion>,
    trial: Option<int>, trialUsed: bool, promotion: Option<Promotion>, override: Option<Override>, graceUntil: Option<int>)

  datatype Account = Account(
    plan: string, status: Status, maxSystems: nat, budget: nat, periodEnd: Option<Moment>, consumed: nat, reserved: nat,
    managed: bool)

  datatype Book = Book(state: State, account: Account)

  /** Whatever can expire has a plan to fall back to. */
  predicate Sound(s: State) {
    (s.trial.Some? || s.override.Some? || s.graceUntil.Some?) ==> s.fallback.Some?
  }

  function Effective(s: State): Entitlements {
    if s.override.Some? then s.override.value.entitlements else s.version.entitlements
  }

  /** `_project`. It fails on a subscription without a period end, which no organization has: see
      `Provisioning.EstablishedForEver`. */
  function Project(account: Account, s: State): Account {
    account.(plan := s.plan, status := s.status, maxSystems := Effective(s).systems, budget := Effective(s).budget,
             periodEnd := s.periodEnd)
  }

  // ---- Reconciliation ----------------------------------------------------------------------------

  predicate Past(deadline: Option<int>, clock: int) { deadline.Some? && deadline.value <= clock }

  predicate PromotionOver(s: State, clock: int) { s.promotion.Some? && s.promotion.value.expiresAt <= clock }
  predicate OverrideOver(s: State, clock: int) { s.override.Some? && s.override.value.expiresAt <= clock }
  predicate TermOver(s: State, clock: int) { Past(s.trial, clock) || Past(s.graceUntil, clock) }
  predicate PeriodOver(s: State, clock: int) { s.periodEnd.Some? && Instant(s.periodEnd.value) <= clock && !s.provider.STRIPE? }

  predicate Changes(s: State, clock: int) {
    PromotionOver(s, clock) || OverrideOver(s, clock) || TermOver(s, clock) || PeriodOver(s, clock)
  }

  function FallBack(s: State): State
    requires s.fallback.Some?
  {
    s.(version := s.fallback.value, plan := s.fallback.value.id, status := FREE)
  }

  function ExpirePromotion(s: State, clock: int): State {
    if PromotionOver(s, clock) then s.(promotion := None) else s
  }

  function ExpireOverride(s: State, clock: int): State
    requires Sound(s)
  {
    if OverrideOver(s, clock) then FallBack(s).(override := None) else s
  }

  function ExpireTerm(s: State, clock: int): State
    requires Sound(s)
  {
    if TermOver(s, clock) then FallBack(s).(trial := None, graceUntil := None, scheduled := None, override := None) else s
  }

  function ApplySchedule(s: State): State {
    if s.scheduled.None? then s
    else
      var version := s.scheduled.value;
      s.(version := version, plan := version.id, status := if version.id == "free" then FREE else ACTIVE,
         scheduled := None, override := None)
  }

  function RollPeriod(s: State, clock: int): State
    requires PeriodOver(s, clock)
  {
    var r := Roll(Period(s.periodEnd.value, s.periodEnd.value), clock);
    s.(periodStart := Some(r.start), periodEnd := Some(r.end))
  }

  function StartPeriod(s: State, clock: int): State {
    if PeriodOver(s, clock) then RollPeriod(ApplySchedule(s), clock) else s
  }

  /** The first two steps: whatever has expired ends. */
  function Ended(s: State, clock: int): State
    requires Sound(s)
  {
    ExpireTerm(ExpireOverride(ExpirePromotion(s, clock), clock), clock)
  }

  function Settled(s: State, clock: int): State
    requires Sound(s)
  {
    StartPeriod(Ended(s, clock), clock)
  }

  /** `_reconcile`, without its revision bookkeeping. */
  function Reconcile(b: Book, clock: int): Book
    requires Sound(b.state)
  {
    if b.state.plan != b.account.plan || !Changes(b.state, clock) then b
    else
      var state := Settled(b.state, clock);
      var account := if PeriodOver(b.state, clock) then b.account.(consumed := 0) else b.account;
      Book(state, Project(account, state))
  }

  // ---- Reconciling late is reconciling often -------------------------------------------------------

  lemma RollIgnoresStart(p: Period, q: Period, clock: int)
    requires p.end == q.end && Instant(p.end) <= clock
    ensures Roll(p, clock) == Roll(q, clock)
  {
  }

  lemma RollingTwice(end: Moment, early: int, late: int)
    requires early <= late && Instant(end) <= early
    ensures var r := Roll(Period(end, end), early);
      Roll(Period(end, end), late) == if Instant(r.end) <= late then Roll(Period(r.end, r.end), late) else r
  {
    RollTwice(Period(end, end), early, late);
    var r := Roll(Period(end, end), early);
    if Instant(r.end) <= late {
      RollIgnoresStart(r, Period(r.end, r.end), late);
    }
  }

  /** The scheduled change takes effect: its period began before any trial or grace ended it. */
  predicate Applied(s: State, clock: int) { PeriodOver(s, clock) && s.scheduled.Some? && !TermOver(s, clock) }

  /** Something ended that sends the plan back. */
  predicate SentBack(s: State, clock: int) { TermOver(s, clock) || OverrideOver(s, clock) }

  lemma EndedIs(s: State, clock: int)
    requires Sound(s)
    ensures Ended(s, clock) == s.(
        promotion := if PromotionOver(s, clock) then None else s.promotion,
        trial := if TermOver(s, clock) then None else s.trial,
        graceUntil := if TermOver(s, clock) then None else s.graceUntil,
        scheduled := if TermOver(s, clock) then None else s.scheduled,
        override := if SentBack(s, clock) then None else s.override,
        version := if SentBack(s, clock) then s.fallback.value else s.version,
        plan := if SentBack(s, clock) then s.fallback.value.id else s.plan,
        status := if SentBack(s, clock) then FREE else s.status)
  {
  }

  /** Neither expired term outlives reconciliation; a scheduled change survives only if no term
      ended and no period began. */
  lemma TermsAre(s: State, clock: int)
    requires Sound(s)
    ensures var r := Settled(s, clock);
      && Sound(r) && r.fallback == s.fallback && r.provider == s.provider && r.trialUsed == s.trialUsed
      && r.promotion == (if s.promotion.Some? && s.promotion.value.expiresAt <= clock then None else s.promotion)
      && r.trial == (if TermOver(s, clock) then None else s.trial)
      && r.graceUntil == (if TermOver(s, clock) then None else s.graceUntil)
      && r.scheduled == (if TermOver(s, clock) || PeriodOver(s, clock) then None else s.scheduled)
      && r.override == (if SentBack(s, clock) || Applied(s, clock) then None else s.override)
  {
    EndedIs(s, clock);
    hide Ended;
  }

  /** The plan is the scheduled one if it takes effect, else the fallback if anything ended. */
  lemma PlanIs(s: State, clock: int)
    requires Sound(s)
    ensures var r := Settled(s, clock);
      if Applied(s, clock) then
        r.version == s.scheduled.value && r.plan == r.version.id && r.status == (if r.plan == "free" then FREE else ACTIVE)
      else if SentBack(s, clock) then r.version == s.fallback.value && r.plan == r.version.id && r.status == FREE
      else r.version == s.version && r.plan == s.plan && r.status == s.status
  {
    EndedIs(s, clock);
    hide Ended;
  }

  /** A period that is over is rolled forward until the clock is inside it; a provider's own period is
      never touched. */
  lemma PeriodIs(s: State, clock: int)
    requires Sound(s)
    ensures var r := Settled(s, clock);
      if s.periodEnd.Some? && Instant(s.periodEnd.value) <= clock && s.provider != STRIPE then
        r.periodEnd.Some? && r.periodStart.Some?
        && Period(r.periodStart.value, r.periodEnd.value) == Roll(Period(s.periodEnd.value, s.periodEnd.value), clock)
      else r.periodStart == s.periodStart && r.periodEnd == s.periodEnd
  {
    EndedIs(s, clock);
    hide Ended;
  }

  lemma PeriodTwice(s: State, early: int, late: int)
    requires Sound(s) && early <= late
    ensures var r := Settled(s, early);
      && Sound(r)
      && Settled(r, late).periodEnd == Settled(s, late).periodEnd
      && Settled(r, late).periodStart == Settled(s, late).periodStart
      && (PeriodOver(s, late) <==> PeriodOver(s, early) || PeriodOver(r, late))
  {
    hide Settled;
    TermsAre(s, early);
    PeriodIs(s, early);
    PeriodIs(s, late);
    PeriodIs(Settled(s, early), late);
    if PeriodOver(s, early) {
      RollingTwice(s.periodEnd.value, early, late);
    }
  }

  /** Settling at one time and again later is settling once at the later time. */
  lemma SettledTwice(s: State, early: int, late: int)
    requires Sound(s) && early <= late
    ensures Sound(Settled(s, early)) && Settled(Settled(s, early), late) == Settled(s, late)
  {
    hide Settled;
    TermsAre(s, early);
    TermsAre(s, late);
    TermsAre(Settled(s, early), late);
    PlanIs(s, early);
    PlanIs(s, late);
    PlanIs(Settled(s, early), late);
    PeriodTwice(s, early, late);
  }

  lemma NoChangeSettles(s: State, clock: int)
    requires Sound(s) && !Changes(s, clock)
    ensures Settled(s, clock) == s
  {
  }

  /** Reconciling at `early` and again at `late` gives exactly the book that reconciling once at
      `late` gives: the same plan, terms, period, consumption and account, for every provider. */
  lemma ReconcileTwice(b: Book, early: int, late: int)
    requires Sound(b.state) && early <= late
    ensures Sound(Reconcile(b, early).state)
    ensures Reconcile(Reconcile(b, early), late) == Reconcile(b, late)
  {
    hide Settled;
    TermsAre(b.state, early);
    if b.state.plan == b.account.plan && Changes(b.state, early) {
      var first := Reconcile(b, early);
      SettledTwice(b.state, early, late);
      PeriodTwice(b.state, early, late);
      if !Changes(first.state, late) {
        NoChangeSettles(first.state, late);
      }
    }
  }
}
