/** Exactly what each commercial request answers, and what it leaves.

    Models the guards and results of `mutate`, `require_verification_capacity` and the settlement's
    charge, on any desk whose subscription has what reconciliation needs. */
module ContractAnswers {
  import opened Common
  import opened Calendar
  import opened Subscription
  import opened Contracts

  /** The catalog sells this plan without a contract. */
  predicate Sold(c: Offers, id: string) { id in c.plans && !c.plans[id].salesAssisted }

  /** The plan is a paid one, and not smaller than the present one. */
  predicate Grows(s: State, c: Offers, id: string) {
    Sold(c, id) && id != "free" && c.plans[id].entitlements.systems >= s.version.entitlements.systems
  }

  /** The plan is not larger than the present one. */
  predicate Shrinks(s: State, c: Offers, id: string) {
    Sold(c, id) && c.plans[id].entitlements.systems <= s.version.entitlements.systems
  }

  /** The state on a paid plan of its own, with nothing scheduled, no grace and no other terms. */
  function OnPlan(s: State, c: Offers, id: string, status: Status): State
    requires id in c.plans
  {
    s.(plan := id, version := c.plans[id], status := status, scheduled := None, graceUntil := None, override := None, trial := None)
  }

  /** The command's own guard, and the refusal it meets otherwise. */
  predicate Granted(s: State, c: Offers, clock: int, command: Command) {
    match command
    case Upgrade(id) => Grows(s, c, id)
    case StartTrial(id) => Sold(c, id) && id != "free" && !s.trialUsed && s.plan == "free"
    case Downgrade(id) => Shrinks(s, c, id)
    case Cancel => Shrinks(s, c, "free")
    case PaymentFailed => s.plan != "free"
    case PaymentRecovered => s.status == GRACE
    case Renew => false
    case Promote(promotion) => promotion.expiresAt > clock
    case OverrideTerms(_, expiresAt, _) => expiresAt > clock
  }

  function Refusal(c: Offers, command: Command): int {
    match command
    case StartTrial(id) => if Sold(c, id) && id != "free" then 409 else 422
    case PaymentFailed => 409
    case PaymentRecovered => 409
    case Renew => 409
    case _ => 422
  }

  /** What a granted command makes of the subscription. */
  predicate Follows(s: State, c: Offers, clock: int, command: Command, next: State) {
    match command
    case Upgrade(id) => Grows(s, c, id) && next == OnPlan(s, c, id, ACTIVE)
    case StartTrial(id) =>
      Sold(c, id) && next == OnPlan(s, c, id, TRIALING).(trialUsed := true, trial := Some(clock + c.trialDays * DAY))
    case Downgrade(id) => id in c.plans && next == s.(scheduled := Some(c.plans[id]))
    case Cancel => next == s.(scheduled := Some(c.plans["free"]))
    case PaymentFailed =>
      && next.graceUntil == (if s.graceUntil.Some? then s.graceUntil else Some(clock + c.graceDays * DAY))
      && next == s.(status := GRACE, graceUntil := next.graceUntil)
    case PaymentRecovered => next == s.(status := ACTIVE, graceUntil := None)
    case Renew => false
    case Promote(promotion) => next == s.(promotion := Some(promotion))
    case OverrideTerms(patch, expiresAt, terms) =>
      next == OnPlan(s, c, "enterprise", ACTIVE)
              .(override := Some(Override(Patched(s.version.entitlements, patch), expiresAt, terms)))
  }

  lemma TransitionExactlyWhen(s: State, c: Offers, clock: int, command: Command)
    ensures var r := Transition(s, c, clock, command);
      if Granted(s, c, clock, command) then r.Ok? && Follows(s, c, clock, command, r.value)
      else r == Rejected(Refusal(c, command))
  {
  }

  /** The order is new, and the desk can take it: it is self-billed, its subscription is its plan's, and
      the order names no other revision than the one it meets. */
  predicate Takes(d: Desk, clock: int, order: Order)
    requires Sound(d.book.state)
  {
    && !d.book.account.managed && order.key !in d.keys && d.book.state.plan == d.book.account.plan
    && (order.expected.Some? ==>
          order.expected.value == d.revision + if Changes(d.book.state, clock) then 1 else 0)
  }

  /** `mutate` on any desk. A provider's account refuses; a known key answers for its own order only; a
      new order is taken on the reconciled subscription, or refused with nothing changed. */
  lemma OrderExactlyWhen(d: Desk, c: Offers, clock: int, order: Order)
    requires Sound(d.book.state)
    ensures var (next, code) := Mutate(d, c, clock, order);
      var b := Reconcile(d.book, clock);
      var before := b.state.(provider := MOCK, fallback := Some(if b.state.fallback.Some? then b.state.fallback.value else c.plans["free"]));
      if d.book.account.managed then (next, code) == (d, 409)
      else if order.key in d.keys then
        (next, code) == if d.keys[order.key] == order.digest then (Refresh(d, clock), 200) else (d, 409)
      else if !Takes(d, clock, order) then (next, code) == (d, 409)
      else if !Granted(before, c, clock, order.command) then (next, code) == (d, Refusal(c, order.command))
      else
        && code == 200 && Follows(before, c, clock, order.command, next.book.state)
        && next.book.account == Project(b.account, next.book.state)
        && next.keys == d.keys[order.key := order.digest]
        && next.revision == d.revision + if Changes(d.book.state, clock) then 2 else 1
  {
    var b := Reconcile(d.book, clock);
    RefreshSound(d, clock);
    ReconciledIsModern(d.book, clock);
    TransitionExactlyWhen(Prepared(b.state, c), c, clock, order.command);
    if !d.book.account.managed && order.key !in d.keys {
      MutateIs(d, c, clock, order);
      hide Mutate;
    }
    hide Reconcile, Changes, Transition, Granted, Follows, Refusal;
  }

  // ---- Reservations and charges ----------------------------------------------------------------------

  /** The account may run checks: any status but an unassigned one of a subscription, or an active or
      manual legacy contract. */
  predicate MayRun(b: Book) {
    if b.state.plan == b.account.plan
    then b.account.status == FREE || b.account.status == ACTIVE || b.account.status == TRIALING || b.account.status == GRACE
    else b.account.status == ACTIVE || b.account.status == MANUAL_PILOT
  }

  /** What it may use: the subscription's own terms, or the legacy allowance. */
  function May(b: Book): nat {
    if b.state.plan != b.account.plan then b.account.budget
    else if b.state.override.Some? then b.state.override.value.entitlements.budget
    else b.state.version.entitlements.budget
  }

  /** A reservation is taken on the reconciled book, or refused with nothing changed. */
  lemma ReserveExactlyWhen(d: Desk, clock: int, units: int)
    requires Sound(d.book.state)
    ensures var b := Reconcile(d.book, clock);
      Reserve(d, clock, units) ==
        if units < 1 then (d, 422)
        else if !MayRun(b) || b.account.consumed + b.account.reserved + units > May(b) then (d, 402)
        else (Refresh(d, clock).(book := b.(account := b.account.(reserved := b.account.reserved + units))), 200)
  {
    RefreshSound(d, clock);
    hide Reconcile, Refresh, Sound;
  }

  /** A settlement releases what was held and adds what was used; it cannot release more than is held. */
  lemma ChargeExactlyWhen(d: Desk, reserved: nat, units: nat)
    ensures var a := d.book.account;
      Charge(d, reserved, units) ==
        if reserved > a.reserved then (d, 500)
        else (d.(book := d.book.(account := a.(reserved := a.reserved - reserved, consumed := a.consumed + units))), 200)
  {
  }
}
