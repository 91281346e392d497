/** The account and subscription rows, updated in place.

    Models `_reconcile`, `_append`, `_project`, `require_verification_capacity` and `mutate` of
    `commercial.py` and the settlement of `finish_run` of `api.py` as methods on rows. */
module Billing {
  import opened Common
  import opened Calendar
  import opened Subscription
  import opened Contracts

  class AccountRow {
    var plan: string
    var status: Status
    var maxSystems: nat
    var budget: nat
    var periodEnd: Option<Moment>
    var consumed: nat
    var reserved: nat
    var managed: bool

    constructor (a: Account)
      ensures View() == a
    {
      plan, status, maxSystems, budget := a.plan, a.status, a.maxSystems, a.budget;
      periodEnd, consumed, reserved, managed := a.periodEnd, a.consumed, a.reserved, a.managed;
    }

    function View(): Account
      reads this
    {
      Account(plan, status, maxSystems, budget, periodEnd, consumed, reserved, managed)
    }

    method Show(s: State)
      modifies this
      ensures View() == Project(old(View()), s)
    {
      plan, status := s.plan, s.status;
      maxSystems, budget := Effective(s).systems, Effective(s).budget;
      periodEnd := s.periodEnd;
    }
  }

  class Organization {
    const account: AccountRow
    var latest: State
    var revision: nat
    var keys: map<string, nat>

    constructor (account: AccountRow, latest: State)
      ensures this.account == account && Current() == Desk(Book(latest, account.View()), 0, map[])
    {
      this.account, this.latest, revision, keys := account, latest, 0, map[];
    }

    function Current(): Desk
      reads this, account
    {
      Desk(Book(latest, account.View()), revision, keys)
    }

    method Append(s: State)
      modifies this, account
      ensures Current() == Desk(Book(s, Project(old(account.View()), s)), old(revision) + 1, old(keys))
    {
      revision := revision + 1;
      latest := s;
      account.Show(s);
    }

    method Reconcile(clock: int)
      requires Sound(latest)
      modifies this, account
      ensures Current() == Refresh(old(Current()), clock)
    {
      if latest.plan != account.plan {
        return;
      }
      hide Ended, StartPeriod;
      EndedIs(latest, clock);
      var state, changed := EndTerms(latest, clock);
      if PeriodOver(state, clock) {
        state := BeginPeriod(state, clock);
        account.consumed := 0;
        changed := true;
      } else {
        NoPeriod(state, clock);
      }
      assert state == Settled(latest, clock);
      if changed {
        Append(state);
      }
    }

    /** What a failed transaction leaves: the rows as they were. */
    method RollBack(d: Desk)
      modifies this, account
      ensures Current() == d
    {
      latest, revision, keys := d.book.state, d.revision, d.keys;
      var a := d.book.account;
      account.plan, account.status, account.maxSystems, account.budget := a.plan, a.status, a.maxSystems, a.budget;
      account.periodEnd, account.consumed, account.reserved, account.managed := a.periodEnd, a.consumed, a.reserved, a.managed;
    }

    method Mutate(c: Offers, clock: int, order: Order) returns (code: int)
      requires Sound(latest)
      modifies this, account
      ensures (Current(), code) == Contracts.Mutate(old(Current()), c, clock, order)
    {
      hide Settled, Transition;
      if account.managed {
        return 409;
      }
      if order.key in keys {
        if keys[order.key] != order.digest {
          return 409;
        }
        Reconcile(clock);
        return 200;
      }
      var saved := Current();
      Reconcile(clock);
      if latest.plan != account.plan || (order.expected.Some? && order.expected.value != revision) {
        RollBack(saved);
        return 409;
      }
      var state := latest.(provider := MOCK);
      if state.fallback.None? {
        state := state.(fallback := Some(c.plans["free"]));
      }
      var next := Transit(state, c, clock, order.command);
      if next.Rejected? {
        RollBack(saved);
        return next.code;
      }
      Append(next.value);
      keys := keys[order.key := order.digest];
      code := 200;
    }

    method Reserve(clock: int, units: int) returns (code: int)
      requires Sound(latest)
      modifies this, account
      ensures (Current(), code) == Contracts.Reserve(old(Current()), clock, units)
    {
      hide Settled;
      if units < 1 {
        return 422;
      }
      var saved := Current();
      Reconcile(clock);
      var book := Book(latest, account.View());
      if !Live(book) || account.consumed + account.reserved + units > Budget(book) {
        RollBack(saved);
        return 402;
      }
      account.reserved := account.reserved + units;
      code := 200;
    }

    method Charge(reserved: nat, units: nat) returns (code: int)
      modifies account
      ensures (Current(), code) == Contracts.Charge(old(Current()), reserved, units)
    {
      if reserved > account.reserved {
        return 500;
      }
      account.reserved := account.reserved - reserved;
      account.consumed := account.consumed + units;
      code := 200;
    }
  }

  /** The plan a command names; cancelling means the free plan. */
  function Named(command: Command): string {
    match command
    case Upgrade(plan) => plan
    case Downgrade(plan) => plan
    case StartTrial(plan) => plan
    case _ => "free"
  }

  /** The branches of `mutate`, on the copied state. */
  method Transit(s: State, c: Offers, clock: int, command: Command) returns (r: Outcome<State>)
    ensures r == Transition(s, c, clock, command)
  {
    var state := s;
    match command {
      case Upgrade(_) | Downgrade(_) | Cancel | StartTrial(_) =>
        var id := Named(command);
        if id !in c.plans || c.plans[id].salesAssisted {
          return Rejected(422);
        }
        var selected := c.plans[id];
        if command.Downgrade? || command.Cancel? {
          if selected.entitlements.systems > state.version.entitlements.systems {
            return Rejected(422);
          }
          state := state.(scheduled := Some(selected));
        } else {
          if selected.id == "free" {
            return Rejected(422);
          }
          if command.StartTrial? && (state.trialUsed || state.plan != "free") {
            return Rejected(409);
          }
          if command.Upgrade? && selected.entitlements.systems < state.version.entitlements.systems {
            return Rejected(422);
          }
          state := state.(plan := selected.id, version := selected, status := if command.StartTrial? then TRIALING else ACTIVE);
          state := state.(scheduled := None, graceUntil := None, override := None, trial := None);
          if command.StartTrial? {
            state := state.(trialUsed := true, trial := Some(clock + c.trialDays * DAY));
          }
        }
      case PaymentFailed =>
        if state.plan == "free" {
          return Rejected(409);
        }
        state := state.(status := GRACE);
        if state.graceUntil.None? {
          state := state.(graceUntil := Some(clock + c.graceDays * DAY));
        }
      case PaymentRecovered =>
        if state.status != GRACE {
          return Rejected(409);
        }
        state := state.(status := ACTIVE, graceUntil := None);
      case Renew => return Rejected(409);
      case Promote(promotion) =>
        if promotion.expiresAt <= clock {
          return Rejected(422);
        }
        state := state.(promotion := Some(promotion));
      case OverrideTerms(patch, expiresAt, terms) =>
        if expiresAt <= clock {
          return Rejected(422);
        }
        var allowed := Patched(state.version.entitlements, patch);
        state := state.(plan := "enterprise", version := c.plans["enterprise"], status := ACTIVE);
        state := state.(override := Some(Override(allowed, expiresAt, terms)));
        state := state.(scheduled := None, trial := None, graceUntil := None);
    }
    r := Ok(state);
  }

  lemma NoPeriod(s: State, clock: int)
    requires !PeriodOver(s, clock)
    ensures StartPeriod(s, clock) == s
  {
  }

  /** The expiries of `_reconcile`, on the copied state. */
  method EndTerms(s: State, clock: int) returns (state: State, changed: bool)
    requires Sound(s)
    ensures state == Ended(s, clock)
    ensures changed <==> PromotionOver(s, clock) || OverrideOver(s, clock) || TermOver(s, clock)
  {
    state, changed := s, false;
    if state.promotion.Some? && state.promotion.value.expiresAt <= clock {
      state, changed := state.(promotion := None), true;
    }
    if state.override.Some? && state.override.value.expiresAt <= clock {
      state := state.(version := state.fallback.value);
      state := state.(plan := state.version.id, status := FREE);
      state, changed := state.(override := None), true;
    }
    if Past(state.trial, clock) || Past(state.graceUntil, clock) {
      state := state.(version := state.fallback.value);
      state := state.(plan := state.version.id, status := FREE);
      state, changed := state.(trial := None, graceUntil := None, scheduled := None, override := None), true;
    }
  }

  /** The period boundary of `_reconcile`, on the copied state. */
  method BeginPeriod(s: State, clock: int) returns (state: State)
    requires PeriodOver(s, clock)
    ensures state == StartPeriod(s, clock)
  {
    state := s;
    if state.scheduled.Some? {
      state := state.(version := state.scheduled.value);
      state := state.(plan := state.version.id, status := if state.version.id == "free" then FREE else ACTIVE);
      state := state.(scheduled := None, override := None);
    }
    var start, end := RollForward(state.periodEnd.value, clock);
    assert Period(start, end) == Roll(Period(state.periodEnd.value, state.periodEnd.value), clock);
    state := state.(periodStart := Some(start), periodEnd := Some(end));
  }
}
