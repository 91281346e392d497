/** Commands, reservations and charges against a lazily reconciled subscription.

    Models `resolve`, `require_verification_capacity`, `mutate` and `_append` of `commercial.py`,
    and the charge that `finish_run` of `api.py` makes without reconciling. A refused request is
    rolled back whole, with the reconciliation it did. Mock billing is taken as enabled. */
module Contracts {
  import opened Common
  import opened Calendar
  import opened Subscription

  /** A catalog always offers the free and the enterprise plan. */
  datatype Catalog = Catalog(plans: map<string, PlanVersion>, trialDays: nat, graceDays: nat)

  predicate Complete(c: Catalog) {
    && "free" in c.plans && "enterprise" in c.plans
    && forall id :: id in c.plans ==> c.plans[id].id == id
  }

  type Offers = c: Catalog | Complete(c) witness SampleCatalog()

  function SamplePlan(id: string): PlanVersion { PlanVersion(id, false, Entitlements(1, 1, 1, 1, 1, {})) }

  function SampleCatalog(): Catalog {
    Catalog(map["free" := SamplePlan("free"), "enterprise" := SamplePlan("enterprise")], 14, 7)
  }

  /** The fields a contract override may replace. */
  datatype Patch = Patch(
    systems: Option<nat>, environments: Option<nat>, properties: Option<nat>, budget: Option<nat>,
    retention: Option<nat>, capabilities: Option<set<string>>)

  function Or<T>(value: Option<T>, default: T): T { if value.Some? then value.value else default }

  function Patched(e: Entitlements, p: Patch): Entitlements {
    Entitlements(Or(p.systems, e.systems), Or(p.environments, e.environments), Or(p.properties, e.properties),
                 Or(p.budget, e.budget), Or(p.retention, e.retention), Or(p.capabilities, e.capabilities))
  }

  datatype Command =
    | Upgrade(plan: string) | Downgrade(plan: string) | Cancel | StartTrial(plan: string)
    | PaymentFailed | PaymentRecovered | Renew
    | Promote(promotion: Promotion)
    | OverrideTerms(patch: Patch, expiresAt: int, terms: nat)

  /** The records of one organization that the commercial code touches. */
  datatype Desk = Desk(book: Book, revision: nat, keys: map<string, nat>)

  predicate Modern(b: Book) { b.state.plan == b.account.plan }

  /** `resolve`. */
  function Refresh(d: Desk, clock: int): Desk
    requires Sound(d.book.state)
  {
    if Modern(d.book) && Changes(d.book.state, clock)
    then d.(book := Reconcile(d.book, clock), revision := d.revision + 1) else d
  }

  // ---- Commands ------------------------------------------------------------------------------------

  function Offered(c: Offers, id: string): Outcome<PlanVersion> {
    if id !in c.plans then Rejected(422)
    else if c.plans[id].salesAssisted then Rejected(422)
    else Ok(c.plans[id])
  }

  function Schedule(s: State, c: Offers, id: string): Outcome<State> {
    var selected := Offered(c, id);
    if selected.Rejected? then Rejected(selected.code)
    else if selected.value.entitlements.systems > s.version.entitlements.systems then Rejected(422)
    else Ok(s.(scheduled := Some(selected.value)))
  }

  function Switch(s: State, c: Offers, id: string, clock: int, trial: bool): Outcome<State> {
    var selected := Offered(c, id);
    if selected.Rejected? then Rejected(selected.code)
    else if selected.value.id == "free" then Rejected(422)
    else if trial && (s.trialUsed || s.plan != "free") then Rejected(409)
    else if !trial && selected.value.entitlements.systems < s.version.entitlements.systems then Rejected(422)
    else
      var switched := s.(plan := selected.value.id, version := selected.value, status := if trial then TRIALING else ACTIVE,
                         scheduled := None, graceUntil := None, override := None, trial := None);
      Ok(if trial then switched.(trialUsed := true, trial := Some(clock + c.trialDays * DAY)) else switched)
  }

  /** The transition a command asks for, on a reconciled state with its fallback in place. */
  function Transition(s: State, c: Offers, clock: int, command: Command): Outcome<State> {
    match command
    case Upgrade(plan) => Switch(s, c, plan, clock, false)
    case StartTrial(plan) => Switch(s, c, plan, clock, true)
    case Downgrade(plan) => Schedule(s, c, plan)
    case Cancel => Schedule(s, c, "free")
    case PaymentFailed =>
      if s.plan == "free" then Rejected(409)
      else Ok(s.(status := GRACE, graceUntil := if s.graceUntil.Some? then s.graceUntil else Some(clock + c.graceDays * DAY)))
    case PaymentRecovered =>
      if s.status != GRACE then Rejected(409) else Ok(s.(status := ACTIVE, graceUntil := None))
    case Renew => Rejected(409)
    case Promote(promotion) =>
      if promotion.expiresAt <= clock then Rejected(422) else Ok(s.(promotion := Some(promotion)))
    case OverrideTerms(patch, expiresAt, terms) =>
      if expiresAt <= clock then Rejected(422)
      else
        Ok(s.(plan := "enterprise", version := c.plans["enterprise"], status := ACTIVE,
              override := Some(Override(Patched(s.version.entitlements, patch), expiresAt, terms)),
              scheduled := None, trial := None, graceUntil := None))
  }

  function Prepared(s: State, c: Offers): State {
    s.(provider := MOCK, fallback := if s.fallback.Some? then s.fallback else Some(c.plans["free"]))
  }

  datatype Order = Order(key: string, digest: nat, expected: Option<nat>, command: Command)

  /** A new command on a reconciled book; `stale` says it named another revision. */
  function Placed(b: Book, c: Offers, clock: int, command: Command, stale: bool): Outcome<Book> {
    if !Modern(b) || stale then Rejected(409)
    else
      var next := Transition(Prepared(b.state, c), c, clock, command);
      if next.Rejected? then Rejected(next.code) else Ok(Book(next.value, Project(b.account, next.value)))
  }

  /** `mutate`: the desk after it and the status it answers with. */
  function Mutate(d: Desk, c: Offers, clock: int, order: Order): (Desk, int)
    requires Sound(d.book.state)
  {
    if d.book.account.managed then (d, 409)
    else if order.key in d.keys then
      if d.keys[order.key] != order.digest then (d, 409) else (Refresh(d, clock), 200)
    else
      var current := Refresh(d, clock);
      var stale := order.expected.Some? && order.expected.value != current.revision;
      var next := Placed(current.book, c, clock, order.command, stale);
      if next.Rejected? then (d, next.code)
      else (Desk(next.value, current.revision + 1, current.keys[order.key := order.digest]), 200)
  }

  predicate Live(b: Book) {
    if Modern(b) then b.account.status in {FREE, ACTIVE, TRIALING, GRACE} else b.account.status in {ACTIVE, MANUAL_PILOT}
  }

  function Budget(b: Book): nat { if Modern(b) then Effective(b.state).budget else b.account.budget }

  /** A reservation on a reconciled book. */
  function Held(b: Book, units: int): Outcome<Book>
    requires units >= 1
  {
    if !Live(b) || b.account.consumed + b.account.reserved + units > Budget(b) then Rejected(402)
    else Ok(b.(account := b.account.(reserved := b.account.reserved + units)))
  }

  /** `require_verification_capacity` and the reservation that follows it. */
  function Reserve(d: Desk, clock: int, units: int): (Desk, int)
    requires Sound(d.book.state)
  {
    if units < 1 then (d, 422)
    else
      var current := Refresh(d, clock);
      var next := Held(current.book, units);
      if next.Rejected? then (d, next.code) else (current.(book := next.value), 200)
  }

  function Charged(b: Book, reserved: nat, units: nat): Book
    requires reserved <= b.account.reserved
  {
    b.(account := b.account.(reserved := b.account.reserved - reserved, consumed := b.account.consumed + units))
  }

  /** The settlement of a run: it does not reconcile. A negative reservation breaks a table constraint. */
  function Charge(d: Desk, reserved: nat, units: nat): (Desk, int) {
    if reserved > d.book.account.reserved then (d, 500) else (d.(book := Charged(d.book, reserved, units)), 200)
  }

  // ---- Whole runs ----------------------------------------------------------------------------------

  datatype Step = Reading | Ordering(order: Order) | Reserving(asked: int) | Charging(reserved: nat, units: nat)

  datatype Event = Event(at: int, step: Step)

  function Do(d: Desk, c: Offers, e: Event): (Desk, int)
    requires Sound(d.book.state)
  {
    match e.step
    case Reading => (Refresh(d, e.at), 200)
    case Ordering(order) => Mutate(d, c, e.at, order)
    case Reserving(asked) => Reserve(d, e.at, asked)
    case Charging(reserved, units) => Charge(d, reserved, units)
  }

  lemma RefreshSound(d: Desk, clock: int)
    requires Sound(d.book.state)
    ensures Sound(Refresh(d, clock).book.state) && Refresh(d, clock).book == Reconcile(d.book, clock)
    ensures Refresh(d, clock).keys == d.keys
  {
    hide Settled;
    TermsAre(d.book.state, clock);
  }

  lemma TransitionSound(s: State, c: Offers, clock: int, command: Command)
    requires s.fallback.Some?
    ensures var r := Transition(s, c, clock, command); r.Ok? ==> Sound(r.value) && r.value.fallback == s.fallback
  {
  }

  lemma DoSound(d: Desk, c: Offers, e: Event)
    requires Sound(d.book.state)
    ensures Sound(Do(d, c, e).0.book.state)
  {
    hide Refresh, Transition;
    RefreshSound(d, e.at);
    if e.step.Ordering? {
      TransitionSound(Prepared(Refresh(d, e.at).book.state, c), c, e.at, e.step.order.command);
    }
  }

  /** Final desk and the answers to everything but the readings. */
  function Run(d: Desk, c: Offers, events: seq<Event>): (r: (Desk, seq<int>))
    requires Sound(d.book.state)
    ensures Sound(r.0.book.state)
  {
    if events == [] then (d, [])
    else
      var before := Run(d, c, events[..|events| - 1]);
      var e := events[|events| - 1];
      DoSound(before.0, c, e);
      var after := Do(before.0, c, e);
      (after.0, before.1 + (if e.step.Reading? then [] else [after.1]))
  }

  /** The same run without its readings. */
  function Unread(events: seq<Event>): seq<Event> {
    if events == [] then []
    else Unread(events[..|events| - 1]) + (if events[|events| - 1].step.Reading? then [] else [events[|events| - 1]])
  }

  predicate Due(b: Book, clock: int) { Modern(b) && PeriodOver(b.state, clock) }

  // ---- Reading is invisible ------------------------------------------------------------------------

  /** One desk is the other, possibly reconciled at some time up to `now`. */
  ghost predicate Ahead(read: Desk, unread: Desk, now: int)
    requires Sound(unread.book.state)
  {
    read.keys == unread.keys
    && (read.book == unread.book || exists t :: t <= now && read.book == Reconcile(unread.book, t))
  }

  lemma AheadReconciles(read: Desk, unread: Desk, now: int, later: int)
    requires Sound(unread.book.state) && Ahead(read, unread, now) && now <= later
    ensures Sound(read.book.state) && Reconcile(read.book, later) == Reconcile(unread.book, later)
    ensures read.book.account.reserved == unread.book.account.reserved
    ensures read.book.account.managed == unread.book.account.managed
  {
    if read.book != unread.book {
      var t :| t <= now && read.book == Reconcile(unread.book, t);
      ReconcileTwice(unread.book, t, later);
    }
  }

  lemma ReadingKeepsAhead(read: Desk, unread: Desk, now: int, later: int)
    requires Sound(unread.book.state) && Ahead(read, unread, now) && now <= later
    ensures Sound(read.book.state) && Ahead(Refresh(read, later), unread, later)
  {
    AheadReconciles(read, unread, now, later);
    RefreshSound(read, later);
    RefreshSound(unread, later);
  }

  /** A charge made before the period ends commutes with any earlier reconciliation. */
  lemma ChargeCommutes(b: Book, t: int, reserved: nat, units: nat)
    requires Sound(b.state) && !Due(b, t) && reserved <= b.account.reserved
    ensures Reconcile(b, t).account.reserved == b.account.reserved
    ensures Charged(Reconcile(b, t), reserved, units) == Reconcile(Charged(b, reserved, units), t)
  {
  }

  lemma ChargingKeepsAhead(read: Desk, unread: Desk, now: int, later: int, reserved: nat, units: nat)
    requires Sound(unread.book.state) && Ahead(read, unread, now) && now <= later && !Due(unread.book, later)
    ensures Charge(read, reserved, units).1 == Charge(unread, reserved, units).1
    ensures Sound(Charge(unread, reserved, units).0.book.state)
    ensures Ahead(Charge(read, reserved, units).0, Charge(unread, reserved, units).0, later)
  {
    AheadReconciles(read, unread, now, later);
    if reserved <= unread.book.account.reserved && read.book != unread.book {
      var t :| t <= now && read.book == Reconcile(unread.book, t);
      ChargeCommutes(unread.book, t, reserved, units);
    }
  }

  lemma AheadLater(read: Desk, unread: Desk, now: int, later: int)
    requires Sound(unread.book.state) && Ahead(read, unread, now) && now <= later
    ensures Ahead(read, unread, later)
  {
  }

  lemma SameIsAhead(read: Desk, unread: Desk, now: int)
    requires Sound(unread.book.state) && read.keys == unread.keys && read.book == unread.book
    ensures Ahead(read, unread, now)
  {
  }

  lemma ReservingKeepsAhead(read: Desk, unread: Desk, now: int, later: int, units: int)
    requires Sound(unread.book.state) && Ahead(read, unread, now) && now <= later
    ensures Sound(read.book.state) && Reserve(read, later, units).1 == Reserve(unread, later, units).1
    ensures Sound(Reserve(unread, later, units).0.book.state)
    ensures Ahead(Reserve(read, later, units).0, Reserve(unread, later, units).0, later)
  {
    AheadReconciles(read, unread, now, later);
    AheadLater(read, unread, now, later);
    RefreshSound(read, later);
    RefreshSound(unread, later);
    var r, u := Reserve(read, later, units).0, Reserve(unread, later, units).0;
    hide Refresh, Reconcile, Live, Budget;
    if r != read || u != unread {
      SameIsAhead(r, u, later);
    }
    hide Ahead;
  }

  /** The guards that answer 409 whichever revision a command names. */
  predicate Conflicts(s: State, c: Offers, command: Command) {
    match command
    case Renew => true
    case StartTrial(id) =>
      id != "free" && id in c.plans && !c.plans[id].salesAssisted && (s.trialUsed || s.plan != "free")
    case PaymentFailed => s.plan == "free"
    case PaymentRecovered => s.status != GRACE
    case _ => false
  }

  lemma ConflictsExactlyWhen(b: Book, c: Offers, clock: int, command: Command)
    ensures Placed(b, c, clock, command, false) == Rejected(409) <==> !Modern(b) || Conflicts(b.state, c, command)
  {
  }

  /** The order would be answered alike on both desks: it names no revision they differ on, or it
      conflicts with the subscription itself. */
  predicate Unaffected(read: Desk, unread: Desk, c: Offers, clock: int, order: Order)
    requires Sound(read.book.state) && Sound(unread.book.state)
  {
    unread.book.account.managed || order.key in unread.keys || order.expected.None?
    || (order.expected.value == Refresh(read, clock).revision <==> order.expected.value == Refresh(unread, clock).revision)
    || !Modern(unread.book) || Conflicts(Reconcile(unread.book, clock).state, c, order.command)
  }

  lemma MutateIs(d: Desk, c: Offers, clock: int, order: Order)
    requires Sound(d.book.state) && !d.book.account.managed && order.key !in d.keys
    ensures var r := Refresh(d, clock);
      var stale := order.expected.Some? && order.expected.value != r.revision;
      var next := Placed(Reconcile(d.book, clock), c, clock, order.command, stale);
      Mutate(d, c, clock, order) == if next.Rejected? then (d, next.code)
                                    else (Desk(next.value, r.revision + 1, d.keys[order.key := order.digest]), 200)
  {
    RefreshSound(d, clock);
    hide Placed, Reconcile;
  }

  lemma PlacedSound(b: Book, c: Offers, clock: int, command: Command, stale: bool)
    ensures var next := Placed(b, c, clock, command, stale);
      (next.Ok? ==> Sound(next.value.state)) && (stale ==> next == Rejected(409))
    ensures var next := Placed(b, c, clock, command, stale);
      next.Rejected? ==> next.code == 409 || next.code == 422
  {
    TransitionSound(Prepared(b.state, c), c, clock, command);
  }

  /** An order is answered alike on a desk that was read and one that was not exactly when it is
      unaffected, and then the desks are again alike. */
  lemma OrderKeepsAhead(read: Desk, unread: Desk, c: Offers, now: int, later: int, order: Order)
    requires Sound(unread.book.state) && Ahead(read, unread, now) && now <= later
    ensures Sound(read.book.state)
    ensures Mutate(read, c, later, order).1 == Mutate(unread, c, later, order).1 <==> Unaffected(read, unread, c, later, order)
    ensures Sound(Mutate(unread, c, later, order).0.book.state)
    ensures Unaffected(read, unread, c, later, order) ==>
      Ahead(Mutate(read, c, later, order).0, Mutate(unread, c, later, order).0, later)
  {
    AheadReconciles(read, unread, now, later);
    AheadLater(read, unread, now, later);
    RefreshSound(read, later);
    RefreshSound(unread, later);
    assert read.keys == unread.keys;
    hide Refresh, Reconcile, Ahead, Placed, Sound;
    if unread.book.account.managed || order.key in unread.keys {
      SameIsAhead(Refresh(read, later), Refresh(unread, later), later);
    } else {
      MutateIs(read, c, later, order);
      MutateIs(unread, c, later, order);
      hide Mutate;
      var b := Reconcile(unread.book, later);
      PlacedSound(b, c, later, order.command, true);
      PlacedSound(b, c, later, order.command, false);
      ConflictsExactlyWhen(b, c, later, order.command);
      ReconciledIsModern(unread.book, later);
      hide Conflicts, Modern;
      var r, u := Mutate(read, c, later, order).0, Mutate(unread, c, later, order).0;
      if r != read && u != unread {
        SameIsAhead(r, u, later);
      }
    }
  }

  /** Time does not go back, and no charge is made on a period that is already over. */
  predicate Timely(d: Desk, c: Offers, events: seq<Event>)
    requires Sound(d.book.state)
  {
    events != [] ==>
      var init, e := events[..|events| - 1], events[|events| - 1];
      && Timely(d, c, init)
      && (init != [] ==> init[|init| - 1].at <= e.at)
      && (e.step.Charging? ==> !Due(Run(d, c, Unread(init)).0.book, e.at))
  }

  /** No order of the run names a revision that the readings before it moved. */
  predicate AllUnaffected(d: Desk, c: Offers, events: seq<Event>)
    requires Sound(d.book.state)
  {
    events != [] ==>
      var init, e := events[..|events| - 1], events[|events| - 1];
      && AllUnaffected(d, c, init)
      && (e.step.Ordering? ==> Unaffected(Run(d, c, init).0, Run(d, c, Unread(init)).0, c, e.at, e.step.order))
  }

  /** One event more: alike answers and desks, unless an order is affected. */
  lemma DoKeepsAhead(read: Desk, unread: Desk, c: Offers, now: int, e: Event)
    requires Sound(unread.book.state) && Ahead(read, unread, now) && now <= e.at && !e.step.Reading?
    requires e.step.Charging? ==> !Due(unread.book, e.at)
    ensures Sound(read.book.state)
    ensures Do(read, c, e).1 == Do(unread, c, e).1 <==>
            (e.step.Ordering? ==> Unaffected(read, unread, c, e.at, e.step.order))
    ensures Sound(Do(unread, c, e).0.book.state)
    ensures Do(read, c, e).1 == Do(unread, c, e).1 ==> Ahead(Do(read, c, e).0, Do(unread, c, e).0, e.at)
  {
    hide Refresh, Mutate, Reserve, Charge, Due, Ahead, Unaffected;
    match e.step
    case Ordering(order) => OrderKeepsAhead(read, unread, c, now, e.at, order);
    case Reserving(units) => ReservingKeepsAhead(read, unread, now, e.at, units);
    case Charging(reserved, units) =>
      AheadReconciles(read, unread, now, e.at);
      ChargingKeepsAhead(read, unread, now, e.at, reserved, units);
  }

  /** Over any run, reading the subscription at any moments changes no answer exactly when no order
      names a revision a reading moved; and then a reading leaves no other trace. */
  lemma {:induction false} ReadingsAreInvisible(d: Desk, c: Offers, events: seq<Event>)
    requires Sound(d.book.state) && Timely(d, c, events)
    ensures Run(d, c, events).1 == Run(d, c, Unread(events)).1 <==> AllUnaffected(d, c, events)
    ensures |Run(d, c, events).1| == |Run(d, c, Unread(events)).1|
    ensures events != [] && AllUnaffected(d, c, events) ==>
      Ahead(Run(d, c, events).0, Run(d, c, Unread(events)).0, events[|events| - 1].at)
    ensures events == [] ==> Run(d, c, Unread(events)).0 == d
  {
    if events != [] {
      var init, e := events[..|events| - 1], events[|events| - 1];
      ReadingsAreInvisible(d, c, init);
      var read, unread := Run(d, c, init), Run(d, c, Unread(init));
      var now := if init == [] then e.at else init[|init| - 1].at;
      hide Do, Due, Ahead, Unaffected;
      if e.step.Reading? {
        assert Unread(events) == Unread(init);
        if AllUnaffected(d, c, init) {
          SameIsAhead(d, d, now);
          ReadingIs(read.0, c, e);
          ReadingKeepsAhead(read.0, unread.0, now, e.at);
        }
      } else {
        assert Unread(events)[..|Unread(events)| - 1] == Unread(init);
        assert Run(d, c, Unread(events)) == (Do(unread.0, c, e).0, unread.1 + [Do(unread.0, c, e).1]);
        assert Run(d, c, events) == (Do(read.0, c, e).0, read.1 + [Do(read.0, c, e).1]);
        OneMoreAnswer(read.1, unread.1, Do(read.0, c, e).1, Do(unread.0, c, e).1);
        if AllUnaffected(d, c, init) {
          SameIsAhead(d, d, now);
          DoKeepsAhead(read.0, unread.0, c, now, e);
        }
      }
    }
  }

  lemma ReadingIs(d: Desk, c: Offers, e: Event)
    requires Sound(d.book.state) && e.step.Reading?
    ensures Do(d, c, e) == (Refresh(d, e.at), 200)
  {
  }

  lemma OneMoreAnswer(a: seq<int>, b: seq<int>, x: int, y: int)
    requires |a| == |b|
    ensures a + [x] == b + [y] <==> a == b && x == y
  {
    if a + [x] == b + [y] {
      assert a == (a + [x])[..|a|] && b == (b + [y])[..|b|];
      assert x == (a + [x])[|a|] && y == (b + [y])[|b|];
    }
  }

  /** A final reconciliation finds the same book as if nobody had looked. */
  lemma FinalBookIsTheSame(d: Desk, c: Offers, events: seq<Event>, later: int)
    requires Sound(d.book.state) && Timely(d, c, events) && AllUnaffected(d, c, events)
    requires events != [] && events[|events| - 1].at <= later
    ensures Reconcile(Run(d, c, events).0.book, later) == Reconcile(Run(d, c, Unread(events)).0.book, later)
  {
    ReadingsAreInvisible(d, c, events);
    AheadReconciles(Run(d, c, events).0, Run(d, c, Unread(events)).0, events[|events| - 1].at, later);
  }

  // ---- When a reading can be seen ------------------------------------------------------------------

  /** A reading moves the revision that a later order finds exactly when there was something to
      reconcile when it was made and there is something again by the order. */
  lemma ReadingMovesTheRevision(d: Desk, early: int, late: int)
    requires Sound(d.book.state) && early <= late
    ensures Sound(Refresh(d, early).book.state)
    ensures Refresh(Refresh(d, early), late).revision ==
      Refresh(d, late).revision
      + (if Modern(d.book) && Changes(d.book.state, early) && Changes(Refresh(d, early).book.state, late) then 1 else 0)
  {
    RefreshSound(d, early);
    ReconciledIsModern(d.book, early);
    if Modern(d.book) && Changes(d.book.state, early) {
      ChangesLater(d.book.state, early, late);
    }
    hide Reconcile, Changes;
  }

  lemma ReconciledIsModern(b: Book, clock: int)
    requires Sound(b.state)
    ensures Modern(Reconcile(b, clock)) == Modern(b)
  {
    hide Settled;
  }

  lemma ChangesLater(s: State, early: int, late: int)
    requires early <= late && Changes(s, early)
    ensures Changes(s, late)
  {
  }

  /** So a reading between two changes turns away an order that names the revision one
      reconciliation makes: it finds two. */
  lemma ReadingBetweenChanges(d: Desk, c: Offers, early: int, late: int, order: Order)
    requires Sound(d.book.state) && early <= late && !d.book.account.managed && order.key !in d.keys
    requires Modern(d.book) && Changes(d.book.state, early) && Changes(Reconcile(d.book, early).state, late)
    requires order.expected == Some(d.revision + 1) && order.command.Promote? && late < order.command.promotion.expiresAt
    ensures Mutate(d, c, late, order).1 == 200
    ensures Sound(Refresh(d, early).book.state) && Mutate(Refresh(d, early), c, late, order) == (Refresh(d, early), 409)
  {
    var read := Refresh(d, early);
    RefreshSound(d, early);
    ChangesLater(d.book.state, early, late);
    ReadingMovesTheRevision(d, early, late);
    ReconciledIsModern(d.book, late);
    assert Refresh(d, late).revision == d.revision + 1;
    assert read.book.account.managed == d.book.account.managed;
    hide Reconcile, Changes, Mutate, Refresh;
    MutateIs(d, c, late, order);
    MutateIs(read, c, late, order);
    PlacedSound(Reconcile(read.book, late), c, late, order.command, true);
    PromotionIsPlaced(Reconcile(d.book, late), c, late, order.command);
    hide Placed, Modern, Sound;
  }

  lemma PromotionIsPlaced(b: Book, c: Offers, clock: int, command: Command)
    requires Modern(b) && command.Promote? && clock < command.promotion.expiresAt
    ensures Placed(b, c, clock, command, false).Ok?
  {
  }

  lemma OneMoreEvent(d: Desk, c: Offers, init: seq<Event>, e: Event)
    requires Sound(d.book.state)
    ensures var before := Run(d, c, init);
      Run(d, c, init + [e]) == (Do(before.0, c, e).0, before.1 + (if e.step.Reading? then [] else [Do(before.0, c, e).1]))
    ensures Unread(init + [e]) == Unread(init) + (if e.step.Reading? then [] else [e])
    ensures Timely(d, c, init + [e]) <==>
      && Timely(d, c, init) && (init != [] ==> init[|init| - 1].at <= e.at)
      && (e.step.Charging? ==> !Due(Run(d, c, Unread(init)).0.book, e.at))
  {
    var events := init + [e];
    assert events[..|events| - 1] == init && events[|events| - 1] == e;
    hide Do, Due;
  }

  // ---- When a charge can be lost -------------------------------------------------------------------

  /** A charge on a period that was over when it was read agrees with one made before the reading
      exactly when it is zero or that period is over again by the end. */
  lemma LateChargeAgrees(b: Book, early: int, late: int, reserved: nat, units: nat)
    requires Sound(b.state) && early <= late && reserved <= b.account.reserved && Due(b, early)
    ensures Sound(Reconcile(b, early).state) && Reconcile(b, early).account.reserved == b.account.reserved
    ensures Reconcile(Charged(Reconcile(b, early), reserved, units), late) == Reconcile(Charged(b, reserved, units), late)
      <==> units == 0 || Due(Reconcile(b, early), late)
  {
    hide Settled;
    TermsAre(b.state, early);
    SettledTwice(b.state, early, late);
    PeriodTwice(b.state, early, late);
    var read := Reconcile(b, early);
    ReconciledIsModern(b, early);
    if !Changes(read.state, late) {
      NoChangeSettles(read.state, late);
    }
    assert Reconcile(Charged(b, reserved, units), late).account.consumed == 0;
  }

  /** A charge that settles on an unread book agrees with one on a book read first exactly when
      it is zero, the period was not over when it was read, or it is over again by the end. */
  lemma ChargeAgreesExactlyWhen(b: Book, early: int, late: int, reserved: nat, units: nat)
    requires Sound(b.state) && early <= late && reserved <= b.account.reserved
    ensures Sound(Reconcile(b, early).state) && Reconcile(b, early).account.reserved == b.account.reserved
    ensures Reconcile(Charged(Reconcile(b, early), reserved, units), late) == Reconcile(Charged(b, reserved, units), late)
      <==> units == 0 || !Due(b, early) || Due(Reconcile(b, early), late)
  {
    if Due(b, early) {
      LateChargeAgrees(b, early, late, reserved, units);
    } else {
      ChargeCommutes(b, early, reserved, units);
      ReconcileTwice(Charged(b, reserved, units), early, late);
      RefreshSound(Desk(b, 0, map[]), early);
    }
    hide Reconcile, Charged, Due;
  }

  /** Settled before anyone reads the ended period, the units vanish; read first, they count. Its
      reservation is released either way. */
  predicate Loses(b: Book, early: int, late: int, reserved: nat, units: nat)
    requires Sound(b.state) && Sound(Reconcile(b, early).state)
    requires reserved <= b.account.reserved && reserved <= Reconcile(b, early).account.reserved
  {
    var unread := Reconcile(Charged(b, reserved, units), late).account;
    var read := Reconcile(Charged(Reconcile(b, early), reserved, units), late).account;
    && unread.consumed == 0 && read.consumed == units > 0
    && unread.reserved == read.reserved == b.account.reserved - reserved
  }

  /** Every settlement that charges anything, whatever reservation it releases, is lost that way on
      a book whose period is over. */
  lemma ChargesGetLost(b: Book, early: int, reserved: nat, units: nat)
    requires Sound(b.state) && Due(b, early) && units > 0 && reserved <= b.account.reserved
    ensures Sound(Reconcile(b, early).state) && Reconcile(b, early).account.reserved == b.account.reserved
    ensures Loses(b, early, early, reserved, units)
  {
    hide Settled;
    TermsAre(b.state, early);
    PeriodIs(b.state, early);
    var read := Reconcile(b, early);
    assert !PeriodOver(read.state, early);
  }

  // ---- What commands keep --------------------------------------------------------------------------

  /** The account shows the subscription it was projected from. */
  predicate Shown(b: Book) {
    && b.account.plan == b.state.plan && b.account.status == b.state.status && b.account.periodEnd == b.state.periodEnd
    && b.account.maxSystems == Effective(b.state).systems && b.account.budget == Effective(b.state).budget
  }

  lemma DoKeepsShown(d: Desk, c: Offers, e: Event)
    requires Sound(d.book.state) && Shown(d.book)
    ensures Shown(Do(d, c, e).0.book)
  {
    hide Settled, Transition;
  }

  /** An accepted reservation fits the budget in force when it was made. */
  lemma ReservationFits(d: Desk, clock: int, units: int)
    requires Sound(d.book.state) && Shown(d.book)
    ensures var r := Reserve(d, clock, units);
      r.1 == 200 <==>
        units >= 1 && Live(Reconcile(d.book, clock))
        && Reconcile(d.book, clock).account.consumed + Reconcile(d.book, clock).account.reserved + units
           <= Effective(Reconcile(d.book, clock).state).budget
    ensures var r := Reserve(d, clock, units);
      r.1 == 200 ==>
        && r.0.book.account.consumed + r.0.book.account.reserved <= r.0.book.account.budget
        && r.0.book.state == Reconcile(d.book, clock).state
        && r.0.book.account.reserved == d.book.account.reserved + units
        && r.0.book.account.consumed == (if Due(d.book, clock) then 0 else d.book.account.consumed)
  {
    RefreshSound(d, clock);
    hide Settled;
  }

  lemma RefreshKeeps(d: Desk, clock: int)
    requires Sound(d.book.state)
    ensures var r := Refresh(d, clock).book.state;
      && r.trialUsed == d.book.state.trialUsed
      && (r.graceUntil == d.book.state.graceUntil || (r.graceUntil.None? && TermOver(d.book.state, clock)))
  {
    hide Settled;
    TermsAre(d.book.state, clock);
  }

  lemma TransitionKeeps(s: State, c: Offers, clock: int, command: Command)
    ensures var r := Transition(s, c, clock, command);
      if r.Rejected? then r.code != 200
      else
        && (s.trialUsed ==> r.value.trialUsed && !command.StartTrial?)
        && (command.StartTrial? ==> r.value.trialUsed)
        && (s.graceUntil.Some? && r.value.graceUntil.Some? ==> r.value.graceUntil == s.graceUntil)
  {
  }

  /** A grace deadline that stands is never moved, whatever is asked and however often. */
  lemma GraceIsNeverExtended(d: Desk, c: Offers, e: Event)
    requires Sound(d.book.state)
    ensures var after := Do(d, c, e).0.book.state;
      d.book.state.graceUntil.Some? && after.graceUntil.Some? ==>
        after.graceUntil == d.book.state.graceUntil || TermOver(d.book.state, e.at)
  {
    hide Refresh, Transition;
    RefreshKeeps(d, e.at);
    if e.step.Ordering? {
      TransitionKeeps(Prepared(Refresh(d, e.at).book.state, c), c, e.at, e.step.order.command);
    }
  }

  /** This event starts a trial. */
  predicate StartsTrial(d: Desk, c: Offers, e: Event)
    requires Sound(d.book.state)
  {
    e.step.Ordering? && e.step.order.command.StartTrial? && e.step.order.key !in d.keys && Do(d, c, e).1 == 200
  }

  lemma TrialIsSpent(d: Desk, c: Offers, e: Event)
    requires Sound(d.book.state)
    ensures StartsTrial(d, c, e) ==> !d.book.state.trialUsed && Do(d, c, e).0.book.state.trialUsed
    ensures d.book.state.trialUsed ==> Do(d, c, e).0.book.state.trialUsed
  {
    hide Refresh, Transition;
    RefreshKeeps(d, e.at);
    if e.step.Ordering? {
      TransitionKeeps(Prepared(Refresh(d, e.at).book.state, c), c, e.at, e.step.order.command);
    }
  }

  function Trials(d: Desk, c: Offers, events: seq<Event>): nat
    requires Sound(d.book.state)
  {
    if events == [] then 0
    else
      var init, e := events[..|events| - 1], events[|events| - 1];
      Trials(d, c, init) + (if StartsTrial(Run(d, c, init).0, c, e) then 1 else 0)
  }

  /** Over any run an organization starts at most one trial. */
  lemma {:induction false} TrialOnce(d: Desk, c: Offers, events: seq<Event>)
    requires Sound(d.book.state)
    ensures Trials(d, c, events) <= 1
    ensures Trials(d, c, events) == 1 || d.book.state.trialUsed ==> Run(d, c, events).0.book.state.trialUsed
    ensures d.book.state.trialUsed ==> Trials(d, c, events) == 0
  {
    if events != [] {
      var init, e := events[..|events| - 1], events[|events| - 1];
      TrialOnce(d, c, init);
      TrialIsSpent(Run(d, c, init).0, c, e);
      hide Do;
    }
  }

  lemma RefreshKeepsManaged(d: Desk, clock: int)
    requires Sound(d.book.state)
    ensures Reconcile(d.book, clock).account.managed == d.book.account.managed
  {
    hide Settled, Changes, PeriodOver;
  }

  lemma PlacedKeepsManaged(b: Book, c: Offers, clock: int, command: Command, stale: bool)
    ensures var next := Placed(b, c, clock, command, stale); next.Ok? ==> next.value.account.managed == b.account.managed
  {
    hide Transition;
  }

  /** What was stored under a key stays, and nobody takes the account over. */
  predicate Remembers(d: Desk, after: Desk, key: string)
    requires key in d.keys
  {
    key in after.keys && after.keys[key] == d.keys[key] && after.book.account.managed == d.book.account.managed
  }

  lemma MutateKeepsKeys(d: Desk, c: Offers, clock: int, order: Order, key: string)
    requires Sound(d.book.state) && key in d.keys
    ensures Remembers(d, Mutate(d, c, clock, order).0, key)
  {
    RefreshSound(d, clock);
    RefreshKeepsManaged(d, clock);
    if !d.book.account.managed && order.key !in d.keys {
      var r := Refresh(d, clock);
      MutateIs(d, c, clock, order);
      PlacedKeepsManaged(r.book, c, clock, order.command, order.expected.Some? && order.expected.value != r.revision);
      hide Mutate;
    }
    hide Refresh, Reconcile, Placed, Sound;
  }

  lemma ReserveKeepsKeys(d: Desk, clock: int, units: int, key: string)
    requires Sound(d.book.state) && key in d.keys
    ensures Remembers(d, Reserve(d, clock, units).0, key) && Remembers(d, Refresh(d, clock), key)
  {
    RefreshSound(d, clock);
    RefreshKeepsManaged(d, clock);
    hide Refresh, Reconcile, Sound, Live, Budget;
  }

  lemma DoKeepsKeys(d: Desk, c: Offers, e: Event, key: string)
    requires Sound(d.book.state) && key in d.keys
    ensures Remembers(d, Do(d, c, e).0, key)
  {
    hide Refresh, Mutate, Reserve, Sound;
    match e.step
    case Reading => ReserveKeepsKeys(d, e.at, 1, key);
    case Ordering(order) => MutateKeepsKeys(d, c, e.at, order, key);
    case Reserving(units) => ReserveKeepsKeys(d, e.at, units, key);
    case Charging(_, _) =>
  }

  lemma {:induction false} RunKeepsKeys(d: Desk, c: Offers, events: seq<Event>, key: string)
    requires Sound(d.book.state) && key in d.keys
    ensures Remembers(d, Run(d, c, events).0, key)
  {
    if events != [] {
      RunKeepsKeys(d, c, events[..|events| - 1], key);
      DoKeepsKeys(Run(d, c, events[..|events| - 1]).0, c, events[|events| - 1], key);
      hide Do;
    }
  }

  /** An accepted command is done once: after any run of later events the same request reconciles
      and does nothing else, and another request under its key is refused and changes nothing. */
  lemma CommandsAreIdempotent(d: Desk, c: Offers, clock: int, order: Order, events: seq<Event>, now: int, other: Order)
    requires Sound(d.book.state) && Mutate(d, c, clock, order).1 == 200
    requires other.key == order.key && other.digest != order.digest
    ensures Sound(Mutate(d, c, clock, order).0.book.state)
    ensures var later := Run(Mutate(d, c, clock, order).0, c, events).0;
      Mutate(later, c, now, order) == (Refresh(later, now), 200) && Mutate(later, c, now, other) == (later, 409)
  {
    DoSound(d, c, Event(clock, Ordering(order)));
    Stored(d, c, clock, order);
    RunKeepsKeys(Mutate(d, c, clock, order).0, c, events, order.key);
    hide Refresh, Placed, Run;
  }

  lemma Stored(d: Desk, c: Offers, clock: int, order: Order)
    requires Sound(d.book.state) && Mutate(d, c, clock, order).1 == 200
    ensures var after := Mutate(d, c, clock, order).0;
      order.key in after.keys && after.keys[order.key] == order.digest && !after.book.account.managed
  {
    RefreshSound(d, clock);
    assert Refresh(d, clock).book.account.managed == d.book.account.managed;
    if order.key !in d.keys {
      MutateIs(d, c, clock, order);
      PlacedSound(Reconcile(d.book, clock), c, clock, order.command, true);
      PlacedSound(Reconcile(d.book, clock), c, clock, order.command, false);
    }
    hide Refresh, Transition, Reconcile;
  }
}
