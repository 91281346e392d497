/** Subscriptions as they really arise: from a newly created organization.

    Models `provision_free` of `commercial.py` and what every run of readings, commands,
    reservations and charges from there keeps. */
module Provisioning {
  import opened Common
  import opened Calendar
  import opened Subscription
  import opened Contracts

  /** `provision_free`: the free plan for a month, at revision 1. */
  function Provisioned(c: Offers, start: Moment): Desk {
    var free := c.plans["free"];
    var state := State("free", FREE, NONE, free, None, Some(start), Some(NextMonth(start)), None, None, false, None, None, None);
    Desk(Book(state, Project(Account("free", FREE, 0, 0, None, 0, 0, false), state)), 1, map[])
  }

  /** What the code relies on without checking: a period with an end, a plan that is its version's,
      grace on a paid plan with a deadline, and the free plan behind whatever can expire. */
  predicate Established(d: Desk, c: Offers) {
    var s := d.book.state;
    && Regular(s, c) && Shown(d.book) && !d.book.account.managed
  }

  predicate Regular(s: State, c: Offers) {
    && Sound(s) && s.periodStart.Some? && s.periodEnd.Some? && s.plan == s.version.id
    && (s.fallback.Some? ==> s.fallback.value == c.plans["free"])
    && (s.status == GRACE ==> s.plan != "free" && s.graceUntil.Some?)
    && (s.trial.Some? ==> s.trialUsed)
    && !s.provider.STRIPE?
  }

  lemma SettledIsRegular(s: State, c: Offers, clock: int)
    requires Regular(s, c)
    ensures Regular(Settled(s, clock), c)
  {
    TermsAre(s, clock);
    PlanIs(s, clock);
    PeriodIs(s, clock);
    hide Settled;
  }

  lemma TransitionIsRegular(s: State, c: Offers, clock: int, command: Command)
    requires Regular(s, c)
    ensures var next := Transition(Prepared(s, c), c, clock, command); next.Ok? ==> Regular(next.value, c)
  {
  }

  lemma RefreshIsEstablished(d: Desk, c: Offers, clock: int)
    requires Established(d, c)
    ensures Established(Refresh(d, clock), c)
  {
    SettledIsRegular(d.book.state, c, clock);
    hide Settled, Regular;
  }

  lemma MutateIsEstablished(d: Desk, c: Offers, clock: int, order: Order)
    requires Established(d, c)
    ensures Established(Mutate(d, c, clock, order).0, c)
  {
    RefreshIsEstablished(d, c, clock);
    TransitionIsRegular(Refresh(d, clock).book.state, c, clock, order.command);
    hide Refresh, Regular, Transition;
  }

  lemma DoIsEstablished(d: Desk, c: Offers, e: Event)
    requires Established(d, c)
    ensures Established(Do(d, c, e).0, c)
  {
    RefreshIsEstablished(d, c, e.at);
    if e.step.Ordering? {
      MutateIsEstablished(d, c, e.at, e.step.order);
    }
    hide Refresh, Mutate, Regular;
  }

  /** Over any run from a new organization the projection finds a period end, the account matches
      its subscription, and reconciliation finds a plan to fall back to. */
  lemma {:induction false} EstablishedForEver(c: Offers, start: Moment, events: seq<Event>)
    ensures Sound(Provisioned(c, start).book.state)
    ensures Established(Run(Provisioned(c, start), c, events).0, c)
  {
    var d := Provisioned(c, start);
    if events != [] {
      EstablishedForEver(c, start, events[..|events| - 1]);
      DoIsEstablished(Run(d, c, events[..|events| - 1]).0, c, events[|events| - 1]);
      hide Established, Do;
    }
  }

  // ---- A reading that is seen ----------------------------------------------------------------------

  function First(start: Moment): Event {
    Event(Instant(start), Ordering(Order("first", 0, None, Promote(Promotion(0, Instant(start) + 10)))))
  }

  function Looking(start: Moment): Event { Event(Instant(start) + 10, Reading) }

  function Second(start: Moment): Event {
    var end := Instant(NextMonth(start));
    Event(end, Ordering(Order("second", 1, Some(3), Promote(Promotion(1, end + 1)))))
  }

  /** Something is due when it is read and again by the order, which names the revision one
      reconciliation makes. */
  predicate Poised(placed: Desk, looking: Event, second: Event) {
    && Sound(placed.book.state) && Modern(placed.book) && !placed.book.account.managed
    && looking.step.Reading? && second.step.Ordering? && looking.at <= second.at
    && second.step.order.key !in placed.keys && second.step.order.expected == Some(placed.revision + 1)
    && second.step.order.command.Promote? && second.at < second.step.order.command.promotion.expiresAt
    && Changes(placed.book.state, looking.at) && Changes(Reconcile(placed.book, looking.at).state, second.at)
  }

  lemma FirstIs(c: Offers, start: Moment)
    ensures Sound(Provisioned(c, start).book.state)
    ensures var before := Provisioned(c, start).book;
      var state := before.state.(provider := MOCK, fallback := Some(c.plans["free"]), promotion := Some(Promotion(0, Instant(start) + 10)));
      Do(Provisioned(c, start), c, First(start)) == (Desk(Book(state, Project(before.account, state)), 2, map["first" := 0]), 200)
  {
    NextMonthIsLater(start);
    hide Instant, NextMonth, Reconcile;
    MutateIs(Provisioned(c, start), c, Instant(start), First(start).step.order);
    assert !Changes(Provisioned(c, start).book.state, Instant(start));
    assert Reconcile(Provisioned(c, start).book, Instant(start)) == Provisioned(c, start).book by {
      NothingIsDue(Provisioned(c, start).book, Instant(start));
    }
    hide Mutate;
  }

  lemma NothingIsDue(b: Book, clock: int)
    requires Sound(b.state) && !Changes(b.state, clock)
    ensures Reconcile(b, clock) == b
  {
  }

  /** What is due at the first moment is reconciled then, and the period still ends later. */
  lemma PeriodStillEnds(b: Book, early: int, late: int)
    requires Sound(b.state) && early <= late && Modern(b) && !PeriodOver(b.state, early) && PeriodOver(b.state, late)
    ensures Changes(Reconcile(b, early).state, late)
  {
    TermsAre(b.state, early);
    PeriodIs(b.state, early);
    hide Settled;
  }

  /** The first promotion leaves two changes: when it ends, and when the period does. */
  lemma FirstIsPoised(c: Offers, start: Moment)
    ensures Sound(Provisioned(c, start).book.state)
    ensures var (placed, code) := Do(Provisioned(c, start), c, First(start));
      code == 200 && Poised(placed, Looking(start), Second(start))
  {
    FirstIs(c, start);
    NextMonthIsLater(start);
    var placed := Do(Provisioned(c, start), c, First(start)).0;
    hide Instant, NextMonth, Reconcile, Do;
    PeriodStillEnds(placed.book, Looking(start).at, Second(start).at);
  }

  /** An order, a reading and another order, with and without the reading. */
  lemma ThreeEvents(d: Desk, c: Offers, first: Event, looking: Event, second: Event)
    requires Sound(d.book.state) && first.step.Ordering? && looking.step.Reading? && second.step.Ordering?
    requires first.at <= looking.at <= second.at
    ensures var events := [first, looking, second];
      && Unread(events) == [first, second] && Timely(d, c, events)
      && Sound(Do(d, c, first).0.book.state) && Sound(Do(Do(d, c, first).0, c, looking).0.book.state)
      && Run(d, c, [first, second]).1 == [Do(d, c, first).1, Do(Do(d, c, first).0, c, second).1]
      && Run(d, c, events).1 == [Do(d, c, first).1, Do(Do(Do(d, c, first).0, c, looking).0, c, second).1]
  {
    DoSound(d, c, first);
    DoSound(Do(d, c, first).0, c, looking);
    OneEvent(d, c, first);
    assert [first] + [looking] == [first, looking] && [first] + [second] == [first, second];
    assert [first, looking] + [second] == [first, looking, second];
    hide Do, Run, Unread, Timely, Due, Sound;
    OneMoreEvent(d, c, [first], second);
    OneMoreEvent(d, c, [first], looking);
    OneMoreEvent(d, c, [first, looking], second);
  }

  lemma OneEvent(d: Desk, c: Offers, e: Event)
    requires Sound(d.book.state) && e.step.Ordering?
    ensures Run(d, c, [e]) == (Do(d, c, e).0, [Do(d, c, e).1]) && Unread([e]) == [e] && Timely(d, c, [e])
  {
    assert [] + [e] == [e] && Run(d, c, []) == (d, []) && Unread([]) == [] && Timely(d, c, []);
    OneMoreEvent(d, c, [], e);
    assert [] + [Do(d, c, e).1] == [Do(d, c, e).1];
    hide Do, Run, Unread, Timely;
  }

  lemma PoisedIsSeen(placed: Desk, c: Offers, looking: Event, second: Event)
    requires Poised(placed, looking, second)
    ensures Do(placed, c, second).1 == 200
    ensures Sound(Do(placed, c, looking).0.book.state) && Do(Do(placed, c, looking).0, c, second).1 == 409
  {
    ReadingBetweenChanges(placed, c, looking.at, second.at, second.step.order);
    hide Changes, Reconcile, Refresh, Mutate, Modern, Sound;
  }

  /** A new organization takes a promotion that soon ends, and when its month is over orders again
      for the revision one reconciliation makes. It is served, unless someone looked in between:
      then the promotion and the month ended in two reconciliations, and the order is refused. */
  lemma ReadingCanBeSeen(c: Offers, start: Moment)
    ensures var d := Provisioned(c, start);
      var events := [First(start), Looking(start), Second(start)];
      && Sound(d.book.state) && Timely(d, c, events) && Unread(events) == [First(start), Second(start)]
      && Run(d, c, Unread(events)).1 == [200, 200] && Run(d, c, events).1 == [200, 409]
  {
    FirstIsPoised(c, start);
    var placed := Do(Provisioned(c, start), c, First(start)).0;
    PoisedIsSeen(placed, c, Looking(start), Second(start));
    hide Instant, NextMonth, Do, Run, Unread, Timely, Poised, Sound;
    ThreeEvents(Provisioned(c, start), c, First(start), Looking(start), Second(start));
  }
}
