/** Clearance cycles: cleared, lost, restored.

    Models `cycles` of `assurance_intelligence.py` and `_maintained` with the loss intervals of
    `business_measurement.py`. The loss moments are an input; times are seconds. */
module Cycles {
  import opened Common

  datatype Cause = SOURCE_CHANGE | STATE_TRANSITION | AUTHORITY_DECLARATION | REVOCATION | FAILED_VERIFICATION

  datatype Event =
    | Losing(at: int, cause: Cause, id: nat)
    | Ruling(at: int, id: nat, allow: bool)

  datatype Moment = Moment(at: int, cause: Cause, id: nat)
  datatype Mark = Mark(at: int, id: nat)

  datatype Cycle = Cycle(cleared: Mark, lost: Option<Moment>, attempts: nat, restored: Option<Mark>)

  // ---- Chronological order ---------------------------------------------------------------------

  /** At the same time a loss comes before a decision. */
  predicate Precedes(x: Event, y: Event) {
    x.at < y.at || (x.at == y.at && (x.Losing? || y.Ruling?))
  }

  predicate InOrder(events: seq<Event>) {
    forall i, j :: 0 <= i < j < |events| ==> Precedes(events[i], events[j])
  }

  function Insert(events: seq<Event>, e: Event): seq<Event> {
    if events == [] || Precedes(events[|events| - 1], e) then events + [e]
    else Insert(events[..|events| - 1], e) + [events[|events| - 1]]
  }

  /** The stable sort of `cycles`. */
  function Chronological(events: seq<Event>): seq<Event> {
    if events == [] then [] else Insert(Chronological(events[..|events| - 1]), events[|events| - 1])
  }

  lemma {:induction false} InsertKeeps(events: seq<Event>, e: Event)
    ensures multiset(Insert(events, e)) == multiset(events) + multiset{e}
  {
    if events != [] && !Precedes(events[|events| - 1], e) {
      InsertKeeps(events[..|events| - 1], e);
      assert events == events[..|events| - 1] + [events[|events| - 1]];
    }
  }

  lemma {:induction false} InsertSorts(events: seq<Event>, e: Event)
    requires InOrder(events)
    ensures InOrder(Insert(events, e))
  {
    if events != [] && !Precedes(events[|events| - 1], e) {
      var init, last := events[..|events| - 1], events[|events| - 1];
      InsertSorts(init, e);
      InsertKeeps(init, e);
      var inserted := Insert(init, e);
      forall i | 0 <= i < |inserted| ensures Precedes(inserted[i], last) {
        assert inserted[i] in multiset(inserted);
        assert inserted[i] in init || inserted[i] == e;
      }
    }
  }

  lemma {:induction false} ChronologicalSorts(events: seq<Event>)
    ensures InOrder(Chronological(events)) && multiset(Chronological(events)) == multiset(events)
    ensures var sorted := Chronological(events);
      forall i, j :: 0 <= i < j < |sorted| ==>
        sorted[i].at <= sorted[j].at && (sorted[i].at == sorted[j].at && sorted[j].Losing? ==> sorted[i].Losing?)
  {
    if events != [] {
      ChronologicalSorts(events[..|events| - 1]);
      InsertSorts(Chronological(events[..|events| - 1]), events[|events| - 1]);
      InsertKeeps(Chronological(events[..|events| - 1]), events[|events| - 1]);
      assert events == events[..|events| - 1] + [events[|events| - 1]];
    }
  }

  // ---- The one-pass fold -------------------------------------------------------------------------

  function Opened(e: Event): Cycle
    requires e.Ruling?
  {
    Cycle(Mark(e.at, e.id), None, 0, None)
  }

  function LostBy(c: Cycle, e: Event): Cycle {
    if e.Losing? then c.(lost := Some(Moment(e.at, e.cause, e.id)))
    else c.(lost := Some(Moment(e.at, FAILED_VERIFICATION, e.id)), attempts := c.attempts + 1)
  }

  function RestoredBy(c: Cycle, e: Event): Cycle { c.(restored := Some(Mark(e.at, e.id))) }

  /** The cycle still open after one event. */
  function Kept(open: Option<Cycle>, e: Event): Option<Cycle> {
    if e.Losing? then
      if open.Some? && open.value.lost.None? then Some(LostBy(open.value, e)) else open
    else if e.allow then
      if open.None? || open.value.lost.Some? then Some(Opened(e)) else open
    else if open.None? then None
    else if open.value.lost.None? then Some(LostBy(open.value, e))
    else Some(open.value.(attempts := open.value.attempts + 1))
  }

  /** The event restores the open cycle. */
  predicate Restores(open: Option<Cycle>, e: Event) {
    e.Ruling? && e.allow && open.Some? && open.value.lost.Some?
  }

  /** Completed cycles and the open one. */
  datatype Timeline = Timeline(completed: seq<Cycle>, open: Option<Cycle>)

  function After(completed: Cycle, rest: Timeline): Timeline { Timeline([completed] + rest.completed, rest.open) }

  /** The pass from position `i` on. */
  function Continue(events: seq<Event>, i: nat, open: Option<Cycle>): Timeline
    requires i <= |events|
    decreases |events| - i
  {
    if i == |events| then Timeline([], open)
    else
      var rest := Continue(events, i + 1, Kept(open, events[i]));
      if Restores(open, events[i]) then After(RestoredBy(open.value, events[i]), rest) else rest
  }

  method Cycles(history: seq<Event>) returns (result: seq<Cycle>, open: Option<Cycle>)
    ensures Timeline(result, open) == Continue(Chronological(history), 0, None)
  {
    var events := Chronological(history);
    result, open := [], None;
    for i := 0 to |events|
      invariant Continue(events, 0, None).completed == result + Continue(events, i, open).completed
      invariant Continue(events, 0, None).open == Continue(events, i, open).open
    {
      var e := events[i];
      if e.Losing? {
        if open.Some? && open.value.lost.None? {
          open := Some(open.value.(lost := Some(Moment(e.at, e.cause, e.id))));
        }
      } else if e.allow {
        if open.Some? && open.value.lost.Some? {
          result := result + [open.value.(restored := Some(Mark(e.at, e.id)))];
          open := None;
        }
        if open.None? {
          open := Some(Cycle(Mark(e.at, e.id), None, 0, None));
        }
      } else if open.Some? {
        var attempts := open.value.attempts + 1;
        open := Some(open.value.(attempts := attempts));
        if open.value.lost.None? {
          open := Some(open.value.(lost := Some(Moment(e.at, FAILED_VERIFICATION, e.id))));
        }
      }
    }
  }

  // ---- What the cycles mean ----------------------------------------------------------------------

  predicate Allows(e: Event) { e.Ruling? && e.allow }

  /** The first decision to ALLOW at or after `i`; `|events|` if there is none. */
  function NextAllow(events: seq<Event>, i: nat): (r: nat)
    requires i <= |events|
    ensures i <= r <= |events|
    ensures r < |events| ==> Allows(events[r])
    ensures forall j :: i <= j < r ==> !Allows(events[j])
    decreases |events| - i
  {
    if i == |events| || Allows(events[i]) then i else NextAllow(events, i + 1)
  }

  /** The first loss moment or decision other than ALLOW at or after `i`. */
  function NextLoss(events: seq<Event>, i: nat): (r: nat)
    requires i <= |events|
    ensures i <= r <= |events|
    ensures r < |events| ==> !Allows(events[r])
    ensures forall j :: i <= j < r ==> Allows(events[j])
    decreases |events| - i
  {
    if i == |events| || !Allows(events[i]) then i else NextLoss(events, i + 1)
  }

  /** Decisions other than ALLOW in `[i, j)`. */
  function Refusals(events: seq<Event>, i: nat, j: nat): nat
    requires i <= j <= |events|
    decreases j - i
  {
    if i == j then 0 else (if events[i].Ruling? && !events[i].allow then 1 else 0) + Refusals(events, i + 1, j)
  }

  function LossOf(e: Event): Moment {
    if e.Losing? then Moment(e.at, e.cause, e.id) else Moment(e.at, FAILED_VERIFICATION, e.id)
  }

  function MarkOf(e: Event): Mark { Mark(e.at, e.id) }

  /** The meaning of the history from the clearing decision at `i` on: the loss is the first
      event after it that is not an ALLOW, the restoration the first ALLOW after the loss, and
      the restoring decision opens the next cycle. */
  function Meaning(events: seq<Event>, i: nat): Timeline
    requires i < |events|
    decreases |events| - i
  {
    var l := NextLoss(events, i + 1);
    if l == |events| then Timeline([], Some(Cycle(MarkOf(events[i]), None, 0, None)))
    else
      var r := NextAllow(events, l + 1);
      var lost := Cycle(MarkOf(events[i]), Some(LossOf(events[l])), Refusals(events, l, r), None);
      if r == |events| then Timeline([], Some(lost))
      else After(lost.(restored := Some(MarkOf(events[r]))), Meaning(events, r))
  }

  lemma {:induction false} SkipToAllow(events: seq<Event>, i: nat)
    requires i <= |events|
    ensures var a := NextAllow(events, i);
      Continue(events, i, None) ==
      if a == |events| then Timeline([], None) else Continue(events, a + 1, Some(Opened(events[a])))
    decreases |events| - i
  {
    if i < |events| && !Allows(events[i]) {
      SkipToAllow(events, i + 1);
    }
  }

  lemma {:induction false} SkipToLoss(events: seq<Event>, i: nat, c: Cycle)
    requires i <= |events| && c.lost.None?
    ensures var l := NextLoss(events, i);
      Continue(events, i, Some(c)) ==
      if l == |events| then Timeline([], Some(c)) else Continue(events, l + 1, Some(LostBy(c, events[l])))
    decreases |events| - i
  {
    if i < |events| && Allows(events[i]) {
      SkipToLoss(events, i + 1, c);
    }
  }

  lemma {:induction false} SkipToRestoration(events: seq<Event>, i: nat, c: Cycle)
    requires i <= |events| && c.lost.Some?
    ensures var r := NextAllow(events, i);
      var tried := c.(attempts := c.attempts + Refusals(events, i, r));
      Continue(events, i, Some(c)) ==
      if r == |events| then Timeline([], Some(tried))
      else After(RestoredBy(tried, events[r]), Continue(events, r + 1, Some(Opened(events[r]))))
    decreases |events| - i
  {
    if i < |events| && !Allows(events[i]) {
      SkipToRestoration(events, i + 1, if events[i].Losing? then c else c.(attempts := c.attempts + 1));
    }
  }

  lemma {:induction false} OpenMeans(events: seq<Event>, i: nat)
    requires i < |events| && Allows(events[i])
    ensures Continue(events, i + 1, Some(Opened(events[i]))) == Meaning(events, i)
    decreases |events| - i
  {
    SkipToLoss(events, i + 1, Opened(events[i]));
    var l := NextLoss(events, i + 1);
    if l < |events| {
      SkipToRestoration(events, l + 1, LostBy(Opened(events[i]), events[l]));
      var r := NextAllow(events, l + 1);
      if r < |events| {
        OpenMeans(events, r);
      }
    }
  }

  /** The one-pass fold computes exactly the declared cycles. */
  lemma FoldMeans(events: seq<Event>)
    ensures var a := NextAllow(events, 0);
      Continue(events, 0, None) == if a == |events| then Timeline([], None) else Meaning(events, a)
  {
    SkipToAllow(events, 0);
    if NextAllow(events, 0) < |events| {
      OpenMeans(events, NextAllow(events, 0));
    }
  }

  // ---- Shape of the result -----------------------------------------------------------------------

  predicate CompletedInOrder(c: Cycle) {
    c.lost.Some? && c.restored.Some? && c.cleared.at <= c.lost.value.at <= c.restored.value.at
  }

  predicate OpenInOrder(c: Cycle) { c.restored.None? && (c.lost.Some? ==> c.cleared.at <= c.lost.value.at) }

  /** Times in order, and each restoration is the next clearance. */
  predicate Shaped(result: seq<Cycle>, open: Option<Cycle>) {
    && (forall k :: 0 <= k < |result| ==> CompletedInOrder(result[k]))
    && (forall k :: 0 <= k < |result| - 1 ==> result[k].restored == Some(result[k + 1].cleared))
    && (open.Some? ==> OpenInOrder(open.value))
    && (result != [] ==> open.Some? && CompletedInOrder(result[|result| - 1])
                         && result[|result| - 1].restored == Some(open.value.cleared))
  }

  predicate NotAfter(c: Cycle, at: int) { c.cleared.at <= at && (c.lost.Some? ==> c.lost.value.at <= at) }

  lemma {:induction false} ContinueShaped(events: seq<Event>, i: nat, open: Option<Cycle>)
    requires InOrder(events) && i <= |events|
    requires open.Some? ==> OpenInOrder(open.value) && (i < |events| ==> NotAfter(open.value, events[i].at))
    ensures var r := Continue(events, i, open);
      && Shaped(r.completed, r.open)
      && (open.Some? && r.completed != [] ==> r.completed[0].cleared == open.value.cleared)
      && (open.Some? && r.completed == [] ==> r.open.Some? && r.open.value.cleared == open.value.cleared)
    decreases |events| - i
  {
    if i < |events| {
      if i + 1 < |events| {
        assert Precedes(events[i], events[i + 1]);
      }
      ContinueShaped(events, i + 1, Kept(open, events[i]));
    }
  }

  /** For every history: cleared, then lost, then restored, and each cycle's restoring decision
      is the one that clears the next. */
  lemma CyclesAreShaped(history: seq<Event>)
    ensures var r := Continue(Chronological(history), 0, None); Shaped(r.completed, r.open)
  {
    ChronologicalSorts(history);
    ContinueShaped(Chronological(history), 0, None);
  }

  // ---- Loss intervals ----------------------------------------------------------------------------

  datatype Interval = Interval(lost: int, restored: Option<int>)

  function IntervalOf(c: Cycle): Interval
    requires c.lost.Some?
  {
    Interval(c.lost.value.at, if c.restored.Some? then Some(c.restored.value.at) else None)
  }

  /** The losses `north_star` reads from the cycles. */
  function Losses(result: seq<Cycle>, open: Option<Cycle>): (r: seq<Interval>)
    requires forall k :: 0 <= k < |result| ==> result[k].lost.Some?
  {
    seq(|result|, k requires 0 <= k < |result| => IntervalOf(result[k]))
    + (if open.Some? && open.value.lost.Some? then [IntervalOf(open.value)] else [])
  }

  predicate Active(l: Interval, end: int) { l.lost <= end && (l.restored.None? || l.restored.value > end) }

  lemma {:induction false} RestoredBeforeNextLoss(result: seq<Cycle>, open: Option<Cycle>, i: nat, j: nat)
    requires Shaped(result, open) && i < j < |result|
    ensures result[i].restored.value.at <= result[j].lost.value.at
    decreases j - i
  {
    assert CompletedInOrder(result[j]) && CompletedInOrder(result[j - 1]);
    assert result[j - 1].restored == Some(result[j].cleared);
    if i < j - 1 {
      RestoredBeforeNextLoss(result, open, i, j - 1);
    }
  }

  /** Losses of one history never overlap. */
  lemma LossesAreDisjoint(result: seq<Cycle>, open: Option<Cycle>, i: nat, j: nat)
    requires Shaped(result, open) && i < j < |Losses(result, open)|
    ensures var losses := Losses(result, open);
      losses[i].restored.Some? && losses[i].restored.value <= losses[j].lost
  {
    var last := |result| - 1;
    assert CompletedInOrder(result[i]) && CompletedInOrder(result[last]);
    if j < |result| {
      RestoredBeforeNextLoss(result, open, i, j);
    } else if i < last {
      RestoredBeforeNextLoss(result, open, i, last);
    }
  }

  /** At most one loss is active at any instant. */
  predicate AtMostOneActive(losses: seq<Interval>, end: int) {
    forall i, j :: 0 <= i < |losses| && 0 <= j < |losses| && Active(losses[i], end) && Active(losses[j], end) ==> i == j
  }

  lemma OneLossAtATime(history: seq<Event>, end: int)
    ensures var r := Continue(Chronological(history), 0, None);
      Shaped(r.completed, r.open) && AtMostOneActive(Losses(r.completed, r.open), end)
  {
    CyclesAreShaped(history);
    var r := Continue(Chronological(history), 0, None);
    var losses := Losses(r.completed, r.open);
    forall i, j | 0 <= i < |losses| && 0 <= j < |losses| && Active(losses[i], end) && Active(losses[j], end)
      ensures i == j
    {
      if i < j {
        LossesAreDisjoint(r.completed, r.open, i, j);
      } else if j < i {
        LossesAreDisjoint(r.completed, r.open, j, i);
      }
    }
  }
}
