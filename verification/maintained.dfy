/** Whether clearance was maintained at an instant, read back from the recorded cycles.

    Models `_maintained` and the loss-interval and current-week parts of `north_star` of
    `business_measurement.py`. */
module Maintained {
  import opened Common
  import opened Cycles

  const REESTABLISH_WINDOW := 14 * 86400

  /** One environment: its first ALLOW and its losses. */
  datatype Record = Record(firstAllow: Option<int>, losses: seq<Interval>)

  function Earliest(events: seq<Event>): Option<int> {
    if events == [] then None
    else
      var rest, e := Earliest(events[1..]), events[0];
      if !Allows(e) then rest else if rest.None? || e.at <= rest.value then Some(e.at) else rest
  }

  /** What `north_star` keeps of one environment's history. */
  function RecordOf(history: seq<Event>): Record
    requires Shaped(Continue(Chronological(history), 0, None).completed, Continue(Chronological(history), 0, None).open)
  {
    var r := Continue(Chronological(history), 0, None);
    Record(Earliest(history), Losses(r.completed, r.open))
  }

  predicate Fresh(l: Interval, end: int) { end - l.lost <= REESTABLISH_WINDOW }

  predicate Begun(r: Record, end: int) { r.firstAllow.Some? && r.firstAllow.value <= end }

  predicate Holds(r: Record, end: int) {
    && Begun(r, end)
    && ((forall i :: 0 <= i < |r.losses| ==> !Active(r.losses[i], end))
        || exists i :: 0 <= i < |r.losses| && Active(r.losses[i], end) && Fresh(r.losses[i], end))
  }

  /** `_maintained`. */
  method Maintained(records: seq<Record>, end: int) returns (maintained: bool)
    ensures maintained <==> exists k :: 0 <= k < |records| && Holds(records[k], end)
  {
    for k := 0 to |records|
      invariant forall j :: 0 <= j < k ==> !Holds(records[j], end)
    {
      if records[k].firstAllow.Some? && records[k].firstAllow.value <= end {
        var anyActive, anyFresh := false, false;
        var losses := records[k].losses;
        for i := 0 to |losses|
          invariant anyActive <==> exists j :: 0 <= j < i && Active(losses[j], end)
          invariant anyFresh <==> exists j :: 0 <= j < i && Active(losses[j], end) && Fresh(losses[j], end)
        {
          if Active(losses[i], end) {
            anyActive := true;
            anyFresh := anyFresh || end - losses[i].lost <= REESTABLISH_WINDOW;
          }
        }
        if !anyActive || anyFresh {
          return true;
        }
      }
    }
    maintained := false;
  }

  // ---- Looking back equals looking at the time ---------------------------------------------------

  /** How many events of an ordered history had happened by `end`. */
  function Happened(events: seq<Event>, end: int): (m: nat)
    ensures m <= |events|
    ensures m < |events| ==> events[m].at > end
    ensures forall j :: 0 <= j < m ==> events[j].at <= end
  {
    if events == [] || events[0].at > end then 0 else 1 + Happened(events[1..], end)
  }

  lemma RestIsLater(events: seq<Event>, end: int)
    requires InOrder(events)
    ensures forall j :: Happened(events, end) <= j < |events| ==> events[j].at > end
  {
    var m := Happened(events, end);
    assert forall j :: m < j < |events| ==> Precedes(events[m], events[j]);
  }

  /** What the fold would have answered at `end`. */
  function OpenAt(events: seq<Event>, end: int): Option<Cycle> {
    Continue(events[..Happened(events, end)], 0, None).open
  }

  lemma {:induction false} Splits(events: seq<Event>, m: nat, i: nat, open: Option<Cycle>)
    requires i <= m <= |events|
    ensures var early := Continue(events[..m], i, open);
      var late := Continue(events, m, early.open);
      Continue(events, i, open) == Timeline(early.completed + late.completed, late.open)
    decreases m - i
  {
    if i < m {
      assert events[..m][i] == events[i];
      Splits(events, m, i + 1, Kept(open, events[i]));
    } else {
      assert Continue(events[..m], i, open).completed == [];
    }
  }

  lemma {:induction false} CompletedByEnd(events: seq<Event>, i: nat, open: Option<Cycle>, end: int)
    requires i <= |events| && forall j :: i <= j < |events| ==> events[j].at <= end
    requires open.Some? && open.value.lost.Some? ==> open.value.lost.value.at <= end
    ensures var r := Continue(events, i, open);
      && (forall k :: 0 <= k < |r.completed| ==> r.completed[k].restored.Some? && r.completed[k].restored.value.at <= end)
      && (r.open.Some? && r.open.value.lost.Some? ==> r.open.value.lost.value.at <= end)
    decreases |events| - i
  {
    if i < |events| {
      CompletedByEnd(events, i + 1, Kept(open, events[i]), end);
    }
  }

  /** The cycle was lost at `t` and not restored by `end`. */
  predicate LostAt(c: Cycle, end: int, t: int) {
    c.lost.Some? && c.lost.value.at == t && t <= end && (c.restored.None? || c.restored.value.at > end)
  }

  predicate SomeLostAt(r: Timeline, end: int, t: int) {
    (exists k :: 0 <= k < |r.completed| && LostAt(r.completed[k], end, t)) || (r.open.Some? && LostAt(r.open.value, end, t))
  }

  /** Events after `end` leave what was lost at `end` lost then, and add nothing to it. */
  lemma {:induction false} LaterEvents(events: seq<Event>, m: nat, open: Option<Cycle>, end: int, t: int)
    requires m <= |events| && forall j :: m <= j < |events| ==> events[j].at > end
    requires open.Some? ==> open.value.restored.None?
    ensures SomeLostAt(Continue(events, m, open), end, t) <==> open.Some? && LostAt(open.value, end, t)
    decreases |events| - m
  {
    if m < |events| {
      LaterEvents(events, m + 1, Kept(open, events[m]), end, t);
      var rest := Continue(events, m + 1, Kept(open, events[m]));
      if Restores(open, events[m]) {
        var r := After(RestoredBy(open.value, events[m]), rest);
        assert r.completed[0] == RestoredBy(open.value, events[m]);
        assert forall k :: 0 < k < |r.completed| ==> r.completed[k] == rest.completed[k - 1];
        if LostAt(open.value, end, t) {
          assert LostAt(r.completed[0], end, t);
        }
      }
    }
  }

  /** The losses active at `end`, read from the whole history, are exactly the one the fold had
      open at `end`. */
  lemma LookingBack(events: seq<Event>, end: int, t: int)
    requires InOrder(events)
    ensures SomeLostAt(Continue(events, 0, None), end, t) <==>
      OpenAt(events, end).Some? && LostAt(OpenAt(events, end).value, end, t)
  {
    var m := Happened(events, end);
    var early := Continue(events[..m], 0, None);
    Splits(events, m, 0, None);
    CompletedByEnd(events[..m], 0, None, end);
    ContinueShaped(events[..m], 0, None);
    RestIsLater(events, end);
    LaterEvents(events, m, early.open, end, t);
    Joined(early.completed, Continue(events, m, early.open), end, t);
  }

  lemma Joined(early: seq<Cycle>, late: Timeline, end: int, t: int)
    requires forall k :: 0 <= k < |early| ==> early[k].restored.Some? && early[k].restored.value.at <= end
    ensures SomeLostAt(Timeline(early + late.completed, late.open), end, t) <==> SomeLostAt(late, end, t)
  {
    var all := early + late.completed;
    forall k | 0 <= k < |late.completed| ensures all[|early| + k] == late.completed[k] {
    }
    forall k | 0 <= k < |early| ensures !LostAt(all[k], end, t) {
    }
    if SomeLostAt(Timeline(all, late.open), end, t) && !(late.open.Some? && LostAt(late.open.value, end, t)) {
      var k :| 0 <= k < |all| && LostAt(all[k], end, t);
      assert LostAt(late.completed[k - |early|], end, t);
    }
  }

  lemma {:induction false} EarliestIsLeast(events: seq<Event>)
    ensures Earliest(events).Some? <==> exists i :: 0 <= i < |events| && Allows(events[i])
    ensures Earliest(events).Some? ==>
      && (exists i :: 0 <= i < |events| && Allows(events[i]) && events[i].at == Earliest(events).value)
      && (forall i :: 0 <= i < |events| && Allows(events[i]) ==> Earliest(events).value <= events[i].at)
  {
    if events != [] {
      EarliestIsLeast(events[1..]);
      assert forall i :: 1 <= i < |events| ==> events[i] == events[1..][i - 1];
      assert forall i :: 0 <= i < |events[1..]| ==> events[1..][i] == events[i + 1];
    }
  }

  lemma {:induction false} OpenOnceAllowed(events: seq<Event>, i: nat, open: Option<Cycle>)
    requires i <= |events|
    ensures Continue(events, i, open).open.Some? <==> open.Some? || exists j :: i <= j < |events| && Allows(events[j])
    decreases |events| - i
  {
    if i < |events| {
      OpenOnceAllowed(events, i + 1, Kept(open, events[i]));
    }
  }

  lemma SortKeeps(history: seq<Event>, e: Event)
    ensures e in Chronological(history) <==> e in history
  {
    ChronologicalSorts(history);
    assert e in Chronological(history) <==> e in multiset(Chronological(history));
    assert e in history <==> e in multiset(history);
  }

  /** The history has begun by `end` exactly when the fold had a cycle open at `end`. */
  lemma BegunMeansOpen(history: seq<Event>, end: int)
    ensures OpenAt(Chronological(history), end).Some? <==> Earliest(history).Some? && Earliest(history).value <= end
  {
    var events := Chronological(history);
    var m := Happened(events, end);
    ChronologicalSorts(history);
    RestIsLater(events, end);
    EarliestIsLeast(history);
    OpenOnceAllowed(events[..m], 0, None);
    if Earliest(history).Some? && Earliest(history).value <= end {
      var i :| 0 <= i < |history| && Allows(history[i]) && history[i].at == Earliest(history).value;
      SortKeeps(history, history[i]);
      var j :| 0 <= j < |events| && events[j] == history[i];
      assert events[..m][j] == events[j];
    }
    if OpenAt(events, end).Some? {
      var j :| 0 <= j < m && Allows(events[..m][j]);
      SortKeeps(history, events[j]);
    }
  }

  /** Clearance held at `end`: a cycle was open, not lost or lost within the window. */
  predicate HeldAt(history: seq<Event>, end: int) {
    var open := OpenAt(Chronological(history), end);
    open.Some? && (open.value.lost.None? || end - open.value.lost.value.at <= REESTABLISH_WINDOW)
  }

  /** A loss begun at `t` is active. */
  predicate Shows(losses: seq<Interval>, end: int, t: int) {
    exists i :: 0 <= i < |losses| && Active(losses[i], end) && losses[i].lost == t
  }

  lemma LossesShowWhatWasLost(r: Timeline, end: int, t: int)
    requires Shaped(r.completed, r.open)
    ensures Shows(Losses(r.completed, r.open), end, t) <==> SomeLostAt(r, end, t)
  {
    var losses := Losses(r.completed, r.open);
    assert forall k :: 0 <= k < |r.completed| ==> CompletedInOrder(r.completed[k]) && losses[k] == IntervalOf(r.completed[k]);
    if r.open.Some? && r.open.value.lost.Some? {
      assert losses[|r.completed|] == IntervalOf(r.open.value);
    }
    if SomeLostAt(r, end, t) {
      if r.open.Some? && LostAt(r.open.value, end, t) {
        assert Active(losses[|r.completed|], end) && losses[|r.completed|].lost == t;
      } else {
        var k :| 0 <= k < |r.completed| && LostAt(r.completed[k], end, t);
        assert Active(losses[k], end) && losses[k].lost == t;
      }
    }
  }

  lemma RecordShows(history: seq<Event>, end: int, t: int)
    ensures var r := Continue(Chronological(history), 0, None); Shaped(r.completed, r.open)
    ensures var open := OpenAt(Chronological(history), end);
      Shows(RecordOf(history).losses, end, t) <==> open.Some? && LostAt(open.value, end, t)
  {
    CyclesAreShaped(history);
    ChronologicalSorts(history);
    LookingBack(Chronological(history), end, t);
    LossesShowWhatWasLost(Continue(Chronological(history), 0, None), end, t);
  }

  /** What is open at `end` was lost by then and is not restored. */
  lemma OpenByEnd(events: seq<Event>, end: int)
    requires InOrder(events)
    ensures var open := OpenAt(events, end);
      open.Some? && open.value.lost.Some? ==> LostAt(open.value, end, open.value.lost.value.at)
  {
    CompletedByEnd(events[..Happened(events, end)], 0, None, end);
    ContinueShaped(events[..Happened(events, end)], 0, None);
  }

  /** The answer read back later from the whole history is the one the fold gave at `end`. */
  lemma RecordHolds(history: seq<Event>, end: int)
    ensures var r := Continue(Chronological(history), 0, None); Shaped(r.completed, r.open)
    ensures Holds(RecordOf(history), end) <==> HeldAt(history, end)
  {
    CyclesAreShaped(history);
    ChronologicalSorts(history);
    hide Chronological, OpenAt, Continue, Losses, Shaped;
    BegunMeansOpen(history, end);
    OpenByEnd(Chronological(history), end);
    var losses := RecordOf(history).losses;
    var open := OpenAt(Chronological(history), end);
    if open.Some? && open.value.lost.Some? {
      RecordShows(history, end, open.value.lost.value.at);
    }
    forall i | 0 <= i < |losses| && Active(losses[i], end)
      ensures open.Some? && LostAt(open.value, end, losses[i].lost)
    {
      RecordShows(history, end, losses[i].lost);
    }
  }

  /** `_maintained` over the records of any environments says whether one of them held clearance
      at `end` by what was known at `end`. */
  lemma MaintainedMeansHeld(histories: seq<seq<Event>>, records: seq<Record>, end: int)
    requires |records| == |histories|
    requires forall k :: 0 <= k < |histories| ==>
      var r := Continue(Chronological(histories[k]), 0, None); Shaped(r.completed, r.open) && records[k] == RecordOf(histories[k])
    ensures (exists k :: 0 <= k < |records| && Holds(records[k], end)) <==>
            exists k :: 0 <= k < |histories| && HeldAt(histories[k], end)
  {
    forall k | 0 <= k < |histories| ensures Holds(records[k], end) <==> HeldAt(histories[k], end) {
      RecordHolds(histories[k], end);
    }
  }

  // ---- The current week --------------------------------------------------------------------------

  function Unrestored(losses: seq<Interval>): seq<Interval> {
    if losses == [] then []
    else Unrestored(losses[..|losses| - 1]) + (if losses[|losses| - 1].restored.None? then [losses[|losses| - 1]] else [])
  }

  predicate AnyHolds(records: seq<Record>, end: int) { exists k :: 0 <= k < |records| && Holds(records[k], end) }

  function Narrowed(records: seq<Record>): (r: seq<Record>)
    ensures |r| == |records| && forall k :: 0 <= k < |r| ==> r[k] == Record(records[k].firstAllow, Unrestored(records[k].losses))
  {
    seq(|records|, k requires 0 <= k < |records| => Record(records[k].firstAllow, Unrestored(records[k].losses)))
  }

  /** The last week of `north_star`; `cleared` says some environment is CLEARED right now. */
  predicate CurrentWeek(records: seq<Record>, cleared: bool, end: int) {
    AnyHolds(records, end) && (cleared || AnyHolds(Narrowed(records), end))
  }

  lemma {:induction false} UnrestoredAre(losses: seq<Interval>)
    ensures forall l :: l in Unrestored(losses) <==> l in losses && l.restored.None?
  {
    if losses != [] {
      UnrestoredAre(losses[..|losses| - 1]);
      assert losses == losses[..|losses| - 1] + [losses[|losses| - 1]];
    }
  }

  /** The current week's extra condition is meant to honour present clearance expiry. It never
      changes the answer: with losses that do not overlap, a record that holds still holds once
      its restored losses are dropped. */
  lemma ExpiryIsNeverHonoured(records: seq<Record>, cleared: bool, end: int)
    requires forall k :: 0 <= k < |records| ==> AtMostOneActive(records[k].losses, end)
    ensures CurrentWeek(records, cleared, end) <==> AnyHolds(records, end)
  {
    if AnyHolds(records, end) {
      var k :| 0 <= k < |records| && Holds(records[k], end);
      var losses, kept := records[k].losses, Unrestored(records[k].losses);
      UnrestoredAre(losses);
      forall i | 0 <= i < |kept| && Active(kept[i], end) ensures Fresh(kept[i], end) {
        assert kept[i] in kept;
        var j :| 0 <= j < |losses| && losses[j] == kept[i];
        var f :| 0 <= f < |losses| && Active(losses[f], end) && Fresh(losses[f], end);
        assert j == f;
      }
      assert Holds(Narrowed(records)[k], end);
    }
  }
}
