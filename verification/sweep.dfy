/** `reconcile_runs` as one uninterrupted loop over the open routes. */
module Sweep {
  import opened Common
  import opened Runs
  import opened Protocol
  import opened ExecutionSafety

  const ROUTE_LIMIT := 1000

  /** The runs below `k` whose route is not settled, oldest first. */
  function OpenRoutes(runs: seq<Run>, k: nat): (r: seq<nat>)
    requires k <= |runs|
    ensures forall i :: 0 <= i < |r| ==> r[i] < k
  {
    if k == 0 then []
    else OpenRoutes(runs, k - 1) + (if runs[k - 1].route != SETTLED then [k - 1] else [])
  }

  /** The oldest thousand open routes: what one pass looks at. */
  function Due(runs: seq<Run>): (r: seq<nat>)
    ensures forall i :: 0 <= i < |r| ==> r[i] < |runs|
  {
    var open := OpenRoutes(runs, |runs|);
    if |open| <= ROUTE_LIMIT then open else open[..ROUTE_LIMIT]
  }

  /** Both transactions of one route; a locked row is skipped. */
  function SweepRoute(w: World, i: nat, locked: set<nat>, now: int, f: nat -> Finality): (r: World)
    requires i < |w.runs|
    ensures |r.runs| == |w.runs|
  {
    if i in locked then w
    else
      var (run, report) := Reconcile(w.runs[i], now);
      var decided := w.(runs := w.runs[i := run]);
      if report.None? then decided else FinishRun(decided, i, report.value, f(i))
  }

  function SweepRoutes(w: World, routes: seq<nat>, locked: set<nat>, now: int, f: nat -> Finality): (r: World)
    requires forall i :: 0 <= i < |routes| ==> routes[i] < |w.runs|
    ensures |r.runs| == |w.runs|
  {
    if routes == [] then w
    else
      var last := |routes| - 1;
      SweepRoute(SweepRoutes(w, routes[..last], locked, now, f), routes[last], locked, now, f)
  }

  /** The pass as visits in which no other process interferes. */
  function Visits(routes: seq<nat>, locked: set<nat>, f: nat -> Finality): (r: seq<Visit>)
    ensures |r| == |routes|
    ensures forall k :: 0 <= k < |r| ==> r[k] == Visit(routes[k], [], routes[k] in locked, [], f(routes[k]))
  {
    seq(|routes|, k requires 0 <= k < |routes| => Visit(routes[k], [], routes[k] in locked, [], f(routes[k])))
  }

  lemma VisitIsSweep(s: System, i: nat, locked: set<nat>, f: nat -> Finality, cfg: Config)
    requires i < |s.world.runs|
    ensures var t := VisitRoute(s, Visit(i, [], i in locked, [], f(i)), cfg);
      t.world == SweepRoute(s.world, i, locked, s.clock, f) && t.clock == s.clock
  {
  }

  lemma {:induction false} PassAppend(s: System, visits: seq<Visit>, last: Visit, cfg: Config)
    ensures Pass(s, visits + [last], cfg) == VisitRoute(Pass(s, visits, cfg), last, cfg)
    decreases |visits|
  {
    if visits == [] {
      assert ([] + [last])[1..] == [];
    } else {
      PassAppend(VisitRoute(s, visits[0], cfg), visits[1..], last, cfg);
      assert (visits + [last])[1..] == visits[1..] + [last];
    }
  }

  /** The uninterrupted loop is one of the interleaved passes. */
  lemma {:induction false} SweepIsPass(s: System, routes: seq<nat>, locked: set<nat>, f: nat -> Finality, cfg: Config)
    requires forall i :: 0 <= i < |routes| ==> routes[i] < |s.world.runs|
    ensures var t := Pass(s, Visits(routes, locked, f), cfg);
      t.world == SweepRoutes(s.world, routes, locked, s.clock, f) && t.clock == s.clock
    decreases |routes|
  {
    if routes != [] {
      var last := |routes| - 1;
      var front, visit := routes[..last], Visit(routes[last], [], routes[last] in locked, [], f(routes[last]));
      SweepIsPass(s, front, locked, f, cfg);
      assert Visits(routes, locked, f) == Visits(front, locked, f) + [visit];
      PassAppend(s, Visits(front, locked, f), visit, cfg);
      VisitIsSweep(Pass(s, Visits(front, locked, f), cfg), routes[last], locked, f, cfg);
    }
  }

  lemma {:induction false} UnsettledIsOpen(runs: seq<Run>, k: nat, i: nat)
    requires i < k <= |runs| && runs[i].route != SETTLED
    ensures exists j :: 0 <= j < |OpenRoutes(runs, k)| && OpenRoutes(runs, k)[j] == i
  {
    var open := OpenRoutes(runs, k);
    if i < k - 1 {
      UnsettledIsOpen(runs, k - 1, i);
      var shorter := OpenRoutes(runs, k - 1);
      var j :| 0 <= j < |shorter| && shorter[j] == i;
      assert open[j] == i;
    } else {
      assert open[|open| - 1] == i;
    }
  }

  /** An unsettled, overdue run whose row is free is among the visits of the pass. */
  lemma OverdueIsVisited(s: System, locked: set<nat>, f: nat -> Finality, i: nat) returns (k: nat)
    requires Valid(s) && |OpenRoutes(s.world.runs, |s.world.runs|)| <= ROUTE_LIMIT
    requires i < |s.world.runs| && i !in locked && PastDeadline(s.world.runs[i], s.clock) && !s.world.runs[i].settled
    ensures var visits := Visits(Due(s.world.runs), locked, f);
      k < |visits| && visits[k].run == i && Overdue(s, visits[k])
  {
    assert Inv(s.world.runs[i]);
    hide Valid, PastDeadline, OpenRoutes;
    UnsettledIsOpen(s.world.runs, |s.world.runs|, i);
    var due := Due(s.world.runs);
    k :| 0 <= k < |due| && due[k] == i;
  }

  lemma SameAccount(s: System, t: System, world: World)
    requires Valid(t) && t.world == world && t.forgiven == s.forgiven && t.peak == s.peak
    ensures RunsValid(world.runs) && AccountValid(s.(world := world))
  {
  }

  /** When no more than a thousand routes are open, one pass settles every overdue run whose
      row it can lock, keeps the system valid, and holds no units for those runs any more. */
  lemma SweepSettlesEverythingOverdue(s: System, locked: set<nat>, f: nat -> Finality, cfg: Config)
    requires Valid(s) && |OpenRoutes(s.world.runs, |s.world.runs|)| <= ROUTE_LIMIT
    ensures var t := s.(world := SweepRoutes(s.world, Due(s.world.runs), locked, s.clock, f));
      && RunsValid(t.world.runs) && AccountValid(t)
      && (forall i :: 0 <= i < |s.world.runs| && i !in locked && PastDeadline(s.world.runs[i], s.clock) ==>
            t.world.runs[i].settled)
  {
    hide Pass, SweepRoutes, Valid, RunsValid, AccountValid, OpenRoutes, Due, Visits, PastDeadline, Overdue, Progressed;
    var due := Due(s.world.runs);
    var visits := Visits(due, locked, f);
    var t := Pass(s, visits, cfg);
    PassSettlesOverdueRuns(s, visits, cfg);
    SweepIsPass(s, due, locked, f, cfg);
    PassForgivesNothing(s, visits, cfg);
    SameAccount(s, t, t.world);
    forall i | 0 <= i < |s.world.runs| && i !in locked && PastDeadline(s.world.runs[i], s.clock)
      ensures t.world.runs[i].settled
    {
      if s.world.runs[i].settled {
        SettledStays(s, t, i);
      } else {
        var k := OverdueIsVisited(s, locked, f, i);
      }
    }
  }

  lemma {:induction false} PassForgivesNothing(s: System, visits: seq<Visit>, cfg: Config)
    requires forall k :: 0 <= k < |visits| ==> visits[k].before == [] && visits[k].between == []
    ensures Pass(s, visits, cfg).forgiven == s.forgiven && Pass(s, visits, cfg).peak == s.peak
    decreases |visits|
  {
    if visits != [] {
      var t := VisitRoute(s, visits[0], cfg);
      assert t.forgiven == s.forgiven && t.peak == s.peak;
      PassForgivesNothing(t, visits[1..], cfg);
    }
  }
}
