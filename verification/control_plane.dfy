/** The account and run tables of one organization, updated in place. */
module ControlPlane {
  import opened Common
  import Runs
  import Protocol
  import Sweep
  import opened RunRows

  class AccountRow {
    var consumed: int
    var reserved: int
    var limit: int
    var active: bool

    constructor (limit: int, active: bool)
      ensures View() == Protocol.Account(0, 0, limit, active)
    {
      consumed, reserved := 0, 0;
      this.limit, this.active := limit, active;
    }

    ghost function View(): Protocol.Account
      reads this
    {
      Protocol.Account(consumed, reserved, limit, active)
    }
  }

  class Tables {
    const account: AccountRow
    var runs: seq<RunRow>

    constructor (limit: int, active: bool)
      ensures Valid() && World() == Protocol.World(Protocol.Account(0, 0, limit, active), [])
    {
      account := new AccountRow(limit, active);
      runs := [];
    }

    ghost predicate Valid()
      reads this, runs
    {
      && (forall i :: 0 <= i < |runs| ==> runs[i].Valid())
      && (forall i, j :: 0 <= i < j < |runs| ==> runs[i] != runs[j])
      && (forall i, j, a, b :: 0 <= i < j < |runs| && 0 <= a < |runs[i].leases| && 0 <= b < |runs[j].leases| ==>
            runs[i].leases[a] != runs[j].leases[b])
    }

    ghost function LeaseRows(): (r: set<LeaseRow>)
      reads this, runs
      ensures forall i :: 0 <= i < |runs| ==> forall l :: l in runs[i].leases ==> l in r
    {
      set i, l | 0 <= i < |runs| && l in runs[i].leases :: l
    }

    ghost function RunViews(): (r: seq<Runs.Run>)
      reads this, runs, LeaseRows()
      ensures |r| == |runs| && forall i :: 0 <= i < |r| ==> r[i] == runs[i].View()
    {
      seq(|runs|, i requires 0 <= i < |runs| reads this, runs, LeaseRows() => runs[i].View())
    }

    ghost function World(): Protocol.World
      reads this, account, runs, LeaseRows()
    {
      Protocol.World(account.View(), RunViews())
    }

    /** No run gained or lost a lease row. */
    twostate predicate SameLeases()
      reads this, runs
    {
      && runs == old(runs)
      && forall k :: 0 <= k < |runs| ==> runs[k].leases == old(runs[k].leases)
    }

    /** `create_run`: the account row is locked; `admitted` stands for the foreign checks. */
    method CreateRun(spec: Runs.Spec, admitted: bool, now: int) returns (code: int, run: nat)
      requires Valid()
      modifies this`runs, account`reserved
      ensures Valid()
      ensures var r := Protocol.CreateRun(old(World()), spec, admitted, now);
        if r.Ok? then code == 200 && World() == r.value.0 && run == r.value.1 else code == r.code && World() == old(World())
    {
      run := 0;
      var existing := FindKey(spec.idempotencyKey);
      assert World() == old(World());
      if existing.Some? {
        run := existing.value;
        code := if runs[run].spec.digest != spec.digest then 409 else 200;
        ExistingRun(spec, admitted, now, run);
      } else if !admitted {
        code := 403;
      } else {
        code, run := Admit(spec, now);
      }
    }

    lemma ExistingRun(spec: Runs.Spec, admitted: bool, now: int, run: nat)
      requires Valid() && Protocol.WithKey(RunViews(), spec.idempotencyKey) == Some(run)
      ensures Protocol.CreateRun(World(), spec, admitted, now) ==
        if runs[run].spec.digest != spec.digest then Rejected(409) else Ok((World(), run))
    {
      assert RunViews()[run].spec == runs[run].spec;
    }

    /** The part of a creation that reserves capacity for a new run. */
    method Admit(spec: Runs.Spec, now: int) returns (code: int, run: nat)
      requires Valid() && Protocol.WithKey(RunViews(), spec.idempotencyKey).None?
      modifies this`runs, account`reserved
      ensures Valid()
      ensures var r := Protocol.CreateRun(old(World()), spec, true, now);
        if r.Ok? then code == 200 && World() == r.value.0 && run == r.value.1 else code == r.code && World() == old(World())
    {
      var reserve := Protocol.Reservation(spec);
      if reserve < 1 {
        return 422, 0;
      }
      if !account.active || account.consumed + account.reserved + reserve > account.limit {
        return 402, 0;
      }
      Insert(spec.(id := |runs|, createdAt := now), reserve);
      account.reserved := account.reserved + reserve;
      return 200, |runs| - 1;
    }

    method Insert(spec: Runs.Spec, reserve: nat)
      requires Valid()
      modifies this`runs
      ensures Valid() && RunViews() == old(RunViews()) + [Runs.NewRun(spec, reserve)]
    {
      var row := new RunRow(spec, reserve);
      runs := runs + [row];
    }

    method FindKey(key: nat) returns (found: Option<nat>)
      requires Valid()
      ensures found == Protocol.WithKey(RunViews(), key)
    {
      var k := |runs|;
      ghost var views := RunViews();
      assert views[..k] == views;
      while k > 0
        invariant k <= |runs|
        invariant Protocol.WithKey(views, key) == Protocol.WithKey(views[..k], key)
      {
        assert views[..k][..k - 1] == views[..k - 1];
        if runs[k - 1].spec.idempotencyKey == key {
          return Some(k - 1);
        }
        k := k - 1;
      }
      found := None;
    }

    /** `finish_run` on run `i`: settle the row and charge the account, once. */
    method FinishRun(i: nat, report: Runs.Report, f: Runs.Finality)
      requires Valid() && i < |runs|
      modifies account`reserved, account`consumed, runs[i]
      ensures Valid() && SameLeases()
      ensures World() == Protocol.FinishRun(old(World()), i, report, f)
    {
      var row := runs[i];
      if row.settled {
        return;
      }
      var units := row.Finish(report, f);
      account.reserved := account.reserved - row.reserved;
      account.consumed := account.consumed + units;
      assert RunViews() == old(RunViews())[i := row.View()];
    }

    method OpenRoutes() returns (open: seq<nat>)
      requires Valid()
      ensures open == Sweep.OpenRoutes(RunViews(), |runs|)
    {
      open := [];
      for k := 0 to |runs|
        invariant open == Sweep.OpenRoutes(RunViews(), k)
      {
        if runs[k].route != Runs.SETTLED {
          open := open + [k];
        }
      }
    }

    /** First transaction of a route. */
    method DecideRoute(i: nat, now: int) returns (report: Option<Runs.Report>)
      requires Valid() && i < |runs|
      modifies runs[i], runs[i].leases
      ensures Valid() && SameLeases()
      ensures RunViews() == old(RunViews())[i := runs[i].View()]
      ensures (runs[i].View(), report) == Runs.Reconcile(old(runs[i].View()), now)
    {
      hide Runs.Reconcile;
      report := runs[i].Reconcile(now);
      forall k | 0 <= k < |runs| && k != i ensures runs[k].View() == old(runs[k].View()) {
        assert runs[k].LeaseViews() == old(runs[k].LeaseViews());
      }
    }

    /** Both transactions of one route. */
    method ReconcileRoute(i: nat, locked: set<nat>, now: int, f: nat -> Runs.Finality)
      requires Valid() && i < |runs|
      modifies account`reserved, account`consumed, runs[i], runs[i].leases
      ensures Valid() && SameLeases()
      ensures World() == Sweep.SweepRoute(old(World()), i, locked, now, f)
    {
      if i in locked {
        return;
      }
      assert RunViews()[i] == runs[i].View();
      var report := DecideRoute(i, now);
      if report.Some? {
        FinishRun(i, report.value, f(i));
      }
    }

    /** `reconcile_runs`: one pass over the oldest open routes. */
    method ReconcileRuns(locked: set<nat>, now: int, f: nat -> Runs.Finality)
      requires Valid()
      modifies account`reserved, account`consumed, runs, LeaseRows()
      ensures Valid()
      ensures World() == Sweep.SweepRoutes(old(World()), Sweep.Due(old(World()).runs), locked, now, f)
    {
      hide Sweep.SweepRoutes;
      var routes := OpenRoutes();
      if |routes| > Sweep.ROUTE_LIMIT {
        routes := routes[..Sweep.ROUTE_LIMIT];
      }
      VisitRoutes(routes, locked, now, f);
    }

    method VisitRoutes(routes: seq<nat>, locked: set<nat>, now: int, f: nat -> Runs.Finality)
      requires Valid() && forall k :: 0 <= k < |routes| ==> routes[k] < |runs|
      modifies account`reserved, account`consumed, runs, LeaseRows()
      ensures Valid()
      ensures World() == Sweep.SweepRoutes(old(World()), routes, locked, now, f)
    {
      ghost var rows := LeaseRows();
      for k := 0 to |routes|
        invariant Valid() && SameLeases()
        invariant World() == Sweep.SweepRoutes(old(World()), routes[..k], locked, now, f)
      {
        assert routes[..k + 1][..k] == routes[..k];
        assert forall l :: l in runs[routes[k]].leases ==> l in rows;
        ReconcileRoute(routes[k], locked, now, f);
      }
      assert routes[..|routes|] == routes;
    }
  }
}
