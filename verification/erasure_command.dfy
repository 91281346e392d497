/** The erasure command as steps on a machine that may stop after any of them.

    Models `erase_local_organization`, `_key`, `_write_report` and `_cleanup` of `erasure.py`:
    each step costs one unit of the budget, and the process dies when it is spent. */
module ErasureCommand {
  import opened Common
  import opened Erasure
  import opened ErasureSafety

  function Upto(effects: seq<Effect>, budget: nat): seq<Effect> {
    if budget < |effects| then effects[..budget] else effects
  }

  function Left(effects: seq<Effect>, budget: nat): nat {
    if budget < |effects| then 0 else budget - |effects|
  }

  lemma {:induction false} OneMore(w: World, effects: seq<Effect>, n: nat)
    requires n < |effects|
    ensures ApplyAll(w, effects[..n + 1]) == Apply(ApplyAll(w, effects[..n]), effects[n])
    decreases n
  {
    if n == 0 {
      assert effects[..1] == [effects[0]];
      assert effects[..1][1..] == [] && effects[..0] == [];
    } else {
      OneMore(Apply(w, effects[0]), effects[1..], n - 1);
      assert effects[..n + 1][1..] == effects[1..][..n];
      assert effects[..n][1..] == effects[1..][..n - 1];
    }
  }

  /** Spending the budget on two lists in turn is spending it on both. */
  lemma InTurn(w: World, first: seq<Effect>, second: seq<Effect>, budget: nat)
    ensures ApplyAll(w, Upto(first + second, budget)) ==
            ApplyAll(ApplyAll(w, Upto(first, budget)), Upto(second, Left(first, budget)))
    ensures Left(first + second, budget) == Left(second, Left(first, budget))
  {
    Chained(w, Upto(first, budget), Upto(second, Left(first, budget)));
    assert Upto(first + second, budget) == Upto(first, budget) + Upto(second, Left(first, budget));
  }

  class Machine {
    var orgs: map<nat, Org>
    var key: KeyFile
    var reports: map<nat, Report>
    var litter: nat
    var objects: set<ObjectKey>
    var secrets: set<RecordId>
    var gone: map<nat, Gone>

    constructor (w: World)
      ensures View() == w
    {
      orgs, key, reports, litter := w.orgs, w.key, w.reports, w.litter;
      objects, secrets, gone := w.objects, w.secrets, w.gone;
    }

    function View(): World
      reads this
    {
      World(orgs, key, reports, litter, objects, secrets, gone)
    }

    /** `_write_report`: refused if too large, else a temporary file and an atomic replacement. */
    method WriteReport(m: Manifest, sealer: nat, budget: nat) returns (refused: bool, left: nat)
      modifies this
      ensures refused == !Fits(m)
      ensures View() == ApplyAll(old(View()), Upto(Writing(m, sealer), budget)) && left == Left(Writing(m, sealer), budget)
    {
      ghost var w, steps := View(), Writing(m, sealer);
      refused, left := false, budget;
      assert steps[..0] == [];
      if m.frame + RawBytes(|m.raw|) + CredentialBytes(|m.credentials|) > MAX_MANIFEST_BYTES {
        return true, left;
      }
      if left == 0 {
        return;
      }
      litter, left := litter + 1, left - 1;
      OneMore(w, steps, 0);
      if left == 0 {
        return;
      }
      reports := reports[m.request := Sealed(m, sealer)];
      litter, left := litter - 1, left - 1;
      OneMore(w, steps, 1);
      assert steps[..2] == steps;
    }

    method RemoveObjects(raw: seq<ObjectKey>, budget: nat) returns (left: nat)
      modifies this
      ensures View() == ApplyAll(old(View()), Upto(Removals(raw), budget)) && left == Left(Removals(raw), budget)
    {
      ghost var w, steps := View(), Removals(raw);
      left := budget;
      assert steps[..0] == [];
      for i := 0 to |raw|
        invariant i + left == budget && View() == ApplyAll(w, steps[..i])
      {
        if left == 0 {
          return;
        }
        objects, left := objects - {raw[i]}, left - 1;
        OneMore(w, steps, i);
      }
      assert steps[..|raw|] == steps;
    }

    method RemoveSecrets(credentials: seq<RecordId>, budget: nat) returns (left: nat)
      modifies this
      ensures View() == ApplyAll(old(View()), Upto(SecretRemovals(credentials), budget))
      ensures left == Left(SecretRemovals(credentials), budget)
    {
      ghost var w, steps := View(), SecretRemovals(credentials);
      left := budget;
      assert steps[..0] == [];
      for i := 0 to |credentials|
        invariant i + left == budget && View() == ApplyAll(w, steps[..i])
      {
        if left == 0 {
          return;
        }
        secrets, left := secrets - {credentials[i]}, left - 1;
        OneMore(w, steps, i);
      }
      assert steps[..|credentials|] == steps;
    }

    /** `_cleanup` and the report that closes the erasure, which may be refused. */
    method Clean(m: Manifest, sealer: nat, whole: bool, budget: nat) returns (refused: bool, left: nat)
      modifies this
      ensures refused == !Closable(m, whole)
      ensures View() == ApplyAll(old(View()), Upto(Cleanup(m, sealer, whole), budget))
      ensures left == Left(Cleanup(m, sealer, whole), budget)
    {
      hide ApplyAll;
      refused, left := false, budget;
      if m.status == CORE_ERASED {
        NothingIsSafe(View());
        return;
      }
      ghost var w, closing := View(), Writing(Closed(m, whole), sealer);
      InTurn(w, Removals(m.raw), SecretRemovals(m.credentials), budget);
      InTurn(w, Removals(m.raw) + SecretRemovals(m.credentials), closing, budget);
      left := RemoveObjects(m.raw, left);
      left := RemoveSecrets(m.credentials, left);
      refused, left := WriteReport(Closed(m, whole), sealer, left);
    }

    /** `_key` when there is none yet: created empty, then filled. */
    method MakeKey(value: nat, budget: nat) returns (left: nat)
      modifies this
      ensures View() == ApplyAll(old(View()), Upto([CreateKey, FillKey(value)], budget))
      ensures left == Left([CreateKey, FillKey(value)], budget)
    {
      ghost var w, steps := View(), [CreateKey, FillKey(value)];
      left := budget;
      assert steps[..0] == [];
      if left == 0 {
        return;
      }
      key, left := TornKey, left - 1;
      OneMore(w, steps, 0);
      if left == 0 {
        return;
      }
      key, left := Key(value), left - 1;
      OneMore(w, steps, 1);
      assert steps[..2] == steps;
    }

    /** The transaction: every row of the organization goes, or none. */
    method Delete(org: nat, request: nat, budget: nat) returns (left: nat)
      requires org in orgs
      modifies this
      ensures View() == ApplyAll(old(View()), Upto([Commit(org, request)], budget))
      ensures left == Left([Commit(org, request)], budget)
    {
      ghost var w, steps := View(), [Commit(org, request)];
      left := budget;
      assert steps[..0] == [];
      if left > 0 {
        gone := gone[org := Referred(orgs[org], request)];
        orgs, left := orgs - {org}, left - 1;
        OneMore(w, steps, 0);
        assert steps[..1] == steps;
      }
    }

    /** The command once its key is settled. */
    method Continue(org: nat, request: nat, sealer: nat, layout: Layout, budget: nat) returns (refused: bool)
      modifies this
      ensures var plan := Proceed(old(View()), org, request, sealer, layout);
        refused == plan.refused && View() == ApplyAll(old(View()), Upto(plan.effects, budget))
    {
      hide ApplyAll, Cleanup;
      NothingIsSafe(View());
      var left;
      if org !in orgs {
        if request !in reports || !reports[request].Sealed? {
          return true;
        }
        refused, left := Clean(reports[request].manifest, sealer, layout.whole, budget);
        return;
      }
      if !Erasable(orgs[org], org, request) {
        return true;
      }
      var m := Prepared(orgs[org], org, request, layout.frame);
      ghost var w := View();
      ghost var publishing, deleting := [WriteTemporary, Publish(m, sealer)], [Commit(org, request)];
      assert publishing + deleting == [WriteTemporary, Publish(m, sealer), Commit(org, request)];
      InTurn(w, publishing, deleting, budget);
      InTurn(w, publishing + deleting, Cleanup(m, sealer, layout.whole), budget);
      refused, left := WriteReport(m, sealer, budget);
      if refused {
        return;
      }
      assert org in orgs by {
        PublishingKeepsOrgs(w, m, sealer, budget);
      }
      left := Delete(org, request, left);
      refused, left := Clean(m, sealer, layout.whole, left);
    }

    /** `erase_local_organization`, cut short after `budget` steps. */
    method EraseLocally(org: nat, request: nat, random: nat, layout: Layout, budget: nat) returns (refused: bool)
      modifies this
      ensures var plan := Erase(old(View()), org, request, random, layout);
        refused == plan.refused && View() == ApplyAll(old(View()), Upto(plan.effects, budget))
    {
      hide ApplyAll, Proceed;
      NothingIsSafe(View());
      if request in reports {
        if !Authentic(View(), org, request) {
          return true;
        }
        refused := Continue(org, request, key.value, layout, budget);
      } else if key.TornKey? {
        refused := true;
      } else if key.Key? {
        refused := Continue(org, request, key.value, layout, budget);
      } else {
        ghost var w := View();
        InTurn(w, [CreateKey, FillKey(random)], Proceed(w, org, request, random, layout).effects, budget);
        var left := MakeKey(random, budget);
        KeyingKeepsTheRest(w, random, budget);
        SamePlan(w, View(), org, request, random, layout);
        refused := Continue(org, request, random, layout, left);
      }
    }
  }

  lemma PublishingKeepsOrgs(w: World, m: Manifest, sealer: nat, budget: nat)
    ensures ApplyAll(w, Upto([WriteTemporary, Publish(m, sealer)], budget)).orgs == w.orgs
  {
    Two(w, WriteTemporary, Publish(m, sealer));
    assert budget == 1 ==> Upto([WriteTemporary, Publish(m, sealer)], budget) == [WriteTemporary];
    assert budget == 0 ==> Upto([WriteTemporary, Publish(m, sealer)], budget) == [];
  }

  lemma KeyingKeepsTheRest(w: World, value: nat, budget: nat)
    ensures var next := ApplyAll(w, Upto([CreateKey, FillKey(value)], budget));
      next.orgs == w.orgs && next.reports == w.reports
  {
    Two(w, CreateKey, FillKey(value));
    assert budget == 1 ==> Upto([CreateKey, FillKey(value)], budget) == [CreateKey];
    assert budget == 0 ==> Upto([CreateKey, FillKey(value)], budget) == [];
  }
}
