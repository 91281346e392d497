/** Approved property families and their allowance.

    Models `family_id`, `property_usage` and `require_property_capacity` of `entitlements.py`,
    and `approve_property`, `create_property`, `adopt` and the approved installs of `api.py` and
    `change_assurance_api.py`. Records are numbered in creation order; a number nobody holds is
    a reference outside the tenant's rows. */
module Families {
  import opened Common

  datatype Property = Property(system: nat, propagatedFrom: Option<nat>, supersedes: Option<nat>, approved: bool)

  type Rows = seq<Property>

  /** The version a record follows, within its system and provenance. */
  function Parent(rows: Rows, i: nat): (p: Option<nat>)
    requires i < |rows|
    ensures p.Some? ==> p.value < |rows|
  {
    var link := rows[i].supersedes;
    if link.Some? && link.value < |rows| && rows[link.value].system == rows[i].system
       && rows[link.value].propagatedFrom == rows[i].propagatedFrom
    then link else None
  }

  function Below(n: nat): (r: set<nat>)
    ensures forall i: nat :: i in r <==> i < n
  {
    if n == 0 then {} else Below(n - 1) + {n - 1}
  }

  function Indices(rows: Rows): set<nat> { Below(|rows|) }

  /** `family_id` from a record on, having passed `seen`. */
  function FamilyFrom(rows: Rows, i: nat, seen: set<nat>): Outcome<nat>
    requires i < |rows| && seen <= Indices(rows)
    decreases |Indices(rows) - seen|
  {
    var parent := Parent(rows, i);
    if parent.None? then Ok(i)
    else if i in seen then Rejected(409)
    else
      assert Indices(rows) - (seen + {i}) == (Indices(rows) - seen) - {i};
      FamilyFrom(rows, parent.value, seen + {i})
  }

  function Family(rows: Rows, i: nat): Outcome<nat>
    requires i < |rows|
  {
    FamilyFrom(rows, i, {})
  }

  /** The walk of `family_id`; it ends on every graph. */
  method FamilyId(rows: Rows, start: nat) returns (r: Outcome<nat>)
    requires start < |rows|
    ensures r == Family(rows, start)
  {
    var seen: set<nat>, record: nat := {}, start;
    while rows[record].supersedes.Some? && rows[record].supersedes.value < |rows|
      invariant record < |rows| && seen <= Indices(rows)
      invariant FamilyFrom(rows, record, seen) == Family(rows, start)
      decreases |Indices(rows) - seen|
    {
      var parent := rows[record].supersedes.value;
      if rows[parent].system != rows[record].system || rows[parent].propagatedFrom != rows[record].propagatedFrom {
        break;
      }
      if record in seen {
        return Rejected(409);
      }
      assert Indices(rows) - (seen + {record}) == (Indices(rows) - seen) - {record};
      seen, record := seen + {record}, parent;
    }
    r := Ok(record);
  }

  // ---- What a family is ----------------------------------------------------------------------------

  /** The record `n` links up from `i`, if there are that many. */
  function Up(rows: Rows, i: nat, n: nat): (r: Option<nat>)
    requires i < |rows|
    ensures r.Some? ==> r.value < |rows|
  {
    if n == 0 then Some(i)
    else
      var below := Up(rows, i, n - 1);
      if below.None? then None else Parent(rows, below.value)
  }

  predicate RootedAt(rows: Rows, i: nat, root: nat, n: nat)
    requires i < |rows| && root < |rows|
  {
    Up(rows, i, n) == Some(root) && Parent(rows, root).None?
  }

  lemma {:induction false} NoneStaysNone(rows: Rows, i: nat, m: nat, n: nat)
    requires i < |rows| && m <= n && Up(rows, i, m).None?
    ensures Up(rows, i, n).None?
    decreases n
  {
    if m < n {
      NoneStaysNone(rows, i, m, n - 1);
    }
  }

  lemma {:induction false} UpFrom(rows: Rows, i: nat, m: nat, n: nat)
    requires i < |rows| && Up(rows, i, m).Some?
    ensures Up(rows, i, m + n) == Up(rows, Up(rows, i, m).value, n)
  {
    if n > 0 {
      UpFrom(rows, i, m, n - 1);
    }
  }

  /** Once the walk meets a record again it never ends. */
  lemma {:induction false} LoopNeverEnds(rows: Rows, i: nat, m: nat, period: nat, n: nat)
    requires i < |rows| && period > 0 && Up(rows, i, m).Some? && Up(rows, i, m + period) == Up(rows, i, m)
    ensures Up(rows, i, n).Some?
    decreases n
  {
    if Up(rows, i, n).None? {
      if n <= m + period {
        NoneStaysNone(rows, i, n, m + period);
      } else {
        UpFrom(rows, i, m, n - m - period);
        UpFrom(rows, i, m + period, n - m - period);
        LoopNeverEnds(rows, i, m, period, n - period);
      }
    }
  }

  /** The links from a record never end. */
  ghost predicate Endless(rows: Rows, i: nat)
    requires i < |rows|
  {
    forall n: nat :: Up(rows, i, n).Some?
  }

  /** Every record seen was passed in fewer than `steps` links. */
  ghost predicate Passed(rows: Rows, start: nat, steps: nat, seen: set<nat>)
    requires start < |rows|
  {
    forall x :: x in seen ==> exists m: nat :: m < steps && Up(rows, start, m) == Some(x)
  }

  lemma PassOne(rows: Rows, start: nat, steps: nat, seen: set<nat>, i: nat)
    requires start < |rows| && Passed(rows, start, steps, seen) && Up(rows, start, steps) == Some(i)
    ensures Passed(rows, start, steps + 1, seen + {i})
  {
    forall x | x in seen + {i} ensures exists m: nat :: m < steps + 1 && Up(rows, start, m) == Some(x) {
      if x in seen {
        var m: nat :| m < steps && Up(rows, start, m) == Some(x);
        assert m < steps + 1;
      }
    }
  }

  lemma SeenAgain(rows: Rows, start: nat, steps: nat, seen: set<nat>, i: nat)
    requires start < |rows| && Passed(rows, start, steps, seen) && Up(rows, start, steps) == Some(i) && i in seen
    ensures Endless(rows, start)
  {
    var m: nat :| m < steps && Up(rows, start, m) == Some(i);
    forall n: nat ensures Up(rows, start, n).Some? {
      LoopNeverEnds(rows, start, m, steps - m, n);
    }
  }

  /** The record where the links from `i` end. */
  ghost predicate Rooted(rows: Rows, i: nat, root: nat)
    requires i < |rows| && root < |rows|
  {
    exists n: nat :: RootedAt(rows, i, root, n)
  }

  ghost predicate Found(rows: Rows, start: nat, r: Outcome<nat>)
    requires start < |rows|
  {
    match r
    case Ok(root) => root < |rows| && Rooted(rows, start, root)
    case Rejected(code) => code == 409 && Endless(rows, start)
  }

  lemma {:induction false} WalkFinds(rows: Rows, start: nat, steps: nat, i: nat, seen: set<nat>)
    requires start < |rows| && i < |rows| && seen <= Indices(rows) && Up(rows, start, steps) == Some(i)
    requires Passed(rows, start, steps, seen)
    ensures Found(rows, start, FamilyFrom(rows, i, seen))
    decreases |Indices(rows) - seen|
  {
    hide Endless, Passed;
    var parent := Parent(rows, i);
    if parent.None? {
      assert RootedAt(rows, start, i, steps);
    } else if i in seen {
      SeenAgain(rows, start, steps, seen, i);
    } else {
      assert Indices(rows) - (seen + {i}) == (Indices(rows) - seen) - {i};
      PassOne(rows, start, steps, seen, i);
      WalkFinds(rows, start, steps + 1, parent.value, seen + {i});
    }
  }

  lemma OneRoot(rows: Rows, i: nat, root: nat, other: nat)
    requires i < |rows| && root < |rows| && other < |rows| && Rooted(rows, i, root) && Rooted(rows, i, other)
    ensures root == other && !Endless(rows, i)
  {
    var n: nat :| RootedAt(rows, i, root, n);
    var m: nat :| RootedAt(rows, i, other, m);
    assert Up(rows, i, n + 1).None? && Up(rows, i, m + 1).None?;
    if m < n {
      NoneStaysNone(rows, i, m + 1, n);
    } else if n < m {
      NoneStaysNone(rows, i, n + 1, m);
    }
  }

  /** On any graph: the family is the record where the links end, and the walk is refused
      exactly when they never end. */
  lemma FamilyMeans(rows: Rows, i: nat, root: nat)
    requires i < |rows| && root < |rows|
    ensures Family(rows, i) == Ok(root) <==> Rooted(rows, i, root)
    ensures Family(rows, i) == Rejected(409) <==> Endless(rows, i)
    ensures Family(rows, i).Ok? ==> Family(rows, i).value < |rows|
    ensures Family(rows, i).Rejected? ==> Family(rows, i).code == 409
  {
    hide Rooted, Endless, FamilyFrom;
    WalkFinds(rows, i, 0, i, {}) by {
      assert Passed(rows, i, 0, {});
    }
    var r := Family(rows, i);
    if r.Ok? {
      OneRoot(rows, i, r.value, r.value);
    }
    if Rooted(rows, i, root) {
      OneRoot(rows, i, root, root);
      if r.Ok? {
        OneRoot(rows, i, root, r.value);
      }
    }
  }

  lemma {:induction false} UpStays(rows: Rows, i: nat, n: nat)
    requires i < |rows|
    ensures var up := Up(rows, i, n);
      up.Some? ==> rows[up.value].system == rows[i].system && rows[up.value].propagatedFrom == rows[i].propagatedFrom
    decreases n
  {
    if n > 0 {
      UpStays(rows, i, n - 1);
    }
  }

  /** A family never leaves its system or its provenance: it begins with a record of the same, whose
      predecessor is none, unknown, or of another system or provenance. */
  lemma FamilyIsOneSystem(rows: Rows, i: nat)
    requires i < |rows| && Family(rows, i).Ok?
    ensures var root := Family(rows, i).value;
      && root < |rows| && rows[root].system == rows[i].system && rows[root].propagatedFrom == rows[i].propagatedFrom
      && var link := rows[root].supersedes;
         link.None? || link.value >= |rows|
         || rows[link.value].system != rows[i].system || rows[link.value].propagatedFrom != rows[i].propagatedFrom
  {
    FamilyMeans(rows, i, i);
    var root := Family(rows, i).value;
    FamilyMeans(rows, i, root);
    var n: nat :| RootedAt(rows, i, root, n);
    UpStays(rows, i, n);
  }

  // ---- Allowance -----------------------------------------------------------------------------------

  /** The families of approved records; unknown if some walk is refused. */
  function ActiveFrom(rows: Rows, n: nat): Outcome<set<nat>>
    requires n <= |rows|
  {
    if n == 0 then Ok({})
    else
      var rest := ActiveFrom(rows, n - 1);
      if rest.Rejected? || !rows[n - 1].approved then rest
      else
        var family := Family(rows, n - 1);
        if family.Rejected? then Rejected(family.code) else Ok(rest.value + {family.value})
  }

  function Active(rows: Rows): Outcome<set<nat>> { ActiveFrom(rows, |rows|) }

  /** The newest approved version of a draft. */
  function Repeated(rows: Rows, draft: nat, n: nat): (r: Option<nat>)
    requires n <= |rows| && draft < |rows|
    ensures r.Some? ==> r.value < n && rows[r.value].approved && rows[r.value].supersedes == Some(draft)
                        && Family(rows, r.value) == Family(rows, draft)
    ensures r.None? ==> forall i :: 0 <= i < n && rows[i].approved && rows[i].supersedes == Some(draft) ==>
      Family(rows, i) != Family(rows, draft)
  {
    if n == 0 then None
    else if rows[n - 1].approved && rows[n - 1].supersedes == Some(draft) && Family(rows, n - 1) == Family(rows, draft)
    then Some(n - 1) else Repeated(rows, draft, n - 1)
  }

  /** `require_property_capacity`: an existing version, or permission to add one. */
  function Capacity(rows: Rows, limit: nat, draft: Option<nat>): Outcome<Option<nat>>
    requires draft.Some? ==> draft.value < |rows|
  {
    var active := Active(rows);
    if draft.Some? && Family(rows, draft.value).Rejected? then Rejected(Family(rows, draft.value).code)
    else if active.Rejected? then Rejected(active.code)
    else if draft.Some? && Repeated(rows, draft.value, |rows|).Some? then Ok(Repeated(rows, draft.value, |rows|))
    else if draft.Some? && Family(rows, draft.value).value in active.value then Ok(None)
    else if |active.value| >= limit then Rejected(402)
    else Ok(None)
  }

  datatype Request =
    | Draft(system: nat)
    | Adopt(source: nat, destination: nat)
    | Install(system: nat)
    | Approve(draft: nat, valid: bool)

  /** One request: the rows after it and the record it answers with. */
  function Serve(rows: Rows, limit: nat, request: Request): Outcome<(Rows, nat)> {
    match request
    case Draft(system) => Ok((rows + [Property(system, None, None, false)], |rows|))
    case Adopt(source, destination) =>
      if source >= |rows| then Rejected(404)
      else Ok((rows + [Property(destination, Some(source), None, false)], |rows|))
    case Install(system) =>
      var room := Capacity(rows, limit, None);
      if room.Rejected? then Rejected(room.code) else Ok((rows + [Property(system, None, None, true)], |rows|))
    case Approve(draft, valid) =>
      if draft >= |rows| then Rejected(404)
      else if rows[draft].approved then Ok((rows, draft))
      else
        var room := Capacity(rows, limit, Some(draft));
        if room.Rejected? then Rejected(room.code)
        else if room.value.Some? then Ok((rows, room.value.value))
        else if !valid then Rejected(422)
        else Ok((rows + [rows[draft].(approved := true, supersedes := Some(draft))], |rows|))
  }

  // ---- What a new record changes -------------------------------------------------------------------

  /** No record refers to a number not yet given. */
  predicate Closed(rows: Rows) {
    forall i :: 0 <= i < |rows| && rows[i].supersedes.Some? ==> rows[i].supersedes.value < |rows|
  }

  lemma AppendKeepsParent(rows: Rows, p: Property, i: nat)
    requires Closed(rows) && i < |rows|
    ensures Parent(rows + [p], i) == Parent(rows, i)
  {
  }

  lemma {:induction false} AppendKeepsUp(rows: Rows, p: Property, i: nat, n: nat)
    requires Closed(rows) && i < |rows|
    ensures Up(rows + [p], i, n) == Up(rows, i, n)
  {
    if n > 0 {
      AppendKeepsUp(rows, p, i, n - 1);
      if Up(rows, i, n - 1).Some? {
        AppendKeepsParent(rows, p, Up(rows, i, n - 1).value);
      }
    }
  }

  /** A record added under a fresh number leaves every existing family as it was. */
  lemma AppendKeepsFamily(rows: Rows, p: Property, i: nat)
    requires Closed(rows) && i < |rows|
    ensures Family(rows + [p], i) == Family(rows, i)
  {
    FamilyMeans(rows, i, i);
    FamilyMeans(rows + [p], i, i);
    if Family(rows, i).Ok? {
      var root := Family(rows, i).value;
      FamilyMeans(rows, i, root);
      var n: nat :| RootedAt(rows, i, root, n);
      AppendKeepsUp(rows, p, i, n);
      AppendKeepsParent(rows, p, root);
      assert RootedAt(rows + [p], i, root, n);
      FamilyMeans(rows + [p], i, root);
    } else {
      forall n: nat ensures Up(rows + [p], i, n).Some? {
        AppendKeepsUp(rows, p, i, n);
      }
      assert Endless(rows + [p], i);
    }
  }

  /** A record that follows another of its system and provenance is in its family. */
  lemma FollowerJoins(rows: Rows, i: nat, j: nat)
    requires i < |rows| && j < |rows| && Parent(rows, i) == Some(j)
    ensures Family(rows, i) == Family(rows, j)
  {
    FamilyMeans(rows, j, j);
    FamilyMeans(rows, i, i);
    assert Up(rows, i, 0) == Some(i);
    assert Up(rows, i, 1) == Some(j);
    if Family(rows, j).Ok? {
      var root := Family(rows, j).value;
      FamilyMeans(rows, j, root);
      var n: nat :| RootedAt(rows, j, root, n);
      UpFrom(rows, i, 1, n);
      assert RootedAt(rows, i, root, 1 + n);
      FamilyMeans(rows, i, root);
    } else {
      forall n: nat ensures Up(rows, i, n).Some? {
        if n > 0 {
          UpFrom(rows, i, 1, n - 1);
        }
      }
      assert Endless(rows, i);
    }
  }

  /** Approving a draft changes no family and puts the new version in the draft's. */
  lemma ApprovalJoinsTheDraft(rows: Rows, draft: nat, i: nat)
    requires Closed(rows) && draft < |rows| && i < |rows|
    ensures var grown := rows + [rows[draft].(approved := true, supersedes := Some(draft))];
      && Family(grown, i) == Family(rows, i)
      && Family(grown, |rows|) == Family(rows, draft)
  {
    var version := rows[draft].(approved := true, supersedes := Some(draft));
    AppendKeepsFamily(rows, version, i);
    AppendKeepsFamily(rows, version, draft);
    FollowerJoins(rows + [version], |rows|, draft);
  }

  // ---- Reachable rows ------------------------------------------------------------------------------

  /** Links lead to older records, so no walk is ever refused. */
  predicate Layered(rows: Rows) {
    forall i :: 0 <= i < |rows| && rows[i].supersedes.Some? ==> rows[i].supersedes.value < i
  }

  lemma {:induction false} UpGoesDown(rows: Rows, i: nat, n: nat)
    requires Layered(rows) && i < |rows|
    ensures Up(rows, i, n).Some? ==> Up(rows, i, n).value + n <= i
  {
    if n > 0 {
      UpGoesDown(rows, i, n - 1);
    }
  }

  lemma LayeredIsFound(rows: Rows, i: nat)
    requires Layered(rows) && i < |rows|
    ensures Family(rows, i).Ok? && Family(rows, i).value < |rows|
  {
    FamilyMeans(rows, i, i);
    UpGoesDown(rows, i, i + 1);
  }

  lemma {:induction false} ActiveIsFound(rows: Rows, n: nat)
    requires Layered(rows) && n <= |rows|
    ensures ActiveFrom(rows, n).Ok?
    ensures forall f :: f in ActiveFrom(rows, n).value <==>
      exists i :: 0 <= i < n && rows[i].approved && Family(rows, i) == Ok(f)
  {
    if n > 0 {
      ActiveIsFound(rows, n - 1);
      LayeredIsFound(rows, n - 1);
    }
  }

  lemma {:induction false} AppendKeepsActive(rows: Rows, p: Property, n: nat)
    requires Closed(rows) && n <= |rows|
    ensures ActiveFrom(rows + [p], n) == ActiveFrom(rows, n)
  {
    if n > 0 {
      AppendKeepsActive(rows, p, n - 1);
      AppendKeepsFamily(rows, p, n - 1);
    }
  }

  function Count(rows: Rows): nat { if Active(rows).Ok? then |Active(rows).value| else 0 }

  lemma AppendActive(rows: Rows, p: Property)
    requires Layered(rows) && Layered(rows + [p])
    ensures Active(rows).Ok? && Family(rows + [p], |rows|).Ok?
    ensures var active, family := Active(rows).value, Family(rows + [p], |rows|).value;
      Active(rows + [p]) == Ok(if p.approved then active + {family} else active)
  {
    AppendKeepsActive(rows, p, |rows|);
    ActiveIsFound(rows, |rows|);
    LayeredIsFound(rows + [p], |rows|);
    hide Family;
  }

  /** The appended record counts if it is approved and its family is new. */
  lemma AppendCounts(rows: Rows, p: Property)
    requires Layered(rows) && Layered(rows + [p])
    ensures Active(rows).Ok? && Active(rows + [p]).Ok? && Family(rows + [p], |rows|).Ok?
    ensures Count(rows + [p]) ==
      if p.approved && Family(rows + [p], |rows|).value !in Active(rows).value then Count(rows) + 1 else Count(rows)
  {
    AppendActive(rows, p);
    hide Active, Family;
    var family, active := Family(rows + [p], |rows|).value, Active(rows).value;
    if family in active {
      assert active + {family} == active;
    }
  }

  /** No request on reachable rows is refused for a cycle; one adds at most one family, and only
      below the limit. */
  lemma ServeKeepsLimit(rows: Rows, limit: nat, request: Request)
    requires Layered(rows)
    ensures Serve(rows, limit, request) != Rejected(409)
    ensures var r := Serve(rows, limit, request);
      r.Ok? ==>
        && Layered(r.value.0) && rows <= r.value.0 && r.value.1 < |r.value.0|
        && Count(r.value.0) <= (if Count(rows) < limit then Count(rows) + 1 else Count(rows))
  {
    ActiveIsFound(rows, |rows|);
    if request.Approve? && request.draft < |rows| {
      LayeredIsFound(rows, request.draft);
    }
    var r := Serve(rows, limit, request);
    if r.Ok? && r.value.0 != rows {
      var p := r.value.0[|rows|];
      assert r.value.0 == rows + [p];
      AppendCounts(rows, p);
      if request.Approve? {
        ApprovalJoinsTheDraft(rows, request.draft, request.draft);
      }
    }
  }

  /** Requests served in turn under a fixed limit; refused ones change nothing. */
  function ServeAll(rows: Rows, limit: nat, requests: seq<Request>): Rows {
    if requests == [] then rows
    else
      var before := ServeAll(rows, limit, requests[..|requests| - 1]);
      var r := Serve(before, limit, requests[|requests| - 1]);
      if r.Ok? then r.value.0 else before
  }

  /** Under a fixed limit the number of approved families never exceeds it, over any sequence
      of drafts, adoptions, installs and approvals. */
  lemma {:induction false} FamiliesNeverExceedLimit(limit: nat, requests: seq<Request>)
    ensures Layered(ServeAll([], limit, requests)) && Count(ServeAll([], limit, requests)) <= limit
  {
    if requests == [] {
      assert Active([]) == Ok({});
    } else {
      FamiliesNeverExceedLimit(limit, requests[..|requests| - 1]);
      ServeKeepsLimit(ServeAll([], limit, requests[..|requests| - 1]), limit, requests[|requests| - 1]);
    }
  }

  lemma RepeatedAnswers(rows: Rows, limit: nat, draft: nat, valid: bool)
    requires Layered(rows) && draft < |rows| && !rows[draft].approved && Repeated(rows, draft, |rows|).Some?
    ensures Serve(rows, limit, Approve(draft, valid)) == Ok((rows, Repeated(rows, draft, |rows|).value))
  {
    ActiveIsFound(rows, |rows|);
    LayeredIsFound(rows, draft);
    hide Family, ActiveFrom, Repeated;
  }

  /** Approving a draft again, under whatever limit holds by then, answers with the version the
      first approval made and adds nothing. */
  lemma ApprovalIsIdempotent(rows: Rows, limit: nat, draft: nat, later: nat, valid: bool)
    requires Layered(rows) && draft < |rows| && !rows[draft].approved
    requires Serve(rows, limit, Approve(draft, true)).Ok?
    ensures var first := Serve(rows, limit, Approve(draft, true)).value;
      Serve(first.0, later, Approve(draft, valid)) == Ok(first)
  {
    var first := Serve(rows, limit, Approve(draft, true)).value;
    if Repeated(rows, draft, |rows|).Some? {
      RepeatedAnswers(rows, limit, draft, true);
      RepeatedAnswers(rows, later, draft, valid);
    } else {
      ApprovalJoinsTheDraft(rows, draft, draft);
      var version := rows[draft].(approved := true, supersedes := Some(draft));
      hide Family, ActiveFrom;
      assert first == (rows + [version], |rows|);
      assert Repeated(rows + [version], draft, |rows| + 1) == Some(|rows|);
      RepeatedAnswers(rows + [version], later, draft, valid);
    }
  }

  // ---- What each request is answered with ------------------------------------------------------------

  /** The families of a set of rows are those of its approved records. */
  lemma {:induction false} ActiveAre(rows: Rows, n: nat, family: nat)
    requires n <= |rows| && ActiveFrom(rows, n).Ok?
    ensures family in ActiveFrom(rows, n).value <==> exists i :: 0 <= i < n && rows[i].approved && Family(rows, i) == Ok(family)
  {
    if n > 0 {
      ActiveAre(rows, n - 1, family);
    }
    hide Family;
  }

  /** Some approved record is of this draft's family. */
  predicate Established(rows: Rows, draft: nat)
    requires draft < |rows|
  {
    exists i :: 0 <= i < |rows| && rows[i].approved && Family(rows, i) == Family(rows, draft)
  }

  /** The record at `i` is the approved version of a draft. */
  predicate IsVersion(rows: Rows, draft: nat, i: nat)
    requires draft < |rows|
  {
    i < |rows| && rows[i].approved && rows[i].supersedes == Some(draft) && Family(rows, i) == Family(rows, draft)
  }

  lemma NewestVersion(rows: Rows, draft: nat)
    requires draft < |rows|
    ensures Repeated(rows, draft, |rows|).Some? <==> exists i: nat :: IsVersion(rows, draft, i)
    ensures Repeated(rows, draft, |rows|).Some? ==> IsVersion(rows, draft, Repeated(rows, draft, |rows|).value)
  {
    var r := Repeated(rows, draft, |rows|);
    if r.None? {
      forall i: nat ensures !IsVersion(rows, draft, i) {
      }
    } else {
      assert IsVersion(rows, draft, r.value);
    }
  }

  /** When a draft is approved: its earlier version answers, if there is one; otherwise a version is
      added if its family counts already or one more is within the limit, and the draft is valid. */
  lemma ApproveExactlyWhen(rows: Rows, limit: nat, draft: nat, valid: bool)
    requires Layered(rows)
    ensures var r := Serve(rows, limit, Approve(draft, valid));
      if draft >= |rows| then r == Rejected(404)
      else if rows[draft].approved then r == Ok((rows, draft))
      else if exists i: nat :: IsVersion(rows, draft, i) then
        r.Ok? && r.value.0 == rows && IsVersion(rows, draft, r.value.1)
      else if !Established(rows, draft) && Count(rows) >= limit then r == Rejected(402)
      else if !valid then r == Rejected(422)
      else
        r == Ok((rows + [Property(rows[draft].system, rows[draft].propagatedFrom, Some(draft), true)], |rows|))
  {
    if draft < |rows| {
      ActiveIsFound(rows, |rows|);
      LayeredIsFound(rows, draft);
      NewestVersion(rows, draft);
      ActiveAre(rows, |rows|, Family(rows, draft).value);
    }
    hide Family, ActiveFrom, Repeated, Layered, IsVersion;
  }

  /** Drafts and adoptions are always taken, from a known source, and count for nothing; an approved
      install needs room for one more family. */
  lemma OthersExactlyWhen(rows: Rows, limit: nat, system: nat, source: nat)
    requires Layered(rows)
    ensures Serve(rows, limit, Draft(system)) == Ok((rows + [Property(system, None, None, false)], |rows|))
    ensures Serve(rows, limit, Adopt(source, system)) ==
      if source < |rows| then Ok((rows + [Property(system, Some(source), None, false)], |rows|)) else Rejected(404)
    ensures Serve(rows, limit, Install(system)) ==
      if Count(rows) < limit then Ok((rows + [Property(system, None, None, true)], |rows|)) else Rejected(402)
  {
    ActiveIsFound(rows, |rows|);
    hide ActiveFrom, Layered;
  }
}
