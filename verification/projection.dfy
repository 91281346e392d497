/** Which approved claims are supported right now.

    Models `projection` and `source_change_reconciled` of `change_assurance.py`, the mapping
    lookup of `source_semantics.py`, and `reached_claims` of `assurance_intelligence.py`.
    What `assess_plan` selects and how a change is explained are inputs; reason texts and
    presentation are not modelled. */
module Projection {
  import opened Common
  import Captures

  datatype Applicability = CURRENT | STALE | INVALID | UNKNOWN

  // ---- What evidence alone supports ------------------------------------------------------

  datatype Reason =
    | AuthorityChanged | EnvelopeExpired | NoQualifiedObservation | ObservationStale
    | UnresolvedCoverage(mentionsExpiry: bool) | UngovernedActions | BeyondSyntheticSubjects
    | EvidencePredatesBoundary

  datatype Evidence = Evidence(id: nat, at: int, target: nat)

  /** One approved claim with what the evidence layer knows about it for this exact state:
      the evidence selected for reuse, a retained failure, the exact-state results (newest
      first), and whether an invalidation was VOID. */
  datatype Claim = Claim(
    id: nat, dependencies: set<string>, selected: Option<Evidence>, failed: bool,
    exact: seq<Captures.Evaluation>, voided: bool)

  datatype Affected = Affected(change: nat, at: int, scoped: bool)

  datatype Row = Row(
    id: nat, evidence: Option<nat>, dependencies: set<string>, affectedBy: seq<Affected>, applicability: Applicability,
    security: Captures.Verdict, task: Captures.Task, supported: bool)

  /** The assessed state's surroundings that evidence is compared with. */
  datatype Setting = Setting(reasons: set<Reason>, target: Option<nat>, bound: map<nat, int>, envelopeAt: int)

  predicate Stale(reason: Reason) {
    reason == EnvelopeExpired || reason == ObservationStale || (reason.UnresolvedCoverage? && reason.mentionsExpiry)
  }

  /** The evidence a row keeps: it must be bound to the assessed target. */
  function Bound(claim: Claim, s: Setting): Option<Evidence> {
    if claim.selected.Some? && claim.selected.value.target in s.bound && s.target == Some(claim.selected.value.target)
    then claim.selected else None
  }

  /** The row of one claim before the source layer. `s.bound` maps each bound target to the
      time of its earliest binding. */
  function BaseRow(claim: Claim, s: Setting): Row {
    var bound := Bound(claim, s);
    var early := bound.Some? && (bound.value.at < s.envelopeAt || bound.value.at < s.bound[bound.value.target]);
    var reasons := if early then s.reasons + {EvidencePredatesBoundary} else s.reasons;
    var kept := bound.Some? && !early;
    var security := if claim.failed then Captures.FAIL
                    else if claim.exact == [] then Captures.INCONCLUSIVE else claim.exact[0].verdict;
    var task := if exists e :: e in claim.exact && e.task == Captures.FAILURE then Captures.FAILURE
                else if claim.exact == [] then Captures.UNKNOWN else claim.exact[0].task;
    var applicability := if kept && reasons == {} then CURRENT
                         else if exists r :: r in reasons && Stale(r) then STALE
                         else if claim.voided then INVALID else UNKNOWN;
    Row(claim.id, if kept then Some(bound.value.id) else None, claim.dependencies, [], applicability, security, task,
        kept && reasons == {} && security == Captures.PASS && task == Captures.SUCCESS)
  }

  // ---- The source layer --------------------------------------------------------------------

  datatype Source = Source(imported: bool, freshness: Applicability)

  datatype ChangeKind = ORDINARY | SOURCE_GAP | CONNECTOR_CONFIGURATION
  datatype Explanation = Explanation(conservative: bool, unexplained: bool, subjects: set<string>)

  datatype Change = Change(
    id: nat, at: int, validAt: int, changed: set<string>, kind: ChangeKind, imported: bool, installation: nat,
    explanation: Explanation)

  datatype Part = Part(observed: bool, digest: Option<nat>, version: Option<nat>)
  datatype Batch = Batch(at: int, validAt: int, installation: nat, current: bool, components: map<string, Part>)
  datatype Mapping = Mapping(installation: nat, subject: string, mapsTo: set<string>)

  /** The assessed state as the source layer sees it; histories are newest first. */
  datatype Boundary = Boundary(
    stateAt: int, anchor: int, captured: map<string, Part>, reviewed: set<string>, synthetic: bool,
    mappings: seq<Mapping>, batches: seq<Batch>)

  /** `source_change_reconciled`: the change is visible in the observed state itself. */
  predicate ChangeReconciled(c: Change, captured: map<string, Part>, reviewed: set<string>, after: map<string, Part>,
                             synthetic: bool)
  {
    || (synthetic && c.imported)
    || (&& c.changed != {} && c.kind == ORDINARY
        && c.changed <= reviewed && c.changed <= captured.Keys
        && forall key :: key in c.changed ==>
             && key in after && captured[key].observed && captured[key].digest.Some?
             && captured[key].digest == after[key].digest && captured[key].version == after[key].version)
  }

  /** The newest current snapshot of a source that was known at the evidence boundary. */
  function Watermark(batches: seq<Batch>, installation: nat, b: Boundary): Option<Batch> {
    if batches == [] then None
    else
      var first := batches[0];
      if first.current && first.installation == installation && first.at <= b.stateAt && first.validAt <= b.anchor
      then Some(first) else Watermark(batches[1..], installation, b)
  }

  predicate Late(c: Change, b: Boundary) { c.at > b.stateAt }

  predicate Reconciled(c: Change, b: Boundary) {
    && !Late(c, b) && c.validAt <= b.anchor
    && var mark := Watermark(b.batches, c.installation, b);
       ChangeReconciled(c, b.captured, b.reviewed, if mark.Some? then mark.value.components else map[], b.synthetic)
  }

  /** The newest mapping of a subject for one source. */
  function Mapped(mappings: seq<Mapping>, installation: nat, subject: string): Option<set<string>> {
    if mappings == [] then None
    else if mappings[0].installation == installation && mappings[0].subject == subject then Some(mappings[0].mapsTo)
    else Mapped(mappings[1..], installation, subject)
  }

  predicate SubjectMapped(b: Boundary, installation: nat, subject: string) {
    Mapped(b.mappings, installation, subject).Some? && Mapped(b.mappings, installation, subject).value != {}
  }

  /** `scope_change`: every subject named and mapped. */
  predicate FullyMapped(c: Change, b: Boundary) {
    && !c.explanation.conservative && !c.explanation.unexplained && c.explanation.subjects != {}
    && forall s :: s in c.explanation.subjects ==> SubjectMapped(b, c.installation, s)
  }

  function MappedDependencies(c: Change, b: Boundary): set<string>
    requires FullyMapped(c, b)
  {
    set s, d | s in c.explanation.subjects && d in Mapped(b.mappings, c.installation, s).value :: d
  }

  /** The components a change counts as touching: narrowed by mappings only when it is late. */
  function Touched(c: Change, b: Boundary): set<string> {
    if Late(c, b) && FullyMapped(c, b) then MappedDependencies(c, b) else c.changed
  }

  predicate Resolved(touched: set<string>, b: Boundary) {
    touched != {} && touched <= b.reviewed && touched <= b.captured.Keys
  }

  function Withdrawn(row: Row, applicability: Applicability, c: Change, scoped: bool): Row {
    row.(supported := false, applicability := applicability, affectedBy := row.affectedBy + [Affected(c.id, c.at, scoped)])
  }

  function ApplyChange(row: Row, c: Change, b: Boundary): Row {
    if Reconciled(c, b) then row
    else if !Late(c, b) && c.validAt <= b.anchor then Withdrawn(row, UNKNOWN, c, false)
    else
      var touched := Touched(c, b);
      var hit := touched * row.dependencies != {};
      if !Resolved(touched, b) || row.dependencies == {} || hit then
        Withdrawn(row, if hit then INVALID else UNKNOWN, c, Late(c, b) && FullyMapped(c, b) && Resolved(touched, b))
      else row
  }

  function ApplySource(row: Row, s: Source): Row {
    if !s.imported && s.freshness != CURRENT
    then row.(supported := false, applicability := if s.freshness == STALE then STALE else UNKNOWN) else row
  }

  function ApplySources(row: Row, health: seq<Source>): Row {
    if health == [] then row else ApplySource(ApplySources(row, health[..|health| - 1]), health[|health| - 1])
  }

  function ApplyChanges(row: Row, changes: seq<Change>, b: Boundary): Row {
    if changes == [] then row
    else ApplyChange(ApplyChanges(row, changes[..|changes| - 1], b), changes[|changes| - 1], b)
  }

  function WithdrawRow(row: Row, health: seq<Source>, changes: seq<Change>, b: Boundary): Row {
    ApplyChanges(ApplySources(row, health), changes, b)
  }

  /** The nested loops of `projection`: they update the rows in place. */
  method WithdrawSupport(rows: array<Row>, health: seq<Source>, changes: seq<Change>, b: Boundary)
    modifies rows
    ensures forall i :: 0 <= i < rows.Length ==> rows[i] == WithdrawRow(old(rows[i]), health, changes, b)
  {
    for i := 0 to rows.Length
      invariant forall k :: 0 <= k < i ==> rows[k] == WithdrawRow(old(rows[k]), health, changes, b)
      invariant forall k :: i <= k < rows.Length ==> rows[k] == old(rows[k])
    {
      for j := 0 to |health|
        invariant rows[i] == ApplySources(old(rows[i]), health[..j])
        invariant forall k :: 0 <= k < i ==> rows[k] == WithdrawRow(old(rows[k]), health, changes, b)
        invariant forall k :: i < k < rows.Length ==> rows[k] == old(rows[k])
      {
        assert health[..j + 1][..j] == health[..j];
        rows[i] := ApplySource(rows[i], health[j]);
      }
      assert health[..|health|] == health;
      for j := 0 to |changes|
        invariant rows[i] == ApplyChanges(ApplySources(old(rows[i]), health), changes[..j], b)
        invariant forall k :: 0 <= k < i ==> rows[k] == WithdrawRow(old(rows[k]), health, changes, b)
        invariant forall k :: i < k < rows.Length ==> rows[k] == old(rows[k])
      {
        assert changes[..j + 1][..j] == changes[..j];
        rows[i] := ApplyChange(rows[i], changes[j], b);
      }
      assert changes[..|changes|] == changes;
    }
  }

  // ---- When support survives ---------------------------------------------------------------

  predicate SourceHolds(s: Source) { s.imported || s.freshness == CURRENT }

  /** A change leaves a claim with these dependencies untouched. */
  predicate Harmless(c: Change, dependencies: set<string>, b: Boundary) {
    || Reconciled(c, b)
    || (&& (Late(c, b) || c.validAt > b.anchor)
        && dependencies != {} && Resolved(Touched(c, b), b) && Touched(c, b) * dependencies == {})
  }

  lemma {:induction false} SourcesKeep(row: Row, health: seq<Source>)
    ensures var r := ApplySources(row, health);
      && (r.supported <==> row.supported && forall s :: s in health ==> SourceHolds(s))
      && r == row.(supported := r.supported, applicability := r.applicability)
  {
    if health != [] {
      var last := |health| - 1;
      SourcesKeep(row, health[..last]);
      assert health == health[..last] + [health[last]];
      assert health[last] in health;
      assert forall s :: s in health ==> s in health[..last] || s == health[last];
    }
  }

  /** The change would be listed against a claim with these dependencies. */
  predicate Harms(c: Change, dependencies: set<string>, b: Boundary) { !Harmless(c, dependencies, b) }

  /** The entry a harmful change leaves on a row. */
  function Entry(c: Change, b: Boundary): Affected {
    Affected(c.id, c.at, Late(c, b) && FullyMapped(c, b) && Resolved(Touched(c, b), b))
  }

  function Entries(changes: seq<Change>, dependencies: set<string>, b: Boundary): seq<Affected> {
    if changes == [] then []
    else
      var last := |changes| - 1;
      Entries(changes[..last], dependencies, b) + (if Harms(changes[last], dependencies, b) then [Entry(changes[last], b)] else [])
  }

  lemma {:induction false} EntriesAre(changes: seq<Change>, dependencies: set<string>, b: Boundary)
    ensures forall a :: a in Entries(changes, dependencies, b) <==>
      exists c :: c in changes && Harms(c, dependencies, b) && Entry(c, b) == a
  {
    if changes != [] {
      var last := |changes| - 1;
      EntriesAre(changes[..last], dependencies, b);
      assert changes == changes[..last] + [changes[last]];
    }
  }

  lemma {:induction false} ChangesKeep(row: Row, changes: seq<Change>, b: Boundary)
    ensures var r := ApplyChanges(row, changes, b);
      && (r.supported <==> row.supported && forall c :: c in changes ==> Harmless(c, row.dependencies, b))
      && r.affectedBy == row.affectedBy + Entries(changes, row.dependencies, b)
      && r == row.(supported := r.supported, applicability := r.applicability, affectedBy := r.affectedBy)
  {
    if changes != [] {
      var last := |changes| - 1;
      ChangesKeep(row, changes[..last], b);
      assert changes == changes[..last] + [changes[last]];
      OneChange(ApplyChanges(row, changes[..last], b), changes[last], b);
    }
  }

  lemma OneChange(row: Row, c: Change, b: Boundary)
    ensures ApplyChange(row, c, b) == if Harmless(c, row.dependencies, b) then row
      else row.(supported := false, applicability := Harm(c, row.dependencies, b), affectedBy := row.affectedBy + [Entry(c, b)])
  {
  }

  /** What a harmful change says about a claim's evidence. */
  function Harm(c: Change, dependencies: set<string>, b: Boundary): Applicability {
    if (Late(c, b) || c.validAt > b.anchor) && Touched(c, b) * dependencies != {} then INVALID else UNKNOWN
  }

  /** A claim stays supported exactly when its evidence supported it, every live source is
      current, and every recorded source change is reconciled or provably elsewhere. */
  lemma SupportedExactlyWhen(row: Row, health: seq<Source>, changes: seq<Change>, b: Boundary)
    ensures var r := WithdrawRow(row, health, changes, b);
      && (r.supported <==>
            && row.supported
            && (forall s :: s in health ==> SourceHolds(s))
            && (forall c :: c in changes ==> Harmless(c, row.dependencies, b)))
      && r.id == row.id && r.evidence == row.evidence && r.security == row.security && r.task == row.task
      && r.affectedBy == row.affectedBy + Entries(changes, row.dependencies, b)
  {
    SourcesKeep(row, health);
    ChangesKeep(ApplySources(row, health), changes, b);
  }

  /** What evidence alone supports. */
  lemma BaseSupportedExactlyWhen(claim: Claim, s: Setting)
    ensures var r := BaseRow(claim, s);
      && (r.supported <==>
            && s.reasons == {}
            && claim.selected.Some? && s.target == Some(claim.selected.value.target)
            && claim.selected.value.target in s.bound
            && claim.selected.value.at >= s.envelopeAt && claim.selected.value.at >= s.bound[claim.selected.value.target]
            && !claim.failed && claim.exact != [] && claim.exact[0].verdict == Captures.PASS
            && claim.exact[0].task == Captures.SUCCESS
            && forall e :: e in claim.exact ==> e.task != Captures.FAILURE)
      && (r.supported ==> r.applicability == CURRENT)
  {
    if claim.exact != [] {
      assert claim.exact[0] in claim.exact;
    }
  }

  /** The claim's evidence counts: it was made for the assessed target, not before the authority was
      reviewed or the target bound. */
  predicate Anchored(claim: Claim, s: Setting) {
    && claim.selected.Some? && s.target == Some(claim.selected.value.target) && claim.selected.value.target in s.bound
    && claim.selected.value.at >= s.envelopeAt && claim.selected.value.at >= s.bound[claim.selected.value.target]
  }

  /** Something about the surroundings ran out. */
  predicate RanOut(reasons: set<Reason>) {
    EnvelopeExpired in reasons || ObservationStale in reasons || UnresolvedCoverage(true) in reasons
  }

  /** What a row says before the source layer: the evidence that counts, how far it applies, and the
      outcomes recorded of the claim, a failure outweighing all else. */
  lemma BaseRowExactlyWhen(claim: Claim, s: Setting)
    ensures var r := BaseRow(claim, s);
      && r.evidence == (if Anchored(claim, s) then Some(claim.selected.value.id) else None)
      && (r.applicability == CURRENT <==> Anchored(claim, s) && s.reasons == {})
      && (r.applicability == STALE <==> RanOut(s.reasons))
      && (r.applicability == INVALID <==> !(Anchored(claim, s) && s.reasons == {}) && !RanOut(s.reasons) && claim.voided)
      && r.security == (if claim.failed then Captures.FAIL
                        else if claim.exact == [] then Captures.INCONCLUSIVE else claim.exact[0].verdict)
      && r.task == (if exists i :: 0 <= i < |claim.exact| && claim.exact[i].task == Captures.FAILURE then Captures.FAILURE
                    else if claim.exact == [] then Captures.UNKNOWN else claim.exact[0].task)
      && r.id == claim.id && r.dependencies == claim.dependencies && r.affectedBy == []
  {
    assert (exists e :: e in claim.exact && e.task == Captures.FAILURE)
      <==> exists i :: 0 <= i < |claim.exact| && claim.exact[i].task == Captures.FAILURE;
    var early := s.reasons + {EvidencePredatesBoundary};
    assert RanOut(early) <==> RanOut(s.reasons);
    assert (exists r :: r in s.reasons && Stale(r)) <==> RanOut(s.reasons);
    assert (exists r :: r in early && Stale(r)) <==> RanOut(early);
    assert EvidencePredatesBoundary in early;
  }

  // ---- What makes a source change harmless -------------------------------------------------------

  /** A snapshot of this source that was current and known at the evidence boundary. */
  predicate Known(batch: Batch, installation: nat, b: Boundary) {
    batch.current && batch.installation == installation && batch.at <= b.stateAt && batch.validAt <= b.anchor
  }

  /** It is the newest such snapshot. */
  predicate IsWatermark(b: Boundary, installation: nat, i: nat) {
    i < |b.batches| && Known(b.batches[i], installation, b) && forall j :: 0 <= j < i ==> !Known(b.batches[j], installation, b)
  }

  lemma {:induction false} WatermarkFinds(batches: seq<Batch>, installation: nat, b: Boundary)
    ensures var r := Watermark(batches, installation, b);
      if r.None? then forall i :: 0 <= i < |batches| ==> !Known(batches[i], installation, b)
      else exists i :: 0 <= i < |batches| && batches[i] == r.value && Known(batches[i], installation, b)
                       && forall j :: 0 <= j < i ==> !Known(batches[j], installation, b)
  {
    if batches != [] && !Known(batches[0], installation, b) {
      WatermarkFinds(batches[1..], installation, b);
      assert forall i :: 0 < i < |batches| ==> batches[i] == batches[1..][i - 1];
      var r := Watermark(batches[1..], installation, b);
      if r.Some? {
        var i :| 0 <= i < |batches| - 1 && batches[1..][i] == r.value && Known(batches[1..][i], installation, b)
          && forall j :: 0 <= j < i ==> !Known(batches[1..][j], installation, b);
        assert batches[i + 1] == r.value;
      }
    }
  }

  /** The component was reviewed, and the state observed exactly what the snapshot says of it. */
  predicate SeenAsIs(key: string, b: Boundary, batch: Batch) {
    && key in b.reviewed && key in b.captured && b.captured[key].observed && b.captured[key].digest.Some?
    && key in batch.components && batch.components[key].digest == b.captured[key].digest
    && batch.components[key].version == b.captured[key].version
  }

  lemma WatermarkIs(b: Boundary, installation: nat)
    ensures var r := Watermark(b.batches, installation, b);
      if r.None? then forall i: nat :: !IsWatermark(b, installation, i)
      else exists i: nat :: IsWatermark(b, installation, i) && b.batches[i] == r.value
  {
    WatermarkFinds(b.batches, installation, b);
    var r := Watermark(b.batches, installation, b);
    hide Watermark, Known;
    if r.Some? {
      var i: nat :| i < |b.batches| && b.batches[i] == r.value && Known(b.batches[i], installation, b)
        && forall j :: 0 <= j < i ==> !Known(b.batches[j], installation, b);
      assert IsWatermark(b, installation, i);
    }
  }

  /** A change is reconciled exactly when it was known, and valid, at the evidence boundary, and either
      an import into a synthetic fixture or an ordinary change whose every component the state shows as
      the newest snapshot known then has it. */
  lemma ReconciledExactlyWhen(c: Change, b: Boundary)
    ensures Reconciled(c, b) <==>
      && c.at <= b.stateAt && c.validAt <= b.anchor
      && (|| (b.synthetic && c.imported)
          || (&& c.kind == ORDINARY && c.changed != {}
              && exists i: nat :: IsWatermark(b, c.installation, i) && forall key :: key in c.changed ==> SeenAsIs(key, b, b.batches[i])))
  {
    WatermarkIs(b, c.installation);
    var mark := Watermark(b.batches, c.installation, b);
    if mark.Some? {
      var i: nat :| IsWatermark(b, c.installation, i) && b.batches[i] == mark.value;
      assert forall k: nat :: IsWatermark(b, c.installation, k) ==> k == i;
      assert (forall key :: key in c.changed ==> SeenAsIs(key, b, b.batches[i])) <==>
        c.changed <= b.reviewed && c.changed <= b.captured.Keys
        && forall key :: key in c.changed ==>
             && key in b.batches[i].components && b.captured[key].observed && b.captured[key].digest.Some?
             && b.captured[key].digest == b.batches[i].components[key].digest
             && b.captured[key].version == b.batches[i].components[key].version;
    } else if c.changed != {} {
      var key :| key in c.changed;
      var nothing: map<string, Part> := map[];
      assert key !in nothing;
    }
    hide Watermark, IsWatermark;
  }

  /** The newest mapping of a subject of this source. */
  predicate IsMapping(b: Boundary, installation: nat, subject: string, i: nat) {
    && i < |b.mappings| && b.mappings[i].installation == installation && b.mappings[i].subject == subject
    && forall j :: 0 <= j < i ==> !(b.mappings[j].installation == installation && b.mappings[j].subject == subject)
  }

  lemma {:induction false} MappedFinds(mappings: seq<Mapping>, installation: nat, subject: string)
    ensures var r := Mapped(mappings, installation, subject);
      if r.None? then forall i :: 0 <= i < |mappings| ==> !(mappings[i].installation == installation && mappings[i].subject == subject)
      else exists i :: 0 <= i < |mappings| && mappings[i].mapsTo == r.value
                       && mappings[i].installation == installation && mappings[i].subject == subject
                       && forall j :: 0 <= j < i ==> !(mappings[j].installation == installation && mappings[j].subject == subject)
  {
    if mappings != [] && !(mappings[0].installation == installation && mappings[0].subject == subject) {
      MappedFinds(mappings[1..], installation, subject);
      assert forall i :: 0 < i < |mappings| ==> mappings[i] == mappings[1..][i - 1];
      var r := Mapped(mappings[1..], installation, subject);
      if r.Some? {
        var i :| 0 <= i < |mappings| - 1 && mappings[1..][i].mapsTo == r.value
          && mappings[1..][i].installation == installation && mappings[1..][i].subject == subject
          && forall j :: 0 <= j < i ==> !(mappings[1..][j].installation == installation && mappings[1..][j].subject == subject);
        assert mappings[i + 1].mapsTo == r.value;
      }
    }
  }

  /** The newest mapping of this subject names this component. */
  predicate MapsTo(b: Boundary, installation: nat, subject: string, component: string) {
    exists i :: 0 <= i < |b.mappings| && IsMapping(b, installation, subject, i) && component in b.mappings[i].mapsTo
  }

  lemma MappedIs(b: Boundary, installation: nat, subject: string)
    ensures SubjectMapped(b, installation, subject) <==> exists d :: MapsTo(b, installation, subject, d)
    ensures Mapped(b.mappings, installation, subject).Some? ==>
      forall d :: d in Mapped(b.mappings, installation, subject).value <==> MapsTo(b, installation, subject, d)
  {
    MappedFinds(b.mappings, installation, subject);
    var r := Mapped(b.mappings, installation, subject);
    hide Mapped;
    if r.Some? {
      var i :| 0 <= i < |b.mappings| && b.mappings[i].mapsTo == r.value
        && b.mappings[i].installation == installation && b.mappings[i].subject == subject
        && forall j :: 0 <= j < i ==> !(b.mappings[j].installation == installation && b.mappings[j].subject == subject);
      assert IsMapping(b, installation, subject, i);
      assert forall k :: IsMapping(b, installation, subject, k) ==> k == i;
      if r.value != {} {
        var d :| d in r.value;
        assert MapsTo(b, installation, subject, d);
      }
    }
  }

  /** The explanation names subjects, all of them mapped to something. */
  ghost predicate Explained(c: Change, b: Boundary) {
    && !c.explanation.conservative && !c.explanation.unexplained && c.explanation.subjects != {}
    && forall s :: s in c.explanation.subjects ==> exists d :: MapsTo(b, c.installation, s, d)
  }

  /** The components a change counts as touching: those its explained subjects map to, if it came after
      the state; else those it lists. */
  lemma TouchedExactlyWhen(c: Change, b: Boundary, component: string)
    ensures component in Touched(c, b) <==>
      if c.at > b.stateAt && Explained(c, b)
      then exists s :: s in c.explanation.subjects && MapsTo(b, c.installation, s, component) else component in c.changed
  {
    forall s ensures SubjectMapped(b, c.installation, s) <==> exists d :: MapsTo(b, c.installation, s, d) {
      MappedIs(b, c.installation, s);
    }
    assert FullyMapped(c, b) <==> Explained(c, b);
    if c.at > b.stateAt && FullyMapped(c, b) {
      forall s | s in c.explanation.subjects
        ensures component in Mapped(b.mappings, c.installation, s).value <==> MapsTo(b, c.installation, s, component)
      {
        MappedIs(b, c.installation, s);
      }
    }
    hide MapsTo, Mapped;
  }

  /** A change that is not reconciled leaves a claim alone exactly when it came, or holds, after the
      evidence, the claim names what it depends on, and everything the change touches was reviewed and
      captured and is none of it. */
  lemma HarmlessExactlyWhen(c: Change, dependencies: set<string>, b: Boundary)
    ensures Harmless(c, dependencies, b) <==>
      || Reconciled(c, b)
      || (&& (c.at > b.stateAt || c.validAt > b.anchor) && dependencies != {} && Touched(c, b) != {}
          && forall d :: d in Touched(c, b) ==> d in b.reviewed && d in b.captured && d !in dependencies)
  {
    hide Reconciled, Touched;
    var touched := Touched(c, b);
    assert touched * dependencies == {} <==> forall d :: d in touched ==> d !in dependencies by {
      if d :| d in touched && d in dependencies {
        assert d in touched * dependencies;
      }
    }
  }

  // ---- Order of the history ------------------------------------------------------------------

  lemma {:induction false} EntriesPermute(changes: seq<Change>, dependencies: set<string>, b: Boundary)
    ensures forall a: Affected :: multiset(Entries(changes, dependencies, b))[a] == Count(multiset(changes), a, dependencies, b)
    decreases |changes|
  {
    if changes == [] {
      forall a: Affected ensures Count(multiset(changes), a, dependencies, b) == 0 {
        CountEmpty(a, dependencies, b);
      }
    } else {
      var last := |changes| - 1;
      var init, c := changes[..last], changes[last];
      assert changes == init + [c];
      EntriesPermute(init, dependencies, b);
      forall a: Affected ensures multiset(Entries(changes, dependencies, b))[a] == Count(multiset(changes), a, dependencies, b) {
        CountAdd(multiset(init), c, a, dependencies, b);
        assert multiset(changes) == multiset(init) + multiset{c};
      }
    }
  }

  ghost function Pick(m: multiset<Change>): (c: Change)
    requires m != multiset{}
    ensures c in m
  {
    var c :| c in m; c
  }

  function Leaves(c: Change, a: Affected, dependencies: set<string>, b: Boundary): nat {
    if Harms(c, dependencies, b) && Entry(c, b) == a then 1 else 0
  }

  /** How many changes of a collection leave the entry `a`, whatever their order. */
  ghost function Count(m: multiset<Change>, a: Affected, dependencies: set<string>, b: Boundary): nat
    decreases |m|
  {
    if m == multiset{} then 0 else Count(m - multiset{Pick(m)}, a, dependencies, b) + Leaves(Pick(m), a, dependencies, b)
  }

  lemma CountEmpty(a: Affected, dependencies: set<string>, b: Boundary)
    ensures Count(multiset{}, a, dependencies, b) == 0
  {
  }

  lemma {:induction false} CountAdd(m: multiset<Change>, c: Change, a: Affected, dependencies: set<string>, b: Boundary)
    ensures Count(m + multiset{c}, a, dependencies, b) == Count(m, a, dependencies, b) + Leaves(c, a, dependencies, b)
    decreases |m|
  {
    hide Leaves, Pick;
    var grown := m + multiset{c};
    assert c in grown;
    var d := Pick(grown);
    if d == c {
      assert grown - multiset{c} == m;
    } else {
      assert d in m;
      var rest := m - multiset{d};
      assert grown - multiset{d} == rest + multiset{c};
      assert m == rest + multiset{d};
      CountAdd(rest, c, a, dependencies, b);
      CountAdd(rest, d, a, dependencies, b);
    }
  }

  /** The order in which source changes are visited decides neither the support of a claim
      nor the collection of changes listed against it. */
  lemma OrderDoesNotMatter(row: Row, health: seq<Source>, one: seq<Change>, other: seq<Change>, b: Boundary)
    requires multiset(one) == multiset(other)
    ensures WithdrawRow(row, health, one, b).supported == WithdrawRow(row, health, other, b).supported
    ensures multiset(WithdrawRow(row, health, one, b).affectedBy) == multiset(WithdrawRow(row, health, other, b).affectedBy)
  {
    SourcesKeep(row, health);
    var start := ApplySources(row, health);
    ChangesKeep(start, one, b);
    ChangesKeep(start, other, b);
    assert forall c :: c in one <==> c in multiset(one);
    assert forall c :: c in other <==> c in multiset(other);
    EntriesPermute(one, start.dependencies, b);
    EntriesPermute(other, start.dependencies, b);
    assert multiset(Entries(one, start.dependencies, b)) == multiset(Entries(other, start.dependencies, b));
  }

  /** The reported applicability does depend on the order: it is what the last harmful change
      visited says. Histories are visited newest first, so the oldest harmful change decides. */
  lemma {:induction false} LastHarmDecides(row: Row, changes: seq<Change>, b: Boundary, k: nat)
    requires k < |changes| && Harms(changes[k], row.dependencies, b)
    requires forall j :: k < j < |changes| ==> Harmless(changes[j], row.dependencies, b)
    ensures ApplyChanges(row, changes, b).applicability == Harm(changes[k], row.dependencies, b)
    decreases |changes|
  {
    var last := |changes| - 1;
    ChangesKeep(row, changes[..last], b);
    OneChange(ApplyChanges(row, changes[..last], b), changes[last], b);
    if k < last {
      LastHarmDecides(row, changes[..last], b, k);
    }
  }

  /** Before any change is visited, the last source that does not hold decides: what it withdraws is
      stale if the source is, and else unknown. Sources that all hold change nothing. */
  lemma {:induction false} LastSourceDecides(row: Row, health: seq<Source>, k: nat)
    requires k <= |health| && forall j :: k <= j < |health| ==> health[j].imported || health[j].freshness == CURRENT
    requires k > 0 ==> !health[k - 1].imported && health[k - 1].freshness != CURRENT
    ensures ApplySources(row, health) ==
      if k == 0 then row
      else row.(supported := false, applicability := if health[k - 1].freshness == STALE then STALE else UNKNOWN)
    decreases |health|
  {
    if health != [] {
      var last := |health| - 1;
      SourcesKeep(row, health[..last]);
      if k < |health| {
        LastSourceDecides(row, health[..last], k);
      }
    }
  }

  /** Histories are visited newest first. */
  predicate NewestFirst(changes: seq<Change>) {
    forall i, j :: 0 <= i < j < |changes| ==> changes[i].at > changes[j].at
  }

  /** Two late changes: recorded in one order the claim reads UNKNOWN, recorded in the other it
      reads INVALID. */
  lemma OrderChangesApplicability()
    ensures exists row: Row, x: Change, y: Change, b: Boundary ::
      && NewestFirst([x, y]) && NewestFirst([y.(at := x.at), x.(at := y.at)])
      && ApplyChanges(row, [x, y], b).applicability != ApplyChanges(row, [y.(at := x.at), x.(at := y.at)], b).applicability
  {
    var plain := Explanation(true, true, {});
    var x := Change(0, 6, 6, {"tool:a"}, ORDINARY, false, 0, plain);
    var y := Change(1, 5, 5, {}, SOURCE_GAP, false, 0, plain);
    var b := Boundary(0, 0, map["tool:a" := Part(true, Some(1), None)], {"tool:a"}, false, [], []);
    var row := Row(0, None, {"tool:a"}, [], CURRENT, Captures.PASS, Captures.SUCCESS, true);
    var earlier, later := x.(at := y.at), y.(at := x.at);
    assert Touched(x, b) * row.dependencies == {"tool:a"} && Touched(earlier, b) * row.dependencies == {"tool:a"};
    LastHarmDecides(row, [x, y], b, 1);
    LastHarmDecides(row, [later, earlier], b, 1);
    assert Harm(earlier, row.dependencies, b) == INVALID && Harm(y, row.dependencies, b) == UNKNOWN;
  }

  /** Every rearrangement of the changes reports the same applicability. */
  ghost predicate OrderFree(row: Row, health: seq<Source>, changes: seq<Change>, b: Boundary) {
    forall other: seq<Change> :: multiset(other) == multiset(changes) ==>
      WithdrawRow(row, health, other, b).applicability == WithdrawRow(row, health, changes, b).applicability
  }

  /** All harmful changes say the same about the claim's evidence. */
  predicate HarmsAgree(changes: seq<Change>, dependencies: set<string>, b: Boundary) {
    forall x, y :: x in changes && y in changes && Harms(x, dependencies, b) && Harms(y, dependencies, b) ==>
      Harm(x, dependencies, b) == Harm(y, dependencies, b)
  }

  lemma {:induction false} NoHarmNoChange(row: Row, changes: seq<Change>, b: Boundary)
    requires forall c :: c in changes ==> Harmless(c, row.dependencies, b)
    ensures ApplyChanges(row, changes, b) == row
  {
    if changes != [] {
      var last := |changes| - 1;
      NoHarmNoChange(row, changes[..last], b);
      OneChange(row, changes[last], b);
    }
  }

  /** The last harmful change of a list, if it has one. */
  lemma {:induction false} LastHarm(changes: seq<Change>, dependencies: set<string>, b: Boundary) returns (k: nat)
    requires exists c :: c in changes && Harms(c, dependencies, b)
    ensures k < |changes| && Harms(changes[k], dependencies, b)
    ensures forall j :: k < j < |changes| ==> Harmless(changes[j], dependencies, b)
  {
    k := |changes| - 1;
    if Harmless(changes[k], dependencies, b) {
      assert changes == changes[..k] + [changes[k]];
      k := LastHarm(changes[..k], dependencies, b);
    }
  }

  lemma AgreedHarmDecides(row: Row, changes: seq<Change>, b: Boundary, c: Change)
    requires HarmsAgree(changes, row.dependencies, b) && c in changes && Harms(c, row.dependencies, b)
    ensures ApplyChanges(row, changes, b).applicability == Harm(c, row.dependencies, b)
  {
    var k := LastHarm(changes, row.dependencies, b);
    LastHarmDecides(row, changes, b, k);
    hide Harms, Harm;
    assert changes[k] in changes;
  }

  lemma AgreementIsOrderFree(row: Row, one: seq<Change>, other: seq<Change>, b: Boundary)
    requires HarmsAgree(one, row.dependencies, b) && multiset(other) == multiset(one)
    ensures ApplyChanges(row, other, b).applicability == ApplyChanges(row, one, b).applicability
  {
    assert forall c :: c in one <==> c in multiset(one);
    assert forall c :: c in other <==> c in multiset(other);
    hide ApplyChanges, Harm;
    if c :| c in one && Harms(c, row.dependencies, b) {
      AgreedHarmDecides(row, one, b, c);
      AgreedHarmDecides(row, other, b, c);
    } else {
      NoHarmNoChange(row, one, b);
      NoHarmNoChange(row, other, b);
    }
  }

  /** A change moved to the end of the list decides. */
  lemma MovedLastDecides(row: Row, changes: seq<Change>, b: Boundary, i: nat) returns (moved: seq<Change>)
    requires i < |changes| && Harms(changes[i], row.dependencies, b)
    ensures multiset(moved) == multiset(changes)
    ensures ApplyChanges(row, moved, b).applicability == Harm(changes[i], row.dependencies, b)
  {
    moved := changes[..i] + changes[i + 1..] + [changes[i]];
    assert changes == changes[..i] + [changes[i]] + changes[i + 1..];
    LastHarmDecides(row, moved, b, |moved| - 1);
  }

  /** The reported applicability does not depend on the order exactly when all harmful changes
      agree on what they say. */
  lemma OrderFreeExactlyWhen(row: Row, health: seq<Source>, changes: seq<Change>, b: Boundary)
    ensures OrderFree(row, health, changes, b) <==> HarmsAgree(changes, row.dependencies, b)
  {
    SourcesKeep(row, health);
    var start := ApplySources(row, health);
    if HarmsAgree(changes, row.dependencies, b) {
      forall other: seq<Change> | multiset(other) == multiset(changes)
        ensures WithdrawRow(row, health, other, b).applicability == WithdrawRow(row, health, changes, b).applicability
      {
        AgreementIsOrderFree(start, changes, other, b);
      }
    }
    if OrderFree(row, health, changes, b) {
      forall i | 0 <= i < |changes| && Harms(changes[i], row.dependencies, b)
        ensures Harm(changes[i], row.dependencies, b) == WithdrawRow(row, health, changes, b).applicability
      {
        var moved := MovedLastDecides(start, changes, b, i);
        assert WithdrawRow(row, health, moved, b).applicability == ApplyChanges(start, moved, b).applicability;
      }
    }
  }

  /** With mappings and snapshots fixed, learning of one more source change never adds support. */
  lemma NewsNeverAddsSupport(row: Row, health: seq<Source>, older: seq<Change>, newer: seq<Change>, c: Change, b: Boundary)
    ensures WithdrawRow(row, health, newer + [c] + older, b).supported ==> WithdrawRow(row, health, newer + older, b).supported
  {
    SupportedExactlyWhen(row, health, newer + [c] + older, b);
    SupportedExactlyWhen(row, health, newer + older, b);
  }

  // ---- Explanation against projection -----------------------------------------------------------

  /** `reached_claims`: whether the explanation layer says a change reaches these dependencies. */
  predicate Reaches(c: Change, dependencies: set<string>, b: Boundary) {
    if FullyMapped(c, b) && MappedDependencies(c, b) <= b.reviewed
    then dependencies == {} || MappedDependencies(c, b) * dependencies != {} else true
  }

  /** A claim that any reading of the change touches. */
  predicate TouchesAnyway(c: Change, dependencies: set<string>, b: Boundary) {
    dependencies == {} || Touched(c, b) * dependencies != {}
  }

  lemma MappedIsNonEmpty(c: Change, b: Boundary)
    requires FullyMapped(c, b)
    ensures MappedDependencies(c, b) != {}
  {
    var s :| s in c.explanation.subjects;
    assert SubjectMapped(b, c.installation, s);
    var d :| d in Mapped(b.mappings, c.installation, s).value;
    assert d in MappedDependencies(c, b);
  }

  /** For a late change, what the explanation layer says is reached and what the projection
      withdraws are the same claims exactly when both layers narrow the change or neither
      does, or else when it touches every claim anyway. */
  lemma ExplanationAgreesExactlyWhen(c: Change, claims: seq<set<string>>, b: Boundary)
    requires Late(c, b)
    ensures var narrowed := FullyMapped(c, b) && MappedDependencies(c, b) <= b.reviewed;
      (forall i :: 0 <= i < |claims| ==> (Reaches(c, claims[i], b) <==> Harms(c, claims[i], b)))
      <==> ((narrowed <==> Resolved(Touched(c, b), b)) || forall i :: 0 <= i < |claims| ==> TouchesAnyway(c, claims[i], b))
  {
    if FullyMapped(c, b) {
      MappedIsNonEmpty(c, b);
    }
    forall i | 0 <= i < |claims|
      ensures Harms(c, claims[i], b) <==> !Resolved(Touched(c, b), b) || TouchesAnyway(c, claims[i], b)
    {
    }
  }

  /** A late, fully mapped change over a reviewed dependency that the state did not capture: the
      explanation layer reaches only the claims that depend on it, the projection withdraws all. */
  lemma ExplanationCanDiffer()
    ensures exists c: Change, dependencies: set<string>, b: Boundary ::
      Late(c, b) && FullyMapped(c, b) && !Reaches(c, dependencies, b) && Harms(c, dependencies, b)
  {
    var c := Change(0, 6, 6, {"gateway"}, ORDINARY, false, 0, Explanation(false, false, {"limit"}));
    var b := Boundary(0, 0, map[], {"tool:a", "tool:b"}, false, [Mapping(0, "limit", {"tool:a"})], []);
    assert SubjectMapped(b, 0, "limit");
    MappedIsNonEmpty(c, b);
    var dependencies := {"tool:b"};
    assert MappedDependencies(c, b) == {"tool:a"};
    assert !Reaches(c, dependencies, b);
  }

  /** In particular they agree for a fully mapped change over reviewed, captured dependencies. */
  lemma MappedChangeAgrees(c: Change, dependencies: set<string>, b: Boundary)
    requires Late(c, b) && FullyMapped(c, b)
    requires MappedDependencies(c, b) <= b.reviewed && MappedDependencies(c, b) <= b.captured.Keys
    ensures Reaches(c, dependencies, b) <==> Harms(c, dependencies, b)
  {
    MappedIsNonEmpty(c, b);
  }
}
