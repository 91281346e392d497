/** Durable per-trial evidence of one run, and the verdict computed from it.

    Models `captures.py` and the coverage and verdict part of `execution.py`. The
    trace evaluator and the attestation check are arbitrary functions; the content
    digest and the trial correlation are injective, so an observation stands for its
    digest and a correlation for the (run, slot) pair it was derived from. */
module Captures {
  import opened Common

  const MAX_CAPTURE_BYTES := 2 * 1024 * 1024
  const MAX_RUN_CAPTURE_BYTES := 16 * 1024 * 1024

  datatype Verdict = PASS | FAIL | INCONCLUSIVE
  datatype Task = SUCCESS | FAILURE | UNKNOWN
  datatype Evaluation = Evaluation(verdict: Verdict, task: Task)

  /** `explicit-n`, the single recorded sample, any other text, or a non-text value. */
  datatype Variant = Explicit(number: int) | Recorded | OtherText(text: string) | NotText
  datatype Slot = Slot(variant: Variant, index: int)
  datatype Correlation = Correlation(run: nat, slot: Slot)
  datatype Observation = Observation(correlation: Correlation, bytes: nat, body: nat)

  /** What a worker submits; an index that is not an integer is `None`. */
  datatype Item = Item(variant: Variant, index: Option<int>, observation: Observation)

  /** The frozen plan of a run, as far as evidence is concerned. */
  datatype Plan = Plan(trials: nat, variants: nat, recorded: bool, bound: bool, approved: bool, exactCandidate: bool)

  datatype Capture = Capture(slot: Slot, observation: Observation, evaluatedAt: int, evaluation: Evaluation)

  type Evaluator = (Observation, int) -> Evaluation
  type Attestor = Observation -> bool

  // ---- Admission of one observation ------------------------------------------

  predicate AssignedSlot(plan: Plan, slot: Slot) {
    slot.variant.Explicit? && 0 <= slot.variant.number < plan.variants && 0 <= slot.index < plan.trials
  }

  function CapturedBytes(captures: seq<Capture>): nat {
    if captures == [] then 0
    else CapturedBytes(captures[..|captures| - 1]) + captures[|captures| - 1].observation.bytes
  }

  /** The log weighs what its observations weigh together, in any grouping. */
  lemma {:induction false} BytesAddUp(one: seq<Capture>, other: seq<Capture>)
    ensures CapturedBytes(one + other) == CapturedBytes(one) + CapturedBytes(other)
    ensures |other| == 1 ==> CapturedBytes(other) == other[0].observation.bytes
    decreases |other|
  {
    if other == [] {
      assert one + other == one;
    } else {
      BytesAddUp(one, other[..|other| - 1]);
      assert (one + other)[..|one + other| - 1] == one + other[..|other| - 1];
    }
  }

  predicate HasCapacity(captures: seq<Capture>) {
    CapturedBytes(captures) + MAX_CAPTURE_BYTES <= MAX_RUN_CAPTURE_BYTES
  }

  /** The capture already holding a slot, if there is one. */
  function Holding(captures: seq<Capture>, slot: Slot): Option<Capture> {
    if captures == [] then None
    else if captures[0].slot == slot then Some(captures[0])
    else Holding(captures[1..], slot)
  }

  /** `persist_capture`: the log after the request and the capture it answers with. */
  function Persist(plan: Plan, run: nat, captures: seq<Capture>, item: Item, now: int, evaluate: Evaluator)
    : Outcome<(seq<Capture>, Capture)>
  {
    if item.index.None? then Rejected(422)
    else
      var slot := Slot(item.variant, item.index.value);
      if !AssignedSlot(plan, slot) || item.observation.correlation != Correlation(run, slot) then Rejected(422)
      else
        var held := Holding(captures, slot);
        if held.Some? then
          if held.value.observation != item.observation then Rejected(409) else Ok((captures, held.value))
        else if item.observation.bytes > MAX_CAPTURE_BYTES || !HasCapacity(captures) then Rejected(413)
        else
          var capture := Capture(slot, item.observation, now, evaluate(item.observation, now));
          Ok((captures + [capture], capture))
  }

  lemma {:induction false} HoldingFinds(captures: seq<Capture>, slot: Slot)
    ensures Holding(captures, slot).None? <==> forall c :: c in captures ==> c.slot != slot
    ensures Holding(captures, slot).Some? ==>
      Holding(captures, slot).value in captures && Holding(captures, slot).value.slot == slot
  {
    if captures != [] {
      HoldingFinds(captures[1..], slot);
      assert captures == [captures[0]] + captures[1..];
    }
  }

  /** What every evidence log of a run satisfies, however it was filled. */
  ghost predicate Sound(plan: Plan, run: nat, captures: seq<Capture>) {
    && (forall i :: 0 <= i < |captures| ==>
          AssignedSlot(plan, captures[i].slot) && captures[i].observation.correlation == Correlation(run, captures[i].slot))
    && (forall i, j :: 0 <= i < j < |captures| ==> captures[i].slot != captures[j].slot)
    && CapturedBytes(captures) <= MAX_RUN_CAPTURE_BYTES
  }

  /** What appending one capture of a free, assigned slot within the cap leaves sound. */
  lemma AppendKeepsSound(plan: Plan, run: nat, captures: seq<Capture>, capture: Capture)
    requires Sound(plan, run, captures) && AssignedSlot(plan, capture.slot)
    requires capture.observation.correlation == Correlation(run, capture.slot)
    requires forall c :: c in captures ==> c.slot != capture.slot
    requires CapturedBytes(captures) + capture.observation.bytes <= MAX_RUN_CAPTURE_BYTES
    ensures Sound(plan, run, captures + [capture]) && capture !in captures
  {
    hide AssignedSlot;
    assert (captures + [capture])[..|captures|] == captures;
  }

  /** Admission keeps the log sound and append-only, and never replaces evidence. */
  lemma PersistKeepsSound(plan: Plan, run: nat, captures: seq<Capture>, item: Item, now: int, evaluate: Evaluator)
    requires Sound(plan, run, captures)
    ensures var r := Persist(plan, run, captures, item, now, evaluate);
      r.Ok? ==>
        && Sound(plan, run, r.value.0)
        && captures <= r.value.0
        && r.value.1 in r.value.0
        && r.value.1.slot == Slot(item.variant, item.index.value)
        && r.value.1.observation == item.observation
        && (r.value.0 == captures || (r.value.0 == captures + [r.value.1] && r.value.1 !in captures))
        && (EvaluatedBy(captures, evaluate) ==> EvaluatedBy(r.value.0, evaluate))
  {
    if item.index.Some? {
      var slot := Slot(item.variant, item.index.value);
      HoldingFinds(captures, slot);
      var r := Persist(plan, run, captures, item, now, evaluate);
      hide Sound, AssignedSlot, Holding;
      if r.Ok? && Holding(captures, slot).None? {
        AppendKeepsSound(plan, run, captures, r.value.1);
      }
    }
  }

  /** When a submitted observation is admitted, and the refusal otherwise: 422 unless it is a trial of
      this run in a slot of its plan, 409 if the slot holds another observation, 413 if the log has no
      room. A first observation is recorded with the time and the verdict of its admission. */
  lemma PersistExactlyWhen(plan: Plan, run: nat, captures: seq<Capture>, item: Item, now: int, evaluate: Evaluator)
    requires Sound(plan, run, captures)
    ensures var r := Persist(plan, run, captures, item, now, evaluate);
      var slot := Slot(item.variant, if item.index.Some? then item.index.value else -1);
      var ours := item.variant.Explicit? && 0 <= item.variant.number < plan.variants && 0 <= slot.index < plan.trials
                  && item.observation.correlation.run == run && item.observation.correlation.slot == slot;
      var free := forall c :: c in captures ==> c.slot != slot;
      if !ours then r == Rejected(422)
      else if !free then
        if exists c :: c in captures && c.slot == slot && c.observation == item.observation
        then r.Ok? && r.value.0 == captures && r.value.1 in captures && r.value.1.slot == slot else r == Rejected(409)
      else if item.observation.bytes > 2 * 1024 * 1024 || CapturedBytes(captures) > 14 * 1024 * 1024 then r == Rejected(413)
      else
        var first := Capture(slot, item.observation, now, evaluate(item.observation, now));
        r == Ok((captures + [first], first))
  {
    var slot := Slot(item.variant, if item.index.Some? then item.index.value else -1);
    HoldingFinds(captures, slot);
    if Holding(captures, slot).Some? {
      forall c | c in captures && c.slot == slot ensures c == Holding(captures, slot).value {
        SlotsAreUnique(plan, run, captures, c, Holding(captures, slot).value);
      }
    }
    hide Sound, Holding, CapturedBytes;
  }

  lemma SlotsAreUnique(plan: Plan, run: nat, captures: seq<Capture>, c: Capture, other: Capture)
    requires Sound(plan, run, captures) && c in captures && other in captures && c.slot == other.slot
    ensures c == other
  {
    var i :| 0 <= i < |captures| && captures[i] == c;
    var j :| 0 <= j < |captures| && captures[j] == other;
  }

  /** Sending the same observation again, at any later time, changes nothing and answers with
      the record made the first time; different evidence for the slot is refused. */
  lemma PersistAgain(plan: Plan, run: nat, captures: seq<Capture>, item: Item, again: Item, t1: int, t2: int,
                     evaluate: Evaluator)
    requires Sound(plan, run, captures)
    requires Persist(plan, run, captures, item, t1, evaluate).Ok?
    requires again.variant == item.variant && again.index == item.index
    requires again.observation.correlation == item.observation.correlation
    ensures var first := Persist(plan, run, captures, item, t1, evaluate);
      Persist(plan, run, first.value.0, again, t2, evaluate)
        == if again.observation == item.observation then first else Rejected(409)
  {
    var slot := Slot(item.variant, item.index.value);
    var first := Persist(plan, run, captures, item, t1, evaluate).value;
    PersistKeepsSound(plan, run, captures, item, t1, evaluate);
    HoldingFinds(captures, slot);
    HoldingFinds(first.0, slot);
    var held := Holding(first.0, slot).value;
    var i :| 0 <= i < |first.0| && first.0[i] == held;
    var j :| 0 <= j < |first.0| && first.0[j] == first.1;
  }

  // ---- Verdict ------------------------------------------------------------------

  function AssignedSlots(plan: Plan): set<Slot> {
    if plan.recorded then {Slot(Recorded, 0)}
    else set v, i | 0 <= v < plan.variants && 0 <= i < plan.trials :: Slot(Explicit(v), i)
  }

  datatype Trial = Trial(slot: Slot, evaluation: Evaluation)

  datatype Acquisition = Acquisition(
    verdict: Verdict, task: Task, coverageComplete: bool, attested: bool, candidateObserved: bool, trials: seq<Trial>)

  predicate WellTyped(item: Item) { item.index.Some? && item.variant != NotText }

  /** A non-integer index can occupy no slot; any fixed stand-in will do, coverage has failed already. */
  function SlotOf(item: Item): Slot {
    Slot(item.variant, if item.index.Some? then item.index.value else -1)
  }

  function VerdictOf(evaluations: seq<Evaluation>, coverage: bool): (v: Verdict)
    ensures v == FAIL <==> exists e :: e in evaluations && e.verdict == FAIL
    ensures v == PASS <==> coverage && evaluations != [] && forall e :: e in evaluations ==> e.verdict == PASS
  {
    if exists e :: e in evaluations && e.verdict == FAIL then FAIL
    else if !coverage || evaluations == [] || exists e :: e in evaluations && e.verdict == INCONCLUSIVE then INCONCLUSIVE
    else PASS
  }

  function TaskOf(evaluations: seq<Evaluation>): (t: Task)
    ensures t == FAILURE <==> exists e :: e in evaluations && e.task == FAILURE
    ensures t == SUCCESS <==> evaluations != [] && forall e :: e in evaluations ==> e.task == SUCCESS
  {
    if exists e :: e in evaluations && e.task == FAILURE then FAILURE
    else if evaluations == [] || exists e :: e in evaluations && e.task == UNKNOWN then UNKNOWN
    else SUCCESS
  }

  function Slots(items: seq<Item>): (r: seq<Slot>)
    ensures |r| == |items| && forall i :: 0 <= i < |r| ==> r[i] == SlotOf(items[i])
  {
    seq(|items|, i requires 0 <= i < |items| => SlotOf(items[i]))
  }

  function Correlations(items: seq<Item>): (r: seq<Correlation>)
    ensures |r| == |items| && forall i :: 0 <= i < |r| ==> r[i] == items[i].observation.correlation
  {
    seq(|items|, i requires 0 <= i < |items| => items[i].observation.correlation)
  }

  function Evaluations(items: seq<Item>, evaluate: Item -> Evaluation): (r: seq<Evaluation>)
    ensures |r| == |items| && forall i :: 0 <= i < |r| ==> r[i] == evaluate(items[i])
  {
    seq(|items|, i requires 0 <= i < |items| => evaluate(items[i]))
  }

  function Trials(items: seq<Item>, evaluate: Item -> Evaluation): (r: seq<Trial>)
    ensures |r| == |items| && forall i :: 0 <= i < |r| ==> r[i] == Trial(SlotOf(items[i]), evaluate(items[i]))
  {
    seq(|items|, i requires 0 <= i < |items| => Trial(SlotOf(items[i]), evaluate(items[i])))
  }

  /** The slot part of coverage, as the code computes it: a count and a set comparison. */
  predicate SlotsCovered(plan: Plan, items: seq<Item>) {
    && (forall i :: 0 <= i < |items| ==> WellTyped(items[i]))
    && |items| == |AssignedSlots(plan)|
    && Elements(Slots(items)) == AssignedSlots(plan)
    && (plan.recorded ==> plan.trials == 1 && plan.variants == 1)
  }

  predicate CorrelationsUnique(items: seq<Item>) { |Elements(Correlations(items))| == |items| }

  predicate Covered(plan: Plan, items: seq<Item>) { SlotsCovered(plan, items) && CorrelationsUnique(items) }

  predicate Attested(plan: Plan, items: seq<Item>, attest: Attestor) {
    && plan.bound && items != [] && Covered(plan, items)
    && forall i :: 0 <= i < |items| ==> attest(items[i].observation)
  }

  /** `evaluate_acquisition` as a function of its inputs. */
  function Evaluate(plan: Plan, items: seq<Item>, evaluate: Item -> Evaluation, attest: Attestor): Acquisition {
    var evaluations := Evaluations(items, evaluate);
    var coverage := Covered(plan, items);
    var attested := Attested(plan, items, attest);
    Acquisition(VerdictOf(evaluations, coverage), TaskOf(evaluations), coverage, attested,
                plan.approved && attested && coverage && plan.exactCandidate, Trials(items, evaluate))
  }

  lemma CorrelationsGrow(items: seq<Item>, k: nat)
    requires k < |items|
    ensures Elements(Correlations(items[..k + 1])) ==
            Elements(Correlations(items[..k])) + {items[k].observation.correlation}
  {
    assert Correlations(items[..k + 1]) == Correlations(items[..k]) + [items[k].observation.correlation];
  }

  /** The loop of `evaluate_acquisition`, which folds attestation and results item by item. */
  method EvaluateItems(items: seq<Item>, evaluate: Item -> Evaluation, attest: Attestor)
    returns (results: seq<Evaluation>, trials: seq<Trial>, correlations: set<Correlation>, attested: bool)
    ensures results == Evaluations(items, evaluate) && trials == Trials(items, evaluate)
    ensures correlations == Elements(Correlations(items))
    ensures attested <==> forall i :: 0 <= i < |items| ==> attest(items[i].observation)
  {
    results, trials, correlations, attested := [], [], {}, true;
    for k := 0 to |items|
      invariant |results| == |trials| == k
      invariant forall i :: 0 <= i < k ==> results[i] == evaluate(items[i])
      invariant forall i :: 0 <= i < k ==> trials[i] == Trial(SlotOf(items[i]), evaluate(items[i]))
      invariant correlations == Elements(Correlations(items[..k]))
      invariant attested <==> forall i :: 0 <= i < k ==> attest(items[i].observation)
    {
      CorrelationsGrow(items, k);
      attested := attested && attest(items[k].observation);
      results := results + [evaluate(items[k])];
      trials := trials + [Trial(SlotOf(items[k]), evaluate(items[k]))];
      correlations := correlations + {items[k].observation.correlation};
    }
    assert items[..|items|] == items;
  }

  method EvaluateAcquisition(plan: Plan, items: seq<Item>, evaluate: Item -> Evaluation, attest: Attestor)
    returns (r: Acquisition)
    ensures r == Evaluate(plan, items, evaluate, attest)
  {
    var coverage := SlotsCovered(plan, items);
    var results, trials, correlations, attested := EvaluateItems(items, evaluate, attest);
    if |correlations| != |items| {
      coverage := false;
    }
    attested := attested && plan.bound && items != [] && coverage;
    r := Acquisition(VerdictOf(results, coverage), TaskOf(results), coverage, attested,
                     plan.approved && attested && coverage && plan.exactCandidate, trials);
  }

  /** Count and set equality together mean: each assigned slot occurs at exactly one position. */
  lemma CoveredMeansExactlyOnce(plan: Plan, items: seq<Item>)
    requires SlotsCovered(plan, items)
    ensures forall slot :: slot in AssignedSlots(plan) <==> slot in Slots(items)
    ensures forall i, j :: 0 <= i < j < |items| ==> SlotOf(items[i]) != SlotOf(items[j])
  {
    DistinctCount(Slots(items));
    assert forall slot :: slot in Elements(Slots(items)) <==> slot in Slots(items);
    forall i, j | 0 <= i < j < |items| ensures SlotOf(items[i]) != SlotOf(items[j]) {
      assert Slots(items)[i] != Slots(items)[j];
    }
  }

  /** This item answers this slot. */
  predicate Answers(item: Item, slot: Slot) {
    item.index.Some? && item.variant == slot.variant && item.index.value == slot.index
  }

  /** The slots a plan asks for: one recorded sample, or each trial of each variant. */
  predicate Asked(plan: Plan, slot: Slot) {
    if plan.recorded then slot == Slot(Recorded, 0)
    else
      slot.variant.Explicit? && 0 <= slot.variant.number < plan.variants && 0 <= slot.index < plan.trials
  }

  lemma AskedIsAssigned(plan: Plan, slot: Slot)
    ensures slot in AssignedSlots(plan) <==> Asked(plan, slot)
  {
    if !plan.recorded && slot.variant.Explicit? {
      assert slot == Slot(Explicit(slot.variant.number), slot.index);
    }
  }

  /** Every item answers a slot that was asked for, and every such slot is answered exactly once. */
  ghost predicate AnswersEachOnce(plan: Plan, items: seq<Item>) {
    && (forall i :: 0 <= i < |items| ==>
          items[i].index.Some? && Asked(plan, Slot(items[i].variant, items[i].index.value)))
    && (forall slot :: Asked(plan, slot) ==> exists i :: 0 <= i < |items| && Answers(items[i], slot))
    && (forall slot, i, j :: 0 <= i < j < |items| && Answers(items[i], slot) ==> !Answers(items[j], slot))
  }

  /** The code's count and set comparison say exactly that. */
  lemma CoverageExactlyWhen(plan: Plan, items: seq<Item>)
    ensures SlotsCovered(plan, items) <==>
      AnswersEachOnce(plan, items) && (plan.recorded ==> plan.trials == 1 && plan.variants == 1)
  {
    forall slot ensures slot in AssignedSlots(plan) <==> Asked(plan, slot) {
      AskedIsAssigned(plan, slot);
    }
    hide AssignedSlots, Asked;
    if SlotsCovered(plan, items) {
      CoverageIsOnce(plan, items);
    }
    if AnswersEachOnce(plan, items) {
      OnceIsCoverage(plan, items);
    }
  }

  lemma CoverageIsOnce(plan: Plan, items: seq<Item>)
    requires SlotsCovered(plan, items) && forall slot :: slot in AssignedSlots(plan) <==> Asked(plan, slot)
    ensures AnswersEachOnce(plan, items)
  {
    CoveredMeansExactlyOnce(plan, items);
    hide AssignedSlots, Asked;
    forall i | 0 <= i < |items| ensures items[i].index.Some? && Asked(plan, Slot(items[i].variant, items[i].index.value)) {
      assert WellTyped(items[i]) && Slots(items)[i] in Slots(items);
    }
    forall slot | Asked(plan, slot) ensures exists i :: 0 <= i < |items| && Answers(items[i], slot) {
      var i :| 0 <= i < |items| && Slots(items)[i] == slot;
      assert Answers(items[i], slot);
    }
  }

  lemma OnceIsCoverage(plan: Plan, items: seq<Item>)
    requires AnswersEachOnce(plan, items) && forall slot :: slot in AssignedSlots(plan) <==> Asked(plan, slot)
    ensures (forall i :: 0 <= i < |items| ==> WellTyped(items[i]))
    ensures |items| == |AssignedSlots(plan)| && Elements(Slots(items)) == AssignedSlots(plan)
  {
    forall i | 0 <= i < |items| ensures WellTyped(items[i]) && Slots(items)[i] in AssignedSlots(plan) {
      assert SlotOf(items[i]) == Slot(items[i].variant, items[i].index.value);
    }
    hide AssignedSlots;
    forall slot | slot in AssignedSlots(plan) ensures slot in Slots(items) {
      var i :| 0 <= i < |items| && Answers(items[i], slot);
      assert Slots(items)[i] == slot;
    }
    assert Elements(Slots(items)) == AssignedSlots(plan);
    forall i, j | 0 <= i < j < |items| ensures Slots(items)[i] != Slots(items)[j] {
      assert Answers(items[i], SlotOf(items[i]));
    }
    DistinctCount(Slots(items));
  }

  /** No two items carry the same trial correlation. */
  predicate CorrelationsDiffer(items: seq<Item>) {
    forall i, j :: 0 <= i < j < |items| ==> items[i].observation.correlation != items[j].observation.correlation
  }

  lemma CorrelationsDifferExactlyWhen(items: seq<Item>)
    ensures CorrelationsUnique(items) <==> CorrelationsDiffer(items)
  {
    DistinctCount(Correlations(items));
    if CorrelationsDiffer(items) {
      assert forall i, j :: 0 <= i < j < |items| ==> Correlations(items)[i] != Correlations(items)[j];
    }
    if CorrelationsUnique(items) {
      forall i, j | 0 <= i < j < |items| ensures items[i].observation.correlation != items[j].observation.correlation {
        assert Correlations(items)[i] != Correlations(items)[j];
      }
    }
  }

  lemma EvaluationsAre(items: seq<Item>, evaluate: Item -> Evaluation)
    ensures forall e :: e in Evaluations(items, evaluate) <==> exists i :: 0 <= i < |items| && evaluate(items[i]) == e
  {
    forall i | 0 <= i < |items| ensures evaluate(items[i]) in Evaluations(items, evaluate) {
      assert Evaluations(items, evaluate)[i] == evaluate(items[i]);
    }
  }

  /** The verdict and the task outcome over the items themselves. */
  lemma OutcomeExactlyWhen(plan: Plan, items: seq<Item>, evaluate: Item -> Evaluation, attest: Attestor)
    ensures var r := Evaluate(plan, items, evaluate, attest);
      && (r.verdict == FAIL <==> exists i :: 0 <= i < |items| && evaluate(items[i]).verdict == FAIL)
      && (r.verdict == PASS <==>
            r.coverageComplete && items != [] && forall i :: 0 <= i < |items| ==> evaluate(items[i]).verdict == PASS)
      && (r.task == FAILURE <==> exists i :: 0 <= i < |items| && evaluate(items[i]).task == FAILURE)
      && (r.task == SUCCESS <==> items != [] && forall i :: 0 <= i < |items| ==> evaluate(items[i]).task == SUCCESS)
      && |r.trials| == |items| && forall i :: 0 <= i < |items| ==> r.trials[i].evaluation == evaluate(items[i])
  {
    EvaluationsAre(items, evaluate);
    hide Covered, Attested;
  }

  /** What an acquisition says about its coverage, its attestation and the candidate: the candidate
      was observed exactly when its exact configuration was, through an approved observer, by one
      attested trial of its own for each slot and nothing else. */
  lemma ObservedExactlyWhen(plan: Plan, items: seq<Item>, evaluate: Item -> Evaluation, attest: Attestor)
    ensures var r := Evaluate(plan, items, evaluate, attest);
      var complete := AnswersEachOnce(plan, items) && CorrelationsDiffer(items)
                      && (plan.recorded ==> plan.trials == 1 && plan.variants == 1);
      var attested := complete && items != [] && plan.bound
                      && forall i :: 0 <= i < |items| ==> attest(items[i].observation);
      && (r.coverageComplete <==> complete)
      && (r.attested <==> attested)
      && (r.candidateObserved <==> attested && plan.approved && plan.exactCandidate)
  {
    CoverageExactlyWhen(plan, items);
    CorrelationsDifferExactlyWhen(items);
    hide AnswersEachOnce, CorrelationsDiffer, SlotsCovered, CorrelationsUnique;
  }

  // ---- The durable path: a record count is enough ---------------------------------

  lemma {:induction false} AssignedSlotCount(plan: Plan)
    requires !plan.recorded
    ensures |AssignedSlots(plan)| == plan.trials * plan.variants
    decreases plan.variants
  {
    if plan.variants == 0 {
      assert AssignedSlots(plan) == {};
    } else {
      var smaller := plan.(variants := plan.variants - 1);
      AssignedSlotCount(smaller);
      LastRow(plan);
      RowCount(plan.variants - 1, plan.trials);
      AddOne(plan.trials, smaller.variants);
    }
  }

  lemma AddOne(x: int, y: int)
    ensures x * (y + 1) == x * y + x
  {
  }

  lemma LastRow(plan: Plan)
    requires !plan.recorded && plan.variants > 0
    ensures var smaller := plan.(variants := plan.variants - 1); var row := Row(plan.variants - 1, plan.trials);
      AssignedSlots(plan) == AssignedSlots(smaller) + row && AssignedSlots(smaller) !! row
  {
    var smaller := plan.(variants := plan.variants - 1);
    var row := Row(plan.variants - 1, plan.trials);
    assert forall s :: s in AssignedSlots(plan) ==> s in AssignedSlots(smaller) || s in row;
  }

  function Row(variant: int, trials: nat): set<Slot> {
    set v, i | v in {variant} && 0 <= i < trials :: Slot(Explicit(v), i)
  }

  lemma {:induction false} RowCount(variant: int, trials: nat)
    ensures |Row(variant, trials)| == trials
  {
    if trials == 0 {
      assert Row(variant, trials) == {};
    } else {
      RowCount(variant, trials - 1);
      assert Row(variant, trials) == Row(variant, trials - 1) + {Slot(Explicit(variant), trials - 1)};
    }
  }

  function Resubmitted(captures: seq<Capture>): (items: seq<Item>)
    ensures |items| == |captures|
    ensures forall i :: 0 <= i < |items| ==>
      items[i] == Item(captures[i].slot.variant, Some(captures[i].slot.index), captures[i].observation)
  {
    seq(|captures|, i requires 0 <= i < |captures| =>
      Item(captures[i].slot.variant, Some(captures[i].slot.index), captures[i].observation))
  }

  /** The evaluation time `evaluate_persisted` trusts for a slot: the recorded one. */
  function TrustedTime(captures: seq<Capture>, slot: Slot): int {
    var held := Holding(captures, slot);
    if held.Some? then held.value.evaluatedAt else 0
  }

  /** `evaluate_persisted`: refuses unless the record count matches the plan. */
  function EvaluatePersisted(plan: Plan, captures: seq<Capture>, evaluate: Evaluator, attest: Attestor): Outcome<Acquisition> {
    if |captures| != plan.trials * plan.variants then Rejected(422)
    else
      Ok(Evaluate(plan, Resubmitted(captures),
                  (item: Item) => evaluate(item.observation, TrustedTime(captures, SlotOf(item))), attest))
  }

  /** Each stored evaluation was computed by this evaluator at the stored time. */
  ghost predicate EvaluatedBy(captures: seq<Capture>, evaluate: Evaluator) {
    forall i :: 0 <= i < |captures| ==>
      captures[i].evaluation == evaluate(captures[i].observation, captures[i].evaluatedAt)
  }

  /** Pigeonhole: a sound log with the planned number of records fills every slot exactly once. */
  lemma FullLogCoversEverySlot(plan: Plan, run: nat, captures: seq<Capture>)
    requires Sound(plan, run, captures) && !plan.recorded
    requires |captures| == plan.trials * plan.variants
    ensures Covered(plan, Resubmitted(captures))
  {
    var items := Resubmitted(captures);
    var slots, correlations := Slots(items), Correlations(items);
    assert forall i :: 0 <= i < |items| ==> slots[i] == captures[i].slot && correlations[i] == Correlation(run, slots[i]);
    DistinctCount(slots);
    DistinctCount(correlations);
    assert Elements(slots) <= AssignedSlots(plan) by {
      forall slot | slot in Elements(slots) ensures slot in AssignedSlots(plan) {
        var i :| 0 <= i < |slots| && slots[i] == slot;
        assert AssignedSlot(plan, captures[i].slot);
        assert slot == Slot(Explicit(slot.variant.number), slot.index);
      }
    }
    AssignedSlotCount(plan);
    SubsetOfSameSize(Elements(slots), AssignedSlots(plan));
  }

  /** Re-evaluating durable evidence reproduces the verdicts taken at capture time, and the
      run passes exactly when every planned trial passed. A plan that also carries a
      recorded observation expects the `recorded` slot instead, so it can never pass. */
  lemma PersistedVerdict(plan: Plan, run: nat, captures: seq<Capture>, evaluate: Evaluator, attest: Attestor)
    requires Sound(plan, run, captures) && EvaluatedBy(captures, evaluate)
    requires plan.trials >= 1 && plan.variants >= 1
    ensures var r := EvaluatePersisted(plan, captures, evaluate, attest);
      && (r.Ok? <==> |captures| == plan.trials * plan.variants)
      && (r.Ok? ==>
        && (r.value.coverageComplete <==> !plan.recorded)
        && (r.value.verdict == FAIL <==> exists c :: c in captures && c.evaluation.verdict == FAIL)
        && (r.value.verdict == PASS <==> !plan.recorded && forall c :: c in captures ==> c.evaluation.verdict == PASS)
        && (r.value.task == SUCCESS <==> captures != [] && forall c :: c in captures ==> c.evaluation.task == SUCCESS)
        && (r.value.task == FAILURE <==> exists c :: c in captures && c.evaluation.task == FAILURE))
      && (r.Rejected? ==> r.code == 422)
  {
    if |captures| == plan.trials * plan.variants {
      ReevaluationAgrees(plan, run, captures, evaluate);
      if plan.recorded {
        NoRecordedCapture(plan, run, captures);
      } else {
        FullLogCoversEverySlot(plan, run, captures);
      }
      assert plan.trials * plan.variants > 0;
    }
  }

  /** The evaluations `evaluate_persisted` computes are the stored ones, in order. */
  lemma ReevaluationAgrees(plan: Plan, run: nat, captures: seq<Capture>, evaluate: Evaluator)
    requires Sound(plan, run, captures) && EvaluatedBy(captures, evaluate)
    ensures var evaluations :=
        Evaluations(Resubmitted(captures), (item: Item) => evaluate(item.observation, TrustedTime(captures, SlotOf(item))));
      && (forall i :: 0 <= i < |captures| ==> evaluations[i] == captures[i].evaluation)
      && (forall c :: c in captures ==> c.evaluation in evaluations)
      && (forall e :: e in evaluations ==> exists c :: c in captures && c.evaluation == e)
  {
    var items := Resubmitted(captures);
    var evaluations := Evaluations(items, (item: Item) => evaluate(item.observation, TrustedTime(captures, SlotOf(item))));
    forall i | 0 <= i < |captures| ensures evaluations[i] == captures[i].evaluation {
      assert SlotOf(items[i]) == captures[i].slot;
      TrustedTimeIsRecorded(plan, run, captures, i);
    }
    forall c | c in captures ensures c.evaluation in evaluations {
      var i :| 0 <= i < |captures| && captures[i] == c;
      assert evaluations[i] == c.evaluation;
    }
    forall e | e in evaluations ensures exists c :: c in captures && c.evaluation == e {
      var i :| 0 <= i < |evaluations| && evaluations[i] == e;
      assert captures[i] in captures;
    }
  }

  lemma TrustedTimeIsRecorded(plan: Plan, run: nat, captures: seq<Capture>, i: nat)
    requires Sound(plan, run, captures) && i < |captures|
    ensures TrustedTime(captures, captures[i].slot) == captures[i].evaluatedAt
  {
    HoldingFinds(captures, captures[i].slot);
    assert captures[i] in captures;
    var j :| 0 <= j < |captures| && captures[j] == Holding(captures, captures[i].slot).value;
  }

  lemma NoRecordedCapture(plan: Plan, run: nat, captures: seq<Capture>)
    requires Sound(plan, run, captures) && plan.recorded
    ensures !SlotsCovered(plan, Resubmitted(captures))
  {
    var slots := Slots(Resubmitted(captures));
    forall i | 0 <= i < |slots| ensures slots[i] != Slot(Recorded, 0) {
      assert slots[i] == captures[i].slot;
    }
    assert Slot(Recorded, 0) !in Elements(slots);
  }
}
