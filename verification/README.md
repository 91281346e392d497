# ThreatVeil: a verified model of its stateful core

ThreatVeil decides whether security evidence still applies after a system changes. This project
models the parts of it that carry state across requests, processes and crashes, and proves what
holds over every run of them. `dafny verify dfyconfig.toml` checks all of it.

The files follow the program's parts.

* **Execution.** `captures.dfy` (the durable trial log and its evaluation), `runs.dfy` (one run:
  each database transaction on it), `run_answers.dfy` (when each is accepted and what it leaves),
  `admission.dfy` (creation), `protocol.dfy` (the account, all runs and the settlement calls that
  committed transactions have issued), `execution_safety.dfy`, `lease_times.dfy` and
  `verdict_provenance.dfy` (what holds over every interleaving), `honest_run.dfy` (one that
  succeeds). `sweep.dfy` is the reconciliation loop; `run_rows.dfy` and `control_plane.dfy` are the
  same transactions as methods that update rows in place, each proved to do what the specification
  function says. An issued settlement call may run at any later time, repeatedly or never, so a
  crash between two transactions is just an interleaving.
* **Evidence and clearance.** `projection.dfy` (which claims are supported, loop by loop),
  `clearance.dfy` (the append-only history, decisions, the Gate, enforcement),
  `clearance_safety.dfy` (what a cleared Gate means, end to end), `clearance_answers.dfy` (every
  answer of the endpoints, exactly), `cycles.dfy` and `maintained.dfy` (the clearance lifecycle
  folded from the history and read back later).
* **Subscriptions.** `calendar.dfy`, `subscription.dfy` and `contracts.dfy` (expiry applied only
  when somebody looks), `contract_answers.dfy` (what each request answers), `provisioning.dfy`
  (every run of a new organization), `plan_effects.dfy` (what a command means later), `billing.dfy`
  (the rows, in place), `allowance.dfy` (the link to the execution account), `families.dfy`
  (property families and their cap).
* **Erasure and export.** `erasure.dfy`, `erasure_safety.dfy`, `erasure_command.dfy` (a database
  and a disk that may stop anywhere), `paging.dfy` and `memory_export.dfy` (cursors over a table
  that may change between pages).

Conventions. One database transaction is one step. A refused request is rolled back whole. A digest
is represented by what it digests and a signature by the key that made it. Times are integers that
do not go back. What another part of the service decides (target authorization, plan assessment,
change explanation, evaluators, provider state) is an input, constrained in no way, and in
`clearance_safety.dfy` it may answer differently at every step. So are the size of an erasure
report apart from its two listings and whether it is closed on a whole second.

## What the proofs found

* A timeout decided on an **unclaimed** run does not end it: the launcher can dispatch it again, and
  a worker can complete it before the timeout settles (`TimeoutFinalExactlyWhenClaimed`). A recorded
  completion therefore decides the run exactly when no earlier timeout is still in flight
  (`CompletionDecidesExactlyWhen`).
* An active run whose plan carries a recorded observation can never reach PASS (`PersistedVerdict`).
* Whether a claim is supported does not depend on the order of source changes, but the reported
  applicability does: the oldest harmful change decides (`LastHarmDecides`,
  `OrderChangesApplicability`). It is free of the order exactly when all harmful changes do the same
  harm (`OrderFreeExactlyWhen`).
* The explanation layer and the projection can name different claims for a late change
  (`ExplanationCanDiffer`), and agree exactly under the condition of `ExplanationAgreesExactlyWhen`.
* A charge settled after a period ended but before anyone reads the subscription is wiped with the
  old period, while the same charge after a reading counts (`ChargeAgreesExactlyWhen`,
  `ChargesGetLost`).
* A reading can be seen by an order that names an expected revision: it reconciles, and so may
  spend the revision the customer was going to name (`ReadingCanBeSeen`). All else is unaffected,
  exactly (`ReadingsAreInvisible`).
* `north_star` says its current week also applies present clearance expiry. It does not: the extra
  condition never changes the answer (`ExpiryIsNeverHonoured`).
* A crash between creating the erasure key file and filling it blocks every later erasure until an
  operator removes the file (`CrashTearsTheKey`, `TornKeyBlocksErasure`).
* An erasure report may be small enough to prepare and, with its closing entry, too large to write.
  The organization is then gone and its request refused for ever (`ClosingCanFail`, `StuckForEver`);
  whether that happens can be computed beforehand (`FirstRunFinishes`).
* A record dated before the export cursor but committed after its page was read is missed, and an
  edge that names it is exported anyway (`LateRecordIsMissed`). An exported edge has both its ends
  in the export exactly when each was committed by the time the page covering its key was read
  (`EdgeIsClosedExactlyWhen`).
* The Gate can say "cleared" while the customer's view says otherwise, exactly when the latest
  decision was made for an older state (`ViewAgreesWithGate`, `GateAndViewCanDiffer`).

## Model

| member | source | states |
|---|---|---|
| Captures.PersistKeepsSound | src/threatveil/captures.py:75-97 | a sound log stays sound: assigned slots only, no slot twice, at most 16 MiB in all |
| Captures.BytesAddUp | src/threatveil/captures.py:90-93 | the size of the log is the sum of its observations |
| Captures.PersistAgain | src/threatveil/captures.py:88-97 | repeating a capture appends nothing; another body for the same slot is refused |
| Captures.PersistExactlyWhen | src/threatveil/captures.py:64-97 | when an observation is admitted, what is recorded of it, and which refusal it meets otherwise |
| Captures.EvaluateItems | src/threatveil/execution.py:60-74 | the accumulating loop: one result and one trial per item in order, the distinct correlations, all attested |
| Captures.EvaluateAcquisition | src/threatveil/execution.py:16-178 | the method computes the acquisition specified by `Evaluate` |
| Captures.OutcomeExactlyWhen | src/threatveil/execution.py:75-90 | over the items themselves: FAIL and FAILURE iff some item says so; PASS iff coverage is complete and all passed; SUCCESS iff all succeeded |
| Captures.ObservedExactlyWhen | src/threatveil/execution.py:39-102 | the candidate was observed iff the plan is bound, approved and names the exact candidate, there are items, each asked slot is answered by exactly one item and no other slot, correlations differ, and every item attests; coverage and attestation likewise |
| Captures.VerdictOf | src/threatveil/execution.py:75-83 | FAIL iff some trial failed; PASS iff coverage is complete, there is a trial and all passed |
| Captures.TaskOf | src/threatveil/execution.py:84-90 | FAILURE iff some task failed; SUCCESS iff there is a trial and all tasks succeeded |
| Captures.CoveredMeansExactlyOnce | src/threatveil/execution.py:39-57 | the count and the set comparison mean each assigned slot at exactly one position |
| Captures.FullLogCoversEverySlot | src/threatveil/captures.py:58-61 | by pigeonhole: a sound log with one record per slot captured every slot exactly once |
| Captures.PersistedVerdict | src/threatveil/captures.py:40-68 | a full durable log always has complete coverage, and PASS exactly when no observation is recorded in the plan and every capture passed |
| Captures.ReevaluationAgrees | src/threatveil/captures.py:40-68 | evaluating the log again gives the verdicts that were stored at capture time |
| Captures.TrustedTimeIsRecorded | src/threatveil/captures.py:26-37 | a trial's time is the one the control plane stored, never the worker's |
| Runs.DispatchKeeps | src/threatveil/broker.py:82-117 | preparing a dispatch keeps the run invariant, adds one lease with the next fence and takes nothing back |
| Runs.ClaimKeeps | src/threatveil/broker.py:140-190 | a redeemed or repeated claim is of the newest lease, by this worker, and keeps the invariant |
| Runs.AcceptedMeansClaimant | src/threatveil/broker.py:206-249 | an accepted worker request names the newest lease and its fence, is signed by its claimant, is at most 30 seconds off and finds the run unsettled with no completion |
| Runs.RenewKeeps | src/threatveil/broker.py:265-275 | renewing keeps the invariant and takes nothing back |
| Runs.ObserveKeeps | src/threatveil/broker.py:359-372 | observing keeps the invariant, with the log sound and append-only |
| Runs.CompletionKeeps | src/threatveil/broker.py:297-356 | recording a result consumes the lease and leaves exactly one completion |
| Runs.ReconcileKeeps | src/threatveil/maintenance.py:136-185 | recovery issues the recorded result or a timeout; a timeout leaves every lease revoked |
| Runs.FinishKeeps | src/threatveil/api.py:1093-1240 | settling keeps the invariant and is the last change to the run's evidence and result |
| RunAnswers.DispatchExactlyWhen | src/threatveil/broker.py:82-117 | on every valid run: when a dispatch is taken, and that it leaves one live lease with the next fence and revokes all others |
| RunAnswers.ClaimExactlyWhen | src/threatveil/broker.py:140-190 | a claim is taken iff it redeems the live newest lease in its bootstrap window for its run, or repeats that redemption while it lasts; with its refusals |
| RunAnswers.AcceptedExactlyWhen | src/threatveil/broker.py:206-249 | a worker request is accepted iff it speaks for the live claim within thirty seconds under a fresh nonce and the target is authorized; when it is answered 401, 409 or 403 |
| RunAnswers.RenewExactlyWhen | src/threatveil/broker.py:265-275 | a renewal is taken iff the log has room for one more capture and the claim is at most fifteen minutes old; the lease then ends one lifetime from now |
| RunAnswers.ObserveExactlyWhen | src/threatveil/broker.py:359-372 | an observation is taken for an active run only, on the terms of its log |
| RunAnswers.CompleteExactlyWhen | src/threatveil/broker.py:297-356 | a completion is taken iff nothing is missing; it consumes lease and nonce and records one result, for an active run the sum of its full log |
| RunAnswers.FailExactlyWhen | src/threatveil/broker.py:381-403 | a failure report is recorded as an inconclusive error, and consumes lease and nonce |
| RunAnswers.ReconcileExactlyWhen | src/threatveil/maintenance.py:147-185 | a run without a result times out iff it is twenty minutes old, its worker's lease ran out, or three leases ran out unredeemed; otherwise an unredeemed lease requeues it, and any other run is left as it is |
| RunRows.RunRow.RevokeAll | src/threatveil/broker.py:97-101 | the loop revokes every lease row and changes nothing else |
| RunRows.RunRow.HighestFence | src/threatveil/broker.py:109 | the loop finds the highest fence |
| RunRows.RunRow.PrepareDispatch | src/threatveil/broker.py:82-117 | the transaction in place: the specified rows, or the rows untouched and the refusal's code |
| RunRows.RunRow.Claim | src/threatveil/broker.py:140-190 | the transaction in place: the specified rows and fence, or nothing changed and the refusal's code |
| RunRows.RunRow.Authorize | src/threatveil/broker.py:206-249 | the checks in place, in order, with the specified code and no change |
| RunRows.RunRow.ReadAssignment | src/threatveil/broker.py:252-262 | an accepted reading spends its nonce and changes nothing else |
| RunRows.RunRow.Renew | src/threatveil/broker.py:265-275 | the transaction in place, with the capture cap and the run limit |
| RunRows.RunRow.Observe | src/threatveil/broker.py:359-372 | the transaction in place: log and nonce, or nothing |
| RunRows.RunRow.Complete | src/threatveil/broker.py:297-356 | the recording transaction in place, with the result it hands to settlement |
| RunRows.RunRow.Fail | src/threatveil/broker.py:381-403 | the recording transaction of a worker failure in place |
| RunRows.RunRow.Reconcile | src/threatveil/maintenance.py:136-185 | one route in place: requeue, time out, recover, or leave |
| RunRows.RunRow.Finish | src/threatveil/api.py:1093-1195 | settlement in place; a settled row is left alone |
| ControlPlane.Tables.CreateRun | src/threatveil/api.py:852-986 | creation in place: the repeated key, the refusals, or the reserved run |
| ControlPlane.Tables.FinishRun | src/threatveil/api.py:1187-1195 | the run row and the account row change together as specified |
| ControlPlane.Tables.ReconcileRuns | src/threatveil/maintenance.py:108-186 | the loop over the oldest open routes leaves exactly the tables `SweepRoutes` specifies |
| Protocol.StepKeeps | src/threatveil/broker.py:82-444 | every transaction, in any order, keeps the system valid and takes back nothing settled, revoked, claimed or recorded |
| ExecutionSafety.FencesAndClaims | src/threatveil/broker.py:92-116 | in every reachable system a run's fences are 1..n, at most one lease was ever claimed and only the highest can be unrevoked |
| ExecutionSafety.OneWorkerPerRun | src/threatveil/broker.py:219-240 | any two worker requests ever accepted on a run carry the same key, lease and fence |
| ExecutionSafety.EffectSpends | src/threatveil/broker.py:237-240 | a worker request with any effect was accepted and its nonce is stored |
| ExecutionSafety.NoReplay | src/threatveil/broker.py:236-249 | after it, no request with that lease and nonce is ever accepted again, whatever happens between |
| ExecutionSafety.Ledger | src/threatveil/api.py:936-981 | reserved equals the sum over unsettled runs, every unit charged is accounted for, use never exceeded the allowance under which some run was admitted, and a settled run paid its whole reservation or nothing |
| ExecutionSafety.CreationFits | src/threatveil/commercial.py:335-343 | an accepted creation fits the allowance in force; a repeated key creates and reserves nothing |
| Admission.CreateExactlyWhen | src/threatveil/api.py:852-986 | in every reachable system: a known key answers with the one run it made, or refuses another request; a new one reserves a unit per trial and variant, twice for a synthetic fixture, iff admitted, positive, active and within the allowance |
| ExecutionSafety.UseOnlyFalls | src/threatveil/api.py:1187-1195 | no settlement and no rollover raises consumed plus reserved |
| ExecutionSafety.CapturedFailureBlocks | src/threatveil/api.py:1103-1166 | a FAIL captured at any time makes the settled verdict FAIL and the action BLOCK however the run ends, and nothing changes after settlement |
| ExecutionSafety.CompletionDecidesExactlyWhen | src/threatveil/broker.py:344-356 | a recorded completion is the only possible settlement, through any crash, iff no timeout call is in flight |
| ExecutionSafety.CompletionStandsForever | src/threatveil/maintenance.py:136-146 | such a completion keeps deciding the run over every continuation |
| ExecutionSafety.RecoverySettles | src/threatveil/maintenance.py:136-146 | recovery re-issues the recorded result, and executing it settles the run with it and releases its reservation |
| ExecutionSafety.ClaimedTimeoutIsFinal | src/threatveil/maintenance.py:172-183 | after a timeout of a claimed run no completion is ever recorded and it is charged in full |
| ExecutionSafety.TimeoutFinalExactlyWhenClaimed | src/threatveil/maintenance.py:161-183 | a timeout decision rules out every later completion iff a worker had claimed the run |
| ExecutionSafety.PassSettlesOverdueRuns | src/threatveil/maintenance.py:147-185 | one pass settles every overdue run it reaches unlocked, whatever others do between its transactions |
| ExecutionSafety.RequeueExactlyWhen | src/threatveil/maintenance.py:161-171 | a pass lists a run as retried iff it is queued or dispatched before its deadline with its newest of at most two leases expired unclaimed; it then queues the run, revokes that lease and changes nothing else |
| Sweep.SweepIsPass | src/threatveil/maintenance.py:108-186 | the uninterrupted loop is one of the interleaved passes |
| Sweep.SweepSettlesEverythingOverdue | src/threatveil/maintenance.py:108-186 | with at most a thousand open routes one pass settles every overdue, unlocked run |
| LeaseTimes.WorkEndsInTime | src/threatveil/broker.py:265-275 | no worker request is accepted later than the run limit plus one lease lifetime after the claim, and every claim was inside its bootstrap window |
| LeaseTimes.LiveWorkerKeepsItsRun | src/threatveil/maintenance.py:155-172 | over every interleaving no reconciliation times a run out while a claim, as it stood at any moment, still lasts and the run is under twenty minutes old |
| LeaseTimes.AcceptedTakesEffect | src/threatveil/broker.py:252-275 | in every reachable system an accepted reading spends its nonce and an accepted renewal makes the lease last one lifetime from now |
| VerdictProvenance.PassIsProven | src/threatveil/api.py:1066-1077 | over every interleaving an active run settled as PASS or ALLOW holds exactly one passing capture in every slot of its plan |
| VerdictProvenance.AllowIsEarned | src/threatveil/api.py:1105-1195 | in every reachable system a run settled as ALLOW holds the one completion that says so, reported by a worker that claimed it and charged in full, with no captured trial failed; an active run with an observer had every capture attested under a bound, approved plan with the exact candidate |
| VerdictProvenance.RecoveredAllowExactlyWhen | src/threatveil/maintenance.py:136-146 | a recorded completion that is recovered after a crash ends as ALLOW iff it passed with its task done on an unfailed log, observed and comparable where required, authorized and unblocked at that moment |
| VerdictProvenance.CompletedAllowExactlyWhen | src/threatveil/api.py:1105-1195 | over every continuation, whatever settles a completed run is a call of its recorded result: ALLOW iff that result deserved it at that call, BLOCK iff not and it failed, is adverse, unauthorized or under a BLOCK policy; this can be said before the settlement iff no timeout call is in flight |
| VerdictProvenance.SettledOnItsMerits | src/threatveil/api.py:1093-1195 | every settlement of every interleaving, timeouts and failures included, is ALLOW, BLOCK or WARN exactly as the plan, the log and the answers of the call that made it merit: BLOCK iff not allowed and failed, adverse, unauthorized or under a BLOCK policy |
| HonestRun.HonestRunIsAllowed | src/threatveil/broker.py:82-372 | on any account with room, the ordinary transactions of an attested, passing trial end as ALLOW with its unit charged: the guarantees are not empty |
| Projection.WithdrawSupport | src/threatveil/change_assurance.py:425-465 | the nested loops leave every row in the array as `WithdrawRow` specifies |
| Projection.SupportedExactlyWhen | src/threatveil/change_assurance.py:404-465 | a claim stays supported iff its evidence supported it, every live source is current and every source change is harmless to it |
| Projection.HarmlessExactlyWhen | src/threatveil/change_assurance.py:431-465 | a change leaves a claim alone iff it is reconciled, or comes after the evidence and everything it touches was reviewed and captured and is none of what the claim depends on |
| Projection.ReconciledExactlyWhen | src/threatveil/change_assurance.py:242-265 | a change is reconciled iff it was known and valid at the evidence boundary and is an import into a synthetic fixture, or an ordinary change whose every component the state shows as the newest snapshot known then has it |
| Projection.TouchedExactlyWhen | src/threatveil/source_semantics.py:350-380 | a change touches what the newest mappings of its explained subjects name, if it came after the state and all are mapped; else the components it lists |
| Projection.BaseSupportedExactlyWhen | src/threatveil/change_assurance.py:340-373 | evidence supports a claim iff it is bound to the assessed target, newer than the reviewed boundary, passing with its task done, and nothing about the environment speaks against it |
| Projection.BaseRowExactlyWhen | src/threatveil/change_assurance.py:347-373 | which evidence a row keeps, when it is current, stale, void or unknown, and the outcomes recorded of the claim |
| Projection.OrderDoesNotMatter | src/threatveil/change_assurance.py:431-465 | support and the changes listed against a claim do not depend on the order of events |
| Projection.LastHarmDecides | src/threatveil/change_assurance.py:441-457 | the reported applicability is that of the last harmful change visited |
| Projection.LastSourceDecides | src/threatveil/change_assurance.py:425-430 | the last source that does not hold decides what is withdrawn before any change: stale if it is, else unknown; sources that hold change nothing |
| Projection.OrderChangesApplicability | src/threatveil/change_assurance.py:431-457 | two histories, each presented newest first, that hold the same two harms at swapped times and report different applicability |
| Projection.OrderFreeExactlyWhen | src/threatveil/change_assurance.py:431-457 | every order of the changes reports the same applicability iff all harmful changes among them do the same harm |
| Projection.NewsNeverAddsSupport | src/threatveil/change_assurance.py:374-380 | one more source change never adds support |
| Projection.ExplanationAgreesExactlyWhen | src/threatveil/assurance_intelligence.py:480-487 | for a late change the explanation layer and the projection name the same claims iff both narrow it or neither does, or it touches every claim anyway |
| Projection.ExplanationCanDiffer | src/threatveil/assurance_intelligence.py:480-487 | a late, fully mapped change that the projection counts against a claim and the explanation does not name |
| Projection.MappedChangeAgrees | src/threatveil/change_assurance.py:449-465 | they agree on every fully mapped change over reviewed, captured dependencies |
| Clearance.Expiry | src/threatveil/change_assurance_api.py:200-207 | the stepwise minimum is the specified lifetime of the statement |
| Clearance.History.Issue | src/threatveil/change_assurance_api.py:168-231 | `decide` in place: the log and decision specified, or the log untouched and the refusal's code |
| Clearance.History.Activate | src/threatveil/change_assurance_api.py:257-306 | `enforce` in place: request and acknowledgement as specified, or nothing |
| Clearance.History.Withdraw | src/threatveil/change_assurance_api.py:313-322 | `revoke` in place |
| ClearanceSafety.DigestFixesSupport | src/threatveil/change_assurance_api.py:25-27 | an unchanged digest of supported claims means every claim is supported now |
| ClearanceSafety.AllowIsBacked | src/threatveil/change_assurance_api.py:198-199 | the action is ALLOW iff all claims are supported and the release allows it, and then the basis is live |
| ClearanceAnswers.SignedAction | src/threatveil/change_assurance_api.py:198-199 | the signed action is BLOCK iff a retained failure, a newest exact-state FAIL or a failed exact-state task speaks against some claim, else ALLOW iff the state is vouched for and the release eligible, else exactly the requested cautious action |
| ClearanceAnswers.DecideExactlyWhen | src/threatveil/change_assurance_api.py:168-231 | on every sound history: the first decision under a nonce answers, a new one is signed as asked with the action the claims merit and a lifetime within its basis, and what is refused |
| ClearanceSafety.DecideOnce | src/threatveil/change_assurance_api.py:175-180 | one decision per nonce, for ever: in every history that continues from an answered request, the same request gets the same decision and appends nothing, and another request under its nonce is refused |
| ClearanceSafety.ExecuteKeeps | migrations/versions/0001_initial.py:42-48 | over any history the log only grows and stays sound: nonces unique, one request per decision, acknowledgements chained |
| ClearanceSafety.GateCleared | src/threatveil/assurance_intelligence.py:1476-1489 | in every reachable history a cleared Gate means: the newest state, an unrevoked and not overtaken ALLOW, every claim proven, every live source current, the newest envelope unexpired with every action governed, and every source change ever recorded harmless to every claim |
| ClearanceAnswers.SupportExactlyWhen | src/threatveil/change_assurance.py:340-465 | all claims of a state are supported iff all that a cleared Gate vouches for holds |
| ClearanceAnswers.HistoriesGrow | src/threatveil/change_assurance.py:376-384 | a recorded change, snapshot or mapping comes first in its own history and changes no other |
| ClearanceAnswers.BoundaryIs | src/threatveil/change_assurance.py:385-402 | a state is compared at its own time and evidence, with what it captured, over every component some approved claim depends on |
| ClearanceSafety.GateCanClear | src/threatveil/assurance_intelligence.py:1485-1489 | there is a reachable history in which the Gate clears |
| ClearanceAnswers.GateExactlyWhen | src/threatveil/assurance_intelligence.py:1463-1489 | every answer of the Gate, from the newest decision for the newest state |
| ClearanceSafety.ViewAgreesWithGate | src/threatveil/assurance_intelligence.py:306-326 | the view says CLEARED iff the Gate clears and the latest decision is for the newest state |
| ClearanceSafety.GateAndViewCanDiffer | src/threatveil/assurance_intelligence.py:306-326 | a reachable history in which the Gate clears and the view does not |
| ClearanceAnswers.ViewExactlyWhen | src/threatveil/assurance_intelligence.py:306-326 | every answer of the view: not established, withdrawn, not cleared, cleared, and reassessment otherwise |
| ClearanceSafety.SupersededExactlyWhen | src/threatveil/change_assurance_api.py:150-158 | with the basis live, SUPERSEDED iff an observed transition overtook the decision or its support moved and a change recorded later harms one of its claims; REASSESS only when none does, or the release is no longer eligible |
| ClearanceAnswers.StatusExactlyWhen | src/threatveil/change_assurance_api.py:134-165 | each status holds exactly when its condition over revocations, transitions, the basis and the support does |
| ClearanceSafety.NeverValidAgain | src/threatveil/change_assurance_api.py:134-149 | once revoked, overtaken by an observed transition or past its basis, a decision is never current again, whatever is appended |
| ClearanceSafety.AcknowledgementChain | src/threatveil/change_assurance_api.py:289-305 | acknowledged epochs are 1, 2, … without a gap, each one more than its decision expected, and no decision is acknowledged twice |
| ClearanceSafety.AcknowledgedOnlyWhenValid | src/threatveil/change_assurance_api.py:273-292 | an acknowledgement is made only for a decision that is unexpired, current, ALLOW and at its epoch, with every claim vouched for at that step |
| ClearanceAnswers.EnforceExactlyWhen | src/threatveil/change_assurance_api.py:257-306 | in every reachable history a request is recorded iff it names the signed subject, audience, epoch and nonce of a decision not requested before that is activatable now, by a permitted mechanism; the acknowledgement follows iff synthetic; a repeat changes nothing |
| ClearanceSafety.AllowLivesWithinItsBasis | src/threatveil/change_assurance_api.py:161-207 | a signed ALLOW lives at most five minutes and never past its envelope or observation |
| Cycles.Cycles | src/threatveil/assurance_intelligence.py:994-1020 | the one-pass loop computes the specified fold of the sorted events |
| Cycles.ChronologicalSorts | src/threatveil/assurance_intelligence.py:998-1001 | the events are a permutation in time order, and at one time every loss comes before every decision |
| Cycles.FoldMeans | src/threatveil/assurance_intelligence.py:1000-1020 | the fold equals the declared cycles: the loss is the first event after the clearance that is no ALLOW, the restoration the first ALLOW after it, attempts the refusals between, and the restoring decision opens the next cycle |
| Cycles.CyclesAreShaped | src/threatveil/assurance_intelligence.py:1002-1020 | cleared, lost and restored in that order, and each cycle's restoration is the next one's clearance |
| Cycles.LossesAreDisjoint | src/threatveil/business_measurement.py:392-398 | of two losses of one history the earlier was restored before the later began |
| Cycles.OneLossAtATime | src/threatveil/business_measurement.py:370-378 | at most one loss is active at any instant |
| Maintained.Maintained | src/threatveil/business_measurement.py:370-378 | the loop answers whether some environment holds clearance at `end` |
| Maintained.LookingBack | src/threatveil/business_measurement.py:392-398 | the losses active at `end`, read from the whole history, are exactly the one the fold had open at `end` |
| Maintained.MaintainedMeansHeld | src/threatveil/business_measurement.py:370-400 | the answer read back later is the one known at `end`: a cycle open, not lost or lost within 14 days |
| Maintained.ExpiryIsNeverHonoured | src/threatveil/business_measurement.py:412-415 | the current week's extra condition never changes the answer, whatever is cleared now |
| Calendar.NextMonthAdvances | src/threatveil/commercial.py:108-111 | a period is 28 to 31 days long and ends at the same time of day |
| Calendar.MonthBegins | src/threatveil/commercial.py:108-111 | months begin where the Gregorian calendar puts them: 365 days a year, the leap days of the years before, and the months before |
| Calendar.RollForward | src/threatveil/commercial.py:221-224 | the rollover loop ends, with the clock inside the period it leaves |
| Calendar.RollTwice | src/threatveil/commercial.py:221-224 | rolling forward twice is rolling forward once |
| Subscription.TermsAre | src/threatveil/commercial.py:189-232 | which promotion, trial, grace, override and scheduled change survive a reconciliation |
| Subscription.PlanIs | src/threatveil/commercial.py:194-218 | the plan is the scheduled one if it takes effect, else the fallback if anything ended, else the same |
| Subscription.PeriodIs | src/threatveil/commercial.py:212-227 | a period that is over is rolled forward past the clock; a provider's own period is never touched |
| Subscription.ReconcileTwice | src/threatveil/commercial.py:189-232 | reconciling early and again late gives exactly the book of reconciling once late, for every provider |
| Contracts.ReadingsAreInvisible | src/threatveil/commercial.py:246-252 | over any run of commands, reservations and timely charges, readings at any moments change no answer iff no order names an expected revision that they moved, unless it would be refused anyway |
| Contracts.FinalBookIsTheSame | src/threatveil/commercial.py:189-252 | and then the book reconciled at the end is the same as if nobody had looked |
| Contracts.OrderKeepsAhead | src/threatveil/commercial.py:401-408 | an order is answered alike on a read and an unread desk iff the account is provider-managed, it is a repeat, it names no revision the two differ on, or it conflicts with the subscription itself |
| Contracts.ReadingMovesTheRevision | src/threatveil/commercial.py:228-252 | a reading moves the revision a later order finds, by one, iff something was due when it was made and something is due again |
| Provisioning.ReadingCanBeSeen | src/threatveil/commercial.py:401-408 | in every new organization: a promotion is placed, its end read or not, and an order placed at the end of the month for the revision one reconciliation makes; it is served without the reading and refused with it |
| Provisioning.EstablishedForEver | src/threatveil/commercial.py:160-186 | over every run from a new organization the projection finds a period end, account and subscription agree, grace is on a paid plan with a deadline, and whatever can expire has the free plan behind it |
| Contracts.ChargeAgreesExactlyWhen | src/threatveil/api.py:1193-1195 | a charge on an unread book agrees with one on a read book iff it is zero, no boundary had passed, or another passes by the end |
| Contracts.ChargesGetLost | src/threatveil/commercial.py:219-226 | any settlement that charges an ended, unread period is wiped, and would have counted after a reading; its reservation is released either way |
| Contracts.ReservationFits | src/threatveil/commercial.py:335-343 | a reservation is accepted iff positive, live and within the reconciled budget, and then use stays within it |
| ContractAnswers.ReserveExactlyWhen | src/threatveil/commercial.py:335-343 | a reservation on any desk, legacy contracts included: refused with nothing changed, or taken on the reconciled book |
| Contracts.GraceIsNeverExtended | src/threatveil/commercial.py:434-443 | no command and no reading moves a grace deadline that stands |
| Contracts.TrialOnce | src/threatveil/commercial.py:422-433 | over any run at most one trial is started |
| Contracts.CommandsAreIdempotent | src/threatveil/commercial.py:395-400 | after any run of later events a repeated command only reconciles, and its key with another request is refused and changes nothing |
| ContractAnswers.OrderExactlyWhen | src/threatveil/commercial.py:386-465 | every answer of an order on any desk and the desk it leaves: whose account, which key, which revision, which guard of the command refuses, and what a granted command makes of the reconciled subscription |
| ContractAnswers.TransitionExactlyWhen | src/threatveil/commercial.py:409-463 | each command is granted under its own guard, with its own refusal, and leads to one state |
| Contracts.DoKeepsShown | src/threatveil/commercial.py:160-167 | the account always shows the subscription it was projected from |
| PlanEffects.FoundIsReconciled | src/threatveil/commercial.py:189-232 | the state the following rows speak of is the one a later reconciliation leaves |
| PlanEffects.UpgradeLasts | src/threatveil/commercial.py:419-429 | an accepted upgrade is in force with its own entitlements at every later time |
| PlanEffects.TrialEnds | src/threatveil/commercial.py:201-211 | a trial holds its plan for exactly its days and then gives way to the fallback |
| PlanEffects.DowngradeWaits | src/threatveil/commercial.py:212-218 | a downgrade or cancellation changes nothing before the period ends and takes effect then, unless a trial or grace ends first |
| PlanEffects.OverrideEnds | src/threatveil/commercial.py:194-200 | contract terms replace just what they name until they expire, then the fallback is back |
| PlanEffects.PatchReplaces | src/threatveil/commercial.py:450-459 | contract terms replace exactly the entitlements they name |
| PlanEffects.GraceDecides | src/threatveil/commercial.py:434-443 | a failed payment keeps the plan until the grace deadline and no longer; recovering in time keeps it |
| Billing.Organization.Reconcile | src/threatveil/commercial.py:189-232 | the stepwise reconciliation of the rows is the specified one, revision included |
| Billing.EndTerms | src/threatveil/commercial.py:193-211 | the expiry branches in place |
| Billing.BeginPeriod | src/threatveil/commercial.py:212-227 | the boundary branch in place, with its loop |
| Billing.Transit | src/threatveil/commercial.py:407-463 | the command branches in place |
| Billing.Organization.Mutate | src/threatveil/commercial.py:386-465 | the command in place, rolled back whole when refused |
| Billing.Organization.Reserve | src/threatveil/commercial.py:335-343 | the reservation in place, rolled back whole when refused |
| Allowance.ReconciliationIsSteps | src/threatveil/commercial.py:225-231 | a reconciliation is a rollover if one is due and a new allowance, in the execution protocol |
| Allowance.AdmissionIsReservation | src/threatveil/api.py:936-942 | a run is admitted iff the reconciled book holds its reservation, with the same account after it |
| Allowance.SettlementIsCharge | src/threatveil/api.py:1187-1195 | settlement charges the book as it finds it |
| Families.FamilyId | src/threatveil/entitlements.py:34-45 | the walk ends on every graph with the specified answer |
| Families.FamilyMeans | src/threatveil/entitlements.py:34-45 | the answer is the record where the links end, and a refusal exactly when they never end |
| Families.FamilyIsOneSystem | src/threatveil/entitlements.py:34-45 | a family never leaves its system or provenance, and begins where no predecessor of the same is known |
| Families.AppendKeepsFamily | src/threatveil/api.py:492-505 | a record under a fresh identifier changes no existing family |
| Families.ApprovalJoinsTheDraft | src/threatveil/api.py:468-519 | approving changes no family and puts the new version in the draft's |
| Families.ServeKeepsLimit | src/threatveil/entitlements.py:61-86 | no request on reachable rows meets a cycle, and one adds a family only below the limit |
| Families.FamiliesNeverExceedLimit | src/threatveil/entitlements.py:61-86 | under a fixed limit the approved families never exceed it over any sequence of requests |
| Families.ApprovalIsIdempotent | src/threatveil/entitlements.py:73-80 | approving a draft again answers with the first version, under any later limit |
| Families.ApproveExactlyWhen | src/threatveil/entitlements.py:61-86 | an approval answers with the earlier version, or adds one iff the family counts already or one more is within the limit and the draft is valid; with its refusals |
| Families.OthersExactlyWhen | src/threatveil/api.py:468-519 | drafts and adoptions are always taken and count for nothing; an approved install needs room for one more family |
| ErasureSafety.ErasedMeansListed | src/threatveil/erasure.py:134-200 | over any number of attempts cut short anywhere, an organization whose row is gone left an authentic manifest listing every raw object and credential its rows referred to |
| ErasureSafety.ReferredAre | src/threatveil/erasure.py:168-186 | what an organization's rows referred to is every raw object of its captures, each once, and every credential |
| ErasureSafety.ReportBytes | src/threatveil/erasure.py:57-61 | the size of a report, from its JSON text |
| ErasureSafety.FirstRunFinishes | src/threatveil/erasure.py:118-206 | an uninterrupted run removes the row and everything the rows referred to, and nothing of others; it is accepted, with its report closed, iff the closing report, computed from the rows, is within the limit |
| ErasureSafety.RepeatFinishes | src/threatveil/erasure.py:152-206 | repeating the request after a crash removes everything and touches nothing else; it is accepted, with its report closed, iff the closing report fits |
| ErasureSafety.FurtherRepetition | src/threatveil/erasure.py:152-206 | a repetition after that does nothing if the report closed, and is refused with the world unchanged if it cannot |
| ErasureSafety.StuckForEver | src/threatveil/erasure.py:57-61 | a report without room for its closing entry never closes: its request is refused after every later history |
| ErasureSafety.ClosingCanFail | src/threatveil/erasure.py:189-205 | for every fixed part of a report there is an organization whose first run erases it and is refused at closing, and for ever after |
| ErasureSafety.OthersAreSpared | src/threatveil/erasure.py:111-115 | no attempt, cut short anywhere, touches another organization's rows, objects or credentials |
| ErasureSafety.OnlyTheRequestedGo | src/threatveil/erasure.py:158-180 | an organization goes only by an attempt naming it and its own pending request, with nothing external outstanding and every file local and its own |
| ErasureSafety.RefusedExactlyWhen | src/threatveil/erasure.py:57-205 | when the command refuses, exactly, closing reports included, and that a refusal that erases nothing leaves at most a fresh key |
| ErasureSafety.TornKeyBlocksErasure | src/threatveil/erasure.py:38-54 | a key file created and not filled blocks every later attempt |
| ErasureSafety.CrashTearsTheKey | src/threatveil/erasure.py:44-51 | a first attempt that dies after one effect leaves that torn key, whatever it was to erase |
| ErasureSafety.CleanupCleans | src/threatveil/erasure.py:111-206 | a whole cleanup removes exactly the listed files, and closes the manifest iff the closing report fits |
| ErasureCommand.Machine.WriteReport | src/threatveil/erasure.py:57-76 | the size check, then temporary file and replacement, step by step, under any budget |
| ErasureCommand.Machine.Clean | src/threatveil/erasure.py:111-206 | the two loops and the closing report, cut short anywhere, leave the specified prefix of effects; refused iff that report does not fit |
| ErasureCommand.Machine.EraseLocally | src/threatveil/erasure.py:118-206 | the whole command, cut short anywhere, leaves the specified prefix of effects and refuses as specified |
| Paging.ReadPages | src/threatveil/memory_export.py:142-168 | the paging loop ends and reads full pages until one is not |
| Paging.ExportedExactlyWhen | src/threatveil/memory_export.py:150-164 | a row is exported iff the page whose window covers its key found it, and then on that page only |
| Paging.PresentFromTheStart | src/threatveil/memory_export.py:142-168 | a row that is there throughout is exported, whatever else is added meanwhile |
| Paging.ExportInOrder | src/threatveil/memory_export.py:152-168 | the export is in strict key order, so nothing comes twice |
| Paging.ExportIsTheScan | src/threatveil/memory_export.py:142-214 | on a fixed table the export equals the plain scan, exact multiples of the page size included |
| MemoryExport.ExportMemory | src/threatveil/memory_export.py:121-215 | both loops together, each page in its own transaction |
| MemoryExport.FixedStoreIsScanned | src/threatveil/memory_export.py:142-214 | on a fixed store both listings equal their scans |
| MemoryExport.ExportIsOrdered | src/threatveil/memory_export.py:152-198 | records and edges each come once, in key order, even while the store changes |
| MemoryExport.RecordExportedExactlyWhen | src/threatveil/memory_export.py:150-164 | a record is exported iff the page covering its key found it there, exportable |
| MemoryExport.EdgeIsClosedExactlyWhen | src/threatveil/memory_export.py:171-214 | both ends of an exported edge were exported iff each was already committed when the page covering its key was read |
| MemoryExport.EdgesAreClosed | src/threatveil/memory_export.py:171-214 | in particular, if no record is committed late, both ends of every exported edge were exported |
| MemoryExport.LateRecordIsMissed | src/threatveil/memory_export.py:150-164 | a late record is missed while an edge naming it is exported |

## Left out

- HTTP routing, sessions, roles, rate limits and identity tokens: plumbing around the transactions.
- Cryptography, SQL row security and advisory locks: a signature is the key that made it, a digest what it digests, a transaction one step.
- Cloud storage, Cloud Run delivery attempts, Stripe, GitHub and e-mail: foreign systems; `record_provider_subscription` is not part of this model.
- `assess_plan`, `explain_source_change`, observers, target checks and evaluators: arbitrary inputs.
- Payload size limits at completion and expired raw objects (status 413 and 410) during completion: they only refuse.
- The in-process local executor: the broker path is modelled, not both on one run.
- `assurance_obligations`, `save_mapping` and the reason texts of `projection`: restatements for a reader and shape checks.
- The case and audit records that `decide` also appends: nothing modelled reads them.
- The derivation of loss moments in `_loss_moments`: they are an input to the cycles.
- The weekly watch and reliance counters of `north_star`: counting over the answers proved here.
- Legacy plans' own entitlement tables: a book whose plan does not match its subscription keeps the account's own budget.
- Per-variant summaries, intervals and capsules of `evaluate_acquisition`: statistics and presentation.
- Catalog validation of override entitlements, idempotency keys that collide with those of provisioning and reconciliation, and years after 9999 are not part of this model.
- Subscription.ReconcileTwice: assumes that whatever can expire has a fallback plan, which holds in every run from a new organization (`EstablishedForEver`); a state without one is refused by an error in the original, and so is one without a period end.
- Captures.ReevaluationAgrees: assumes the evaluator answers alike for the same observation.
- Filesystem link and file-type checks of the erasure command: they only refuse.
- ErasureSafety.ErasedMeansListed: speaks of files that rows refer to; a raw object written without its record is left to the retention purge.
- MemoryExport.ExportMemory: the manifest and completion lines and the JSON formatting are not modelled.
