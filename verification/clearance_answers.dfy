/** Exactly what each clearance endpoint answers, and when.

    Models `decide`, `enforce`, `revoke`, `clearance_status`, the Gate and the customer's view on any
    history the endpoints can produce, over the history's own records and the approved claims. */
module ClearanceAnswers {
  import opened Common
  import opened Projection
  import opened Clearance
  import opened ClearanceSafety
  import Captures

  // ---- Histories -------------------------------------------------------------------------------------

  /** Recording a change, a snapshot or a mapping puts it first in its own history, and leaves the
      other histories as they were. */
  lemma HistoriesGrow(log: Log, entry: Entry)
    ensures Changes([]) == [] && Batches([]) == [] && Mappings([]) == []
    ensures Changes(log + [entry]) == (if entry.ChangeEntry? then [entry.change] else []) + Changes(log)
    ensures Batches(log + [entry]) == (if entry.BatchEntry? then [entry.batch] else []) + Batches(log)
    ensures Mappings(log + [entry]) == (if entry.MappingEntry? then [entry.mapping] else []) + Mappings(log)
  {
    assert (log + [entry])[..|log|] == log;
  }

  /** A state is compared at its own time and evidence, with what it captured, over every component some
      approved claim depends on. */
  lemma BoundaryIs(layer: Layer, log: Log, now: int, state: nat, component: string)
    requires IsState(log, state)
    ensures var b := BoundaryOf(layer, log, now, state);
      var claims := layer.claims(log, now, state);
      && b.stateAt == log[state].at && b.anchor == log[state].anchor && b.captured == log[state].captured
      && b.synthetic == log[state].synthetic && b.mappings == Mappings(log) && b.batches == Batches(log)
      && (component in b.reviewed <==> exists claim :: claim in claims && component in claim.dependencies)
  {
    var claims := layer.claims(log, now, state);
    if claim :| claim in claims && component in claim.dependencies {
      var i :| 0 <= i < |claims| && claims[i] == claim;
      assert component in claims[i].dependencies;
    }
  }

  // ---- decide ----------------------------------------------------------------------------------------

  /** Something recorded speaks against the claim itself: a retained failure, a FAIL as the newest result
      for this exact state, or any failed task on it. */
  predicate Adverse(claim: Claim) {
    || claim.failed
    || (claim.exact != [] && claim.exact[0].verdict == Captures.FAIL)
    || exists i :: 0 <= i < |claim.exact| && claim.exact[i].task == Captures.FAILURE
  }

  /** The row of a claim carries what was recorded of it, whatever the source layer withdraws. */
  lemma RowOutcome(layer: Layer, log: Log, now: int, state: nat, claim: Claim)
    requires IsState(log, state)
    ensures var r := ProjectClaim(layer, log, now, state, claim);
      && (r.security == Captures.FAIL || r.task == Captures.FAILURE <==> Adverse(claim))
      && (Adverse(claim) ==> !r.supported)
  {
    var base := BaseRow(claim, Surroundings(layer, log, now, state));
    SupportedExactlyWhen(base, layer.health(log, now), Changes(log), BoundaryOf(layer, log, now, state));
    assert (exists e :: e in claim.exact && e.task == Captures.FAILURE)
      <==> exists i :: 0 <= i < |claim.exact| && claim.exact[i].task == Captures.FAILURE;
    hide WithdrawRow, Changes, BoundaryOf, Surroundings;
  }

  /** The action a request merits: BLOCK if anything speaks against an approved claim; ALLOW if the
      state is vouched for and the release eligible; exactly the requested cautious action otherwise. */
  ghost predicate Signed(layer: Layer, log: Log, now: int, c: Case, action: Verdict)
    requires IsState(log, c.state)
  {
    var claims := layer.claims(log, now, c.state);
    action ==
      if exists i :: 0 <= i < |claims| && Adverse(claims[i]) then BLOCK
      else if Vouched(layer, log, now, c.state) && layer.releaseAllows(log, now, c.release) then ALLOW
      else c.unknownAction
  }

  lemma SupportExactlyWhen(layer: Layer, log: Log, now: int, state: nat)
    requires IsState(log, state)
    ensures AllSupported(Project(layer, log, now, state)) <==> Vouched(layer, log, now, state)
  {
    if Vouched(layer, log, now, state) {
      VouchedIsSupported(layer, log, now, state);
    }
    if AllSupported(Project(layer, log, now, state)) {
      SupportedIsVouched(layer, log, now, state);
    }
  }

  /** Some row fails exactly when something speaks against some claim, and then not all are supported. */
  lemma AdverseRows(layer: Layer, log: Log, now: int, state: nat)
    requires IsState(log, state)
    ensures var claims, rows := layer.claims(log, now, state), Project(layer, log, now, state);
      && ((exists r :: r in rows && (r.security == Captures.FAIL || r.task == Captures.FAILURE))
          <==> exists i :: 0 <= i < |claims| && Adverse(claims[i]))
      && ((exists i :: 0 <= i < |claims| && Adverse(claims[i])) ==> !AllSupported(rows))
  {
    var claims, rows := layer.claims(log, now, state), Project(layer, log, now, state);
    forall i | 0 <= i < |claims|
      ensures (rows[i].security == Captures.FAIL || rows[i].task == Captures.FAILURE <==> Adverse(claims[i]))
      ensures Adverse(claims[i]) ==> !rows[i].supported
    {
      RowOutcome(layer, log, now, state, claims[i]);
    }
    hide Adverse, ProjectClaim;
    if i :| 0 <= i < |claims| && Adverse(claims[i]) {
      assert rows[i] in rows;
    }
    if r :| r in rows && (r.security == Captures.FAIL || r.task == Captures.FAILURE) {
      var i :| 0 <= i < |rows| && rows[i] == r;
      assert Adverse(claims[i]);
    }
  }

  lemma SignedAction(layer: Layer, log: Log, now: int, c: Case)
    requires IsState(log, c.state)
    ensures Signed(layer, log, now, c, ActionFor(layer, log, now, c))
  {
    SupportExactlyWhen(layer, log, now, c.state);
    AdverseRows(layer, log, now, c.state);
    hide Vouched, Adverse, AllSupported, Project;
  }

  /** A statement lives until the first of five minutes, its envelope's expiry and its observation's, or
      for one more second if one of them is over. */
  predicate LivesUntil(log: Log, now: int, state: nat, expiresAt: int)
    requires IsState(log, state)
  {
    var envelope, observed := log[log[state].envelope].expiresAt, log[state].observedUntil;
    if envelope <= now || (observed.Some? && observed.value <= now) then expiresAt == now + 1
    else
      && expiresAt <= now + 5 * 60 && expiresAt <= envelope && (observed.Some? ==> expiresAt <= observed.value)
      && (expiresAt == now + 5 * 60 || expiresAt == envelope || observed == Some(expiresAt))
  }

  /** `decide` on any history: the first decision under a nonce answers every request under it; a new
      one is signed exactly as asked, with the action the claims merit, what supports them now, and a
      lifetime within its basis. */
  lemma DecideExactlyWhen(layer: Layer, log: Log, now: int, c: Case, matches: bool, complete: bool)
    requires Sound(log)
    ensures var r := Decide(layer, log, now, c, matches, complete);
      if !IsState(log, c.state) then r == Rejected(404)
      else if exists d :: 0 <= d < |log| && log[d].DecisionEntry? && log[d].decision.nonce == c.nonce then
        forall d :: 0 <= d < |log| && log[d].DecisionEntry? && log[d].decision.nonce == c.nonce ==>
          r == if log[d].decision.requestDigest == c.digest then Ok((log, d)) else Rejected(409)
      else if !matches then r == Rejected(422)
      else if !complete then r == Rejected(409)
      else
        && r.Ok? && r.value.1 == |log| && |r.value.0| == |log| + 1 && log <= r.value.0
        && r.value.0[|log|].DecisionEntry? && r.value.0[|log|].at == now
        && var value := r.value.0[|log|].decision;
           && value.state == c.state && value.release == c.release && value.nonce == c.nonce
           && value.requestDigest == c.digest && value.audience == c.audience && value.expectedEpoch == c.expectedEpoch
           && value.support == SupportDigest(Project(layer, log, now, c.state))
           && LivesUntil(log, now, c.state, value.expiresAt)
           && Signed(layer, log, now, c, value.action)
  {
    hide Sound, Project, ActionFor, SupportDigest, Signed, Lifetime, LivesUntil, NoncesUnique, Repeated;
    if IsState(log, c.state) {
      RepeatedIs(log, c.nonce);
      SignedAction(layer, log, now, c);
      LifetimeIs(log, now, c.state);
    }
  }

  lemma RepeatedIs(log: Log, nonce: nat)
    requires Sound(log)
    ensures forall d :: 0 <= d < |log| && log[d].DecisionEntry? && log[d].decision.nonce == nonce ==> Repeated(log, nonce) == Some(d)
  {
    forall d | 0 <= d < |log| && log[d].DecisionEntry? && log[d].decision.nonce == nonce
      ensures Repeated(log, nonce) == Some(d)
    {
      RepeatedFinds(log, d);
    }
  }

  lemma LifetimeIs(log: Log, now: int, state: nat)
    requires IsState(log, state)
    ensures LivesUntil(log, now, state, Lifetime(log, now, state))
  {
  }

  // ---- enforce and revoke ----------------------------------------------------------------------------

  /** The request names what was signed. */
  predicate AsSigned(value: Decision, e: Enforcement, subject: bool) {
    subject && e.audience == value.audience && e.expectedEpoch == value.expectedEpoch && e.nonce == value.nonce
  }

  /** `enforce` in any reachable history: a request is recorded exactly when it names what was signed,
      for a decision that is activatable now and was not requested before, by a permitted mechanism; the
      synthetic one acknowledges it with the next epoch. The same request is answered again without a
      trace, and anything else is refused. */
  lemma EnforceExactlyWhen(p: Present, layer: Layer, now: int, e: Enforcement, subject: bool, permitted: bool)
    requires Reached(p)
    ensures var d := e.authorization;
      var r := Enforce(layer, p.log, now, e, subject, permitted);
      if !IsDecision(p.log, d) then r == Rejected(404)
      else if !AsSigned(p.log[d].decision, e, subject) then r == Rejected(409)
      else if Requested(p.log, d) then
        r == if RequestedWith(p.log, d, e.digest) then Ok(p.log) else Rejected(409)
      else if Activatable(layer, p.log, now, d) && permitted then
        r == Ok(p.log + [RequestEntry(now, d, e.digest)]
                + (if e.synthetic then [AcknowledgementEntry(now + 1, d, Acknowledgements(p.log) + 1)] else []))
      else r.Rejected? && (r.code == 409 || (r.code == 403 && !permitted))
  {
    hide *;
    var d := e.authorization;
    ReachedIsSound(p);
    SoundChain(p.log);
    EnforceIs(layer, p.log, now, e, subject, permitted);
    if IsDecision(p.log, d) {
      RequestFinds(p.log, d);
      ActivatableExactlyWhen(p, layer, now, d);
    }
  }

  lemma SoundChain(log: Log)
    requires Sound(log)
    ensures Epoch(log) == Acknowledgements(log)
  {
    EpochCounts(log);
  }

  lemma EnforceIs(layer: Layer, log: Log, now: int, e: Enforcement, subject: bool, permitted: bool)
    ensures var d := e.authorization;
      var r := Enforce(layer, log, now, e, subject, permitted);
      if !IsDecision(log, d) then r == Rejected(404)
      else if !AsSigned(log[d].decision, e, subject) then r == Rejected(409)
      else if RequestFor(log, d).Some? then
        r == if log[RequestFor(log, d).value].requestDigest == e.digest then Ok(log) else Rejected(409)
      else if DecisionStatus(layer, log, now, d) == VALID && log[d].decision.action == ALLOW
              && log[d].decision.expectedEpoch == Epoch(log) && permitted then
        r == Ok(log + [RequestEntry(now, d, e.digest)]
                + (if e.synthetic then [AcknowledgementEntry(now + 1, d, Epoch(log) + 1)] else []))
      else r.Rejected? && (r.code == 409 || (r.code == 403 && !permitted))
  {
    hide DecisionStatus, Epoch, IsDecision, RequestFor;
    var requested := log + [RequestEntry(now, e.authorization, e.digest)];
    assert requested + [] == requested;
  }

  lemma ActivatableExactlyWhen(p: Present, layer: Layer, now: int, d: nat)
    requires Sound(p.log) && IsDecision(p.log, d)
    ensures Activatable(layer, p.log, now, d) <==>
      && DecisionStatus(layer, p.log, now, d) == VALID && p.log[d].decision.action == ALLOW
      && p.log[d].decision.expectedEpoch == Epoch(p.log)
  {
    if DecisionStatus(layer, p.log, now, d) == VALID && p.log[d].decision.action == ALLOW {
      ValidAllowIsSupported(p, layer, now, d);
      SupportedIsVouched(layer, p.log, now, p.log[d].decision.state);
    }
    hide Sound, ClearanceStatus, Vouched;
  }

  predicate Requested(log: Log, d: nat) { exists i :: 0 <= i < |log| && log[i].RequestEntry? && log[i].authorization == d }

  predicate RequestedWith(log: Log, d: nat, digest: nat) {
    exists i :: 0 <= i < |log| && log[i].RequestEntry? && log[i].authorization == d && log[i].requestDigest == digest
  }

  lemma RequestFinds(log: Log, d: nat)
    requires Sound(log)
    ensures RequestFor(log, d).Some? <==> Requested(log, d)
    ensures RequestFor(log, d).Some? ==>
      forall digest :: RequestedWith(log, d, digest) <==> log[RequestFor(log, d).value].requestDigest == digest
  {
    var r := RequestFor(log, d);
    if r.Some? {
      forall i | 0 <= i < |log| && log[i].RequestEntry? && log[i].authorization == d ensures i == r.value {
        assert OneRequestEach(log);
      }
    }
  }

  /** A revocation is always taken, and is one record more. */
  lemma RevokeExactlyWhen(log: Log, now: int, d: nat)
    ensures Revoke(log, now, d) ==
      if d < |log| && log[d].DecisionEntry? then Ok(log + [RevocationEntry(now, d)]) else Rejected(404)
  {
  }

  // ---- Status ----------------------------------------------------------------------------------------

  predicate Withdrawn(log: Log, d: nat) { exists i :: 0 <= i < |log| && log[i].RevocationEntry? && log[i].revoked == d }

  /** A transition to another state was observed after the decision. */
  predicate Overtaken(log: Log, d: nat)
    requires IsDecision(log, d)
  {
    exists i :: 0 <= i < |log| && log[i].TransitionEntry? && log[i].observed && log[d].at < log[i].at
      && log[i].after != log[d].decision.state
  }

  /** The reviewed authority and the observation are both still live. */
  predicate Live(log: Log, state: nat, now: int)
    requires IsState(log, state)
  {
    now < log[log[state].envelope].expiresAt && (log[state].observedUntil.Some? ==> now < log[state].observedUntil.value)
  }

  /** What supports the claims is what supported them when the decision was made. */
  predicate Unmoved(layer: Layer, log: Log, now: int, d: nat)
    requires IsDecision(log, d)
  {
    SupportDigest(Project(layer, log, now, log[d].decision.state)) == log[d].decision.support
  }

  /** Every answer of `clearance_status`: exactly one holds. */
  lemma StatusExactlyWhen(layer: Layer, log: Log, now: int, d: nat)
    requires IsDecision(log, d)
    ensures var status, value := ClearanceStatus(layer, log, now, d), log[d].decision;
      var open := !Withdrawn(log, d) && !Overtaken(log, d);
      var live := open && Live(log, value.state, now);
      && (status == REVOKED <==> Withdrawn(log, d))
      && (status == LAPSED <==> open && !Live(log, value.state, now))
      && (status == SUPERSEDED <==>
            || (Overtaken(log, d) && !Withdrawn(log, d))
            || (live && !Unmoved(layer, log, now, d) && HarmedSince(layer, log, now, d)))
      && (status == VALID <==>
            live && Unmoved(layer, log, now, d) && (value.action == ALLOW ==> layer.releaseAllows(log, now, value.release)))
      && (DecisionStatus(layer, log, now, d) == if now < value.expiresAt then status else LAPSED)
  {
    HitMeansHarmed(layer, log, now, d);
    hide HarmedSince, HitSince, Project, SupportDigest;
  }

  // ---- Gate and view ---------------------------------------------------------------------------------

  /** The position of the newest state, and of the newest decision made for it. */
  predicate IsNewestState(log: Log, state: nat) {
    state < |log| && log[state].StateEntry? && forall i :: state < i < |log| ==> !log[i].StateEntry?
  }

  predicate IsNewestDecision(log: Log, state: nat, d: nat) {
    && d < |log| && log[d].DecisionEntry? && log[d].decision.state == state
    && forall i :: d < i < |log| && log[i].DecisionEntry? ==> log[i].decision.state != state
  }

  predicate IsLatestDecision(log: Log, d: nat) {
    d < |log| && log[d].DecisionEntry? && forall i :: d < i < |log| ==> !log[i].DecisionEntry?
  }

  predicate Decided(log: Log) { exists i :: 0 <= i < |log| && log[i].DecisionEntry? }

  /** Every answer of the Gate: that of the newest decision for the newest state, SUPERSEDED when only
      other states were decided or the caller asks about another one, and nothing before that. */
  lemma GateExactlyWhen(layer: Layer, log: Log, now: int, stateMatches: bool)
    requires WellFormed(log)
    ensures var answer := Gate(layer, log, now, stateMatches);
      && (forall state: nat, d: nat :: IsNewestState(log, state) && IsNewestDecision(log, state, d) ==>
            IsDecision(log, d) && var status := ClearanceStatus(layer, log, now, d);
            && answer.action == Some(log[d].decision.action)
            && answer.status == (if stateMatches then Some(status) else Some(SUPERSEDED))
            && (answer.cleared <==> stateMatches && status == VALID && log[d].decision.action == ALLOW))
      && (forall state: nat :: IsNewestState(log, state) && (forall d: nat :: !IsNewestDecision(log, state, d)) ==>
            answer == Answer(if Decided(log) || !stateMatches then Some(SUPERSEDED) else None, None, false))
      && ((forall state: nat :: !IsNewestState(log, state)) ==> answer == Answer(None, None, false))
  {
    var newest := NewestState(log);
    forall state: nat | IsNewestState(log, state) ensures newest == Some(state) {
    }
    if newest.Some? {
      assert IsNewestState(log, newest.value);
      var decision := NewestDecision(log, newest.value);
      forall d: nat | IsNewestDecision(log, newest.value, d) ensures decision == Some(d) {
      }
      if decision.Some? {
        assert IsNewestDecision(log, newest.value, decision.value);
      }
    }
    hide ClearanceStatus;
  }

  /** Every answer of the customer's view, from the latest decision and the newest state. */
  lemma ViewExactlyWhen(layer: Layer, log: Log, now: int, d: nat)
    requires WellFormed(log)
    ensures var view := ClearanceView(layer, log, now);
      && (view == NOT_ESTABLISHED <==> !Decided(log))
      && (IsLatestDecision(log, d) ==>
            var status, value := ClearanceStatus(layer, log, now, d), log[d].decision;
            var newest := forall state: nat :: IsNewestState(log, state) ==> state == value.state;
            && (view == WITHDRAWN <==> Withdrawn(log, d))
            && (view == NOT_CLEARED <==> status == VALID && newest && value.action == BLOCK)
            && (view == CLEARED <==>
                  status == VALID && newest && value.action == ALLOW && Vouched(layer, log, now, value.state)))
  {
    var latest, newest := LatestDecision(log), NewestState(log);
    if IsLatestDecision(log, d) {
      assert latest == Some(d);
      NewestIs(log, log[d].decision.state);
      SupportExactlyWhen(layer, log, now, log[d].decision.state);
      assert ClearanceStatus(layer, log, now, d) == REVOKED <==> Withdrawn(log, d) by {
        StatusExactlyWhen(layer, log, now, d);
      }
    }
    hide ClearanceStatus, Project, AllSupported, Vouched, IsNewestState, Withdrawn;
  }

  lemma NewestIs(log: Log, state: nat)
    requires IsState(log, state)
    ensures NewestState(log).Some?
    ensures NewestState(log).value == state <==> forall other: nat :: IsNewestState(log, other) ==> other == state
  {
    var newest := NewestState(log).value;
    assert IsNewestState(log, newest);
  }
}
