/** Clearance over the append-only history of one system environment.

    Models `clearance_status`, `_decision_status`, `decide`, `enforce` and `revoke` of
    `change_assurance_api.py` and `clearance` and `gate` of `assurance_intelligence.py`.
    Records are identified by their position in the log and carry strictly increasing times.
    The support digest is injective, so it is represented by what it digests; a signature
    that this service made is always valid. */
module Clearance {
  import opened Common
  import opened Projection
  import Captures

  datatype Verdict = ALLOW | BLOCK | WARN | REQUIRE_APPROVAL
  datatype Status = VALID | REVOKED | SUPERSEDED | LAPSED | REASSESS

  /** What `_support_digest` keeps of a row. */
  datatype Support = Support(
    id: nat, evidence: Option<nat>, applicability: Applicability, security: Captures.Verdict, task: Captures.Task,
    supported: bool)

  datatype Decision = Decision(
    state: nat, release: nat, nonce: nat, requestDigest: nat, audience: nat, expectedEpoch: nat, action: Verdict,
    support: multiset<Support>, expiresAt: int)

  datatype Entry =
    | EnvelopeEntry(at: int, expiresAt: int, actions: set<string>)
    | StateEntry(at: int, envelope: nat, anchor: int, observedUntil: Option<int>, qualified: bool, unknowns: Option<bool>,
                 target: Option<nat>, captured: map<string, Part>, synthetic: bool)
    | DecisionEntry(at: int, decision: Decision)
    | TransitionEntry(at: int, observed: bool, after: nat)
    | RevocationEntry(at: int, revoked: nat)
    | RequestEntry(at: int, authorization: nat, requestDigest: nat)
    | AcknowledgementEntry(at: int, acknowledged: nat, epoch: nat)
    | ChangeEntry(at: int, change: Change)
    | BatchEntry(at: int, batch: Batch)
    | MappingEntry(at: int, mapping: Mapping)
    | OtherEntry(at: int)

  type Log = seq<Entry>

  /** Foreign answers, each a function of the history and the time at which it is asked. */
  datatype Layer = Layer(
    claims: (Log, int, nat) -> seq<Claim>,
    bound: (Log, int) -> map<nat, int>,
    governed: (Log, int) -> set<string>,
    beyondSynthetic: (Log, int, nat) -> bool,
    health: (Log, int) -> seq<Source>,
    releaseAllows: (Log, int, nat) -> bool)

  // ---- Histories, newest first ------------------------------------------------------------

  function Changes(log: Log): seq<Change> {
    if log == [] then []
    else (if log[|log| - 1].ChangeEntry? then [log[|log| - 1].change] else []) + Changes(log[..|log| - 1])
  }

  function Batches(log: Log): seq<Batch> {
    if log == [] then []
    else (if log[|log| - 1].BatchEntry? then [log[|log| - 1].batch] else []) + Batches(log[..|log| - 1])
  }

  function Mappings(log: Log): seq<Mapping> {
    if log == [] then []
    else (if log[|log| - 1].MappingEntry? then [log[|log| - 1].mapping] else []) + Mappings(log[..|log| - 1])
  }

  /** The newest envelope, state or decision of a given state, if there is one. */
  function NewestEnvelope(log: Log): (r: Option<nat>)
    ensures r.Some? ==> r.value < |log| && log[r.value].EnvelopeEntry?
    ensures forall i :: (if r.Some? then r.value + 1 else 0) <= i < |log| ==> !log[i].EnvelopeEntry?
  {
    if log == [] then None else if log[|log| - 1].EnvelopeEntry? then Some(|log| - 1) else NewestEnvelope(log[..|log| - 1])
  }

  function NewestState(log: Log): (r: Option<nat>)
    ensures r.Some? ==> r.value < |log| && log[r.value].StateEntry?
    ensures forall i :: (if r.Some? then r.value + 1 else 0) <= i < |log| ==> !log[i].StateEntry?
  {
    if log == [] then None else if log[|log| - 1].StateEntry? then Some(|log| - 1) else NewestState(log[..|log| - 1])
  }

  function NewestDecision(log: Log, state: nat): (r: Option<nat>)
    ensures r.Some? ==> r.value < |log| && log[r.value].DecisionEntry? && log[r.value].decision.state == state
    ensures forall i :: (if r.Some? then r.value + 1 else 0) <= i < |log| && log[i].DecisionEntry? ==> log[i].decision.state != state
  {
    if log == [] then None
    else if log[|log| - 1].DecisionEntry? && log[|log| - 1].decision.state == state then Some(|log| - 1)
    else NewestDecision(log[..|log| - 1], state)
  }

  function AnyDecision(log: Log): bool { exists i :: 0 <= i < |log| && log[i].DecisionEntry? }

  /** The epoch applied last; 0 before the first acknowledgement. */
  function Epoch(log: Log): nat {
    if log == [] then 0
    else if log[|log| - 1].AcknowledgementEntry? then log[|log| - 1].epoch else Epoch(log[..|log| - 1])
  }

  // ---- Projection of a recorded state ----------------------------------------------------------

  /** References point at earlier records of the right kind. */
  predicate WellFormed(log: Log) {
    && (forall i :: 0 <= i < |log| && log[i].StateEntry? ==>
          log[i].envelope < i && log[log[i].envelope].EnvelopeEntry?)
    && (forall i :: 0 <= i < |log| && log[i].DecisionEntry? ==>
          log[i].decision.state < i && log[log[i].decision.state].StateEntry?)
  }

  predicate IsState(log: Log, state: nat) {
    state < |log| && log[state].StateEntry? && log[state].envelope < |log| && log[log[state].envelope].EnvelopeEntry?
  }

  /** The environment-level reasons `projection` collects before any claim is looked at. */
  function Reasons(layer: Layer, log: Log, now: int, state: nat): set<Reason>
    requires IsState(log, state)
  {
    var s, envelope := log[state], log[log[state].envelope];
    (if NewestEnvelope(log) != Some(s.envelope) then {AuthorityChanged} else {})
    + (if envelope.expiresAt <= now then {EnvelopeExpired} else {})
    + (if !s.qualified then {NoQualifiedObservation} else {})
    + (if s.observedUntil.Some? && s.observedUntil.value <= now then {ObservationStale} else {})
    + (if s.unknowns.Some? then {UnresolvedCoverage(s.unknowns.value)} else {})
    + (if !(envelope.actions <= layer.governed(log, now)) then {UngovernedActions} else {})
    + (if layer.beyondSynthetic(log, now, state) then {BeyondSyntheticSubjects} else {})
  }

  function Surroundings(layer: Layer, log: Log, now: int, state: nat): Setting
    requires IsState(log, state)
  {
    Setting(Reasons(layer, log, now, state), log[state].target, layer.bound(log, now), log[log[state].envelope].at)
  }

  function Reviewed(claims: seq<Claim>): set<string> {
    set i, d | 0 <= i < |claims| && d in claims[i].dependencies :: d
  }

  function BoundaryOf(layer: Layer, log: Log, now: int, state: nat): Boundary
    requires IsState(log, state)
  {
    var s := log[state];
    Boundary(s.at, s.anchor, s.captured, Reviewed(layer.claims(log, now, state)), s.synthetic, Mappings(log), Batches(log))
  }

  function ProjectClaim(layer: Layer, log: Log, now: int, state: nat, claim: Claim): Row
    requires IsState(log, state)
  {
    WithdrawRow(BaseRow(claim, Surroundings(layer, log, now, state)), layer.health(log, now), Changes(log),
                BoundaryOf(layer, log, now, state))
  }

  /** `projection`: one row per approved claim. */
  function Project(layer: Layer, log: Log, now: int, state: nat): (rows: seq<Row>)
    requires IsState(log, state)
    ensures |rows| == |layer.claims(log, now, state)|
    ensures forall i :: 0 <= i < |rows| ==> rows[i] == ProjectClaim(layer, log, now, state, layer.claims(log, now, state)[i])
  {
    var claims := layer.claims(log, now, state);
    seq(|claims|, i requires 0 <= i < |claims| => ProjectClaim(layer, log, now, state, claims[i]))
  }

  predicate AllSupported(rows: seq<Row>) { rows != [] && forall r :: r in rows ==> r.supported }

  function SupportOf(row: Row): Support {
    Support(row.id, row.evidence, row.applicability, row.security, row.task, row.supported)
  }

  /** `_support_digest`, as the collection it digests. */
  function SupportDigest(rows: seq<Row>): multiset<Support> {
    if rows == [] then multiset{} else SupportDigest(rows[..|rows| - 1]) + multiset{SupportOf(rows[|rows| - 1])}
  }

  // ---- Status of a decision ------------------------------------------------------------------

  predicate Revoked(log: Log, d: nat) { exists i :: 0 <= i < |log| && log[i].RevocationEntry? && log[i].revoked == d }

  predicate Moved(log: Log, d: nat)
    requires d < |log| && log[d].DecisionEntry?
  {
    exists i :: 0 <= i < |log| && log[i].TransitionEntry? && log[i].at > log[d].at && log[i].observed
      && log[i].after != log[d].decision.state
  }

  predicate BasisLapsed(log: Log, state: nat, now: int)
    requires IsState(log, state)
  {
    || log[log[state].envelope].expiresAt <= now
    || (log[state].observedUntil.Some? && log[state].observedUntil.value <= now)
  }

  predicate HitSince(rows: seq<Row>, at: int) {
    exists r, a :: r in rows && a in r.affectedBy && a.at > at
  }

  predicate IsDecision(log: Log, d: nat) {
    d < |log| && log[d].DecisionEntry? && IsState(log, log[d].decision.state)
  }

  /** `clearance_status`. */
  function ClearanceStatus(layer: Layer, log: Log, now: int, d: nat): Status
    requires IsDecision(log, d)
  {
    var value := log[d].decision;
    if Revoked(log, d) then REVOKED
    else if Moved(log, d) then SUPERSEDED
    else
      var rows := Project(layer, log, now, value.state);
      if BasisLapsed(log, value.state, now) then LAPSED
      else if SupportDigest(rows) != value.support then
        if HitSince(rows, log[d].at) then SUPERSEDED else REASSESS
      else if !layer.releaseAllows(log, now, value.release) && value.action == ALLOW then REASSESS
      else VALID
  }

  /** `_decision_status`: never beyond the signed statement's own lifetime. */
  function DecisionStatus(layer: Layer, log: Log, now: int, d: nat): Status
    requires IsDecision(log, d)
  {
    if log[d].decision.expiresAt <= now then LAPSED else ClearanceStatus(layer, log, now, d)
  }

  // ---- Gate -------------------------------------------------------------------------------------

  /** The Gate's answer: no status when clearance cannot be established at all. */
  datatype Answer = Answer(status: Option<Status>, action: Option<Verdict>, cleared: bool)

  function Gate(layer: Layer, log: Log, now: int, stateMatches: bool): Answer
    requires WellFormed(log)
  {
    var state := NewestState(log);
    if state.None? then Answer(None, None, false)
    else
      var d := NewestDecision(log, state.value);
      var answer :=
        if d.None? then Answer(if AnyDecision(log) then Some(SUPERSEDED) else None, None, false)
        else
          var status := ClearanceStatus(layer, log, now, d.value);
          var action := log[d.value].decision.action;
          Answer(Some(status), Some(action), status == VALID && action == ALLOW);
      if stateMatches then answer else answer.(status := Some(SUPERSEDED), cleared := false)
  }

  // ---- The assurance view -----------------------------------------------------------------------

  datatype View = NOT_ESTABLISHED | WITHDRAWN | NEEDS_REASSESSMENT | CLEARED | NOT_CLEARED

  function LatestDecision(log: Log): (r: Option<nat>)
    ensures r.Some? ==> r.value < |log| && log[r.value].DecisionEntry?
    ensures forall i :: (if r.Some? then r.value + 1 else 0) <= i < |log| ==> !log[i].DecisionEntry?
  {
    if log == [] then None else if log[|log| - 1].DecisionEntry? then Some(|log| - 1) else LatestDecision(log[..|log| - 1])
  }

  /** `clearance`: what the customer is told, from the latest decision whatever its state. */
  function ClearanceView(layer: Layer, log: Log, now: int): View
    requires WellFormed(log)
  {
    var latest, newest := LatestDecision(log), NewestState(log);
    if latest.None? then NOT_ESTABLISHED
    else
      var value := log[latest.value].decision;
      var status := ClearanceStatus(layer, log, now, latest.value);
      if status == REVOKED then WITHDRAWN
      else if status != VALID || (newest.Some? && value.state != newest.value) then NEEDS_REASSESSMENT
      else if value.action == ALLOW && newest.Some? && AllSupported(Project(layer, log, now, newest.value)) then CLEARED
      else if value.action == BLOCK then NOT_CLEARED
      else NEEDS_REASSESSMENT
  }

  // ---- Appending ------------------------------------------------------------------------------

  /** What an unproven state may be answered with. */
  type Cautious = v: Verdict | v != ALLOW witness BLOCK

  datatype Case = Case(
    state: nat, release: nat, nonce: nat, digest: nat, audience: nat, expectedEpoch: nat, unknownAction: Cautious)

  function Repeated(log: Log, nonce: nat): (r: Option<nat>)
    ensures r.Some? ==> r.value < |log| && log[r.value].DecisionEntry? && log[r.value].decision.nonce == nonce
    ensures r.None? ==> forall i :: 0 <= i < |log| && log[i].DecisionEntry? ==> log[i].decision.nonce != nonce
  {
    if log == [] then None
    else if log[|log| - 1].DecisionEntry? && log[|log| - 1].decision.nonce == nonce then Some(|log| - 1)
    else Repeated(log[..|log| - 1], nonce)
  }

  function ActionFor(layer: Layer, log: Log, now: int, c: Case): Verdict
    requires IsState(log, c.state)
  {
    var rows := Project(layer, log, now, c.state);
    if AllSupported(rows) && layer.releaseAllows(log, now, c.release) then ALLOW
    else if exists r :: r in rows && (r.security == Captures.FAIL || r.task == Captures.FAILURE) then BLOCK
    else c.unknownAction
  }

  function Min(a: int, b: int): int { if a <= b then a else b }

  const STATEMENT_SECONDS := 300

  /** A lapsed basis may still produce an adverse record, so the lifetime is never empty. */
  function Lifetime(log: Log, now: int, state: nat): int
    requires IsState(log, state)
  {
    var limit := Min(now + STATEMENT_SECONDS, log[log[state].envelope].expiresAt);
    var expiry := if log[state].observedUntil.Some? then Min(limit, log[state].observedUntil.value) else limit;
    if expiry <= now then now + 1 else expiry
  }

  method Expiry(log: Log, now: int, state: nat) returns (expiry: int)
    requires IsState(log, state)
    ensures expiry == Lifetime(log, now, state)
  {
    expiry := Min(now + STATEMENT_SECONDS, log[log[state].envelope].expiresAt);
    if log[state].observedUntil.Some? {
      expiry := Min(expiry, log[state].observedUntil.value);
    }
    if expiry <= now {
      expiry := now + 1;
    }
  }

  /** `decide`: the log after it and the decision it answers with. `matches` says the release
      belongs to this candidate and configuration, `complete` that it lists the approved claims. */
  function Decide(layer: Layer, log: Log, now: int, c: Case, matches: bool, complete: bool): Outcome<(Log, nat)> {
    if !IsState(log, c.state) then Rejected(404)
    else
      var repeated := Repeated(log, c.nonce);
      if repeated.Some? then
        if log[repeated.value].decision.requestDigest != c.digest then Rejected(409) else Ok((log, repeated.value))
      else if !matches then Rejected(422)
      else if !complete then Rejected(409)
      else
        var decision := Decision(c.state, c.release, c.nonce, c.digest, c.audience, c.expectedEpoch,
                                 ActionFor(layer, log, now, c), SupportDigest(Project(layer, log, now, c.state)),
                                 Lifetime(log, now, c.state));
        Ok((log + [DecisionEntry(now, decision)], |log|))
  }

  datatype Enforcement = Enforcement(
    authorization: nat, audience: nat, expectedEpoch: nat, nonce: nat, digest: nat, synthetic: bool)

  function RequestFor(log: Log, d: nat): (r: Option<nat>)
    ensures r.Some? ==> r.value < |log| && log[r.value].RequestEntry? && log[r.value].authorization == d
    ensures r.None? ==> forall i :: 0 <= i < |log| && log[i].RequestEntry? ==> log[i].authorization != d
  {
    if log == [] then None
    else if log[|log| - 1].RequestEntry? && log[|log| - 1].authorization == d then Some(|log| - 1)
    else RequestFor(log[..|log| - 1], d)
  }

  /** `enforce`: a compare-and-set on the epoch. `subject` says environment and state digest
      are the signed ones, `permitted` that the mechanism may be used here. */
  function Enforce(layer: Layer, log: Log, now: int, e: Enforcement, subject: bool, permitted: bool): Outcome<Log> {
    if !IsDecision(log, e.authorization) then Rejected(404)
    else
      var value := log[e.authorization].decision;
      if !subject || e.audience != value.audience || e.expectedEpoch != value.expectedEpoch || e.nonce != value.nonce
      then Rejected(409)
      else
        var repeated := RequestFor(log, e.authorization);
        if repeated.Some? then
          if log[repeated.value].requestDigest != e.digest then Rejected(409) else Ok(log)
        else if DecisionStatus(layer, log, now, e.authorization) != VALID || value.action != ALLOW then Rejected(409)
        else if !permitted then Rejected(403)
        else if Epoch(log) != e.expectedEpoch then Rejected(409)
        else
          var request := log + [RequestEntry(now, e.authorization, e.digest)];
          Ok(if e.synthetic then request + [AcknowledgementEntry(now + 1, e.authorization, Epoch(log) + 1)] else request)
  }

  function Revoke(log: Log, now: int, d: nat): Outcome<Log> {
    if d >= |log| || !log[d].DecisionEntry? then Rejected(404) else Ok(log + [RevocationEntry(now, d)])
  }

  /** Records that other endpoints append; references are checked when they are saved. */
  predicate Appendable(log: Log, entry: Entry) {
    && (entry.StateEntry? ==> entry.envelope < |log| && log[entry.envelope].EnvelopeEntry?)
    && (entry.ChangeEntry? ==> entry.change.at == entry.at)
    && !entry.DecisionEntry? && !entry.RequestEntry? && !entry.AcknowledgementEntry? && !entry.RevocationEntry?
  }

  /** The log as an object: each endpoint appends under the system lock. */
  class History {
    var log: Log
    var clock: int

    constructor (clock: int)
      ensures log == [] && this.clock == clock
    {
      log, this.clock := [], clock;
    }

    method Issue(layer: Layer, c: Case, matches: bool, complete: bool) returns (code: int, d: nat)
      modifies this
      ensures clock == old(clock) + 2
      ensures var r := Decide(layer, old(log), old(clock), c, matches, complete);
        if r.Ok? then code == 200 && log == r.value.0 && d == r.value.1 else code == r.code && log == old(log)
    {
      hide ProjectClaim, SupportDigest, AllSupported, Lifetime, Repeated;
      var now := clock;
      clock := clock + 2;
      d := 0;
      if !IsState(log, c.state) {
        return 404, 0;
      }
      var repeated := Repeated(log, c.nonce);
      if repeated.Some? {
        return if log[repeated.value].decision.requestDigest != c.digest then 409 else 200, repeated.value;
      }
      if !matches {
        return 422, 0;
      }
      if !complete {
        return 409, 0;
      }
      var rows := Project(layer, log, now, c.state);
      var action := c.unknownAction;
      if AllSupported(rows) && layer.releaseAllows(log, now, c.release) {
        action := ALLOW;
      } else if exists r :: r in rows && (r.security == Captures.FAIL || r.task == Captures.FAILURE) {
        action := BLOCK;
      }
      var expiry := Expiry(log, now, c.state);
      code, d := 200, |log|;
      log := log + [DecisionEntry(now, Decision(c.state, c.release, c.nonce, c.digest, c.audience, c.expectedEpoch, action,
                                                SupportDigest(rows), expiry))];
    }

    method Activate(layer: Layer, e: Enforcement, subject: bool, permitted: bool) returns (code: int)
      modifies this
      ensures clock == old(clock) + 2
      ensures var r := Enforce(layer, old(log), old(clock), e, subject, permitted);
        if r.Ok? then code == 200 && log == r.value else code == r.code && log == old(log)
    {
      hide DecisionStatus;
      var now := clock;
      clock := clock + 2;
      if !IsDecision(log, e.authorization) {
        return 404;
      }
      var value := log[e.authorization].decision;
      if !subject || e.audience != value.audience || e.expectedEpoch != value.expectedEpoch || e.nonce != value.nonce {
        return 409;
      }
      var repeated := RequestFor(log, e.authorization);
      if repeated.Some? {
        return if log[repeated.value].requestDigest != e.digest then 409 else 200;
      }
      if DecisionStatus(layer, log, now, e.authorization) != VALID || value.action != ALLOW {
        return 409;
      }
      if !permitted {
        return 403;
      }
      var epoch := Epoch(log);
      if epoch != e.expectedEpoch {
        return 409;
      }
      log := log + [RequestEntry(now, e.authorization, e.digest)];
      if e.synthetic {
        log := log + [AcknowledgementEntry(now + 1, e.authorization, epoch + 1)];
      }
      code := 200;
    }

    method Withdraw(d: nat) returns (code: int)
      modifies this
      ensures clock == old(clock) + 2
      ensures var r := Revoke(old(log), old(clock), d);
        if r.Ok? then code == 200 && log == r.value else code == r.code && log == old(log)
    {
      var now := clock;
      clock := clock + 2;
      if d >= |log| || !log[d].DecisionEntry? {
        return 404;
      }
      log := log + [RevocationEntry(now, d)];
      code := 200;
    }
  }
}
