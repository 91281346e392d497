/** What clearance guarantees over whole histories.

    A history grows by arbitrary calls of `decide`, `enforce` and `revoke` and by arbitrary
    other records, under a clock that never goes back. What the other parts of the service
    answer may change freely from one call to the next. */
module ClearanceSafety {
  import opened Common
  import opened Projection
  import opened Clearance
  import Captures

  datatype Action =
    | Appending(entry: Entry)
    | Deciding(c: Case, matches: bool, complete: bool)
    | Enforcing(e: Enforcement, subject: bool, permitted: bool)
    | Revoking(d: nat)

  datatype Moment = Moment(layer: Layer, wait: nat, action: Action)

  datatype Present = Present(log: Log, clock: int)

  function LogAfter(log: Log, now: int, m: Moment): Log {
    match m.action
    case Appending(entry) => if Appendable(log, entry) && entry.at == now then log + [entry] else log
    case Deciding(c, matches, complete) =>
      var r := Decide(m.layer, log, now, c, matches, complete); if r.Ok? then r.value.0 else log
    case Enforcing(e, subject, permitted) =>
      var r := Enforce(m.layer, log, now, e, subject, permitted); if r.Ok? then r.value else log
    case Revoking(d) => var r := Revoke(log, now, d); if r.Ok? then r.value else log
  }

  function After(p: Present, m: Moment): Present {
    Present(LogAfter(p.log, p.clock + m.wait, m), p.clock + m.wait + 2)
  }

  function Execute(p: Present, moments: seq<Moment>): Present {
    if moments == [] then p else After(Execute(p, moments[..|moments| - 1]), moments[|moments| - 1])
  }

  ghost predicate Reached(p: Present) {
    exists start: int, moments: seq<Moment> :: p == Execute(Present([], start), moments)
  }

  // ---- Invariant --------------------------------------------------------------------------------

  /** An ALLOW decision was backed by every claim, and lives no longer than its basis. */
  predicate Backed(log: Log, d: nat)
    requires d < |log| && log[d].DecisionEntry?
  {
    var value := log[d].decision;
    value.action == ALLOW ==>
      (&& IsState(log, value.state)
       && value.support != multiset{} && (forall s :: s in value.support ==> s.supported)
       && log[d].at < value.expiresAt <= log[d].at + STATEMENT_SECONDS
       && value.expiresAt <= log[log[value.state].envelope].expiresAt
       && (log[value.state].observedUntil.Some? ==> value.expiresAt <= log[value.state].observedUntil.value))
  }

  predicate AllBacked(log: Log) { forall d :: 0 <= d < |log| && log[d].DecisionEntry? ==> Backed(log, d) }

  predicate NoncesUnique(log: Log) {
    forall i, j :: 0 <= i < j < |log| && log[i].DecisionEntry? && log[j].DecisionEntry? ==>
      log[i].decision.nonce != log[j].decision.nonce
  }

  predicate OneRequestEach(log: Log) {
    forall i, j :: 0 <= i < j < |log| && log[i].RequestEntry? && log[j].RequestEntry? ==>
      log[i].authorization != log[j].authorization
  }

  function Acknowledgements(log: Log): nat {
    if log == [] then 0
    else Acknowledgements(log[..|log| - 1]) + (if log[|log| - 1].AcknowledgementEntry? then 1 else 0)
  }

  /** The acknowledgement at `i` answers the request just before it, applies the epoch its
      ALLOW decision expected plus one, and is the next in the chain. */
  predicate LinkedAt(log: Log, i: nat)
    requires i < |log| && log[i].AcknowledgementEntry?
  {
    var d := log[i].acknowledged;
    && 0 < i && log[i - 1].RequestEntry? && log[i - 1].authorization == d
    && d < i - 1 && log[d].DecisionEntry? && log[d].decision.action == ALLOW
    && log[i].epoch == log[d].decision.expectedEpoch + 1
    && log[i].epoch == Acknowledgements(log[..i]) + 1
  }

  predicate Chained(log: Log) {
    forall i :: 0 <= i < |log| && log[i].AcknowledgementEntry? ==> LinkedAt(log, i)
  }

  predicate Sound(log: Log) {
    WellFormed(log) && AllBacked(log) && NoncesUnique(log) && OneRequestEach(log) && Chained(log)
  }

  // ---- Every step keeps the invariant -------------------------------------------------------------

  /** What one more entry must satisfy. */
  predicate Fits(log: Log, entry: Entry) {
    && (entry.StateEntry? ==> entry.envelope < |log| && log[entry.envelope].EnvelopeEntry?)
    && (entry.DecisionEntry? ==>
          && IsState(log, entry.decision.state)
          && Repeated(log, entry.decision.nonce).None?
          && Backed(log + [entry], |log|))
    && (entry.RequestEntry? ==> RequestFor(log, entry.authorization).None?)
    && (entry.AcknowledgementEntry? ==> LinkedAt(log + [entry], |log|))
  }

  lemma PrefixBacked(log: Log, entry: Entry, d: nat)
    requires WellFormed(log) && d < |log| && log[d].DecisionEntry? && Backed(log, d)
    ensures Backed(log + [entry], d)
  {
  }

  lemma PrefixLinked(log: Log, entry: Entry, i: nat)
    requires i < |log| && log[i].AcknowledgementEntry? && LinkedAt(log, i)
    ensures LinkedAt(log + [entry], i)
  {
    assert (log + [entry])[..i] == log[..i];
  }

  lemma ExtendBacked(log: Log, entry: Entry)
    requires WellFormed(log) && AllBacked(log) && Fits(log, entry)
    ensures WellFormed(log + [entry]) && AllBacked(log + [entry])
  {
    forall d | 0 <= d < |log| + 1 && (log + [entry])[d].DecisionEntry? ensures Backed(log + [entry], d) {
      if d < |log| {
        PrefixBacked(log, entry, d);
      }
    }
  }

  lemma ExtendChained(log: Log, entry: Entry)
    requires Chained(log) && Fits(log, entry)
    ensures Chained(log + [entry])
  {
    forall i | 0 <= i < |log| + 1 && (log + [entry])[i].AcknowledgementEntry? ensures LinkedAt(log + [entry], i) {
      if i < |log| {
        PrefixLinked(log, entry, i);
      }
    }
  }

  lemma ExtendUnique(log: Log, entry: Entry)
    requires NoncesUnique(log) && OneRequestEach(log) && Fits(log, entry)
    ensures NoncesUnique(log + [entry]) && OneRequestEach(log + [entry])
  {
  }

  lemma ExtendKeeps(log: Log, entry: Entry)
    requires Sound(log) && Fits(log, entry)
    ensures Sound(log + [entry])
  {
    ExtendBacked(log, entry);
    ExtendChained(log, entry);
    ExtendUnique(log, entry);
  }

  lemma {:induction false} SupportIs(rows: seq<Row>)
    ensures forall s :: s in SupportDigest(rows) <==> exists i :: 0 <= i < |rows| && SupportOf(rows[i]) == s
    ensures rows != [] ==> SupportDigest(rows) != multiset{}
  {
    if rows != [] {
      var last := |rows| - 1;
      SupportIs(rows[..last]);
      assert SupportOf(rows[last]) in SupportDigest(rows);
      forall s | s in SupportDigest(rows) ensures exists i :: 0 <= i < |rows| && SupportOf(rows[i]) == s {
        if s != SupportOf(rows[last]) {
          var i :| 0 <= i < last && SupportOf(rows[..last][i]) == s;
          assert SupportOf(rows[i]) == s;
        }
      }
      forall i | 0 <= i < |rows| ensures SupportOf(rows[i]) in SupportDigest(rows) {
        if i < last {
          assert rows[..last][i] == rows[i];
        }
      }
    }
  }

  /** The digest fixes every claim's support flag. */
  lemma DigestFixesSupport(rows: seq<Row>, support: multiset<Support>)
    requires SupportDigest(rows) == support && support != multiset{} && forall s :: s in support ==> s.supported
    ensures AllSupported(rows)
  {
    SupportIs(rows);
    forall r | r in rows ensures r.supported {
      var i :| 0 <= i < |rows| && rows[i] == r;
      assert SupportOf(rows[i]) in support;
    }
    if rows == [] {
      assert false;
    }
  }

  /** A row is supported only if nothing about the surroundings speaks against it. */
  lemma SupportedRow(layer: Layer, log: Log, now: int, state: nat, claim: Claim)
    requires IsState(log, state) && ProjectClaim(layer, log, now, state, claim).supported
    ensures Reasons(layer, log, now, state) == {}
    ensures BaseRow(claim, Surroundings(layer, log, now, state)).supported
    ensures forall s :: s in layer.health(log, now) ==> SourceHolds(s)
    ensures forall c :: c in Changes(log) ==> Harmless(c, claim.dependencies, BoundaryOf(layer, log, now, state))
  {
    var base := BaseRow(claim, Surroundings(layer, log, now, state));
    SupportedExactlyWhen(base, layer.health(log, now), Changes(log), BoundaryOf(layer, log, now, state));
    BaseSupportedExactlyWhen(claim, Surroundings(layer, log, now, state));
  }

  lemma UnknownsAreAReason(layer: Layer, log: Log, now: int, state: nat)
    requires IsState(log, state)
    ensures log[state].unknowns.Some? ==> UnresolvedCoverage(log[state].unknowns.value) in Reasons(layer, log, now, state)
  {
  }

  lemma NoReasonMeansLive(layer: Layer, log: Log, now: int, state: nat)
    requires IsState(log, state) && Reasons(layer, log, now, state) == {}
    ensures !BasisLapsed(log, state, now)
    ensures NewestEnvelope(log) == Some(log[state].envelope) && log[state].qualified && log[state].unknowns.None?
    ensures log[log[state].envelope].actions <= layer.governed(log, now) && !layer.beyondSynthetic(log, now, state)
  {
    var all := Reasons(layer, log, now, state);
    assert EnvelopeExpired !in all && ObservationStale !in all && AuthorityChanged !in all && NoQualifiedObservation !in all;
    assert UngovernedActions !in all && BeyondSyntheticSubjects !in all;
    UnknownsAreAReason(layer, log, now, state);
  }

  lemma AllSupportedMeans(layer: Layer, log: Log, now: int, state: nat)
    requires IsState(log, state) && AllSupported(Project(layer, log, now, state))
    ensures layer.claims(log, now, state) != [] && Reasons(layer, log, now, state) == {} && !BasisLapsed(log, state, now)
    ensures forall i :: 0 <= i < |layer.claims(log, now, state)| ==>
      ProjectClaim(layer, log, now, state, layer.claims(log, now, state)[i]).supported
  {
    var rows := Project(layer, log, now, state);
    forall i | 0 <= i < |rows| ensures rows[i].supported {
      assert rows[i] in rows;
    }
    SupportedRow(layer, log, now, state, layer.claims(log, now, state)[0]);
    NoReasonMeansLive(layer, log, now, state);
  }

  /** An ALLOW decision is sealed with nothing but supported claims, over a live basis. */
  lemma AllowIsBacked(layer: Layer, log: Log, now: int, c: Case)
    requires IsState(log, c.state)
    ensures ActionFor(layer, log, now, c) == ALLOW <==>
      AllSupported(Project(layer, log, now, c.state)) && layer.releaseAllows(log, now, c.release)
    ensures var support := SupportDigest(Project(layer, log, now, c.state));
      ActionFor(layer, log, now, c) == ALLOW ==>
        && support != multiset{} && (forall s :: s in support ==> s.supported)
        && !BasisLapsed(log, c.state, now)
  {
    var rows := Project(layer, log, now, c.state);
    if AllSupported(rows) {
      AllSupportedMeans(layer, log, now, c.state);
      SupportIs(rows);
      forall s | s in SupportDigest(rows) ensures s.supported {
        var i :| 0 <= i < |rows| && SupportOf(rows[i]) == s;
        assert rows[i] in rows;
      }
    }
  }

  function Issued(layer: Layer, log: Log, now: int, c: Case): Entry
    requires IsState(log, c.state)
  {
    DecisionEntry(now, Decision(c.state, c.release, c.nonce, c.digest, c.audience, c.expectedEpoch,
                                ActionFor(layer, log, now, c), SupportDigest(Project(layer, log, now, c.state)),
                                Lifetime(log, now, c.state)))
  }

  lemma IssuedFits(layer: Layer, log: Log, now: int, c: Case)
    requires IsState(log, c.state) && Repeated(log, c.nonce).None?
    ensures Fits(log, Issued(layer, log, now, c))
  {
    AllowIsBacked(layer, log, now, c);
  }

  /** `decide` either repeats an earlier answer or appends one decision under a fresh nonce. */
  lemma DecideAnswers(layer: Layer, log: Log, now: int, c: Case, matches: bool, complete: bool)
    ensures var r := Decide(layer, log, now, c, matches, complete);
      r.Ok? ==>
        && log <= r.value.0 && r.value.1 < |r.value.0| && r.value.0[r.value.1].DecisionEntry?
        && r.value.0[r.value.1].decision.nonce == c.nonce && r.value.0[r.value.1].decision.requestDigest == c.digest
        && (r.value.1 < |log| <==> r.value.0 == log) && IsState(log, c.state)
  {
  }

  /** The newest acknowledgement carries the number of acknowledgements. */
  lemma {:induction false} EpochCounts(log: Log)
    requires Chained(log)
    ensures Epoch(log) == Acknowledgements(log)
  {
    if log != [] {
      var last := |log| - 1;
      forall i | 0 <= i < last && log[..last][i].AcknowledgementEntry? ensures LinkedAt(log[..last], i) {
        assert LinkedAt(log, i);
        assert log[..last][..i] == log[..i];
      }
      if log[last].AcknowledgementEntry? {
        assert LinkedAt(log, last);
      } else {
        EpochCounts(log[..last]);
      }
    }
  }

  lemma {:induction false} RequestAppended(log: Log, entry: Entry)
    requires !entry.AcknowledgementEntry?
    ensures Acknowledgements(log + [entry]) == Acknowledgements(log)
  {
    assert (log + [entry])[..|log|] == log;
  }

  lemma RequestKeeps(log: Log, now: int, d: nat, digest: nat)
    requires Sound(log) && RequestFor(log, d).None?
    ensures Sound(log + [RequestEntry(now, d, digest)])
  {
    ExtendKeeps(log, RequestEntry(now, d, digest));
  }

  lemma AcknowledgementKeeps(log: Log, now: int, d: nat, digest: nat)
    requires Sound(log) && RequestFor(log, d).None?
    requires d < |log| && log[d].DecisionEntry? && log[d].decision.action == ALLOW
    requires log[d].decision.expectedEpoch == Epoch(log)
    ensures Sound(log + [RequestEntry(now, d, digest)] + [AcknowledgementEntry(now + 1, d, Epoch(log) + 1)])
  {
    var requested := log + [RequestEntry(now, d, digest)];
    var answer := AcknowledgementEntry(now + 1, d, Epoch(log) + 1);
    RequestKeeps(log, now, d, digest);
    EpochCounts(log);
    RequestAppended(log, RequestEntry(now, d, digest));
    assert (requested + [answer])[..|requested|] == requested;
    ExtendKeeps(requested, answer);
  }

  /** What `enforce` may leave behind: the log itself, or an entry for a VALID decision to ALLOW
      that was not requested before, at the epoch it expects. */
  predicate Enforced(layer: Layer, log: Log, now: int, d: nat, next: Log) {
    || next == log
    || (&& IsDecision(log, d) && DecisionStatus(layer, log, now, d) == VALID && log[d].decision.action == ALLOW
        && log[d].decision.expectedEpoch == Epoch(log) && RequestFor(log, d).None?
        && |log| < |next| && next[|log|].RequestEntry?
        && var requested := log + [RequestEntry(now, d, next[|log|].requestDigest)];
           next == requested || next == requested + [AcknowledgementEntry(now + 1, d, Epoch(log) + 1)])
  }

  lemma EnforceAppends(log: Log, now: int, m: Moment)
    requires m.action.Enforcing?
    ensures Enforced(m.layer, log, now, m.action.e.authorization, LogAfter(log, now, m))
  {
  }

  lemma EnforcedKeeps(layer: Layer, log: Log, now: int, d: nat, next: Log)
    requires Sound(log) && Enforced(layer, log, now, d, next)
    ensures Sound(next) && log <= next
  {
    if next != log {
      var digest := next[|log|].requestDigest;
      RequestKeeps(log, now, d, digest);
      AcknowledgementKeeps(log, now, d, digest);
    }
  }

  /** At most one fitting entry was appended. */
  predicate Extended(log: Log, now: int, next: Log) {
    next == log || (|log| < |next| && next == log + [next[|log|]] && next[|log|].at == now && Fits(log, next[|log|]))
  }

  lemma ExtendedKeeps(log: Log, now: int, next: Log)
    requires Sound(log) && Extended(log, now, next)
    ensures Sound(next) && log <= next
  {
    if next != log {
      ExtendKeeps(log, next[|log|]);
    }
  }

  lemma PlainAppends(log: Log, now: int, m: Moment)
    requires m.action.Appending? || m.action.Revoking?
    ensures Extended(log, now, LogAfter(log, now, m))
  {
  }

  lemma DecideAppends(log: Log, now: int, m: Moment)
    requires m.action.Deciding?
    ensures Extended(log, now, LogAfter(log, now, m))
  {
    if IsState(log, m.action.c.state) && Repeated(log, m.action.c.nonce).None? {
      IssuedFits(m.layer, log, now, m.action.c);
    }
  }

  /** What any step may leave behind. */
  predicate Allowed(m: Moment, log: Log, now: int, next: Log) {
    if m.action.Enforcing? then Enforced(m.layer, log, now, m.action.e.authorization, next) else Extended(log, now, next)
  }

  lemma EveryStepIsAllowed(log: Log, now: int, m: Moment)
    ensures Allowed(m, log, now, LogAfter(log, now, m))
  {
    if m.action.Enforcing? {
      EnforceAppends(log, now, m);
    } else if m.action.Deciding? {
      DecideAppends(log, now, m);
    } else {
      PlainAppends(log, now, m);
    }
  }

  lemma AllowedKeeps(log: Log, m: Moment, now: int, next: Log)
    requires Sound(log) && Allowed(m, log, now, next)
    ensures Sound(next) && log <= next
  {
    if m.action.Enforcing? {
      EnforcedKeeps(m.layer, log, now, m.action.e.authorization, next);
    } else {
      ExtendedKeeps(log, now, next);
    }
  }

  lemma AfterIs(p: Present, m: Moment)
    ensures After(p, m) == Present(LogAfter(p.log, p.clock + m.wait, m), p.clock + m.wait + 2)
  {
    hide LogAfter;
  }

  lemma AfterKeeps(p: Present, m: Moment) returns (next: Log)
    requires Sound(p.log)
    ensures After(p, m) == Present(next, p.clock + m.wait + 2) && Sound(next) && p.log <= next
  {
    hide *;
    AfterIs(p, m);
    next := LogAfter(p.log, p.clock + m.wait, m);
    EveryStepIsAllowed(p.log, p.clock + m.wait, m);
    AllowedKeeps(p.log, m, p.clock + m.wait, next);
  }

  lemma {:induction false} ExecuteKeeps(p: Present, moments: seq<Moment>)
    requires Sound(p.log)
    ensures Sound(Execute(p, moments).log) && p.log <= Execute(p, moments).log && p.clock <= Execute(p, moments).clock
  {
    if moments != [] {
      ExecuteKeeps(p, moments[..|moments| - 1]);
      var _ := AfterKeeps(Execute(p, moments[..|moments| - 1]), moments[|moments| - 1]);
    }
  }

  lemma ReachedIsSound(p: Present)
    requires Reached(p)
    ensures Sound(p.log)
  {
    var start, moments :| p == Execute(Present([], start), moments);
    ExecuteKeeps(Present([], start), moments);
  }

  // ---- What a cleared Gate means ------------------------------------------------------------------

  /** Everything the Gate vouches for when it says `cleared` about a recorded state. */
  ghost predicate Vouched(layer: Layer, log: Log, now: int, state: nat)
    requires IsState(log, state)
  {
    var claims := layer.claims(log, now, state);
    var b := BoundaryOf(layer, log, now, state);
    && claims != []
    && NewestEnvelope(log) == Some(log[state].envelope) && log[log[state].envelope].expiresAt > now
    && (log[state].observedUntil.Some? ==> log[state].observedUntil.value > now)
    && log[state].qualified && log[state].unknowns.None?
    && log[log[state].envelope].actions <= layer.governed(log, now) && !layer.beyondSynthetic(log, now, state)
    && (forall s :: s in layer.health(log, now) ==> SourceHolds(s))
    && (forall i :: 0 <= i < |claims| ==> Proven(claims[i], Surroundings(layer, log, now, state)))
    && (forall i, k :: 0 <= i < |claims| && 0 <= k < |log| && log[k].ChangeEntry? ==>
          Harmless(log[k].change, claims[i].dependencies, b))
  }

  /** A claim carried by a passing, task-completing observation of the assessed target made
      under the reviewed authority. */
  predicate Proven(claim: Claim, s: Setting) {
    && claim.selected.Some? && s.target == Some(claim.selected.value.target) && claim.selected.value.target in s.bound
    && claim.selected.value.at >= s.envelopeAt && claim.selected.value.at >= s.bound[claim.selected.value.target]
    && !claim.failed && claim.exact != [] && claim.exact[0].verdict == Captures.PASS
    && claim.exact[0].task == Captures.SUCCESS
    && forall e :: e in claim.exact ==> e.task != Captures.FAILURE
  }

  /** A decision to ALLOW that nobody revoked and no observed transition has overtaken. */
  predicate Standing(layer: Layer, log: Log, now: int, d: nat)
    requires d < |log| && log[d].DecisionEntry?
  {
    !Revoked(log, d) && !Moved(log, d) && log[d].decision.action == ALLOW
    && layer.releaseAllows(log, now, log[d].decision.release)
  }

  lemma {:induction false} ChangesAre(log: Log)
    ensures forall k :: 0 <= k < |log| && log[k].ChangeEntry? ==> log[k].change in Changes(log)
  {
    if log != [] {
      var last := |log| - 1;
      ChangesAre(log[..last]);
      forall k | 0 <= k < |log| && log[k].ChangeEntry? ensures log[k].change in Changes(log) {
        if k < last {
          assert log[..last][k] == log[k];
        }
      }
    }
  }

  lemma SupportedIsVouched(layer: Layer, log: Log, now: int, state: nat)
    requires IsState(log, state) && AllSupported(Project(layer, log, now, state))
    ensures Vouched(layer, log, now, state)
  {
    AllSupportedMeans(layer, log, now, state);
    NoReasonMeansLive(layer, log, now, state);
    ChangesAre(log);
    var claims := layer.claims(log, now, state);
    forall i | 0 <= i < |claims|
      ensures Proven(claims[i], Surroundings(layer, log, now, state))
      ensures forall s :: s in layer.health(log, now) ==> SourceHolds(s)
      ensures forall c :: c in Changes(log) ==> Harmless(c, claims[i].dependencies, BoundaryOf(layer, log, now, state))
    {
      SupportedRow(layer, log, now, state, claims[i]);
      BaseSupportedExactlyWhen(claims[i], Surroundings(layer, log, now, state));
    }
    assert Proven(claims[0], Surroundings(layer, log, now, state));
  }

  /** And whatever is vouched for is supported. */
  lemma VouchedIsSupported(layer: Layer, log: Log, now: int, state: nat)
    requires IsState(log, state) && Vouched(layer, log, now, state)
    ensures AllSupported(Project(layer, log, now, state))
  {
    var claims, rows := layer.claims(log, now, state), Project(layer, log, now, state);
    assert Reasons(layer, log, now, state) == {};
    forall i | 0 <= i < |rows| ensures rows[i].supported {
      var base, b := BaseRow(claims[i], Surroundings(layer, log, now, state)), BoundaryOf(layer, log, now, state);
      assert Proven(claims[i], Surroundings(layer, log, now, state));
      forall c | c in Changes(log) ensures Harmless(c, claims[i].dependencies, b) {
        ChangesCome(log, c);
      }
      BaseSupportedExactlyWhen(claims[i], Surroundings(layer, log, now, state));
      SupportedExactlyWhen(base, layer.health(log, now), Changes(log), b);
    }
  }

  /** A VALID decision to ALLOW still has every claim supported. */
  lemma ValidAllowIsSupported(p: Present, layer: Layer, now: int, d: nat)
    requires Sound(p.log) && IsDecision(p.log, d)
    requires ClearanceStatus(layer, p.log, now, d) == VALID && p.log[d].decision.action == ALLOW
    ensures AllSupported(Project(layer, p.log, now, p.log[d].decision.state))
    ensures layer.releaseAllows(p.log, now, p.log[d].decision.release)
  {
    assert Backed(p.log, d);
    DigestFixesSupport(Project(layer, p.log, now, p.log[d].decision.state), p.log[d].decision.support);
  }

  /** End to end: in every reachable history, a cleared Gate speaks of the newest state, under
      an unrevoked decision that no observed transition has overtaken, and every approved claim
      is proven, on live sources, with every source change ever recorded harmless to it. */
  lemma GateCleared(p: Present, layer: Layer, now: int, stateMatches: bool)
    requires Reached(p)
    ensures WellFormed(p.log)
    ensures Gate(layer, p.log, now, stateMatches).cleared ==>
      && stateMatches && NewestState(p.log).Some? && NewestDecision(p.log, NewestState(p.log).value).Some?
      && Vouched(layer, p.log, now, NewestState(p.log).value)
      && Standing(layer, p.log, now, NewestDecision(p.log, NewestState(p.log).value).value)
  {
    ReachedIsSound(p);
    if Gate(layer, p.log, now, stateMatches).cleared {
      var state := NewestState(p.log).value;
      var d := NewestDecision(p.log, state).value;
      ValidAllowIsSupported(p, layer, now, d);
      SupportedIsVouched(layer, p.log, now, state);
    }
  }

  lemma {:induction false} LatestIsNewest(log: Log, state: nat)
    requires LatestDecision(log).Some? && log[LatestDecision(log).value].decision.state == state
    ensures NewestDecision(log, state) == LatestDecision(log)
  {
    if log != [] && !log[|log| - 1].DecisionEntry? {
      LatestIsNewest(log[..|log| - 1], state);
    }
  }

  lemma {:induction false} NewestIsLatest(log: Log, state: nat)
    requires NewestDecision(log, state).Some?
    ensures LatestDecision(log).Some? && NewestDecision(log, state).value <= LatestDecision(log).value
  {
    if log != [] && !log[|log| - 1].DecisionEntry? {
      NewestIsLatest(log[..|log| - 1], state);
    }
  }

  /** The customer's view and the Gate agree on "cleared" exactly when the latest decision was
      made for the newest state; otherwise only the Gate can say so. */
  lemma ViewAgreesWithGate(p: Present, layer: Layer, now: int)
    requires Reached(p)
    ensures WellFormed(p.log)
    ensures ClearanceView(layer, p.log, now) == CLEARED <==>
      && Gate(layer, p.log, now, true).cleared
      && LatestDecision(p.log).Some? && NewestState(p.log).Some?
      && p.log[LatestDecision(p.log).value].decision.state == NewestState(p.log).value
  {
    ReachedIsSound(p);
    var latest, newest := LatestDecision(p.log), NewestState(p.log);
    if latest.Some? && newest.Some? && p.log[latest.value].decision.state == newest.value {
      LatestIsNewest(p.log, newest.value);
      if Gate(layer, p.log, now, true).cleared {
        ValidAllowIsSupported(p, layer, now, latest.value);
      }
    }
  }

  /** A source change recorded after the decision harms one of its claims. */
  ghost predicate HarmedSince(layer: Layer, log: Log, now: int, d: nat)
    requires IsDecision(log, d)
  {
    var state := log[d].decision.state;
    var claims := layer.claims(log, now, state);
    exists i, k :: 0 <= i < |claims| && 0 <= k < |log| && log[k].ChangeEntry?
      && log[k].change.at > log[d].at && Harms(log[k].change, claims[i].dependencies, BoundaryOf(layer, log, now, state))
  }

  lemma {:induction false} ChangesCome(log: Log, c: Change)
    requires c in Changes(log)
    ensures exists k :: 0 <= k < |log| && log[k] == ChangeEntry(log[k].at, c)
  {
    var last := |log| - 1;
    if !(log[last].ChangeEntry? && log[last].change == c) {
      ChangesCome(log[..last], c);
      var k :| 0 <= k < last && log[..last][k] == ChangeEntry(log[..last][k].at, c);
      assert log[k] == ChangeEntry(log[k].at, c);
    }
  }

  /** A row lists a later hit exactly when a later change harms its claim. */
  lemma RowHit(layer: Layer, log: Log, now: int, d: nat, claim: Claim)
    requires IsDecision(log, d)
    ensures var state := log[d].decision.state;
      var b := BoundaryOf(layer, log, now, state);
      (exists a :: a in ProjectClaim(layer, log, now, state, claim).affectedBy && a.at > log[d].at)
      <==> exists c :: c in Changes(log) && c.at > log[d].at && Harms(c, claim.dependencies, b)
  {
    var state := log[d].decision.state;
    var b := BoundaryOf(layer, log, now, state);
    var base := BaseRow(claim, Surroundings(layer, log, now, state));
    SupportedExactlyWhen(base, layer.health(log, now), Changes(log), b);
    EntriesAre(Changes(log), claim.dependencies, b);
    if c :| c in Changes(log) && c.at > log[d].at && Harms(c, claim.dependencies, b) {
      assert Projection.Entry(c, b) in ProjectClaim(layer, log, now, state, claim).affectedBy;
    }
  }

  lemma HitMeansHarmed(layer: Layer, log: Log, now: int, d: nat)
    requires IsDecision(log, d)
    ensures HitSince(Project(layer, log, now, log[d].decision.state), log[d].at) <==> HarmedSince(layer, log, now, d)
  {
    var state := log[d].decision.state;
    var claims, rows := layer.claims(log, now, state), Project(layer, log, now, state);
    ChangesAre(log);
    if HitSince(rows, log[d].at) {
      var r, a :| r in rows && a in r.affectedBy && a.at > log[d].at;
      var i :| 0 <= i < |rows| && rows[i] == r;
      RowHit(layer, log, now, d, claims[i]);
      var c :| c in Changes(log) && c.at > log[d].at && Harms(c, claims[i].dependencies, BoundaryOf(layer, log, now, state));
      ChangesCome(log, c);
    }
    if HarmedSince(layer, log, now, d) {
      var i, k :| 0 <= i < |claims| && 0 <= k < |log| && log[k].ChangeEntry?
        && log[k].change.at > log[d].at && Harms(log[k].change, claims[i].dependencies, BoundaryOf(layer, log, now, state));
      RowHit(layer, log, now, d, claims[i]);
      assert rows[i] in rows;
    }
  }

  /** What the two verdicts on moved support mean: SUPERSEDED exactly when an observed transition
      overtook the decision or its support moved and a later change harms one of its claims;
      REASSESS only when no later change does, or the release is no longer eligible. */
  lemma SupersededExactlyWhen(layer: Layer, log: Log, now: int, d: nat)
    requires IsDecision(log, d) && !Revoked(log, d) && !BasisLapsed(log, log[d].decision.state, now)
    ensures var value := log[d].decision;
      var moved := SupportDigest(Project(layer, log, now, value.state)) != value.support;
      && (ClearanceStatus(layer, log, now, d) == SUPERSEDED <==> Moved(log, d) || (moved && HarmedSince(layer, log, now, d)))
      && (ClearanceStatus(layer, log, now, d) == REASSESS ==>
            (moved && !HarmedSince(layer, log, now, d)) || (!moved && !layer.releaseAllows(log, now, value.release)))
  {
    HitMeansHarmed(layer, log, now, d);
    hide HarmedSince, HitSince, Project, SupportDigest, Moved, Revoked, BasisLapsed;
  }

  // ---- One decision per nonce ----------------------------------------------------------------------

  /** Where nonces are unique, the decision under a nonce is the one the lookup finds. */
  lemma RepeatedFinds(log: Log, d: nat)
    requires NoncesUnique(log) && d < |log| && log[d].DecisionEntry?
    ensures Repeated(log, log[d].decision.nonce) == Some(d)
  {
    var r := Repeated(log, log[d].decision.nonce);
  }

  lemma RepeatIsAnswered(log: Log, d: nat, layer: Layer, now: int, c: Case, matches: bool, complete: bool)
    requires NoncesUnique(log) && d < |log| && log[d].DecisionEntry? && log[d].decision.nonce == c.nonce && IsState(log, c.state)
    ensures Decide(layer, log, now, c, matches, complete) ==
      if log[d].decision.requestDigest == c.digest then Ok((log, d)) else Rejected(409)
  {
    RepeatedFinds(log, d);
    hide NoncesUnique;
  }

  /** One decision per nonce, for ever: in any history that continues from an answered request, the
      same request is answered with the same decision and appends nothing, and another request
      under its nonce is refused, whatever the rest of the service then says. */
  lemma DecideOnce(p: Present, m: Moment, later: Present, again: Layer, wait: nat, other: Case, matching: bool, completing: bool)
    requires Reached(p) && m.action.Deciding? && Continues(After(p, m), later)
    requires Decide(m.layer, p.log, p.clock + m.wait, m.action.c, m.action.matches, m.action.complete).Ok?
    requires other.nonce == m.action.c.nonce && IsState(later.log, other.state)
    ensures var r := Decide(m.layer, p.log, p.clock + m.wait, m.action.c, m.action.matches, m.action.complete).value;
      && r.1 < |r.0| && r.0 <= later.log && IsState(later.log, m.action.c.state)
      && Decide(again, later.log, later.clock + wait, m.action.c, matching, completing) == Ok((later.log, r.1))
      && (other.digest != m.action.c.digest ==>
            Decide(again, later.log, later.clock + wait, other, matching, completing) == Rejected(409))
  {
    hide *;
    var r := Decide(m.layer, p.log, p.clock + m.wait, m.action.c, m.action.matches, m.action.complete).value;
    DecideAnswers(m.layer, p.log, p.clock + m.wait, m.action.c, m.action.matches, m.action.complete);
    ReachedIsSound(p);
    var next := AfterKeeps(p, m);
    DecidingAppends(p.log, p.clock + m.wait, m);
    AfterIs(p, m);
    ContinuesKeeps(After(p, m), later);
    SoundNonces(later.log);
    StateStays(p.log, later.log, m.action.c.state);
    RepeatIsAnswered(later.log, r.1, again, later.clock + wait, m.action.c, matching, completing);
    RepeatIsAnswered(later.log, r.1, again, later.clock + wait, other, matching, completing);
  }

  lemma DecidingAppends(log: Log, now: int, m: Moment)
    requires m.action.Deciding? && Decide(m.layer, log, now, m.action.c, m.action.matches, m.action.complete).Ok?
    ensures LogAfter(log, now, m) == Decide(m.layer, log, now, m.action.c, m.action.matches, m.action.complete).value.0
  {
    hide Decide;
  }

  lemma SoundNonces(log: Log)
    requires Sound(log)
    ensures NoncesUnique(log)
  {
  }

  lemma StateStays(log: Log, later: Log, state: nat)
    requires IsState(log, state) && log <= later
    ensures IsState(later, state)
  {
  }

  // ---- What never comes back -------------------------------------------------------------------

  /** A history that some further moments lead to. */
  ghost predicate Continues(p: Present, later: Present) {
    exists moments: seq<Moment> :: later == Execute(p, moments)
  }

  lemma ContinuesKeeps(p: Present, later: Present)
    requires Sound(p.log) && Continues(p, later)
    ensures Sound(later.log) && p.log <= later.log && p.clock <= later.clock
  {
    var moments :| later == Execute(p, moments);
    ExecuteKeeps(p, moments);
  }

  /** Withdrawn before means withdrawn now, overtaken before means not standing now, and so on. */
  predicate Spent(layer: Layer, log: Log, before: int, later: Log, now: int, d: nat)
    requires IsDecision(log, d) && IsDecision(later, d)
  {
    var status := ClearanceStatus(layer, later, now, d);
    && (Revoked(log, d) ==> status == REVOKED)
    && (Moved(log, d) ==> status in {REVOKED, SUPERSEDED})
    && (BasisLapsed(log, log[d].decision.state, before) ==> status in {REVOKED, SUPERSEDED, LAPSED})
  }

  /** A decision that was withdrawn, overtaken by an observed transition, or whose basis lapsed
      is never VALID again, whatever is appended and whatever the other parts then answer. */
  lemma NeverValidAgain(p: Present, later: Present, layer: Layer, wait: nat, d: nat)
    requires Reached(p) && Continues(p, later) && IsDecision(p.log, d)
    ensures IsDecision(later.log, d) && later.log[d] == p.log[d]
    ensures Spent(layer, p.log, p.clock, later.log, later.clock + wait, d)
  {
    hide *;
    ReachedIsSound(p);
    ContinuesKeeps(p, later);
    StaysSpent(p.log, later.log, p.clock, later.clock + wait, layer, d);
  }

  lemma StaysSpent(log: Log, later: Log, before: int, now: int, layer: Layer, d: nat)
    requires log <= later && before <= now && IsDecision(log, d)
    ensures IsDecision(later, d) && later[d] == log[d] && Spent(layer, log, before, later, now, d)
  {
    if Revoked(log, d) {
      var i :| 0 <= i < |log| && log[i].RevocationEntry? && log[i].revoked == d;
      assert later[i] == log[i];
    }
    if Moved(log, d) {
      var i :| 0 <= i < |log| && log[i].TransitionEntry? && log[i].at > log[d].at && log[i].observed
        && log[i].after != log[d].decision.state;
      assert later[i] == log[i];
    }
  }

  // ---- Enforcement ---------------------------------------------------------------------------------

  /** The acknowledgements of a reachable history: epochs 1, 2, … in order without a gap, each
      one more than its decision expected, and no decision acknowledged twice. */
  lemma AcknowledgementChain(p: Present, i: nat)
    requires Reached(p) && i < |p.log| && p.log[i].AcknowledgementEntry?
    ensures p.log[i].epoch == Acknowledgements(p.log[..i]) + 1
    ensures Epoch(p.log) == Acknowledgements(p.log)
    ensures p.log[i].acknowledged < i && p.log[p.log[i].acknowledged].DecisionEntry?
    ensures var value := p.log[p.log[i].acknowledged].decision;
      value.action == ALLOW && p.log[i].epoch == value.expectedEpoch + 1
    ensures forall j ::
      0 <= j < |p.log| && p.log[j].AcknowledgementEntry? && p.log[j].acknowledged == p.log[i].acknowledged ==> j == i
  {
    ReachedIsSound(p);
    EpochCounts(p.log);
    assert LinkedAt(p.log, i);
    forall j | 0 <= j < |p.log| && p.log[j].AcknowledgementEntry? && p.log[j].acknowledged == p.log[i].acknowledged
      ensures j == i
    {
      assert LinkedAt(p.log, j);
      assert p.log[j - 1].authorization == p.log[i - 1].authorization;
    }
  }

  /** The decision may be activated now: signed statement live, VALID, to ALLOW, every claim
      vouched for, and at the epoch it expected. */
  ghost predicate Activatable(layer: Layer, log: Log, now: int, d: nat) {
    && IsDecision(log, d) && DecisionStatus(layer, log, now, d) == VALID
    && log[d].decision.action == ALLOW && log[d].decision.expiresAt > now
    && log[d].decision.expectedEpoch == Epoch(log)
    && Vouched(layer, log, now, log[d].decision.state)
  }

  /** One step adds an acknowledgement only by an `enforce` call for an activatable decision. */
  lemma AcknowledgedOnlyWhenValid(p: Present, m: Moment, next: Log, i: nat)
    requires Reached(p) && next == LogAfter(p.log, p.clock + m.wait, m)
    requires |p.log| <= i < |next| && next[i].AcknowledgementEntry?
    ensures m.action.Enforcing? && next[i].acknowledged == m.action.e.authorization
    ensures Activatable(m.layer, p.log, p.clock + m.wait, m.action.e.authorization)
  {
    hide *;
    AcknowledgementsComeFromEnforce(p.log, p.clock + m.wait, m, i);
    ReachedIsSound(p);
    EnforceAppends(p.log, p.clock + m.wait, m);
    EnforcedIsActivatable(p, m.layer, p.clock + m.wait, m.action.e.authorization, next);
  }

  lemma EnforcedIsActivatable(p: Present, layer: Layer, now: int, d: nat, next: Log)
    requires Sound(p.log) && Enforced(layer, p.log, now, d, next) && next != p.log
    ensures Activatable(layer, p.log, now, d)
  {
    ValidAllowIsSupported(p, layer, now, d);
    SupportedIsVouched(layer, p.log, now, p.log[d].decision.state);
  }

  lemma AcknowledgementsComeFromEnforce(log: Log, now: int, m: Moment, i: nat)
    requires |log| <= i < |LogAfter(log, now, m)| && LogAfter(log, now, m)[i].AcknowledgementEntry?
    ensures m.action.Enforcing? && LogAfter(log, now, m)[i].acknowledged == m.action.e.authorization
  {
  }

  /** A signed ALLOW lives at most five minutes and never beyond the basis it was issued on. */
  lemma AllowLivesWithinItsBasis(p: Present, layer: Layer, now: int, d: nat)
    requires Reached(p) && d < |p.log| && p.log[d].DecisionEntry? && p.log[d].decision.action == ALLOW
    ensures IsDecision(p.log, d)
    ensures now >= p.log[d].at + STATEMENT_SECONDS ==> DecisionStatus(layer, p.log, now, d) != VALID
    ensures now < p.log[d].decision.expiresAt ==> !BasisLapsed(p.log, p.log[d].decision.state, now)
  {
    ReachedIsSound(p);
    assert Backed(p.log, d);
  }

  // ---- The guarantees are not empty ---------------------------------------------------------------

  function SampleClaim(): Claim {
    Claim(1, {"tool:a"}, Some(Evidence(9, 3, 7)), false, [Captures.Evaluation(Captures.PASS, Captures.SUCCESS)], false)
  }

  function SampleLayer(): Layer {
    Layer((_, _, _) => [SampleClaim()], (_, _) => map[7 := 0], (_, _) => {"pay"}, (_, _, _) => false, (_, _) => [],
          (_, _, _) => true)
  }

  const SAMPLE_ENVELOPE := EnvelopeEntry(0, 1000, {"pay"})
  const SAMPLE_SUPPORT := Support(1, Some(9), CURRENT, Captures.PASS, Captures.SUCCESS, true)

  function SampleState(at: int): Entry { StateEntry(at, 0, 3, None, true, None, Some(7), map[], false) }

  function SampleCase(state: nat, nonce: nat): Case { Case(state, 0, nonce, 6, 8, 0, BLOCK) }

  function SampleDecision(at: int, state: nat, nonce: nat): Entry {
    DecisionEntry(at, Decision(state, 0, nonce, 6, 8, 0, ALLOW, multiset{SAMPLE_SUPPORT}, at + STATEMENT_SECONDS))
  }

  lemma {:induction false} NoChanges(log: Log)
    requires forall i :: 0 <= i < |log| ==> !log[i].ChangeEntry?
    ensures Changes(log) == []
  {
    if log != [] {
      NoChanges(log[..|log| - 1]);
    }
  }

  lemma {:induction false} OneEnvelope(log: Log)
    requires log != [] && log[0].EnvelopeEntry? && forall i :: 1 <= i < |log| ==> !log[i].EnvelopeEntry?
    ensures NewestEnvelope(log) == Some(0)
  {
    if |log| > 1 {
      OneEnvelope(log[..|log| - 1]);
    }
  }

  /** One envelope, then sample states and decisions on them. */
  predicate Sample(log: Log) {
    && log != [] && log[0] == SAMPLE_ENVELOPE
    && forall i :: 1 <= i < |log| ==>
         || (log[i].StateEntry? && log[i] == SampleState(log[i].at))
         || (log[i].DecisionEntry? && IsSampleDecision(log, i))
  }

  predicate IsSampleDecision(log: Log, i: nat)
    requires i < |log| && log[i].DecisionEntry?
  {
    var state := log[i].decision.state;
    && log[i] == SampleDecision(log[i].at, state, log[i].decision.nonce)
    && 1 <= state < i && log[state].StateEntry?
  }

  lemma SampleIsSupported(log: Log, now: int, state: nat)
    requires Sample(log) && 1 <= state < |log| && log[state].StateEntry? && now < 1000
    ensures IsState(log, state) && AllSupported(Project(SampleLayer(), log, now, state))
    ensures SupportDigest(Project(SampleLayer(), log, now, state)) == multiset{SAMPLE_SUPPORT}
  {
    var layer, claim := SampleLayer(), SampleClaim();
    NoChanges(log);
    OneEnvelope(log);
    assert Reasons(layer, log, now, state) == {};
    var base := BaseRow(claim, Surroundings(layer, log, now, state));
    assert claim.exact == [claim.exact[0]];
    BaseSupportedExactlyWhen(claim, Surroundings(layer, log, now, state));
    assert ProjectClaim(layer, log, now, state, claim) == base;
    var rows := Project(layer, log, now, state);
    assert rows == [base];
    assert rows[..0] == [];
    assert SupportOf(base) == SAMPLE_SUPPORT;
  }

  lemma SampleIsWellFormed(log: Log)
    requires Sample(log)
    ensures WellFormed(log)
  {
  }

  lemma SampleStands(log: Log, now: int, d: nat)
    requires Sample(log) && d < |log| && log[d].DecisionEntry? && now < 1000
    ensures IsDecision(log, d) && !Revoked(log, d) && !Moved(log, d) && !BasisLapsed(log, log[d].decision.state, now)
  {
  }

  lemma SampleIsValid(log: Log, now: int, d: nat)
    requires Sample(log) && d < |log| && log[d].DecisionEntry? && now < 1000
    ensures IsDecision(log, d) && ClearanceStatus(SampleLayer(), log, now, d) == VALID && log[d].decision.action == ALLOW
  {
    SampleStands(log, now, d);
    assert IsSampleDecision(log, d);
    SampleIsSupported(log, now, log[d].decision.state);
    hide Project, SupportDigest, Revoked, Moved, BasisLapsed, Sample;
  }

  lemma SampleClears(log: Log, now: int)
    requires Sample(log) && now < 1000 && NewestState(log).Some? && NewestDecision(log, NewestState(log).value).Some?
    ensures WellFormed(log) && Gate(SampleLayer(), log, now, true).cleared
  {
    SampleIsWellFormed(log);
    SampleIsValid(log, now, NewestDecision(log, NewestState(log).value).value);
    hide ClearanceStatus, Sample;
  }

  // ---- Reaching them --------------------------------------------------------------------------------

  lemma ReachedNext(p: Present, m: Moment, log: Log)
    requires Reached(p) && LogAfter(p.log, p.clock + m.wait, m) == log
    ensures Reached(Present(log, p.clock + m.wait + 2))
  {
    hide LogAfter;
    var start, moments :| p == Execute(Present([], start), moments);
    assert (moments + [m])[..|moments|] == moments;
    assert Execute(Present([], start), moments + [m]) == After(p, m);
  }

  lemma AppendingReaches(p: Present, entry: Entry)
    requires Reached(p) && Appendable(p.log, entry) && entry.at == p.clock
    ensures Reached(Present(p.log + [entry], p.clock + 2))
  {
    AppendingAppends(p.log, entry);
    hide LogAfter;
    ReachedNext(p, Moment(SampleLayer(), 0, Appending(entry)), p.log + [entry]);
  }

  lemma AppendingAppends(log: Log, entry: Entry)
    requires Appendable(log, entry)
    ensures LogAfter(log, entry.at, Moment(SampleLayer(), 0, Appending(entry))) == log + [entry]
  {
  }

  lemma DecidingReaches(p: Present, state: nat, nonce: nat)
    requires Reached(p) && Sample(p.log) && 1 <= state < |p.log| && p.log[state].StateEntry? && p.clock < 700
    requires Repeated(p.log, nonce).None?
    ensures Reached(Present(p.log + [SampleDecision(p.clock, state, nonce)], p.clock + 2))
    ensures Sample(p.log + [SampleDecision(p.clock, state, nonce)])
  {
    SampleIsSupported(p.log, p.clock, state);
    SampleIsDecided(p.log, p.clock, state, nonce);
    hide LogAfter, Sample;
    ReachedNext(p, Moment(SampleLayer(), 0, Deciding(SampleCase(state, nonce), true, true)),
                p.log + [SampleDecision(p.clock, state, nonce)]);
  }

  lemma SampleIsDecided(log: Log, now: int, state: nat, nonce: nat)
    requires Sample(log) && 1 <= state < |log| && log[state].StateEntry? && now < 700 && Repeated(log, nonce).None?
    ensures LogAfter(log, now, Moment(SampleLayer(), 0, Deciding(SampleCase(state, nonce), true, true)))
            == log + [SampleDecision(now, state, nonce)]
    ensures Sample(log + [SampleDecision(now, state, nonce)])
  {
    SampleIsSupported(log, now, state);
    hide Project, SupportDigest;
  }

  lemma NothingIsReached()
    ensures Reached(Present([], 0))
  {
    assert Execute(Present([], 0), []) == Present([], 0);
  }

  ghost predicate Clears(p: Present, layer: Layer, now: int) {
    Reached(p) && WellFormed(p.log) && Gate(layer, p.log, now, true).cleared
  }

  /** There is a reachable history in which the Gate clears. */
  lemma GateCanClear()
    ensures exists p: Present, layer: Layer, now: int :: Clears(p, layer, now)
  {
    var stated := [SAMPLE_ENVELOPE, SampleState(2)];
    NothingIsReached();
    AppendingReaches(Present([], 0), SAMPLE_ENVELOPE);
    AppendingReaches(Present([SAMPLE_ENVELOPE], 2), SampleState(2));
    assert [] + [SAMPLE_ENVELOPE] == [SAMPLE_ENVELOPE] && [SAMPLE_ENVELOPE] + [SampleState(2)] == stated;
    hide Gate, Reached;
    DecidingReaches(Present(stated, 4), 1, 5);
    var log := stated + [SampleDecision(4, 1, 5)];
    assert log[..2] == stated;
    SampleClears(log, 10);
    assert Clears(Present(log, 6), SampleLayer(), 10);
  }

  /** The Gate says cleared and the customer is told otherwise. */
  ghost predicate Differs(p: Present, layer: Layer, now: int) {
    Clears(p, layer, now) && ClearanceView(layer, p.log, now) != CLEARED
  }

  function TwoStates(): Log { [SAMPLE_ENVELOPE, SampleState(2), SampleState(4)] }
  function OneDecision(): Log { TwoStates() + [SampleDecision(6, 2, 5)] }
  function TwoDecisions(): Log { OneDecision() + [SampleDecision(8, 1, 7)] }

  lemma TwoStatesReached()
    ensures Reached(Present(TwoStates(), 6)) && Sample(TwoStates())
  {
    NothingIsReached();
    hide Reached;
    AppendingReaches(Present([], 0), SAMPLE_ENVELOPE);
    assert [] + [SAMPLE_ENVELOPE] == [SAMPLE_ENVELOPE];
    AppendingReaches(Present([SAMPLE_ENVELOPE], 2), SampleState(2));
    assert [SAMPLE_ENVELOPE] + [SampleState(2)] == [SAMPLE_ENVELOPE, SampleState(2)];
    AppendingReaches(Present([SAMPLE_ENVELOPE, SampleState(2)], 4), SampleState(4));
    assert [SAMPLE_ENVELOPE, SampleState(2)] + [SampleState(4)] == TwoStates();
  }

  lemma TwoDecisionsReached()
    ensures Reached(Present(TwoDecisions(), 10)) && Sample(TwoDecisions())
  {
    hide Reached, Sample, Repeated;
    TwoStatesReached();
    DecidingReaches(Present(TwoStates(), 6), 2, 5);
    DecidingReaches(Present(OneDecision(), 8), 1, 7);
  }

  lemma TwoDecisionsNewest()
    ensures NewestState(TwoDecisions()) == Some(2) && NewestDecision(TwoDecisions(), 2) == Some(3)
    ensures LatestDecision(TwoDecisions()) == Some(4) && TwoDecisions()[4].decision.state == 1
  {
    var log := TwoDecisions();
    assert log[..4] == OneDecision() && log[..4][..3] == TwoStates();
    assert NewestState(log[..4]) == Some(2) && NewestDecision(log[..4], 2) == Some(3);
  }

  /** There is one such history: the newest state is cleared, and then an older one decided again. */
  lemma GateAndViewCanDiffer()
    ensures exists p: Present, layer: Layer, now: int :: Differs(p, layer, now)
  {
    var p := Present(TwoDecisions(), 10);
    TwoDecisionsReached();
    TwoDecisionsNewest();
    hide Gate, Reached, ClearanceView, TwoDecisions, Sample;
    SampleClears(p.log, 20);
    ViewAgreesWithGate(p, SampleLayer(), 20);
    assert Differs(p, SampleLayer(), 20);
  }
}
