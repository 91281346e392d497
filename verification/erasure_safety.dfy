/** Erasure survives a crash at any point.

    Histories mix attempts at erasure, each cut short after any number of effects, with whatever
    the running service does to organizations that still exist. */
module ErasureSafety {
  import opened Common
  import opened Erasure

  // ---- Invariant -----------------------------------------------------------------------------------

  /** The report is sealed with the present key. */
  predicate Valid(w: World, request: nat) {
    w.key.Key? && request in w.reports && w.reports[request].Sealed? && w.reports[request].sealer == w.key.value
  }

  predicate InScope(m: Manifest) {
    (forall item :: item in m.raw ==> item.org == m.org) && (forall id :: id in m.credentials ==> id.org == m.org)
  }

  /** Nothing the manifest lists is left on disk. */
  predicate Absent(w: World, m: Manifest) {
    (forall item :: item in m.raw ==> item !in w.objects) && (forall id :: id in m.credentials ==> id !in w.secrets)
  }

  predicate Lists(m: Manifest, g: Gone) {
    g.raw <= Elements(m.raw) && g.credentials <= Elements(m.credentials)
  }

  /** The records of an organization are its own. */
  predicate OwnRows(w: World) {
    forall org, row :: org in w.orgs && row in w.orgs[org].rows && row.Credential? ==> row.id.org == org
  }

  predicate ReportsSound(w: World) {
    forall request :: request in w.reports && Valid(w, request) ==>
      var m := w.reports[request].manifest;
      && m.request == request && InScope(m) && (m.org in w.orgs || m.org in w.gone)
      && (m.status == CORE_ERASED ==> m.org in w.gone && Absent(w, m))
  }

  /** An erased organization left an authentic manifest that lists everything it had. */
  predicate Recoverable(w: World) {
    forall org :: org in w.gone ==>
      && org !in w.orgs && Valid(w, w.gone[org].request)
      && w.reports[w.gone[org].request].manifest.org == org
      && Lists(w.reports[w.gone[org].request].manifest, w.gone[org])
  }

  predicate Sound(w: World) { OwnRows(w) && ReportsSound(w) && Recoverable(w) }

  // ---- What a report lists -----------------------------------------------------------------------

  /** The rows' raw objects, each once, and nothing else. */
  lemma {:induction false} RawAre(rows: seq<Row>)
    ensures forall item :: item in RawOf(rows) <==> exists i :: 0 <= i < |rows| && rows[i].Capture? && rows[i].key == item
    ensures Distinct(RawOf(rows))
  {
    if rows != [] {
      var last := |rows| - 1;
      RawAre(rows[..last]);
      assert forall i :: 0 <= i < last ==> rows[..last][i] == rows[i];
      forall item | item in RawOf(rows) ensures exists i :: 0 <= i < |rows| && rows[i].Capture? && rows[i].key == item {
        if item in RawOf(rows[..last]) {
          var i :| 0 <= i < last && rows[..last][i].Capture? && rows[..last][i].key == item;
          assert rows[i].key == item;
        }
      }
      forall i | 0 <= i < |rows| && rows[i].Capture? ensures rows[i].key in RawOf(rows) {
        if i < last {
          assert rows[..last][i].key in RawOf(rows[..last]);
        }
      }
    }
  }

  lemma {:induction false} CredentialsAreListed(rows: seq<Row>)
    ensures forall id :: id in CredentialsOf(rows) <==> exists i :: 0 <= i < |rows| && rows[i].Credential? && rows[i].id == id
  {
    if rows != [] {
      var last := |rows| - 1;
      CredentialsAreListed(rows[..last]);
      assert forall i :: 0 <= i < last ==> rows[..last][i] == rows[i];
      forall i | 0 <= i < |rows| && rows[i].Credential? ensures rows[i].id in CredentialsOf(rows) {
        if i < last {
          assert rows[..last][i].id in CredentialsOf(rows[..last]);
        }
      }
      forall id | id in CredentialsOf(rows)
        ensures exists i :: 0 <= i < |rows| && rows[i].Credential? && rows[i].id == id
      {
        if id in CredentialsOf(rows[..last]) {
          var i :| 0 <= i < last && rows[..last][i].Credential? && rows[..last][i].id == id;
          assert rows[i].id == id;
        }
      }
    }
  }

  /** What an organization's rows referred to, when it goes: every raw object of its captures and every
      credential, and nothing else. */
  lemma ReferredAre(o: Org, request: nat)
    ensures forall item :: item in Referred(o, request).raw <==>
      exists i :: 0 <= i < |o.rows| && o.rows[i].Capture? && o.rows[i].key == item
    ensures forall id :: id in Referred(o, request).credentials <==>
      exists i :: 0 <= i < |o.rows| && o.rows[i].Credential? && o.rows[i].id == id
  {
    RawAre(o.rows);
    CredentialsAreListed(o.rows);
  }

  /** The bytes of a report, from its JSON text: identifiers take 36 characters, digests 64, and a time
      stamp its fraction unless it is whole. A list has a comma before every entry but the first. */
  lemma ReportBytes(n: nat, whole: bool)
    ensures RawBytes(0) == 0 && CredentialBytes(0) == 0
    ensures RawBytes(1) ==
      |"{\"key\":\"raw///.json\",\"run_id\":\"\",\"sha256\":\"\"}"| + 3 * 36 + 2 * 64
    ensures CredentialBytes(1) == |"\"\""| + 36
    ensures n >= 1 ==> RawBytes(n + 1) == RawBytes(n) + |","| + RawBytes(1)
    ensures n >= 1 ==> CredentialBytes(n + 1) == CredentialBytes(n) + |","| + CredentialBytes(1)
    ensures ClosingBytes(whole) ==
      |"CORE_ERASED"| - |"PREPARED"| + |",\"completed_at\":\"\""|
      + (if whole then |"2026-01-01T00:00:00+00:00"| else |"2026-01-01T00:00:00.000000+00:00"|)
  {
  }

  // ---- Effects that keep it ------------------------------------------------------------------------

  /** When one effect is safe. */
  predicate Permitted(w: World, e: Effect) {
    match e
    case CreateKey => w.key.NoKey?
    case FillKey(value) => w.key.TornKey? && forall r :: r in w.reports && w.reports[r].Sealed? ==> w.reports[r].sealer != value
    case WriteTemporary => true
    case Publish(m, sealer) =>
      && w.key == Key(sealer) && InScope(m) && (m.org in w.orgs || m.org in w.gone)
      && (m.status == CORE_ERASED ==> m.org in w.gone && Absent(w, m))
      && forall org :: org in w.gone && w.gone[org].request == m.request ==> m.org == org && Lists(m, w.gone[org])
    case Commit(org, request) =>
      && org in w.orgs && Valid(w, request) && w.reports[request].manifest.org == org
      && Lists(w.reports[request].manifest, Referred(w.orgs[org], request))
    case RemoveObject(item) => item.org in w.gone
    case RemoveSecret(secret) => secret.org in w.gone
  }

  lemma GoneNeedsKey(w: World)
    requires Recoverable(w)
    ensures w.gone.Keys != {} ==> w.key.Key?
  {
    if w.gone.Keys != {} {
      var org :| org in w.gone.Keys;
      assert Valid(w, w.gone[org].request);
    }
  }

  lemma KeyEffectKeeps(w: World, e: Effect)
    requires Sound(w) && Permitted(w, e) && (e.CreateKey? || e.FillKey? || e.WriteTemporary?)
    ensures Sound(Apply(w, e))
  {
    GoneNeedsKey(w);
  }

  lemma PublishKeeps(w: World, e: Effect)
    requires Sound(w) && Permitted(w, e) && e.Publish?
    ensures Sound(Apply(w, e))
  {
  }

  lemma CommitKeeps(w: World, e: Effect)
    requires Sound(w) && Permitted(w, e) && e.Commit?
    ensures Sound(Apply(w, e))
  {
  }

  lemma RemovalKeeps(w: World, e: Effect)
    requires Sound(w) && Permitted(w, e) && (e.RemoveObject? || e.RemoveSecret?)
    ensures Sound(Apply(w, e))
  {
  }

  lemma EffectKeeps(w: World, e: Effect)
    requires Sound(w) && Permitted(w, e)
    ensures Sound(Apply(w, e))
  {
    match e
    case CreateKey => KeyEffectKeeps(w, e);
    case FillKey(_) => KeyEffectKeeps(w, e);
    case WriteTemporary => KeyEffectKeeps(w, e);
    case Publish(_, _) => PublishKeeps(w, e);
    case Commit(_, _) => CommitKeeps(w, e);
    case RemoveObject(_) => RemovalKeeps(w, e);
    case RemoveSecret(_) => RemovalKeeps(w, e);
  }

  /** Every effect is safe where it comes. */
  predicate Safe(w: World, effects: seq<Effect>)
    decreases |effects|
  {
    effects != [] ==> Permitted(w, effects[0]) && Safe(Apply(w, effects[0]), effects[1..])
  }

  /** Any prefix of safe effects keeps the invariant: a crash may come anywhere. */
  lemma {:induction false} CrashKeeps(w: World, effects: seq<Effect>, n: nat)
    requires Sound(w) && Safe(w, effects) && n <= |effects|
    ensures Sound(ApplyAll(w, effects[..n]))
    decreases n
  {
    if n > 0 {
      EffectKeeps(w, effects[0]);
      CrashKeeps(Apply(w, effects[0]), effects[1..], n - 1);
      assert effects[..n][1..] == effects[1..][..n - 1];
    }
  }

  lemma {:induction false} Chained(w: World, first: seq<Effect>, second: seq<Effect>)
    ensures ApplyAll(w, first + second) == ApplyAll(ApplyAll(w, first), second)
    ensures Safe(w, first) && Safe(ApplyAll(w, first), second) ==> Safe(w, first + second)
    decreases |first|
  {
    if first == [] {
      assert first + second == second;
    } else {
      Chained(Apply(w, first[0]), first[1..], second);
      assert (first + second)[1..] == first[1..] + second;
    }
  }

  // ---- Cleanup --------------------------------------------------------------------------------------

  lemma {:induction false} RemovalsRemove(w: World, raw: seq<ObjectKey>)
    ensures ApplyAll(w, Removals(raw)) == w.(objects := w.objects - Elements(raw))
    decreases |raw|
  {
    if raw == [] {
      assert w.objects - Elements(raw) == w.objects;
    } else {
      assert Removals(raw)[1..] == Removals(raw[1..]);
      RemovalsRemove(Apply(w, RemoveObject(raw[0])), raw[1..]);
      assert raw == [raw[0]] + raw[1..];
      assert w.objects - {raw[0]} - Elements(raw[1..]) == w.objects - Elements(raw);
    }
  }

  lemma {:induction false} RemovalsAreSafe(w: World, raw: seq<ObjectKey>)
    requires forall item :: item in raw ==> item.org in w.gone
    ensures Safe(w, Removals(raw))
    decreases |raw|
  {
    if raw != [] {
      assert Removals(raw)[1..] == Removals(raw[1..]);
      RemovalsAreSafe(Apply(w, RemoveObject(raw[0])), raw[1..]);
    }
  }

  lemma {:induction false} SecretRemovalsRemove(w: World, credentials: seq<RecordId>)
    ensures ApplyAll(w, SecretRemovals(credentials)) == w.(secrets := w.secrets - Elements(credentials))
    decreases |credentials|
  {
    if credentials == [] {
      assert w.secrets - Elements(credentials) == w.secrets;
    } else {
      assert SecretRemovals(credentials)[1..] == SecretRemovals(credentials[1..]);
      SecretRemovalsRemove(Apply(w, RemoveSecret(credentials[0])), credentials[1..]);
      assert credentials == [credentials[0]] + credentials[1..];
      assert w.secrets - {credentials[0]} - Elements(credentials[1..]) == w.secrets - Elements(credentials);
    }
  }

  lemma {:induction false} SecretRemovalsAreSafe(w: World, credentials: seq<RecordId>)
    requires forall id :: id in credentials ==> id.org in w.gone
    ensures Safe(w, SecretRemovals(credentials))
    decreases |credentials|
  {
    if credentials != [] {
      assert SecretRemovals(credentials)[1..] == SecretRemovals(credentials[1..]);
      SecretRemovalsAreSafe(Apply(w, RemoveSecret(credentials[0])), credentials[1..]);
    }
  }

  /** What a whole cleanup leaves: no listed file, and a closed report if it can be written. */
  function Cleaned(w: World, m: Manifest, sealer: nat, whole: bool): World {
    w.(objects := w.objects - Elements(m.raw), secrets := w.secrets - Elements(m.credentials),
       reports := if Fits(Closed(m, whole)) then w.reports[m.request := Sealed(Closed(m, whole), sealer)] else w.reports)
  }

  lemma Two(w: World, a: Effect, b: Effect)
    ensures ApplyAll(w, [a, b]) == Apply(Apply(w, a), b)
    ensures Safe(w, [a, b]) <==> Permitted(w, a) && Permitted(Apply(w, a), b)
  {
    assert [a, b][1..] == [b];
    assert ApplyAll(Apply(w, a), [b]) == Apply(Apply(w, a), b);
    assert Safe(Apply(w, a), [b]) <==> Permitted(Apply(w, a), b);
  }

  lemma Three(w: World, a: Effect, b: Effect, c: Effect)
    ensures ApplyAll(w, [a, b, c]) == Apply(Apply(Apply(w, a), b), c)
    ensures Safe(w, [a, b, c]) <==> Permitted(w, a) && Permitted(Apply(w, a), b) && Permitted(Apply(Apply(w, a), b), c)
  {
    assert [a, b, c][1..] == [b, c];
    Two(Apply(w, a), b, c);
  }

  lemma WritingWrites(w: World, m: Manifest, sealer: nat)
    ensures ApplyAll(w, Writing(m, sealer)) ==
      if Fits(m) then w.(reports := w.reports[m.request := Sealed(m, sealer)]) else w
    ensures Permitted(w.(litter := w.litter + 1), Publish(m, sealer)) ==> Safe(w, Writing(m, sealer))
  {
    Two(w, WriteTemporary, Publish(m, sealer));
    NothingIsSafe(w);
  }

  /** The manifest may close the erasure of what its organization left. */
  predicate Closes(w: World, m: Manifest, sealer: nat) {
    && w.key == Key(sealer) && InScope(m) && m.org in w.gone
    && forall org :: org in w.gone && w.gone[org].request == m.request ==> m.org == org && Lists(m, w.gone[org])
  }

  lemma CleanupCleans(w: World, m: Manifest, sealer: nat, whole: bool)
    requires m.status == PREPARED
    ensures ApplyAll(w, Cleanup(m, sealer, whole)) == Cleaned(w, m, sealer, whole)
    ensures Closes(w, m, sealer) ==> Safe(w, Cleanup(m, sealer, whole))
  {
    var objectsGone := w.(objects := w.objects - Elements(m.raw));
    var filesGone := objectsGone.(secrets := w.secrets - Elements(m.credentials));
    var erased := Closed(m, whole);
    RemovalsRemove(w, m.raw);
    SecretRemovalsRemove(objectsGone, m.credentials);
    Chained(w, Removals(m.raw), SecretRemovals(m.credentials));
    Chained(w, Removals(m.raw) + SecretRemovals(m.credentials), Writing(erased, sealer));
    WritingWrites(filesGone, erased, sealer);
    hide Safe, ApplyAll, Writing;
    if Closes(w, m, sealer) {
      RemovalsAreSafe(w, m.raw);
      SecretRemovalsAreSafe(objectsGone, m.credentials);
      assert Permitted(filesGone.(litter := w.litter + 1), Publish(erased, sealer));
    }
  }

  // ---- The whole command ----------------------------------------------------------------------------

  /** A key nobody has sealed with. */
  predicate Unused(w: World, value: nat) {
    forall r :: r in w.reports && w.reports[r].Sealed? ==> w.reports[r].sealer != value
  }

  lemma {:induction false} RawIs(rows: seq<Row>, org: nat)
    requires forall row :: row in rows ==> Local(org, row)
    ensures forall item :: item in RawOf(rows) ==> item.org == org
  {
    if rows != [] {
      RawIs(rows[..|rows| - 1], org);
      assert rows[|rows| - 1] in rows;
    }
  }

  lemma {:induction false} CredentialsAre(rows: seq<Row>, org: nat)
    requires forall row :: row in rows && row.Credential? ==> row.id.org == org
    ensures forall id :: id in CredentialsOf(rows) ==> id.org == org
  {
    if rows != [] {
      CredentialsAre(rows[..|rows| - 1], org);
      assert rows[|rows| - 1] in rows;
    }
  }

  lemma ReportOfGone(w: World, org: nat)
    requires Recoverable(w) && org in w.gone
    ensures org !in w.orgs && Valid(w, w.gone[org].request) && w.reports[w.gone[org].request].manifest.org == org
  {
  }

  /** The effects of a first run on an existing organization. */
  lemma CommitIsSafe(w: World, org: nat, request: nat, sealer: nat, layout: Layout)
    requires Sound(w) && w.key == Key(sealer) && org in w.orgs && Erasable(w.orgs[org], org, request)
    requires request in w.reports ==> Authentic(w, org, request)
    ensures var m := Prepared(w.orgs[org], org, request, layout.frame);
      var effects := [WriteTemporary, Publish(m, sealer), Commit(org, request)];
      && Safe(w, effects)
      && Closes(ApplyAll(w, effects), m, sealer)
      && ApplyAll(w, effects) == w.(reports := w.reports[request := Sealed(m, sealer)], orgs := w.orgs - {org},
                                    gone := w.gone[org := Referred(w.orgs[org], request)])
  {
    var m := Prepared(w.orgs[org], org, request, layout.frame);
    var effects := [WriteTemporary, Publish(m, sealer), Commit(org, request)];
    RawIs(w.orgs[org].rows, org);
    CredentialsAre(w.orgs[org].rows, org);
    Three(w, effects[0], effects[1], effects[2]);
    hide Safe, ApplyAll;
    var first := Apply(w, effects[0]);
    var second := Apply(first, effects[1]);
    forall other | other in w.gone ensures w.gone[other].request != request {
      ReportOfGone(w, other);
    }
    assert Permitted(first, effects[1]);
    assert Permitted(second, effects[2]);
  }

  lemma ProceedIsSafe(w: World, org: nat, request: nat, sealer: nat, layout: Layout)
    requires Sound(w) && w.key == Key(sealer)
    requires request in w.reports ==> Authentic(w, org, request)
    ensures Safe(w, Proceed(w, org, request, sealer, layout).effects)
  {
    hide Safe, ApplyAll, Cleanup;
    if org in w.orgs {
      var m := Prepared(w.orgs[org], org, request, layout.frame);
      if Erasable(w.orgs[org], org, request) && Fits(m) {
        var effects := [WriteTemporary, Publish(m, sealer), Commit(org, request)];
        CommitIsSafe(w, org, request, sealer, layout);
        CleanupCleans(ApplyAll(w, effects), m, sealer, layout.whole);
        Chained(w, effects, Cleanup(m, sealer, layout.whole));
      } else {
        NothingIsSafe(w);
      }
    } else if request in w.reports {
      assert Valid(w, request);
      RepeatIsSafe(w, org, request, sealer, layout.whole);
    } else {
      NothingIsSafe(w);
    }
  }

  lemma NothingIsSafe(w: World)
    ensures Safe(w, []) && ApplyAll(w, []) == w
  {
  }

  /** A manifest left by an earlier run may close the erasure it began. */
  lemma RepeatIsSafe(w: World, org: nat, request: nat, sealer: nat, whole: bool)
    requires Sound(w) && w.key == Key(sealer) && request in w.reports && Authentic(w, org, request) && org in w.gone
    ensures Safe(w, Cleanup(w.reports[request].manifest, sealer, whole))
  {
    var m := w.reports[request].manifest;
    hide Safe, ApplyAll;
    if m.status == CORE_ERASED {
      NothingIsSafe(w);
    } else {
      assert Valid(w, request);
      CleanupCleans(w, m, sealer, whole);
      forall other | other in w.gone && w.gone[other].request == request ensures other == org {
        ReportOfGone(w, other);
      }
      assert Closes(w, m, sealer);
    }
  }

  lemma EraseIsSafe(w: World, org: nat, request: nat, random: nat, layout: Layout)
    requires Sound(w) && Unused(w, random)
    ensures Safe(w, Erase(w, org, request, random, layout).effects)
  {
    hide Safe, ApplyAll, Proceed;
    NothingIsSafe(w);
    if request in w.reports {
      if Authentic(w, org, request) {
        ProceedIsSafe(w, org, request, w.key.value, layout);
      }
    } else if w.key.Key? {
      ProceedIsSafe(w, org, request, w.key.value, layout);
    } else if w.key.NoKey? {
      var keyed := w.(key := Key(random));
      KeyIsMade(w, random);
      ProceedIsSafe(keyed, org, request, random, layout);
      SamePlan(w, keyed, org, request, random, layout);
      Chained(w, [CreateKey, FillKey(random)], Proceed(w, org, request, random, layout).effects);
    }
  }

  lemma KeyIsMade(w: World, random: nat)
    requires Sound(w) && Unused(w, random) && w.key.NoKey?
    ensures Safe(w, [CreateKey, FillKey(random)]) && ApplyAll(w, [CreateKey, FillKey(random)]) == w.(key := Key(random))
    ensures Sound(w.(key := Key(random)))
  {
    Two(w, CreateKey, FillKey(random));
    KeyEffectKeeps(w, CreateKey);
    KeyEffectKeeps(Apply(w, CreateKey), FillKey(random));
  }

  lemma SamePlan(w: World, keyed: World, org: nat, request: nat, sealer: nat, layout: Layout)
    requires w.orgs == keyed.orgs && w.reports == keyed.reports
    ensures Proceed(w, org, request, sealer, layout) == Proceed(keyed, org, request, sealer, layout)
  {
  }

  // ---- Histories ------------------------------------------------------------------------------------

  /** What the running service may do meanwhile: anything to existing organizations, nothing to
      erased ones, and nothing to the erasure's own files. */
  predicate Elsewhere(w: World, next: World) {
    && next.key == w.key && next.reports == w.reports && next.gone == w.gone && OwnRows(next)
    && w.orgs.Keys <= next.orgs.Keys && next.orgs.Keys * w.gone.Keys == {}
    && (forall item :: item in next.objects && item !in w.objects ==> item.org !in w.gone)
    && (forall id :: id in next.secrets && id !in w.secrets ==> id.org !in w.gone)
  }

  datatype Turn =
    | Attempt(org: nat, request: nat, random: nat, layout: Layout, crashAfter: nat)
    | Meanwhile(next: World)

  /** The effects an attempt gets to before it crashes. */
  function Reached(w: World, t: Turn): seq<Effect>
    requires t.Attempt?
  {
    var effects := Erase(w, t.org, t.request, t.random, t.layout).effects;
    if t.crashAfter < |effects| then effects[..t.crashAfter] else effects
  }

  function Next(w: World, t: Turn): World {
    match t
    case Attempt(_, _, random, _, _) => if Unused(w, random) then ApplyAll(w, Reached(w, t)) else w
    case Meanwhile(next) => if Elsewhere(w, next) then next else w
  }

  function After(w: World, turns: seq<Turn>): World {
    if turns == [] then w else Next(After(w, turns[..|turns| - 1]), turns[|turns| - 1])
  }

  lemma MeanwhileKeeps(w: World, next: World)
    requires Sound(w) && Elsewhere(w, next)
    ensures Sound(next)
  {
    forall org | org in next.gone ensures org !in next.orgs {
      assert org !in next.orgs.Keys * w.gone.Keys;
    }
  }

  lemma NextKeeps(w: World, t: Turn)
    requires Sound(w)
    ensures Sound(Next(w, t))
  {
    if t.Meanwhile? {
      if Elsewhere(w, t.next) {
        MeanwhileKeeps(w, t.next);
      }
    } else if Unused(w, t.random) {
      var effects := Erase(w, t.org, t.request, t.random, t.layout).effects;
      EraseIsSafe(w, t.org, t.request, t.random, t.layout);
      hide Erase, Safe, ApplyAll;
      if t.crashAfter < |effects| {
        CrashKeeps(w, effects, t.crashAfter);
      } else {
        CrashKeeps(w, effects, |effects|);
        assert effects[..|effects|] == effects;
      }
    }
  }

  /** Before any erasure: no key, no report, nothing gone. */
  predicate Untouched(w: World) { OwnRows(w) && w.key.NoKey? && w.reports == map[] && w.gone == map[] }

  /** Crash safety: however many attempts were cut short and wherever, every organization whose
      row is gone left an authentic manifest that lists every raw object and local credential
      its rows referred to. */
  lemma {:induction false} ErasedMeansListed(w: World, turns: seq<Turn>)
    requires Untouched(w)
    ensures Sound(After(w, turns))
    ensures forall org :: org in After(w, turns).gone ==>
      Authentic(After(w, turns), org, After(w, turns).gone[org].request)
      && Lists(After(w, turns).reports[After(w, turns).gone[org].request].manifest, After(w, turns).gone[org])
  {
    if turns != [] {
      ErasedMeansListed(w, turns[..|turns| - 1]);
      NextKeeps(After(w, turns[..|turns| - 1]), turns[|turns| - 1]);
    }
    var last := After(w, turns);
    hide After;
    forall org | org in last.gone ensures Authentic(last, org, last.gone[org].request) {
      ReportOfGone(last, org);
    }
  }

  // ---- Running to the end ---------------------------------------------------------------------------

  /** Nothing an erased organization had is left on disk. */
  predicate Gathered(w: World, g: Gone) { g.raw * w.objects == {} && g.credentials * w.secrets == {} }

  /** What a run leaves alone: other organizations' rows and files. */
  predicate Spared(w: World, next: World, org: nat) {
    && (forall other :: other != org && other in w.orgs ==> other in next.orgs && next.orgs[other] == w.orgs[other])
    && (forall item :: item in w.objects && item.org != org ==> item in next.objects)
    && (forall id :: id in w.secrets && id.org != org ==> id in next.secrets)
  }

  /** A run to the end leaves the report closed, or its command refused for ever. */
  predicate Finished(next: World, org: nat, request: nat, plan: Plan) {
    if plan.refused then Authentic(next, org, request) && next.reports[request].manifest.status == PREPARED
    else Authentic(next, org, request) && next.reports[request].manifest.status == CORE_ERASED
  }

  lemma CleanedGathers(w: World, m: Manifest, sealer: nat, whole: bool, g: Gone)
    requires Lists(m, g)
    ensures Gathered(Cleaned(w, m, sealer, whole), g)
  {
  }

  lemma CleanedSpares(w: World, committed: World, m: Manifest, sealer: nat, whole: bool)
    requires InScope(m) && committed.objects == w.objects && committed.secrets == w.secrets
    requires committed.orgs == w.orgs || committed.orgs == w.orgs - {m.org}
    ensures Spared(w, Cleaned(committed, m, sealer, whole), m.org)
  {
  }

  /** Repeating the request after a crash always removes everything the organization had and
      touches nothing else; the report closes, and the command is accepted, exactly when the
      closing report fits. */
  lemma RepeatFinishes(w: World, org: nat, random: nat, layout: Layout)
    requires Sound(w) && org in w.gone
    ensures var request := w.gone[org].request;
      var plan := Erase(w, org, request, random, layout);
      var next := ApplyAll(w, plan.effects);
      && next.gone == w.gone && next.orgs == w.orgs && Gathered(next, w.gone[org]) && Spared(w, next, org)
      && Authentic(w, org, request) && Finished(next, org, request, plan)
      && (plan.refused <==> !Closable(w.reports[request].manifest, layout.whole))
  {
    var request := w.gone[org].request;
    ReportOfGone(w, org);
    var m := w.reports[request].manifest;
    assert Lists(m, w.gone[org]) && InScope(m);
    if m.status == PREPARED {
      CleanupCleans(w, m, w.key.value, layout.whole);
      CleanedGathers(w, m, w.key.value, layout.whole, w.gone[org]);
      CleanedSpares(w, w, m, w.key.value, layout.whole);
    } else {
      NothingIsSafe(w);
    }
    hide ApplyAll, Cleanup, Sound, Lists, InScope;
  }

  /** After a run to the end, a further repetition changes nothing: it is accepted at once if the
      report closed, and refused again if the report still cannot. */
  lemma FurtherRepetition(w: World, org: nat, random: nat, layout: Layout)
    requires Sound(w) && org in w.gone
    requires var m := w.reports[w.gone[org].request].manifest; Absent(w, m)
    ensures var request := w.gone[org].request;
      var m := w.reports[request].manifest;
      var plan := Erase(w, org, request, random, layout);
      && (m.status == CORE_ERASED ==> plan == Plan([], false))
      && (!Closable(m, layout.whole) ==> plan.refused && ApplyAll(w, plan.effects) == w)
  {
    var request := w.gone[org].request;
    ReportOfGone(w, org);
    var m := w.reports[request].manifest;
    if !Closable(m, layout.whole) {
      CleanupCleans(w, m, w.key.value, layout.whole);
      assert w.objects - Elements(m.raw) == w.objects;
      assert w.secrets - Elements(m.credentials) == w.secrets;
    }
    hide ApplyAll, Cleanup;
  }

  /** The key made, the report prepared and the row gone. */
  function Committed(w: World, org: nat, request: nat, m: Manifest, sealer: nat): World
    requires org in w.orgs
  {
    w.(key := Key(sealer), reports := w.reports[request := Sealed(m, sealer)], orgs := w.orgs - {org},
       gone := w.gone[org := Referred(w.orgs[org], request)])
  }

  /** The world after a first run that is not cut short. */
  lemma FirstRunIs(w: World, org: nat, request: nat, random: nat, layout: Layout)
    requires Sound(w) && Unused(w, random) && org in w.orgs && Erasable(w.orgs[org], org, request)
    requires Fits(Prepared(w.orgs[org], org, request, layout.frame))
    requires !w.key.TornKey? && (request in w.reports ==> Authentic(w, org, request))
    ensures var plan := Erase(w, org, request, random, layout);
      var sealer := if w.key.NoKey? then random else w.key.value;
      var m := Prepared(w.orgs[org], org, request, layout.frame);
      && plan.refused == !Closable(m, layout.whole)
      && ApplyAll(w, plan.effects) == Cleaned(Committed(w, org, request, m, sealer), m, sealer, layout.whole)
  {
    var keyed := if w.key.NoKey? then w.(key := Key(random)) else w;
    var sealer := keyed.key.value;
    var m := Prepared(w.orgs[org], org, request, layout.frame);
    var effects := [WriteTemporary, Publish(m, sealer), Commit(org, request)];
    if w.key.NoKey? {
      KeyIsMade(w, random);
      Chained(w, [CreateKey, FillKey(random)], Proceed(w, org, request, random, layout).effects);
    }
    CommitIsSafe(keyed, org, request, sealer, layout);
    CleanupCleans(ApplyAll(keyed, effects), m, sealer, layout.whole);
    Chained(keyed, effects, Cleanup(m, sealer, layout.whole));
    hide ApplyAll, Cleanup, Safe, Sound, Closes, Cleaned;
  }

  lemma CommittedFinishes(w: World, org: nat, request: nat, m: Manifest, sealer: nat, whole: bool)
    requires org in w.orgs && m.org == org && m.request == request && InScope(m) && m.status == PREPARED
    requires Lists(m, Referred(w.orgs[org], request))
    ensures var next := Cleaned(Committed(w, org, request, m, sealer), m, sealer, whole);
      && org !in next.orgs && org in next.gone && next.gone[org] == Referred(w.orgs[org], request)
      && Gathered(next, next.gone[org]) && Spared(w, next, org) && Authentic(next, org, request)
      && next.reports[request].manifest.status == if Closable(m, whole) then CORE_ERASED else PREPARED
  {
    var committed := Committed(w, org, request, m, sealer);
    CleanedGathers(committed, m, sealer, whole, committed.gone[org]);
    CleanedSpares(w, committed, m, sealer, whole);
    hide Gathered, Spared;
  }

  /** The size the closing report of a first run would have, from what the rows refer to. */
  function ClosingSize(o: Org, layout: Layout): nat {
    layout.frame + ClosingBytes(layout.whole) + RawBytes(|RawOf(o.rows)|) + CredentialBytes(|CredentialsOf(o.rows)|)
  }

  /** A first run that is not cut short erases the row and everything the rows referred to, and
      nothing of others; it is accepted, with its report closed, exactly when the closing report
      is within the limit. */
  lemma FirstRunFinishes(w: World, org: nat, request: nat, random: nat, layout: Layout)
    requires Sound(w) && Unused(w, random) && org in w.orgs && Erasable(w.orgs[org], org, request)
    requires Fits(Prepared(w.orgs[org], org, request, layout.frame))
    requires !w.key.TornKey? && (request in w.reports ==> Authentic(w, org, request))
    ensures var plan := Erase(w, org, request, random, layout);
      var next := ApplyAll(w, plan.effects);
      && org !in next.orgs && org in next.gone
      && next.gone[org] == Referred(w.orgs[org], request) && Gathered(next, next.gone[org]) && Spared(w, next, org)
      && (plan.refused <==> ClosingSize(w.orgs[org], layout) > MAX_MANIFEST_BYTES)
      && Finished(next, org, request, plan)
  {
    var sealer := if w.key.NoKey? then random else w.key.value;
    var m := Prepared(w.orgs[org], org, request, layout.frame);
    FirstRunIs(w, org, request, random, layout);
    RawIs(w.orgs[org].rows, org);
    CredentialsAre(w.orgs[org].rows, org);
    CommittedFinishes(w, org, request, m, sealer, layout.whole);
    hide ApplyAll, Erase, Cleaned, Committed, Gathered, Spared, Sound;
  }

  /** The exact conditions under which the command refuses, and how little a refusal does unless
      it is the closing report that does not fit. */
  lemma RefusedExactlyWhen(w: World, org: nat, request: nat, random: nat, layout: Layout)
    ensures Erase(w, org, request, random, layout).refused <==>
      || (request in w.reports && !Authentic(w, org, request))
      || w.key.TornKey?
      || (if org in w.orgs
          then !Erasable(w.orgs[org], org, request) || ClosingSize(w.orgs[org], layout) > MAX_MANIFEST_BYTES
          else request !in w.reports || !Closable(w.reports[request].manifest, layout.whole))
    ensures var plan := Erase(w, org, request, random, layout);
      (plan.refused && org in w.orgs && Commit(org, request) !in plan.effects) ==>
      (plan.effects == [] || (w.key.NoKey? && plan.effects == [CreateKey, FillKey(random)]))
  {
    hide Cleanup, Erasable;
    if org in w.orgs {
      var m := Prepared(w.orgs[org], org, request, layout.frame);
      assert [WriteTemporary, Publish(m, 0), Commit(org, request)][2] == Commit(org, request);
    }
  }

  /** An organization goes only by an attempt that names it and its own pending request, with no
      provider, repository or delivery outstanding and every file it refers to local and its own. */
  lemma OnlyTheRequestedGo(w: World, t: Turn, org: nat)
    requires Sound(w) && org in w.orgs && org !in Next(w, t).orgs
    ensures t.Attempt? && t.org == org && w.orgs[org].pending == Some(t.request)
    ensures !w.orgs[org].billed && !w.orgs[org].bound && !w.orgs[org].delivering
    ensures forall row :: row in w.orgs[org].rows ==>
      && !row.GitHubRow?
      && (row.Capture? ==> row.local && row.key == ObjectKey(org, row.run, row.digest))
      && (row.Credential? ==> row.local && row.id.org == org)
  {
    if t.Attempt? {
      hide ApplyAll;
      OthersAreSpared(w, t);
      if org == t.org && !Erasable(w.orgs[org], org, t.request) {
        NothingGoes(w, t);
      }
    }
  }

  lemma NothingGoes(w: World, t: Turn)
    requires t.Attempt? && t.org in w.orgs && !Erasable(w.orgs[t.org], t.org, t.request)
    ensures Next(w, t).orgs == w.orgs
  {
    var effects := Erase(w, t.org, t.request, t.random, t.layout).effects;
    assert forall e :: e in effects ==> e == CreateKey || e == FillKey(t.random);
    assert forall e :: e in Reached(w, t) ==> e in effects;
    KeyingKeepsOrgs(w, Reached(w, t));
  }

  lemma {:induction false} KeyingKeepsOrgs(w: World, effects: seq<Effect>)
    requires forall e :: e in effects ==> e.CreateKey? || e.FillKey?
    ensures ApplyAll(w, effects).orgs == w.orgs
    decreases |effects|
  {
    if effects != [] {
      assert effects[0] in effects;
      KeyingKeepsOrgs(Apply(w, effects[0]), effects[1..]);
    }
  }

  /** A crash between creating the key file and filling it blocks every later erasure: the file
      is never written again, whatever is asked, until an operator removes it. */
  lemma {:induction false} TornKeyBlocksErasure(w: World, turns: seq<Turn>)
    requires w.key.TornKey?
    ensures After(w, turns).key.TornKey? && After(w, turns).orgs.Keys >= w.orgs.Keys
  {
    if turns != [] {
      TornKeyBlocksErasure(w, turns[..|turns| - 1]);
      var before := After(w, turns[..|turns| - 1]);
      var t := turns[|turns| - 1];
      if t.Attempt? {
        assert Erase(before, t.org, t.request, t.random, t.layout) == Plan([], true);
        NothingIsSafe(before);
      }
    }
  }

  /** A first attempt that dies after its first effect leaves a torn key, whatever it was to erase:
      from there no organization can be erased any more. */
  lemma CrashTearsTheKey(w: World, t: Turn, turns: seq<Turn>)
    requires Untouched(w) && t.Attempt? && t.crashAfter == 1
    ensures Next(w, t) == w.(key := TornKey)
    ensures After(Next(w, t), turns).key.TornKey? && After(Next(w, t), turns).orgs.Keys >= w.orgs.Keys
  {
    var effects := Erase(w, t.org, t.request, t.random, t.layout).effects;
    assert effects[0] == CreateKey && effects[..1] == [CreateKey] && [CreateKey][1..] == [];
    assert ApplyAll(w, [CreateKey]) == Apply(w, CreateKey);
    TornKeyBlocksErasure(Next(w, t), turns);
  }

  // ---- A report that cannot close ---------------------------------------------------------------------

  /** The organization is erased, but its report has no room for the closing entry. */
  predicate Stuck(w: World, org: nat, request: nat) {
    && org in w.gone && org !in w.orgs && Authentic(w, org, request)
    && !Closable(w.reports[request].manifest, true)
  }

  predicate Leaves(e: Effect, request: nat) {
    !e.CreateKey? && !e.FillKey? && (e.Publish? ==> e.manifest.request != request)
  }

  lemma {:induction false} LeavesTheReport(w: World, effects: seq<Effect>, request: nat)
    requires request in w.reports && forall e :: e in effects ==> Leaves(e, request)
    ensures var next := ApplyAll(w, effects);
      next.key == w.key && request in next.reports && next.reports[request] == w.reports[request]
      && w.gone.Keys <= next.gone.Keys && next.orgs.Keys <= w.orgs.Keys
    decreases |effects|
  {
    if effects != [] {
      assert effects[0] in effects;
      LeavesTheReport(Apply(w, effects[0]), effects[1..], request);
    }
  }

  lemma StuckIsLeft(w: World, org: nat, request: nat, t: Turn)
    requires Stuck(w, org, request) && t.Attempt?
    ensures forall e :: e in Erase(w, t.org, t.request, t.random, t.layout).effects ==> Leaves(e, request)
  {
    if t.request in w.reports && Authentic(w, t.org, t.request) {
      CleanupLeaves(w.reports[t.request].manifest, w.key.value, t.layout.whole, request);
    }
    if t.org in w.orgs {
      CleanupLeaves(Prepared(w.orgs[t.org], t.org, t.request, t.layout.frame), w.key.value, t.layout.whole, request);
    }
    hide Cleanup;
  }

  lemma CleanupLeaves(m: Manifest, sealer: nat, whole: bool, request: nat)
    ensures m.request != request || !Closable(m, true) ==>
      forall e :: e in Cleanup(m, sealer, whole) ==> Leaves(e, request)
  {
    assert forall e :: e in Removals(m.raw) ==> Leaves(e, request);
    assert forall e :: e in SecretRemovals(m.credentials) ==> Leaves(e, request);
  }

  /** A report without room for the closing entry never closes: the same request is refused at
      every later moment, whatever else is asked or goes on. */
  lemma {:induction false} StuckForEver(w: World, turns: seq<Turn>, org: nat, request: nat, random: nat, layout: Layout)
    requires Stuck(w, org, request)
    ensures Stuck(After(w, turns), org, request)
    ensures After(w, turns).reports[request] == w.reports[request]
    ensures Erase(After(w, turns), org, request, random, layout).refused
  {
    if turns != [] {
      StuckForEver(w, turns[..|turns| - 1], org, request, random, layout);
      var before, t := After(w, turns[..|turns| - 1]), turns[|turns| - 1];
      if t.Attempt? {
        StuckIsLeft(before, org, request, t);
        hide Erase, ApplyAll;
        assert forall e :: e in Reached(before, t) ==> Leaves(e, request);
        LeavesTheReport(before, Reached(before, t), request);
      } else if Elsewhere(before, t.next) {
        assert org !in t.next.orgs.Keys * before.gone.Keys;
      }
    }
    hide After;
  }

  /** As many local credentials as a report with this fixed part can list. */
  function Most(frame: nat): nat
    requires frame + 38 <= MAX_MANIFEST_BYTES
  {
    (MAX_MANIFEST_BYTES - frame + 1) / 39
  }

  function Listed(org: nat, n: nat): seq<Row> {
    if n == 0 then [] else Listed(org, n - 1) + [Credential(RecordId(org, n - 1), true)]
  }

  function Crowded(org: nat, request: nat, n: nat): World {
    World(map[org := Org(Listed(org, n), Some(request), false, false, false)], NoKey, map[], 0, {}, {}, map[])
  }

  lemma {:induction false} ListedRows(org: nat, n: nat)
    ensures |Listed(org, n)| == n
    ensures RawOf(Listed(org, n)) == [] && |CredentialsOf(Listed(org, n))| == n
    ensures forall row :: row in Listed(org, n) ==> Local(org, row) && row.Credential? && row.id.org == org
  {
    if n > 0 {
      ListedRows(org, n - 1);
      assert Listed(org, n)[..n - 1] == Listed(org, n - 1);
    }
  }

  /** That happens: whatever its fixed part, a report can be small enough to prepare the erasure and
      too large to close it. The organization goes, and its request is refused for ever. */
  lemma ClosingCanFail(org: nat, request: nat, random: nat, layout: Layout, turns: seq<Turn>, later: Layout)
    requires layout.frame + 38 <= MAX_MANIFEST_BYTES
    ensures var w := Crowded(org, request, Most(layout.frame));
      var plan := Erase(w, org, request, random, layout);
      var next := ApplyAll(w, plan.effects);
      && Untouched(w) && Erasable(w.orgs[org], org, request)
      && plan.refused && Stuck(next, org, request) && Gathered(next, next.gone[org])
      && Erase(After(next, turns), org, request, random, later).refused
  {
    var n := Most(layout.frame);
    var w := Crowded(org, request, n);
    ListedRows(org, n);
    var next := ApplyAll(w, Erase(w, org, request, random, layout).effects);
    FirstRunIs(w, org, request, random, layout);
    FirstRunFinishes(w, org, request, random, layout);
    hide Erase, ApplyAll;
    StuckForEver(next, turns, org, request, random, later);
  }

  // ---- Other organizations ----------------------------------------------------------------------------

  predicate Within(e: Effect, org: nat) {
    match e
    case Commit(o, _) => o == org
    case RemoveObject(item) => item.org == org
    case RemoveSecret(id) => id.org == org
    case _ => true
  }

  lemma {:induction false} WithinSpares(w: World, effects: seq<Effect>, org: nat)
    requires forall e :: e in effects ==> Within(e, org)
    ensures Spared(w, ApplyAll(w, effects), org)
    decreases |effects|
  {
    if effects != [] {
      assert effects[0] in effects;
      WithinSpares(Apply(w, effects[0]), effects[1..], org);
    }
  }

  lemma CleanupIsWithin(m: Manifest, sealer: nat, whole: bool)
    requires InScope(m)
    ensures forall e :: e in Cleanup(m, sealer, whole) ==> Within(e, m.org)
  {
    forall e | e in Removals(m.raw) ensures Within(e, m.org) {
    }
    forall e | e in SecretRemovals(m.credentials) ensures Within(e, m.org) {
    }
  }

  lemma ProceedIsWithin(w: World, org: nat, request: nat, sealer: nat, layout: Layout)
    requires OwnRows(w)
    requires request in w.reports ==>
      w.reports[request].Sealed? && InScope(w.reports[request].manifest) && w.reports[request].manifest.org == org
    ensures forall e :: e in Proceed(w, org, request, sealer, layout).effects ==> Within(e, org)
  {
    if org !in w.orgs {
      if request in w.reports {
        CleanupIsWithin(w.reports[request].manifest, sealer, layout.whole);
      }
    } else if Erasable(w.orgs[org], org, request) {
      RawIs(w.orgs[org].rows, org);
      CredentialsAre(w.orgs[org].rows, org);
      CleanupIsWithin(Prepared(w.orgs[org], org, request, layout.frame), sealer, layout.whole);
    }
    hide Cleanup, InScope, OwnRows;
  }

  lemma EraseIsWithin(w: World, org: nat, request: nat, random: nat, layout: Layout)
    requires Sound(w)
    ensures forall e :: e in Erase(w, org, request, random, layout).effects ==> Within(e, org)
  {
    if request in w.reports && Authentic(w, org, request) {
      assert Valid(w, request);
      ProceedIsWithin(w, org, request, w.key.value, layout);
    } else if request !in w.reports {
      ProceedIsWithin(w, org, request, if w.key.Key? then w.key.value else random, layout);
    }
    hide Proceed, Sound;
  }

  /** No attempt, finished or cut short anywhere, touches another organization's rows or files. */
  lemma OthersAreSpared(w: World, t: Turn)
    requires Sound(w) && t.Attempt?
    ensures Spared(w, Next(w, t), t.org)
  {
    EraseIsWithin(w, t.org, t.request, t.random, t.layout);
    hide Erase, ApplyAll;
    if Unused(w, t.random) {
      assert forall e :: e in Reached(w, t) ==> e in Erase(w, t.org, t.request, t.random, t.layout).effects;
      WithinSpares(w, Reached(w, t), t.org);
    }
  }
}
