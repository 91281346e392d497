/** Erasure of one organization across a database and a disk.

    Models `erase_local_organization`, `_key`, `_write_report`, `_load_report`,
    `_validate_manifest` and `_cleanup` of `erasure.py` as a list of effects, any prefix of
    which may be all that happens before a crash. A database transaction is one effect, and so
    is the replacement of a file. A seal names the key that made it; the roots are fixed. */
module Erasure {
  import opened Common

  /** A raw object's key names its organization, run and digest. */
  datatype ObjectKey = ObjectKey(org: nat, run: nat, digest: nat)

  /** A record identifier belongs to one organization and is never given again. */
  datatype RecordId = RecordId(org: nat, serial: nat)

  datatype Row =
    | Capture(run: nat, digest: nat, key: ObjectKey, local: bool)
    | Credential(id: RecordId, local: bool)
    | GitHubRow
    | OtherRow

  /** `billed` and `delivering` stand for provider billing and attempted outbox rows. */
  datatype Org = Org(rows: seq<Row>, pending: Option<nat>, billed: bool, bound: bool, delivering: bool)

  datatype Status = PREPARED | CORE_ERASED

  /** `frame` is the size of the sealed report apart from its two listings. */
  datatype Manifest = Manifest(
    org: nat, request: nat, status: Status, raw: seq<ObjectKey>, credentials: seq<RecordId>, frame: nat)
  datatype Report = Sealed(manifest: Manifest, sealer: nat) | Unreadable
  datatype KeyFile = NoKey | TornKey | Key(value: nat)

  /** What an erased organization's rows referred to when they were deleted. */
  datatype Gone = Gone(request: nat, raw: set<ObjectKey>, credentials: set<RecordId>)

  /** Database and disk; `gone` records what was deleted and when nothing reads it. */
  datatype World = World(
    orgs: map<nat, Org>, key: KeyFile, reports: map<nat, Report>, litter: nat,
    objects: set<ObjectKey>, secrets: set<RecordId>, gone: map<nat, Gone>)

  // ---- What the rows refer to --------------------------------------------------------------------

  function RawOf(rows: seq<Row>): seq<ObjectKey> {
    if rows == [] then []
    else
      var rest, row := RawOf(rows[..|rows| - 1]), rows[|rows| - 1];
      if row.Capture? && row.key !in rest then rest + [row.key] else rest
  }

  function CredentialsOf(rows: seq<Row>): seq<RecordId> {
    if rows == [] then []
    else
      var rest, row := CredentialsOf(rows[..|rows| - 1]), rows[|rows| - 1];
      if row.Credential? then rest + [row.id] else rest
  }

  /** Rows whose files this command may delete. */
  predicate Local(org: nat, row: Row) {
    match row
    case Capture(run, digest, key, local) => local && key == ObjectKey(org, run, digest)
    case Credential(_, local) => local
    case GitHubRow => false
    case OtherRow => true
  }

  predicate Erasable(o: Org, org: nat, request: nat) {
    && o.pending == Some(request) && !o.billed && !o.bound && !o.delivering
    && forall row :: row in o.rows ==> Local(org, row)
  }

  // ---- The size of a report ------------------------------------------------------------------------

  const MAX_MANIFEST_BYTES := 16 * 1024 * 1024

  /** What the command cannot choose about a report: the size of its fixed part when it is prepared,
      and whether it is closed on a whole second, which is written without a fraction. */
  datatype Layout = Layout(frame: nat, whole: bool)

  /** A raw object is listed in 281 bytes, a credential in 38, with commas between them. */
  function RawBytes(n: nat): nat { if n == 0 then 0 else 282 * n - 1 }
  function CredentialBytes(n: nat): nat { if n == 0 then 0 else 39 * n - 1 }

  function Size(m: Manifest): nat { m.frame + RawBytes(|m.raw|) + CredentialBytes(|m.credentials|) }

  predicate Fits(m: Manifest) { Size(m) <= MAX_MANIFEST_BYTES }

  /** Closing writes a longer status and one more time stamp. */
  function ClosingBytes(whole: bool): nat { if whole then 46 else 53 }

  function Closed(m: Manifest, whole: bool): Manifest {
    m.(status := CORE_ERASED, frame := m.frame + ClosingBytes(whole))
  }

  /** The closing report can be written, or is there already. */
  predicate Closable(m: Manifest, whole: bool) { m.status == CORE_ERASED || Fits(Closed(m, whole)) }

  // ---- Effects -----------------------------------------------------------------------------------

  datatype Effect =
    | CreateKey | FillKey(value: nat) | WriteTemporary
    | Publish(manifest: Manifest, sealer: nat)
    | Commit(org: nat, request: nat)
    | RemoveObject(item: ObjectKey) | RemoveSecret(secret: RecordId)

  function Referred(o: Org, request: nat): Gone {
    Gone(request, Elements(RawOf(o.rows)), Elements(CredentialsOf(o.rows)))
  }

  function Apply(w: World, e: Effect): World {
    match e
    case CreateKey => w.(key := TornKey)
    case FillKey(value) => w.(key := Key(value))
    case WriteTemporary => w.(litter := w.litter + 1)
    case Publish(manifest, sealer) =>
      w.(reports := w.reports[manifest.request := Sealed(manifest, sealer)], litter := if w.litter > 0 then w.litter - 1 else 0)
    case Commit(org, request) =>
      if org in w.orgs then w.(orgs := w.orgs - {org}, gone := w.gone[org := Referred(w.orgs[org], request)]) else w
    case RemoveObject(item) => w.(objects := w.objects - {item})
    case RemoveSecret(secret) => w.(secrets := w.secrets - {secret})
  }

  function ApplyAll(w: World, effects: seq<Effect>): World
    decreases |effects|
  {
    if effects == [] then w else ApplyAll(Apply(w, effects[0]), effects[1..])
  }

  function Removals(raw: seq<ObjectKey>): (r: seq<Effect>)
    ensures |r| == |raw| && forall i :: 0 <= i < |r| ==> r[i] == RemoveObject(raw[i])
  {
    seq(|raw|, i requires 0 <= i < |raw| => RemoveObject(raw[i]))
  }

  function SecretRemovals(credentials: seq<RecordId>): (r: seq<Effect>)
    ensures |r| == |credentials| && forall i :: 0 <= i < |r| ==> r[i] == RemoveSecret(credentials[i])
  {
    seq(|credentials|, i requires 0 <= i < |credentials| => RemoveSecret(credentials[i]))
  }

  /** `_write_report`: nothing is written of a report that is too large. */
  function Writing(m: Manifest, sealer: nat): seq<Effect> {
    if Fits(m) then [WriteTemporary, Publish(m, sealer)] else []
  }

  /** `_cleanup` and the closing report. */
  function Cleanup(m: Manifest, sealer: nat, whole: bool): seq<Effect> {
    if m.status == CORE_ERASED then []
    else Removals(m.raw) + SecretRemovals(m.credentials) + Writing(Closed(m, whole), sealer)
  }

  function Prepared(o: Org, org: nat, request: nat, frame: nat): Manifest {
    Manifest(org, request, PREPARED, RawOf(o.rows), CredentialsOf(o.rows), frame)
  }

  datatype Plan = Plan(effects: seq<Effect>, refused: bool)

  /** The manifest on disk speaks of this operation: sealed by this key and about it. */
  predicate Authentic(w: World, org: nat, request: nat) {
    && w.key.Key? && request in w.reports && w.reports[request].Sealed? && w.reports[request].sealer == w.key.value
    && w.reports[request].manifest.org == org && w.reports[request].manifest.request == request
    && forall item :: item in w.reports[request].manifest.raw ==> item.org == org
  }

  /** `erase_local_organization` after the key is settled. Either report may be refused: the
      first before anything is deleted, the second when the row and the files are gone. */
  function Proceed(w: World, org: nat, request: nat, sealer: nat, layout: Layout): Plan {
    if org !in w.orgs then
      if request !in w.reports then Plan([], true) else if !w.reports[request].Sealed? then Plan([], true)
      else
        var m := w.reports[request].manifest;
        Plan(Cleanup(m, sealer, layout.whole), !Closable(m, layout.whole))
    else if !Erasable(w.orgs[org], org, request) then Plan([], true)
    else
      var m := Prepared(w.orgs[org], org, request, layout.frame);
      if !Fits(m) then Plan([], true)
      else
        Plan([WriteTemporary, Publish(m, sealer), Commit(org, request)] + Cleanup(m, sealer, layout.whole),
             !Closable(m, layout.whole))
  }

  /** The whole command; `random` is the key it would create. */
  function Erase(w: World, org: nat, request: nat, random: nat, layout: Layout): Plan {
    if request in w.reports then
      if !Authentic(w, org, request) then Plan([], true) else Proceed(w, org, request, w.key.value, layout)
    else
      match w.key
      case TornKey => Plan([], true)
      case Key(value) => Proceed(w, org, request, value, layout)
      case NoKey =>
        var rest := Proceed(w, org, request, random, layout);
        Plan([CreateKey, FillKey(random)] + rest.effects, rest.refused)
  }
}
