/** The export of a tenant's memory.

    Models `export_memory` of `memory_export.py`: records, then edges, each behind its own
    cursor, every page in its own transaction. Line formatting is not modelled. */
module MemoryExport {
  import opened Common
  import opened Paging

  datatype Record = Record(at: int, id: nat, portable: bool)
  datatype Edge = Edge(source: nat, target: nat, relation: nat)

  /** One organization's rows, as an index lists them. */
  datatype Store = Store(records: seq<Record>, edges: seq<Edge>)

  /** By creation, then identifier; identifiers are unique, so the last case only makes the order total. */
  predicate RecordLess(x: Record, y: Record) {
    || x.at < y.at
    || (x.at == y.at && (x.id < y.id || (x.id == y.id && !x.portable && y.portable)))
  }

  predicate EdgeLess(x: Edge, y: Edge) {
    || x.source < y.source
    || (x.source == y.source && (x.target < y.target || (x.target == y.target && x.relation < y.relation)))
  }

  predicate Listed(s: Store) { Increasing(s.records, RecordLess) && Increasing(s.edges, EdgeLess) }

  const RECORD_PAGE: nat := 25
  const EDGE_PAGE: nat := 250

  predicate Exportable(r: Record, cutoff: int) { r.portable && r.at <= cutoff }

  function Portable(records: seq<Record>, cutoff: int): seq<Record> {
    if records == [] then []
    else Portable(records[..|records| - 1], cutoff)
         + (if Exportable(records[|records| - 1], cutoff) then [records[|records| - 1]] else [])
  }

  predicate Names(records: seq<Record>, id: nat, cutoff: int) {
    exists i :: 0 <= i < |records| && records[i].id == id && Exportable(records[i], cutoff)
  }

  function Joined(s: Store, edges: seq<Edge>, cutoff: int): seq<Edge> {
    if edges == [] then []
    else
      var e := edges[|edges| - 1];
      Joined(s, edges[..|edges| - 1], cutoff)
      + (if Names(s.records, e.source, cutoff) && Names(s.records, e.target, cutoff) then [e] else [])
  }

  /** The plain scans. */
  function RecordScan(s: Store, cutoff: int): seq<Record> { Portable(s.records, cutoff) }
  function EdgeScan(s: Store, cutoff: int): seq<Edge> { Joined(s, s.edges, cutoff) }

  /** The scan each page makes; the edge pages follow the record pages. */
  function RecordScans(stores: nat -> Store, cutoff: int): (r: nat -> seq<Record>)
    ensures forall n: nat :: r(n) == RecordScan(stores(n), cutoff)
  {
    (n: nat) => RecordScan(stores(n), cutoff)
  }

  function EdgeScans(stores: nat -> Store, first: nat, cutoff: int): (r: nat -> seq<Edge>)
    ensures forall n: nat :: r(n) == EdgeScan(stores(first + n), cutoff)
  {
    (n: nat) => EdgeScan(stores(first + n), cutoff)
  }

  lemma Orders()
    ensures StrictOrder(RecordLess) && StrictOrder(EdgeLess)
  {
  }

  lemma {:induction false} PortableIs(records: seq<Record>, cutoff: int)
    ensures forall r :: r in Portable(records, cutoff) <==> r in records && Exportable(r, cutoff)
    ensures Increasing(records, RecordLess) ==> Increasing(Portable(records, cutoff), RecordLess)
  {
    if records != [] {
      var init, last := records[..|records| - 1], records[|records| - 1];
      PortableIs(init, cutoff);
      assert records == init + [last];
      if Increasing(records, RecordLess) {
        forall i | 0 <= i < |Portable(init, cutoff)| ensures RecordLess(Portable(init, cutoff)[i], last) {
          assert Portable(init, cutoff)[i] in init;
        }
      }
    }
  }

  lemma {:induction false} JoinedIs(s: Store, edges: seq<Edge>, cutoff: int)
    ensures forall e :: e in Joined(s, edges, cutoff) <==>
      e in edges && Names(s.records, e.source, cutoff) && Names(s.records, e.target, cutoff)
    ensures Increasing(edges, EdgeLess) ==> Increasing(Joined(s, edges, cutoff), EdgeLess)
  {
    if edges != [] {
      var init, last := edges[..|edges| - 1], edges[|edges| - 1];
      JoinedIs(s, init, cutoff);
      assert edges == init + [last];
      if Increasing(edges, EdgeLess) {
        forall i | 0 <= i < |Joined(s, init, cutoff)| ensures EdgeLess(Joined(s, init, cutoff)[i], last) {
          assert Joined(s, init, cutoff)[i] in init;
        }
      }
    }
  }

  /** What the two loops exported while the store went through `stores`, one state a page. */
  ghost predicate Exported(stores: nat -> Store, cutoff: int, pages: seq<seq<Record>>, edgePages: seq<seq<Edge>>) {
    && Finished(RecordScans(stores, cutoff), RecordLess, RECORD_PAGE, pages)
    && Finished(EdgeScans(stores, |pages|, cutoff), EdgeLess, EDGE_PAGE, edgePages)
  }

  /** Everything a store can come to hold. */
  ghost predicate Within(s: Store, all: Store) {
    (forall r :: r in s.records ==> r in all.records) && (forall e :: e in s.edges ==> e in all.edges)
  }

  method ExportMemory(stores: nat -> Store, cutoff: int, ghost all: Store)
    returns (records: seq<Record>, edges: seq<Edge>, pages: seq<seq<Record>>, edgePages: seq<seq<Edge>>)
    requires Listed(all) && forall n: nat :: Listed(stores(n)) && Within(stores(n), all)
    ensures Exported(stores, cutoff, pages, edgePages) && records == Flat(pages) && edges == Flat(edgePages)
  {
    Orders();
    forall n: nat
      ensures Increasing(RecordScan(stores(n), cutoff), RecordLess) && Increasing(EdgeScan(stores(n), cutoff), EdgeLess)
      ensures forall r :: r in RecordScan(stores(n), cutoff) ==> r in all.records
      ensures forall e :: e in EdgeScan(stores(n), cutoff) ==> e in all.edges
    {
      PortableIs(stores(n).records, cutoff);
      JoinedIs(stores(n), stores(n).edges, cutoff);
    }
    records, pages := ReadPages(RecordScans(stores, cutoff), RecordLess, RECORD_PAGE, all.records);
    edges, edgePages := ReadPages(EdgeScans(stores, |pages|, cutoff), EdgeLess, EDGE_PAGE, all.edges);
  }

  // ---- What the export contains ----------------------------------------------------------------------

  lemma ScansAreListed(stores: nat -> Store, cutoff: int)
    requires forall n: nat :: Listed(stores(n))
    ensures forall n: nat :: Increasing(RecordScan(stores(n), cutoff), RecordLess)
    ensures forall n: nat :: Increasing(EdgeScan(stores(n), cutoff), EdgeLess)
  {
    forall n: nat
      ensures Increasing(RecordScan(stores(n), cutoff), RecordLess) && Increasing(EdgeScan(stores(n), cutoff), EdgeLess)
    {
      PortableIs(stores(n).records, cutoff);
      JoinedIs(stores(n), stores(n).edges, cutoff);
    }
  }

  /** A store that does not change is exported as two plain scans. */
  lemma FixedStoreIsScanned(stores: nat -> Store, s: Store, cutoff: int, pages: seq<seq<Record>>, edgePages: seq<seq<Edge>>)
    requires Listed(s) && (forall n: nat :: stores(n) == s) && Exported(stores, cutoff, pages, edgePages)
    ensures Flat(pages) == RecordScan(s, cutoff) && Flat(edgePages) == EdgeScan(s, cutoff)
  {
    Orders();
    ScansAreListed(stores, cutoff);
    ExportIsTheScan(pages, RecordLess, RECORD_PAGE, RecordScans(stores, cutoff), RecordScan(s, cutoff));
    ExportIsTheScan(edgePages, EdgeLess, EDGE_PAGE, EdgeScans(stores, |pages|, cutoff), EdgeScan(s, cutoff));
  }

  /** No record dated at or before the cutoff appears or disappears during the export. */
  ghost predicate NothingLate(stores: nat -> Store, cutoff: int) {
    forall n: nat, r :: r in RecordScan(stores(n), cutoff) <==> r in RecordScan(stores(0), cutoff)
  }

  lemma EdgeScansAreListed(stores: nat -> Store, first: nat, cutoff: int)
    requires forall n: nat :: Listed(stores(n))
    ensures forall n: nat :: Increasing(EdgeScans(stores, first, cutoff)(n), EdgeLess)
  {
    forall n: nat ensures Increasing(EdgeScans(stores, first, cutoff)(n), EdgeLess) {
      JoinedIs(stores(first + n), stores(first + n).edges, cutoff);
    }
  }

  /** An exported edge was joined to two exportable records when its page was read. */
  lemma EdgeWasJoined(stores: nat -> Store, cutoff: int, first: nat, edgePages: seq<seq<Edge>>, e: Edge) returns (k: nat)
    requires forall n: nat :: Listed(stores(n))
    requires Finished(EdgeScans(stores, first, cutoff), EdgeLess, EDGE_PAGE, edgePages) && e in Flat(edgePages)
    ensures Names(stores(first + k).records, e.source, cutoff) && Names(stores(first + k).records, e.target, cutoff)
  {
    assert Reads(EdgeScans(stores, first, cutoff), EdgeLess, EDGE_PAGE, edgePages) by {
      hide Reads;
    }
    hide *;
    Orders();
    EdgeScansAreListed(stores, first, cutoff);
    FlatIsPassed(edgePages, EdgeLess, EDGE_PAGE, EdgeScans(stores, first, cutoff), e);
    k :| k < |edgePages| && e in EdgeScans(stores, first, cutoff)(k);
    ScannedIsJoined(stores, first, cutoff, k, e);
  }

  lemma ScannedIsJoined(stores: nat -> Store, first: nat, cutoff: int, k: nat, e: Edge)
    requires e in EdgeScans(stores, first, cutoff)(k)
    ensures Names(stores(first + k).records, e.source, cutoff) && Names(stores(first + k).records, e.target, cutoff)
  {
    JoinedIs(stores(first + k), stores(first + k).edges, cutoff);
  }

  ghost predicate Holds(records: seq<Record>, id: nat) { exists r :: r in records && r.id == id }

  lemma NamedIsExported(stores: nat -> Store, cutoff: int, pages: seq<seq<Record>>, n: nat, id: nat)
    requires (forall n: nat :: Listed(stores(n))) && NothingLate(stores, cutoff)
    requires Finished(RecordScans(stores, cutoff), RecordLess, RECORD_PAGE, pages)
    requires Names(stores(n).records, id, cutoff)
    ensures Holds(Flat(pages), id)
  {
    var records := stores(n).records;
    var i :| 0 <= i < |records| && records[i].id == id && Exportable(records[i], cutoff);
    RecordIsExported(stores, cutoff, pages, n, records[i]);
  }

  /** A stored record never changes, and no two share an identifier. */
  ghost predicate Immutable(stores: nat -> Store) {
    forall n: nat, m: nat, r, q :: r in stores(n).records && q in stores(m).records && r.id == q.id ==> r == q
  }

  /** The record was already committed when the page whose window covers its key was read. */
  ghost predicate InTime(stores: nat -> Store, pages: seq<seq<Record>>, r: Record) {
    exists k: nat :: k < |pages| && Covers(pages, RecordLess, k, r) && r in stores(k).records
  }

  lemma RecordScansAreListed(stores: nat -> Store, cutoff: int)
    requires forall n: nat :: Listed(stores(n))
    ensures forall n: nat :: Increasing(RecordScans(stores, cutoff)(n), RecordLess)
  {
    forall n: nat ensures Increasing(RecordScans(stores, cutoff)(n), RecordLess) {
      PortableIs(stores(n).records, cutoff);
    }
  }

  /** A record is exported exactly when the page that covers its key found it there, exportable. */
  lemma RecordExportedExactlyWhen(stores: nat -> Store, cutoff: int, pages: seq<seq<Record>>, k: nat, r: Record)
    requires forall n: nat :: Listed(stores(n))
    requires Finished(RecordScans(stores, cutoff), RecordLess, RECORD_PAGE, pages)
    requires k < |pages| && Covers(pages, RecordLess, k, r)
    ensures r in Flat(pages) <==> r in stores(k).records && r.portable && r.at <= cutoff
  {
    hide *;
    Orders();
    RecordScansAreListed(stores, cutoff);
    ExportedExactlyWhen(pages, RecordLess, RECORD_PAGE, RecordScans(stores, cutoff), k, r);
    ScannedIsPortable(stores, cutoff, k, r);
  }

  lemma ScannedIsPortable(stores: nat -> Store, cutoff: int, k: nat, r: Record)
    ensures r in RecordScans(stores, cutoff)(k) <==> r in stores(k).records && r.portable && r.at <= cutoff
  {
    PortableIs(stores(k).records, cutoff);
  }

  lemma CoveredSomewhere(pages: seq<seq<Record>>, r: Record) returns (k: nat)
    requires pages != []
    ensures k < |pages| && Covers(pages, RecordLess, k, r)
  {
    assert pages[..0] == [];
    SomePageCovers(pages, RecordLess, r, 0);
    var found: nat :| found < |pages| && Covers(pages, RecordLess, found, r);
    k := found;
  }

  lemma ExportedComesFromAStore(stores: nat -> Store, cutoff: int, pages: seq<seq<Record>>, r: Record) returns (k: nat)
    requires forall n: nat :: Listed(stores(n))
    requires Finished(RecordScans(stores, cutoff), RecordLess, RECORD_PAGE, pages) && r in Flat(pages)
    ensures r in stores(k).records
  {
    assert Reads(RecordScans(stores, cutoff), RecordLess, RECORD_PAGE, pages) by {
      hide Reads;
    }
    hide *;
    Orders();
    RecordScansAreListed(stores, cutoff);
    FlatIsPassed(pages, RecordLess, RECORD_PAGE, RecordScans(stores, cutoff), r);
    k :| k < |pages| && r in RecordScans(stores, cutoff)(k);
    ScannedIsPortable(stores, cutoff, k, r);
  }

  lemma HoldsTheRecord(stores: nat -> Store, cutoff: int, pages: seq<seq<Record>>, n: nat, r: Record)
    requires (forall n: nat :: Listed(stores(n))) && Immutable(stores)
    requires Finished(RecordScans(stores, cutoff), RecordLess, RECORD_PAGE, pages) && r in stores(n).records
    ensures Holds(Flat(pages), r.id) <==> r in Flat(pages)
  {
    hide Finished, Listed, Flat, RecordScans;
    if Holds(Flat(pages), r.id) {
      var q :| q in Flat(pages) && q.id == r.id;
      var m := ExportedComesFromAStore(stores, cutoff, pages, q);
      assert q == r;
    }
  }

  /** A record is exported under its identifier exactly when it was committed in time. */
  lemma EndExportedExactlyWhen(stores: nat -> Store, cutoff: int, pages: seq<seq<Record>>, n: nat, r: Record)
    requires (forall n: nat :: Listed(stores(n))) && Immutable(stores)
    requires Finished(RecordScans(stores, cutoff), RecordLess, RECORD_PAGE, pages)
    requires r in stores(n).records && Exportable(r, cutoff)
    ensures Holds(Flat(pages), r.id) <==> InTime(stores, pages, r)
  {
    assert pages != [];
    hide Finished, Listed, Covers, Flat, RecordScans;
    HoldsTheRecord(stores, cutoff, pages, n, r);
    hide Immutable, Holds;
    if r in Flat(pages) {
      var k := CoveredSomewhere(pages, r);
      RecordExportedExactlyWhen(stores, cutoff, pages, k, r);
    }
    if InTime(stores, pages, r) {
      var k: nat :| k < |pages| && Covers(pages, RecordLess, k, r) && r in stores(k).records;
      RecordExportedExactlyWhen(stores, cutoff, pages, k, r);
    }
  }

  lemma NamedIsExportable(stores: nat -> Store, cutoff: int, n: nat, m: nat, r: Record)
    requires Immutable(stores) && r in stores(n).records && Names(stores(m).records, r.id, cutoff)
    ensures Exportable(r, cutoff)
  {
    var records := stores(m).records;
    var i :| 0 <= i < |records| && records[i].id == r.id && Exportable(records[i], cutoff);
    assert records[i] in records;
  }

  /** The export closes over an exported edge exactly when each of its two records was already
      committed when the page covering that record's key was read. */
  lemma EdgeIsClosedExactlyWhen(stores: nat -> Store, cutoff: int, pages: seq<seq<Record>>, edgePages: seq<seq<Edge>>,
                                e: Edge, n: nat, source: Record, m: nat, target: Record)
    requires (forall n: nat :: Listed(stores(n))) && Immutable(stores)
    requires Finished(RecordScans(stores, cutoff), RecordLess, RECORD_PAGE, pages)
    requires Finished(EdgeScans(stores, |pages|, cutoff), EdgeLess, EDGE_PAGE, edgePages) && e in Flat(edgePages)
    requires source in stores(n).records && source.id == e.source && target in stores(m).records && target.id == e.target
    ensures Holds(Flat(pages), e.source) && Holds(Flat(pages), e.target) <==>
      InTime(stores, pages, source) && InTime(stores, pages, target)
  {
    hide *;
    var k := EdgeWasJoined(stores, cutoff, |pages|, edgePages, e);
    NamedIsExportable(stores, cutoff, n, |pages| + k, source);
    NamedIsExportable(stores, cutoff, m, |pages| + k, target);
    EndExportedExactlyWhen(stores, cutoff, pages, n, source);
    EndExportedExactlyWhen(stores, cutoff, pages, m, target);
  }

  /** In particular: if no record is committed late, both ends of every exported edge were
      exported, however the edges themselves change. */
  lemma EdgesAreClosed(stores: nat -> Store, cutoff: int, pages: seq<seq<Record>>, edgePages: seq<seq<Edge>>, e: Edge)
    requires (forall n: nat :: Listed(stores(n))) && NothingLate(stores, cutoff)
    requires Finished(RecordScans(stores, cutoff), RecordLess, RECORD_PAGE, pages)
    requires Finished(EdgeScans(stores, |pages|, cutoff), EdgeLess, EDGE_PAGE, edgePages)
    requires e in Flat(edgePages)
    ensures Holds(Flat(pages), e.source) && Holds(Flat(pages), e.target)
  {
    hide *;
    var k := EdgeWasJoined(stores, cutoff, |pages|, edgePages, e);
    NamedIsExported(stores, cutoff, pages, |pages| + k, e.source);
    NamedIsExported(stores, cutoff, pages, |pages| + k, e.target);
  }

  /** Each record and each edge appears once, in key order. */
  lemma ExportIsOrdered(stores: nat -> Store, cutoff: int, pages: seq<seq<Record>>, edgePages: seq<seq<Edge>>)
    requires (forall n: nat :: Listed(stores(n))) && Exported(stores, cutoff, pages, edgePages)
    ensures Increasing(Flat(pages), RecordLess) && Increasing(Flat(edgePages), EdgeLess)
  {
    Orders();
    ScansAreListed(stores, cutoff);
    ExportInOrder(pages, RecordLess, RECORD_PAGE, RecordScans(stores, cutoff));
    ExportInOrder(edgePages, EdgeLess, EDGE_PAGE, EdgeScans(stores, |pages|, cutoff));
  }

  lemma RecordIsExported(stores: nat -> Store, cutoff: int, pages: seq<seq<Record>>, n: nat, r: Record)
    requires (forall n: nat :: Listed(stores(n))) && NothingLate(stores, cutoff)
    requires Finished(RecordScans(stores, cutoff), RecordLess, RECORD_PAGE, pages)
    requires r in stores(n).records && Exportable(r, cutoff)
    ensures r in Flat(pages)
  {
    Orders();
    ScansAreListed(stores, cutoff);
    PortableIs(stores(n).records, cutoff);
    assert r in RecordScan(stores(n), cutoff);
    assert r in RecordScan(stores(0), cutoff);
    PresentFromTheStart(pages, RecordLess, RECORD_PAGE, RecordScans(stores, cutoff), r);
  }

  /** An edge is exported without its target. */
  ghost predicate Misses(stores: nat -> Store, cutoff: int, pages: seq<seq<Record>>, edgePages: seq<seq<Edge>>, e: Edge) {
    && (forall n: nat :: Listed(stores(n))) && Exported(stores, cutoff, pages, edgePages)
    && e in Flat(edgePages) && forall r :: r in Flat(pages) ==> r.id != e.target
  }

  const EARLY := Record(5, 1, true)
  const LATE := Record(3, 2, true)
  const LINK := Edge(1, 2, 0)

  /** A store in which one record is committed after the first page, dated before it. */
  function LateStore(n: nat): Store { if n == 0 then Store([EARLY], []) else Store([LATE, EARLY], [LINK]) }

  lemma LateIsExported()
    ensures Exported(LateStore, 10, [[EARLY]], [[LINK]]) && Flat([[EARLY]]) == [EARLY] && Flat([[LINK]]) == [LINK]
  {
    LateScans();
    hide RecordScan, EdgeScan, Page, Finished;
    OnePage(RecordScans(LateStore, 10), RecordLess, RECORD_PAGE, [EARLY]);
    OnePage(EdgeScans(LateStore, 1, 10), EdgeLess, EDGE_PAGE, [LINK]);
  }

  lemma LateIsListed()
    ensures forall n: nat :: Listed(LateStore(n))
  {
  }

  /** A record dated before the cursor but committed after its page was read is missed, while an
      edge that names it is exported. */
  lemma LateRecordIsMissed()
    ensures exists stores: nat -> Store, pages: seq<seq<Record>>, edgePages: seq<seq<Edge>>, e: Edge ::
      Misses(stores, 10, pages, edgePages, e)
  {
    hide *;
    LateMisses();
  }

  lemma LateMisses()
    ensures Misses(LateStore, 10, [[EARLY]], [[LINK]], LINK)
  {
    hide Exported, Listed, LateStore, Flat;
    LateIsExported();
    LateIsListed();
  }

  lemma LateScans()
    ensures RecordScan(LateStore(0), 10) == [EARLY] && EdgeScan(LateStore(1), 10) == [LINK]
  {
    var records := [LATE, EARLY];
    assert Portable([EARLY][..0], 10) == [];
    assert Joined(Store(records, [LINK]), [LINK][..0], 10) == [];
    assert records[1].id == 1 && Exportable(records[1], 10) && records[0].id == 2 && Exportable(records[0], 10);
    assert Names(records, 1, 10) && Names(records, 2, 10);
  }
}
