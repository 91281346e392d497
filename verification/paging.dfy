/** Reading a table page by page behind a cursor.

    The two loops of `export_memory` of `memory_export.py`, over any table in strict key order.
    The table may change between two pages: `stores(k)` is what page `k` reads. */
module Paging {
  import opened Common

  /** A strict total order on keys. */
  ghost predicate StrictOrder<T(!new)>(less: (T, T) -> bool) {
    && (forall x, y :: less(x, y) ==> !less(y, x))
    && (forall x, y, z :: less(x, y) && less(y, z) ==> less(x, z))
    && (forall x, y :: less(x, y) || less(y, x) || x == y)
  }

  predicate Increasing<T>(s: seq<T>, less: (T, T) -> bool) {
    forall i, j :: 0 <= i < j < |s| ==> less(s[i], s[j])
  }

  predicate Behind<T>(cursor: Option<T>, less: (T, T) -> bool, x: T) { cursor.None? || less(cursor.value, x) }

  /** The rows past the cursor, in order. */
  function Past<T>(s: seq<T>, less: (T, T) -> bool, cursor: Option<T>): seq<T> {
    if s == [] then []
    else Past(s[..|s| - 1], less, cursor) + (if Behind(cursor, less, s[|s| - 1]) then [s[|s| - 1]] else [])
  }

  /** One page: the first `limit` rows past the cursor. */
  function Page<T>(s: seq<T>, less: (T, T) -> bool, cursor: Option<T>, limit: nat): seq<T> {
    var rows := Past(s, less, cursor);
    if |rows| <= limit then rows else rows[..limit]
  }

  /** The cursor after some pages: the last row read. */
  function Cursor<T>(pages: seq<seq<T>>): Option<T> {
    if pages == [] then None
    else
      var last := pages[|pages| - 1];
      if last == [] then Cursor(pages[..|pages| - 1]) else Some(last[|last| - 1])
  }

  function Flat<T>(pages: seq<seq<T>>): seq<T> {
    if pages == [] then [] else Flat(pages[..|pages| - 1]) + pages[|pages| - 1]
  }

  /** The pages read so far are the ones the loop would read. */
  ghost predicate Reads<T>(stores: nat -> seq<T>, less: (T, T) -> bool, limit: nat, pages: seq<seq<T>>) {
    forall k: nat :: k < |pages| ==> pages[k] == Page(stores(k), less, Cursor(pages[..k]), limit)
  }

  /** The loop went on after full pages and stopped at the first that was not. */
  ghost predicate Finished<T>(stores: nat -> seq<T>, less: (T, T) -> bool, limit: nat, pages: seq<seq<T>>) {
    && Reads(stores, less, limit, pages) && pages != []
    && (forall k :: 0 <= k < |pages| - 1 ==> |pages[k]| == limit)
    && |pages[|pages| - 1]| < limit
  }

  lemma {:induction false} PastHas<T>(s: seq<T>, less: (T, T) -> bool, cursor: Option<T>, x: T)
    ensures x in Past(s, less, cursor) <==> x in s && Behind(cursor, less, x)
  {
    hide Behind;
    if s != [] {
      PastHas(s[..|s| - 1], less, cursor, x);
      assert s == s[..|s| - 1] + [s[|s| - 1]];
    }
  }

  lemma {:induction false} PastIncreases<T>(s: seq<T>, less: (T, T) -> bool, cursor: Option<T>)
    requires Increasing(s, less)
    ensures Increasing(Past(s, less, cursor), less)
  {
    hide Behind;
    if s != [] {
      var init, last := s[..|s| - 1], s[|s| - 1];
      var kept := Past(init, less, cursor);
      PastIncreases(init, less, cursor);
      forall i | 0 <= i < |kept| ensures less(kept[i], last) {
        PastHas(init, less, cursor, kept[i]);
        var j :| 0 <= j < |init| && init[j] == kept[i];
        assert s[j] == kept[i];
      }
    }
  }

  lemma PastIs<T(!new)>(s: seq<T>, less: (T, T) -> bool, cursor: Option<T>)
    ensures forall x :: x in Past(s, less, cursor) ==> x in s && Behind(cursor, less, x)
    ensures forall x :: x in s && Behind(cursor, less, x) ==> x in Past(s, less, cursor)
    ensures Increasing(s, less) ==> Increasing(Past(s, less, cursor), less)
  {
    hide Behind, Past, Increasing;
    forall x ensures x in Past(s, less, cursor) <==> x in s && Behind(cursor, less, x) {
      PastHas(s, less, cursor, x);
    }
    if Increasing(s, less) {
      PastIncreases(s, less, cursor);
    }
  }

  lemma PageIs<T(!new)>(s: seq<T>, less: (T, T) -> bool, cursor: Option<T>, limit: nat)
    requires Increasing(s, less)
    ensures var page := Page(s, less, cursor, limit);
      && Increasing(page, less) && |page| <= limit
      && (forall x :: x in page ==> x in s && Behind(cursor, less, x))
      && (|page| < limit ==> forall x :: x in s && Behind(cursor, less, x) ==> x in page)
      && (forall x :: x in s && Behind(cursor, less, x) && x !in page ==> page != [] ==> less(page[|page| - 1], x))
  {
    PastIs(s, less, cursor);
    var rows, page := Past(s, less, cursor), Page(s, less, cursor, limit);
    forall x | x in page ensures x in rows {
    }
    forall x | x in s && Behind(cursor, less, x) && x !in page ensures page != [] ==> less(page[|page| - 1], x) {
      var i :| 0 <= i < |rows| && rows[i] == x;
      assert i >= |page|;
    }
  }

  lemma BelowLast<T>(page: seq<T>, less: (T, T) -> bool)
    requires Increasing(page, less) && page != []
    ensures forall x :: x in page ==> x == page[|page| - 1] || less(x, page[|page| - 1])
  {
  }

  lemma LastPasses<T(!new)>(page: seq<T>, less: (T, T) -> bool, x: T)
    requires StrictOrder(less) && Increasing(page, less) && x in page
    ensures !Behind(Some(page[|page| - 1]), less, x)
  {
    BelowLast(page, less);
  }

  /** Moving the cursor forward keeps what it passed behind it. */
  lemma StaysPassed<T(!new)>(less: (T, T) -> bool, cursor: Option<T>, next: T, x: T)
    requires StrictOrder(less) && !Behind(cursor, less, x) && Behind(cursor, less, next)
    ensures !Behind(Some(next), less, x)
  {
  }

  lemma AcrossTheCursor<T(!new)>(less: (T, T) -> bool, cursor: Option<T>, x: T, y: T)
    requires StrictOrder(less) && !Behind(cursor, less, x) && Behind(cursor, less, y)
    ensures less(x, y)
  {
  }

  // ---- What the pages hold -------------------------------------------------------------------------

  /** The rows between the cursors before and after page `k`; the last page is open-ended. */
  ghost predicate Covers<T>(pages: seq<seq<T>>, less: (T, T) -> bool, k: nat, x: T)
    requires k < |pages|
  {
    Behind(Cursor(pages[..k]), less, x) && (k + 1 < |pages| ==> !Behind(Cursor(pages[..k + 1]), less, x))
  }

  lemma CursorAfter<T>(pages: seq<seq<T>>, k: nat)
    requires k < |pages|
    ensures Cursor(pages[..k + 1]) == if pages[k] == [] then Cursor(pages[..k]) else Some(pages[k][|pages[k]| - 1])
  {
    assert pages[..k + 1][..k] == pages[..k];
  }

  /** Page `k` is in order and lies past the cursor it was read behind. */
  ghost predicate Forward<T(!new)>(pages: seq<seq<T>>, less: (T, T) -> bool, k: nat)
    requires k < |pages|
  {
    Increasing(pages[k], less) && forall x :: x in pages[k] ==> Behind(Cursor(pages[..k]), less, x)
  }

  lemma ReadsForward<T(!new)>(pages: seq<seq<T>>, less: (T, T) -> bool, limit: nat, stores: nat -> seq<T>, k: nat)
    requires Reads(stores, less, limit, pages) && Increasing(stores(k), less) && k < |pages|
    ensures Forward(pages, less, k) && forall x :: x in pages[k] ==> x in stores(k)
    ensures |pages[k]| < limit ==> forall x :: x in stores(k) && Behind(Cursor(pages[..k]), less, x) ==> x in pages[k]
    ensures forall x :: x in stores(k) && Behind(Cursor(pages[..k]), less, x) && x !in pages[k] && pages[k] != [] ==>
      less(pages[k][|pages[k]| - 1], x)
  {
    assert pages[k] == Page(stores(k), less, Cursor(pages[..k]), limit);
    hide Increasing, Page, Behind;
    PageIs(stores(k), less, Cursor(pages[..k]), limit);
  }

  /** Each later cursor lies past every earlier one. */
  lemma OneCursorBack<T(!new)>(pages: seq<seq<T>>, less: (T, T) -> bool, k: nat, x: T)
    requires StrictOrder(less) && k < |pages| && Forward(pages, less, k) && Behind(Cursor(pages[..k + 1]), less, x)
    ensures Behind(Cursor(pages[..k]), less, x)
  {
    hide Increasing;
    CursorAfter(pages, k);
    var page, cursor := pages[k], Cursor(pages[..k]);
    hide Cursor;
    if page != [] && cursor.Some? {
      var last := page[|page| - 1];
      assert last in page;
      assert less(cursor.value, last) && less(last, x);
    }
  }

  lemma {:induction false} CursorsGrow<T(!new)>(pages: seq<seq<T>>, less: (T, T) -> bool, j: nat, k: nat, x: T)
    requires StrictOrder(less) && (forall n: nat :: n < |pages| ==> Forward(pages, less, n))
    requires j <= k <= |pages| && Behind(Cursor(pages[..k]), less, x)
    ensures Behind(Cursor(pages[..j]), less, x)
    decreases k - j
  {
    hide StrictOrder, Forward, Cursor, Behind;
    if j < k {
      OneCursorBack(pages, less, k - 1, x);
      CursorsGrow(pages, less, j, k - 1, x);
    }
  }

  lemma {:induction false} FlatHas<T>(pages: seq<seq<T>>, k: nat, x: T)
    requires k < |pages| && x in pages[k]
    ensures x in Flat(pages)
  {
    if k < |pages| - 1 {
      FlatHas(pages[..|pages| - 1], k, x);
    }
  }

  lemma {:induction false} FlatFrom<T>(pages: seq<seq<T>>, x: T) returns (k: nat)
    requires x in Flat(pages)
    ensures k < |pages| && x in pages[k]
  {
    k := |pages| - 1;
    if x !in pages[k] {
      k := FlatFrom(pages[..k], x);
    }
  }

  lemma NotOnEarlierPage<T(!new)>(pages: seq<seq<T>>, less: (T, T) -> bool, j: nat, k: nat, x: T)
    requires StrictOrder(less) && (forall n: nat :: n < |pages| ==> Forward(pages, less, n))
    requires j < k < |pages| && Behind(Cursor(pages[..k]), less, x)
    ensures x !in pages[j]
  {
    CursorsGrow(pages, less, j + 1, k, x);
    CursorAfter(pages, j);
    assert Increasing(pages[j], less) by {
      assert Forward(pages, less, j);
    }
    if x in pages[j] {
      LastPasses(pages[j], less, x);
    }
  }

  lemma NotOnLaterPage<T(!new)>(pages: seq<seq<T>>, less: (T, T) -> bool, j: nat, k: nat, x: T)
    requires StrictOrder(less) && (forall n: nat :: n < |pages| ==> Forward(pages, less, n))
    requires k < j < |pages| && !Behind(Cursor(pages[..k + 1]), less, x)
    ensures x !in pages[j]
  {
    assert Forward(pages, less, j);
    if x in pages[j] {
      CursorsGrow(pages, less, k + 1, j, x);
    }
  }

  lemma OnItsPage<T(!new)>(pages: seq<seq<T>>, less: (T, T) -> bool, limit: nat, stores: nat -> seq<T>, k: nat, x: T)
    requires StrictOrder(less) && Finished(stores, less, limit, pages) && Increasing(stores(k), less)
    requires k < |pages| && Covers(pages, less, k, x)
    ensures x in pages[k] <==> x in stores(k)
  {
    ReadsForward(pages, less, limit, stores, k);
    CursorAfter(pages, k);
    hide Increasing, Cursor, Reads, Forward;
  }

  /** A row is exported exactly when the page whose window covers its key found it there, and
      then on that page only. */
  lemma ExportedExactlyWhen<T(!new)>(pages: seq<seq<T>>, less: (T, T) -> bool, limit: nat, stores: nat -> seq<T>, k: nat, x: T)
    requires StrictOrder(less) && Finished(stores, less, limit, pages) && (forall n: nat :: Increasing(stores(n), less))
    requires k < |pages| && Covers(pages, less, k, x)
    ensures x in Flat(pages) <==> x in stores(k)
    ensures x in pages[k] <==> x in stores(k)
    ensures forall j: nat :: j < |pages| && j != k ==> x !in pages[j]
  {
    hide StrictOrder, Reads, Increasing, Forward, Cursor, Behind;
    OnItsPage(pages, less, limit, stores, k, x);
    if x in pages[k] {
      FlatHas(pages, k, x);
    }
    forall n: nat | n < |pages| ensures Forward(pages, less, n) {
      ReadsForward(pages, less, limit, stores, n);
    }
    forall j: nat | j < |pages| && j != k ensures x !in pages[j] {
      if j < k {
        NotOnEarlierPage(pages, less, j, k, x);
      } else {
        NotOnLaterPage(pages, less, j, k, x);
      }
    }
    if x in Flat(pages) {
      var j := FlatFrom(pages, x);
    }
  }

  /** Some page covers every key. */
  lemma {:induction false} SomePageCovers<T(!new)>(pages: seq<seq<T>>, less: (T, T) -> bool, x: T, n: nat)
    requires n < |pages| && Behind(Cursor(pages[..n]), less, x)
    ensures exists k: nat :: k < |pages| && Covers(pages, less, k, x)
    decreases |pages| - n
  {
    if n + 1 < |pages| && Behind(Cursor(pages[..n + 1]), less, x) {
      SomePageCovers(pages, less, x, n + 1);
    } else {
      assert Covers(pages, less, n, x);
    }
  }

  /** Rows only added, never removed: whatever was there before the first page is exported. */
  lemma PresentFromTheStart<T(!new)>(pages: seq<seq<T>>, less: (T, T) -> bool, limit: nat, stores: nat -> seq<T>, x: T)
    requires StrictOrder(less) && Finished(stores, less, limit, pages) && (forall n: nat :: Increasing(stores(n), less))
    requires forall n: nat :: x in stores(n)
    ensures x in Flat(pages)
  {
    assert pages[..0] == [] && Behind(Cursor(pages[..0]), less, x);
    hide StrictOrder, Reads, Increasing, Page, Cursor, Behind, Covers;
    SomePageCovers(pages, less, x, 0);
    var k: nat :| k < |pages| && Covers(pages, less, k, x);
    ExportedExactlyWhen(pages, less, limit, stores, k, x);
  }

  lemma {:induction false} ReadsInit<T>(pages: seq<seq<T>>, less: (T, T) -> bool, limit: nat, stores: nat -> seq<T>)
    requires Reads(stores, less, limit, pages) && pages != []
    ensures Reads(stores, less, limit, pages[..|pages| - 1])
  {
    var init := pages[..|pages| - 1];
    forall k: nat | k < |init| ensures init[k] == Page(stores(k), less, Cursor(init[..k]), limit) {
      assert init[..k] == pages[..k];
    }
  }

  /** Everything exported so far lies at or before the cursor. */
  lemma {:induction false} FlatIsPassed<T(!new)>(pages: seq<seq<T>>, less: (T, T) -> bool, limit: nat, stores: nat -> seq<T>, x: T)
    requires StrictOrder(less) && Reads(stores, less, limit, pages) && (forall n: nat :: Increasing(stores(n), less))
    requires x in Flat(pages)
    ensures !Behind(Cursor(pages), less, x)
    ensures exists k: nat :: k < |pages| && x in stores(k)
  {
    var last := |pages| - 1;
    var init, page := pages[..last], pages[last];
    ReadsInit(pages, less, limit, stores);
    PageIs(stores(last), less, Cursor(init), limit);
    hide StrictOrder, Reads, Increasing, Page;
    if x in page {
      LastPasses(page, less, x);
      assert x in stores(last);
    } else {
      FlatIsPassed(init, less, limit, stores, x);
      var k: nat :| k < |init| && x in stores(k);
      assert k < |pages|;
      if page != [] {
        assert page[|page| - 1] in page;
        StaysPassed(less, Cursor(init), page[|page| - 1], x);
      }
    }
  }

  /** The export is in strict key order, so nothing is exported twice. */
  lemma {:induction false} ExportInOrder<T(!new)>(pages: seq<seq<T>>, less: (T, T) -> bool, limit: nat, stores: nat -> seq<T>)
    requires StrictOrder(less) && Reads(stores, less, limit, pages) && (forall n: nat :: Increasing(stores(n), less))
    ensures Increasing(Flat(pages), less)
  {
    if pages != [] {
      var last := |pages| - 1;
      var init, page := pages[..last], pages[last];
      ReadsInit(pages, less, limit, stores);
      ExportInOrder(init, less, limit, stores);
      PageIs(stores(last), less, Cursor(init), limit);
      var early := Flat(init);
      forall i, j | 0 <= i < |early| && 0 <= j < |page| ensures less(early[i], page[j]) {
        hide StrictOrder, Reads, Increasing, Page;
        FlatIsPassed(init, less, limit, stores, early[i]);
        assert page[j] in page;
        AcrossTheCursor(less, Cursor(init), early[i], page[j]);
      }
      hide StrictOrder, Reads, Page;
      assert Flat(pages) == early + page;
    }
  }

  lemma HasFirst<T>(s: seq<T>)
    ensures s != [] ==> s[0] in s
  {
  }

  /** Two listings of the same rows in strict order are the same listing. */
  lemma {:induction false} SameListing<T(!new)>(s: seq<T>, t: seq<T>, less: (T, T) -> bool)
    requires StrictOrder(less) && Increasing(s, less) && Increasing(t, less) && forall x :: x in s <==> x in t
    ensures s == t
    decreases |s|
  {
    if s == [] || t == [] {
      HasFirst(s);
      HasFirst(t);
    } else {
      var a, b := s[|s| - 1], t[|t| - 1];
      assert a in t && b in s;
      BelowLast(s, less);
      BelowLast(t, less);
      assert a == b;
      var init, other := s[..|s| - 1], t[..|t| - 1];
      assert s == init + [a] && t == other + [b];
      forall x | x in init ensures x in other {
        assert less(x, a) && x in s;
      }
      forall x | x in other ensures x in init {
        assert less(x, b) && x in t;
      }
      SameListing(init, other, less);
    }
  }

  /** On a table that does not change, the export is the plain scan: each row once, in order,
      whether or not the count is a multiple of the page size. */
  lemma ExportIsTheScan<T(!new)>(pages: seq<seq<T>>, less: (T, T) -> bool, limit: nat, stores: nat -> seq<T>, s: seq<T>)
    requires StrictOrder(less) && Finished(stores, less, limit, pages) && Increasing(s, less)
    requires forall n: nat :: stores(n) == s
    ensures Flat(pages) == s
  {
    hide StrictOrder, Increasing, Page, Cursor, Flat;
    ExportInOrder(pages, less, limit, stores);
    forall x ensures x in s <==> x in Flat(pages) {
      if x in s {
        PresentFromTheStart(pages, less, limit, stores, x);
      }
      if x in Flat(pages) {
        FlatIsPassed(pages, less, limit, stores, x);
      }
    }
    SameListing(s, Flat(pages), less);
  }

  /** A table with fewer rows than a page is one page. */
  lemma OnePage<T>(stores: nat -> seq<T>, less: (T, T) -> bool, limit: nat, s: seq<T>)
    requires stores(0) == s && |s| < limit
    ensures Finished(stores, less, limit, [s]) && Flat([s]) == s
  {
    assert [s][..0] == [] && Flat([s][..0]) == [];
    Everything(s, less);
  }

  lemma {:induction false} Everything<T>(s: seq<T>, less: (T, T) -> bool)
    ensures Past(s, less, None) == s
  {
    if s != [] {
      Everything(s[..|s| - 1], less);
    }
  }

  // ---- The loop --------------------------------------------------------------------------------------

  /** The cursor stands just before position `m` of `all`. */
  ghost predicate At<T>(cursor: Option<T>, all: seq<T>, m: nat) {
    m <= |all| && (if m == 0 then cursor.None? else cursor == Some(all[m - 1]))
  }

  lemma LaterIsGreater<T(!new)>(all: seq<T>, less: (T, T) -> bool, i: nat, j: nat)
    requires StrictOrder(less) && Increasing(all, less) && i < |all| && j < |all|
    ensures less(all[i], all[j]) ==> i < j
  {
    if j < i {
      assert less(all[j], all[i]);
    }
  }

  lemma Advances<T(!new)>(all: seq<T>, less: (T, T) -> bool, cursor: Option<T>, m: nat, next: T) returns (n: nat)
    requires StrictOrder(less) && Increasing(all, less) && At(cursor, all, m) && next in all && Behind(cursor, less, next)
    ensures m < n && At(Some(next), all, n)
  {
    var i: nat :| i < |all| && all[i] == next;
    n := i + 1;
    if m > 0 {
      LaterIsGreater(all, less, m - 1, i);
    }
  }

  lemma NoPages<T>(stores: nat -> seq<T>, less: (T, T) -> bool, limit: nat)
    ensures Reads(stores, less, limit, [])
  {
  }

  lemma ReadsMore<T>(stores: nat -> seq<T>, less: (T, T) -> bool, limit: nat, pages: seq<seq<T>>, rows: seq<T>)
    requires Reads(stores, less, limit, pages) && rows == Page(stores(|pages|), less, Cursor(pages), limit)
    ensures Reads(stores, less, limit, pages + [rows])
  {
    hide Page, Cursor;
    var more := pages + [rows];
    forall k: nat | k < |more| ensures more[k] == Page(stores(k), less, Cursor(more[..k]), limit) {
      if k < |pages| {
        assert more[..k] == pages[..k];
      } else {
        assert more[..k] == pages;
      }
    }
  }

  lemma OneMorePage<T>(pages: seq<seq<T>>, rows: seq<T>)
    ensures Flat(pages + [rows]) == Flat(pages) + rows
    ensures Cursor(pages + [rows]) == if rows == [] then Cursor(pages) else Some(rows[|rows| - 1])
  {
    assert (pages + [rows])[..|pages|] == pages;
  }

  /** One of the two loops of `export_memory`; `all` bounds what the table can come to hold. */
  method ReadPages<T(!new)>(stores: nat -> seq<T>, less: (T, T) -> bool, limit: nat, ghost all: seq<T>)
    returns (out: seq<T>, pages: seq<seq<T>>)
    requires StrictOrder(less) && limit > 0 && Increasing(all, less)
    requires forall n: nat :: Increasing(stores(n), less) && forall x :: x in stores(n) ==> x in all
    ensures Finished(stores, less, limit, pages) && out == Flat(pages)
  {
    hide StrictOrder, Reads, Page;
    out, pages := [], [];
    assert Reads(stores, less, limit, pages) by {
      NoPages(stores, less, limit);
    }
    var cursor: Option<T> := None;
    ghost var m: nat := 0;
    while true
      invariant Reads(stores, less, limit, pages) && out == Flat(pages) && cursor == Cursor(pages)
      invariant forall k :: 0 <= k < |pages| ==> |pages[k]| == limit
      invariant At(cursor, all, m)
      decreases |all| - m
    {
      var rows := Page(stores(|pages|), less, cursor, limit);
      PageIs(stores(|pages|), less, cursor, limit);
      ReadsMore(stores, less, limit, pages, rows);
      OneMorePage(pages, rows);
      if rows != [] {
        assert rows[|rows| - 1] in rows;
        m := Advances(all, less, cursor, m, rows[|rows| - 1]);
        cursor := Some(rows[|rows| - 1]);
      }
      out, pages := out + rows, pages + [rows];
      if |rows| < limit {
        break;
      }
    }
  }
}
