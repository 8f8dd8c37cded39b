/**
  Reading every page of a trade listing (gateio_nt/execution.py) whose endpoint accepts no
  time range: paging stops at the first page that reaches past the window's start, and the
  collected rows are then filtered by time.
*/
module ReportPages {
  const REPORT_PAGE_LIMIT := 100
  const MAX_REPORT_PAGES := 20
  const NANOS_PER_SEC := 1_000_000_000

  /** A row of a page: an object with its execution time (zero when it states none), or something else. */
  datatype Row = Object(trade: nat, ts: nat) | Junk

  function Objects(rows: seq<Row>): seq<Row> {
    if rows == [] then [] else
    var before := Objects(rows[..|rows| - 1]);
    if rows[|rows| - 1].Junk? then before else before + [rows[|rows| - 1]]
  }

  /** `_oldest_ts_before`. */
  predicate OldestBefore(rows: seq<Row>, startSecs: int) {
    exists i :: 0 <= i < |rows| && rows[i].Object? && rows[i].ts != 0 && rows[i].ts < startSecs * NANOS_PER_SEC
  }

  /** A stamped row inside the window, as `_within` has it. */
  predicate InWindow(row: Row, startSecs: int, endSecs: int) {
    row.Object? && row.ts != 0 && startSecs * NANOS_PER_SEC <= row.ts <= (endSecs + 1) * NANOS_PER_SEC
  }

  function Kept(rows: seq<Row>, startSecs: int, endSecs: int): seq<Row> {
    if rows == [] then [] else
    var before := Kept(rows[..|rows| - 1], startSecs, endSecs);
    if InWindow(rows[|rows| - 1], startSecs, endSecs) then before + [rows[|rows| - 1]] else before
  }

  /** What is kept: the objects stamped from the start of the window to one second past its end, both included. */
  lemma {:induction false} KeptMembers(rows: seq<Row>, startSecs: int, endSecs: int, row: Row)
    ensures row in Kept(rows, startSecs, endSecs) <==>
            && row in rows && row.Object? && row.ts != 0
            && startSecs * 1_000_000_000 <= row.ts <= endSecs * 1_000_000_000 + 1_000_000_000
    decreases |rows|
  {
    if rows != [] {
      KeptMembers(rows[..|rows| - 1], startSecs, endSecs, row);
      assert rows == rows[..|rows| - 1] + [rows[|rows| - 1]];
    }
  }

  // -- a static listing --------------------------------------------------

  function Cut(n: nat, limit: nat): nat {
    if n < limit then n else limit
  }

  /** The offset behind the first pages. */
  function Behind(listing: seq<Row>, pages: nat): (n: nat)
    ensures n <= |listing|
  {
    Cut(pages * REPORT_PAGE_LIMIT, |listing|)
  }

  /** The page at a row offset. */
  function PageOf(listing: seq<Row>, page: nat): seq<Row> {
    listing[Behind(listing, page)..Behind(listing, page + 1)]
  }

  /** The endpoint: a page for every page number. */
  function Pages(listing: seq<Row>): nat -> seq<Row> {
    (page: nat) => PageOf(listing, page)
  }

  predicate Stamped(row: Row) {
    row.Object? && row.ts != 0
  }

  ghost predicate NewestFirst(listing: seq<Row>) {
    forall i, j :: 0 <= i < j < |listing| && Stamped(listing[i]) && Stamped(listing[j]) ==>
      listing[i].ts >= listing[j].ts
  }

  lemma {:induction false} KeptConcat(a: seq<Row>, b: seq<Row>, startSecs: int, endSecs: int)
    ensures Kept(a + b, startSecs, endSecs) == Kept(a, startSecs, endSecs) + Kept(b, startSecs, endSecs)
    decreases |b|
  {
    if b == [] {
      assert a + b == a;
    } else {
      assert (a + b)[..|a + b| - 1] == a + b[..|b| - 1];
      KeptConcat(a, b[..|b| - 1], startSecs, endSecs);
    }
  }

  lemma {:induction false} NothingKept(rows: seq<Row>, startSecs: int, endSecs: int)
    requires forall i :: 0 <= i < |rows| ==> !InWindow(rows[i], startSecs, endSecs)
    ensures Kept(rows, startSecs, endSecs) == []
    decreases |rows|
  {
    if rows != [] {
      NothingKept(rows[..|rows| - 1], startSecs, endSecs);
    }
  }

  /** Behind a row older than the window's start, a newest-first listing holds nothing of the window. */
  lemma BehindTheWindow(listing: seq<Row>, startSecs: int, endSecs: int, page: nat)
    requires NewestFirst(listing) && OldestBefore(PageOf(listing, page), startSecs)
    ensures Kept(listing[Behind(listing, page + 1)..], startSecs, endSecs) == []
  {
    var lo, hi := Behind(listing, page), Behind(listing, page + 1);
    var rows, rest := PageOf(listing, page), listing[hi..];
    var i :| 0 <= i < |rows| && rows[i].Object? && rows[i].ts != 0 && rows[i].ts < startSecs * NANOS_PER_SEC;
    assert listing[lo + i] == rows[i];
    forall j | 0 <= j < |rest| ensures !InWindow(rest[j], startSecs, endSecs) {
      assert listing[hi + j] == rest[j];
    }
    NothingKept(rest, startSecs, endSecs);
  }

  /**
    `_collect_pages` over any endpoint: at most twenty pages, each asked for once and in order,
    stopping behind the first short page or the first one the stop rule names.
  */
  method CollectPages(fetch: nat -> seq<Row>, startSecs: int) returns (collected: seq<Row>, pages: nat)
    ensures 1 <= pages <= MAX_REPORT_PAGES
    ensures collected == Concatenated(fetch, pages)
    ensures forall k :: 0 <= k < pages - 1 ==> !Stops(fetch, k, startSecs)
    ensures pages < MAX_REPORT_PAGES ==> Stops(fetch, pages - 1, startSecs)
  {
    collected := [];
    for page := 0 to MAX_REPORT_PAGES
      invariant collected == Concatenated(fetch, page)
      invariant forall k :: 0 <= k < page ==> !Stops(fetch, k, startSecs)
    {
      var rows := Objects(fetch(page));
      collected := collected + rows;
      pages := page + 1;
      if |rows| < REPORT_PAGE_LIMIT {
        return;
      }
      if OldestBefore(rows, startSecs) {
        return;
      }
    }
    pages := MAX_REPORT_PAGES;
  }

  /** Paging ends behind this page: it is short of objects, or it reaches past the window's start. */
  predicate Stops(fetch: nat -> seq<Row>, page: nat, startSecs: int) {
    |Objects(fetch(page))| < REPORT_PAGE_LIMIT || OldestBefore(Objects(fetch(page)), startSecs)
  }

  function Concatenated(fetch: nat -> seq<Row>, pages: nat): seq<Row> {
    if pages == 0 then [] else Concatenated(fetch, pages - 1) + Objects(fetch(pages - 1))
  }

  /** Dropping what is no object loses nothing a window could keep. */
  lemma {:induction false} KeptObjects(rows: seq<Row>, startSecs: int, endSecs: int)
    ensures Kept(Objects(rows), startSecs, endSecs) == Kept(rows, startSecs, endSecs)
    decreases |rows|
  {
    if rows != [] {
      var before, last := rows[..|rows| - 1], rows[|rows| - 1];
      KeptObjects(before, startSecs, endSecs);
      if last.Object? {
        assert Objects(rows)[..|Objects(rows)| - 1] == Objects(before);
      }
    }
  }

  /** What a listing keeps is what its head keeps and what the rest keeps. */
  lemma KeptSplits(listing: seq<Row>, n: nat, startSecs: int, endSecs: int)
    requires n <= |listing|
    ensures Kept(listing, startSecs, endSecs)
         == Kept(listing[..n], startSecs, endSecs) + Kept(listing[n..], startSecs, endSecs)
  {
    assert listing == listing[..n] + listing[n..];
    KeptConcat(listing[..n], listing[n..], startSecs, endSecs);
  }

  /** The first pages of a static listing, put back together, keep what its first rows keep. */
  lemma {:induction false} PagesKeep(listing: seq<Row>, pages: nat, startSecs: int, endSecs: int)
    ensures Kept(Concatenated(Pages(listing), pages), startSecs, endSecs)
         == Kept(listing[..Behind(listing, pages)], startSecs, endSecs)
    decreases pages
  {
    if pages > 0 {
      PagesKeep(listing, pages - 1, startSecs, endSecs);
      var rows := PageOf(listing, pages - 1);
      KeptObjects(rows, startSecs, endSecs);
      KeptConcat(Concatenated(Pages(listing), pages - 1), Objects(rows), startSecs, endSecs);
      var before := listing[..Behind(listing, pages - 1)];
      assert listing[..Behind(listing, pages)] == before + rows;
      KeptConcat(before, rows, startSecs, endSecs);
    }
  }

  /** The window keeps nothing behind the first pages. */
  predicate NothingBehind(listing: seq<Row>, pages: nat, startSecs: int, endSecs: int) {
    Kept(listing[Behind(listing, pages)..], startSecs, endSecs) == []
  }

  /** For any listing: reading some of its pages loses nothing of the window exactly if nothing lies behind them. */
  lemma PagesCompleteIff(listing: seq<Row>, pages: nat, startSecs: int, endSecs: int)
    ensures Kept(Concatenated(Pages(listing), pages), startSecs, endSecs) == Kept(listing, startSecs, endSecs)
       <==> NothingBehind(listing, pages, startSecs, endSecs)
  {
    PagesKeep(listing, pages, startSecs, endSecs);
    KeptSplits(listing, Behind(listing, pages), startSecs, endSecs);
  }

  // -- where paging has to end -------------------------------------------

  /** A full page with a row that is no object, which reads as a short page. */
  predicate JunkPage(listing: seq<Row>, page: nat) {
    Behind(listing, page + 1) - Behind(listing, page) == REPORT_PAGE_LIMIT
    && exists i :: 0 <= i < |PageOf(listing, page)| && PageOf(listing, page)[i].Junk?
  }

  /** A full page holding junk ends the paging, on whichever page it stands. */
  lemma JunkPageStops(listing: seq<Row>, page: nat, startSecs: int)
    requires JunkPage(listing, page)
    ensures Stops(Pages(listing), page, startSecs)
  {
    var rows := PageOf(listing, page);
    var i :| 0 <= i < |rows| && rows[i].Junk?;
    JunkIsDropped(rows, i);
  }

  /** Paging that ends for any other reason leaves nothing of the window behind. */
  lemma OtherStopsLeaveNothing(listing: seq<Row>, page: nat, startSecs: int, endSecs: int)
    requires NewestFirst(listing) && Stops(Pages(listing), page, startSecs) && !JunkPage(listing, page)
    ensures Kept(listing[Behind(listing, page + 1)..], startSecs, endSecs) == []
  {
    var rows := PageOf(listing, page);
    if |Objects(rows)| < REPORT_PAGE_LIMIT {
      if |rows| == REPORT_PAGE_LIMIT {
        AllObjectsStay(rows);
      }
      assert Behind(listing, page + 1) == |listing|;
    } else {
      ObjectsAreRows(rows, startSecs);
      BehindTheWindow(listing, startSecs, endSecs, page);
    }
  }

  lemma {:induction false} AllObjectsStay(rows: seq<Row>)
    requires forall i :: 0 <= i < |rows| ==> rows[i].Object?
    ensures |Objects(rows)| == |rows|
    decreases |rows|
  {
    if rows != [] {
      AllObjectsStay(rows[..|rows| - 1]);
    }
  }

  lemma {:induction false} ObjectsAreRows(rows: seq<Row>, startSecs: int)
    ensures OldestBefore(Objects(rows), startSecs) ==> OldestBefore(rows, startSecs)
    decreases |rows|
  {
    if rows != [] {
      var before, objects := rows[..|rows| - 1], Objects(rows);
      ObjectsAreRows(before, startSecs);
      if OldestBefore(objects, startSecs) {
        var i :| 0 <= i < |objects| && objects[i].Object? && objects[i].ts != 0
                 && objects[i].ts < startSecs * NANOS_PER_SEC;
        if i < |Objects(before)| {
          assert Objects(before)[i] == objects[i];
          var k :| 0 <= k < |before| && before[k].Object? && before[k].ts != 0
                   && before[k].ts < startSecs * NANOS_PER_SEC;
          assert rows[k] == before[k];
        } else {
          assert rows[|rows| - 1] == objects[i];
        }
      }
    }
  }

  lemma KeptTailIsEmpty(listing: seq<Row>, n: nat, cap: nat, startSecs: int, endSecs: int)
    requires n <= cap <= |listing| && Kept(listing[n..], startSecs, endSecs) == []
    ensures Kept(listing[cap..], startSecs, endSecs) == []
  {
    KeptSplits(listing[n..], cap - n, startSecs, endSecs);
    assert listing[n..][cap - n..] == listing[cap..];
  }

  /** Behind the cap on pages, and behind every full page with a row that is no object, the window keeps nothing. */
  ghost predicate NothingOutOfReach(listing: seq<Row>, startSecs: int, endSecs: int) {
    && NothingBehind(listing, MAX_REPORT_PAGES, startSecs, endSecs)
    && forall k :: 0 <= k < MAX_REPORT_PAGES && JunkPage(listing, k) ==>
        NothingBehind(listing, k + 1, startSecs, endSecs)
  }

  /** Paging that reached the window's last fill has nothing of it out of reach. */
  lemma NothingFurther(listing: seq<Row>, startSecs: int, endSecs: int, pages: nat)
    requires pages <= MAX_REPORT_PAGES && NothingBehind(listing, pages, startSecs, endSecs)
    requires forall k :: 0 <= k < pages - 1 ==> !Stops(Pages(listing), k, startSecs)
    ensures NothingOutOfReach(listing, startSecs, endSecs)
  {
    forall n | pages <= n ensures NothingBehind(listing, n, startSecs, endSecs) {
      KeptTailIsEmpty(listing, Behind(listing, pages), Behind(listing, n), startSecs, endSecs);
    }
    forall k | 0 <= k < MAX_REPORT_PAGES && JunkPage(listing, k)
      ensures NothingBehind(listing, k + 1, startSecs, endSecs)
    {
      JunkPageStops(listing, k, startSecs);
      assert pages <= k + 1;
    }
  }

  /**
    The exact condition. On a static newest-first listing, stopping early and then filtering gives
    what filtering the whole listing gives if and only if nothing of the window lies behind the cap
    on pages, nor behind a full page that holds a row which is no object.
  */
  lemma EarlyStopLosesNothing(listing: seq<Row>, startSecs: int, endSecs: int, pages: nat)
    requires NewestFirst(listing) && 1 <= pages <= MAX_REPORT_PAGES
    requires forall k :: 0 <= k < pages - 1 ==> !Stops(Pages(listing), k, startSecs)
    requires pages < MAX_REPORT_PAGES ==> Stops(Pages(listing), pages - 1, startSecs)
    ensures Kept(Concatenated(Pages(listing), pages), startSecs, endSecs) == Kept(listing, startSecs, endSecs)
       <==> NothingOutOfReach(listing, startSecs, endSecs)
  {
    PagesCompleteIff(listing, pages, startSecs, endSecs);
    if pages < MAX_REPORT_PAGES && !JunkPage(listing, pages - 1) {
      OtherStopsLeaveNothing(listing, pages - 1, startSecs, endSecs);
    }
    if NothingBehind(listing, pages, startSecs, endSecs) {
      NothingFurther(listing, startSecs, endSecs, pages);
    }
  }

  /** A listing of fills of the window alone is read completely if and only if there are at most two thousand. */
  lemma TwoThousandAreRead(listing: seq<Row>, startSecs: int, endSecs: int, pages: nat)
    requires NewestFirst(listing) && 1 <= pages <= MAX_REPORT_PAGES
    requires forall i :: 0 <= i < |listing| ==> InWindow(listing[i], startSecs, endSecs)
    requires forall k :: 0 <= k < pages - 1 ==> !Stops(Pages(listing), k, startSecs)
    requires pages < MAX_REPORT_PAGES ==> Stops(Pages(listing), pages - 1, startSecs)
    ensures Kept(Concatenated(Pages(listing), pages), startSecs, endSecs) == Kept(listing, startSecs, endSecs)
       <==> |listing| <= 2000
  {
    EarlyStopLosesNothing(listing, startSecs, endSecs, pages);
    forall k: nat ensures !JunkPage(listing, k) {
      assert forall i :: 0 <= i < |PageOf(listing, k)| ==> PageOf(listing, k)[i].Object?;
    }
    AllAreKept(listing[Behind(listing, MAX_REPORT_PAGES)..], startSecs, endSecs);
  }

  lemma {:induction false} AllAreKept(rows: seq<Row>, startSecs: int, endSecs: int)
    requires forall i :: 0 <= i < |rows| ==> InWindow(rows[i], startSecs, endSecs)
    ensures Kept(rows, startSecs, endSecs) == rows
    decreases |rows|
  {
    if rows != [] {
      AllAreKept(rows[..|rows| - 1], startSecs, endSecs);
    }
  }

  /** A page with a stamped row from before the window is the last one read. */
  lemma OldRowStops(listing: seq<Row>, page: nat, startSecs: int, i: nat)
    requires i < |PageOf(listing, page)| && Stamped(PageOf(listing, page)[i])
    requires PageOf(listing, page)[i].ts < startSecs * 1_000_000_000
    ensures Stops(Pages(listing), page, startSecs)
  {
    ObjectsKeep(PageOf(listing, page), i);
  }

  lemma {:induction false} ObjectsKeep(rows: seq<Row>, i: nat)
    requires i < |rows| && rows[i].Object?
    ensures exists k :: 0 <= k < |Objects(rows)| && Objects(rows)[k] == rows[i]
    decreases |rows|
  {
    var n := |rows| - 1;
    if i < n {
      ObjectsKeep(rows[..n], i);
      var k :| 0 <= k < |Objects(rows[..n])| && Objects(rows[..n])[k] == rows[..n][i];
      assert Objects(rows)[k] == rows[i];
    } else {
      assert Objects(rows)[|Objects(rows)| - 1] == rows[i];
    }
  }

  /** Some row states no execution time; it cannot be ordered, so the listing as a whole fails. */
  predicate HasUnstamped(rows: seq<Row>) {
    exists i :: 0 <= i < |rows| && rows[i].Object? && rows[i].ts == 0
  }

  /** The rows inside the window, and whether an unreadable one fails the listing. */
  method FilterRows(rows: seq<Row>, startSecs: int, endSecs: int) returns (reports: seq<Row>, failed: bool)
    ensures reports == Kept(rows, startSecs, endSecs)
    ensures failed == HasUnstamped(rows)
  {
    reports, failed := [], false;
    for i := 0 to |rows|
      invariant reports == Kept(rows[..i], startSecs, endSecs)
      invariant failed == HasUnstamped(rows[..i])
    {
      assert rows[..i + 1][..i] == rows[..i] && rows[..i + 1][i] == rows[i];
      if rows[i].Object? && rows[i].ts == 0 {
        failed := true;
      } else {
        StampedAdds(rows, i);
        if InWindow(rows[i], startSecs, endSecs) {
          reports := reports + [rows[i]];
        }
      }
    }
    assert rows[..|rows|] == rows;
  }

  /** The fills reported for a window of a static listing: read page by page, then filtered. */
  method FillReports(listing: seq<Row>, startSecs: int, endSecs: int)
    returns (reports: seq<Row>, failed: bool, pages: nat)
    ensures 1 <= pages <= MAX_REPORT_PAGES
    ensures reports == Kept(Concatenated(Pages(listing), pages), startSecs, endSecs)
    ensures failed == HasUnstamped(Concatenated(Pages(listing), pages))
    ensures NewestFirst(listing) ==>
      (reports == Kept(listing, startSecs, endSecs)
       <==> NothingOutOfReach(listing, startSecs, endSecs))
  {
    var rows;
    rows, pages := CollectPages(Pages(listing), startSecs);
    reports, failed := FilterRows(rows, startSecs, endSecs);
    if NewestFirst(listing) {
      EarlyStopLosesNothing(listing, startSecs, endSecs, pages);
    }
  }

  lemma StampedAdds(rows: seq<Row>, i: nat)
    requires i < |rows| && !(rows[i].Object? && rows[i].ts == 0)
    ensures HasUnstamped(rows[..i + 1]) == HasUnstamped(rows[..i])
  {
    if HasUnstamped(rows[..i]) {
      var k :| 0 <= k < i && rows[..i][k].Object? && rows[..i][k].ts == 0;
      assert rows[..i + 1][k] == rows[..i][k];
    }
    if HasUnstamped(rows[..i + 1]) {
      var k :| 0 <= k < i + 1 && rows[..i + 1][k].Object? && rows[..i + 1][k].ts == 0;
      assert rows[..i][k] == rows[..i + 1][k];
    }
  }

  /** One junk row and a hundred fills of the window, newest first. */
  function HundredFills(): seq<Row> {
    [Junk] + seq(REPORT_PAGE_LIMIT, (i: nat) => Object(i, 5 * NANOS_PER_SEC))
  }

  /** A fill that is lost: the junk row ends the paging behind the first page, and a fill of the window stands there. */
  lemma JunkRowLosesAFill(pages: nat)
    requires 1 <= pages <= MAX_REPORT_PAGES
    requires forall k :: 0 <= k < pages - 1 ==> !Stops(Pages(HundredFills()), k, 0)
    requires pages < MAX_REPORT_PAGES ==> Stops(Pages(HundredFills()), pages - 1, 0)
    ensures NewestFirst(HundredFills()) && InWindow(HundredFills()[100], 0, 10)
    ensures Kept(Concatenated(Pages(HundredFills()), pages), 0, 10) != Kept(HundredFills(), 0, 10)
  {
    var listing := HundredFills();
    assert PageOf(listing, 0)[0] == Junk;
    assert JunkPage(listing, 0) && Behind(listing, 1) == 100;
    var rest := listing[100..];
    assert rest == [listing[100]];
    assert Kept(rest[..0], 0, 10) == [];
    assert Kept(rest, 0, 10) == [listing[100]];
    EarlyStopLosesNothing(listing, 0, 10, pages);
  }

  lemma {:induction false} JunkIsDropped(rows: seq<Row>, k: nat)
    requires k < |rows| && rows[k].Junk?
    ensures |Objects(rows)| < |rows|
    decreases |rows|
  {
    if k < |rows| - 1 {
      JunkIsDropped(rows[..|rows| - 1], k);
    } else {
      ObjectsAreFewer(rows[..|rows| - 1]);
    }
  }

  lemma {:induction false} ObjectsAreFewer(rows: seq<Row>)
    ensures |Objects(rows)| <= |rows|
    decreases |rows|
  {
    if rows != [] {
      ObjectsAreFewer(rows[..|rows| - 1]);
    }
  }
}
