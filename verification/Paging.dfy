/**
  Reading candles window by window: the cursor of `_fetch_candles` (gateio_nt/data.py).
*/
module Paging {
  import opened Basics

  // -- candles -----------------------------------------------------------

  const MAX_REST_LIMIT := 1000

  function Min(a: int, b: int): int {
    if a < b then a else b
  }

  function Max(a: int, b: int): int {
    if a > b then a else b
  }

  /** A normalized row: its open time in seconds, and the rest of it. */
  datatype Candle = Candle(open: int, row: int)

  /** What the endpoint answers to a window. Answers may differ from call to call. */
  type CandleVenue = (nat, int, int) -> seq<Candle>

  function Collect(into: map<int, int>, rows: seq<Candle>): map<int, int> {
    if rows == [] then into
    else Collect(into, rows[..|rows| - 1])[rows[|rows| - 1].open := rows[|rows| - 1].row]
  }

  ghost predicate Sorted(rows: seq<Candle>) {
    forall i, j :: 0 <= i < j < |rows| ==> rows[i].open < rows[j].open
  }

  /** The entries of a dictionary, each once. */
  ghost predicate Lists(rows: seq<Candle>, m: map<int, int>) {
    && (forall i :: 0 <= i < |rows| ==> rows[i].open in m && m[rows[i].open] == rows[i].row)
    && (forall t <- m :: exists i :: 0 <= i < |rows| && rows[i].open == t)
  }

  lemma {:induction false} HasLeast(times: set<int>)
    requires times != {}
    ensures exists t <- times :: forall u <- times :: t <= u
    decreases |times|
  {
    var t := Pick(times);
    var rest := times - {t};
    if rest == {} {
      assert times == {t};
    } else {
      HasLeast(rest);
      var u :| u in rest && forall v <- rest :: u <= v;
      var least := if t < u then t else u;
      assert least in times;
      forall v <- times ensures least <= v {
        if v != t {
          assert v in rest;
        }
      }
    }
  }

  function Least(times: set<int>): (least: int)
    requires times != {}
    ensures least in times && forall u <- times :: least <= u
  {
    HasLeast(times);
    var t :| t in times && forall u <- times :: t <= u;
    t
  }

  /** `sorted(collected.items())`: the dictionary in time order. */
  function SortedItems(m: map<int, int>): seq<Candle>
    decreases |m|
  {
    if m == map[] then [] else
    var t := Least(m.Keys);
    assert (m - {t}).Keys == m.Keys - {t};
    [Candle(t, m[t])] + SortedItems(m - {t})
  }

  lemma PrependSorted(first: Candle, tail: seq<Candle>)
    requires Sorted(tail) && forall c <- tail :: first.open < c.open
    ensures Sorted([first] + tail)
  {
    var rows := [first] + tail;
    forall i, j | 0 <= i < j < |rows| ensures rows[i].open < rows[j].open {
      assert rows[j] == tail[j - 1] && tail[j - 1] in tail;
    }
  }

  lemma PrependLists(m: map<int, int>, t: int, tail: seq<Candle>)
    requires t in m && Lists(tail, m - {t})
    ensures Lists([Candle(t, m[t])] + tail, m)
  {
    var rows := [Candle(t, m[t])] + tail;
    forall u <- m ensures exists i :: 0 <= i < |rows| && rows[i].open == u {
      if u == t {
        assert rows[0].open == u;
      } else {
        assert u in m - {t};
        var i :| 0 <= i < |tail| && tail[i].open == u;
        assert rows[i + 1].open == u;
      }
    }
  }

  lemma PrependLeast(m: map<int, int>, t: int, tail: seq<Candle>)
    requires t in m && forall u <- m :: t <= u
    requires Sorted(tail) && Lists(tail, m - {t})
    ensures Sorted([Candle(t, m[t])] + tail) && Lists([Candle(t, m[t])] + tail, m)
  {
    forall c <- tail ensures t < c.open {
      assert c.open in m - {t};
    }
    PrependSorted(Candle(t, m[t]), tail);
    PrependLists(m, t, tail);
  }

  lemma {:induction false} SortedItemsListAll(m: map<int, int>)
    ensures Sorted(SortedItems(m)) && Lists(SortedItems(m), m)
    decreases |m|
  {
    if m != map[] {
      var t := Least(m.Keys);
      assert (m - {t}).Keys == m.Keys - {t};
      SortedItemsListAll(m - {t});
      PrependLeast(m, t, SortedItems(m - {t}));
    }
  }

  function Newest(rows: seq<Candle>): int
    requires rows != []
  {
    if |rows| == 1 then rows[0].open else Max(rows[0].open, Newest(rows[1..]))
  }

  lemma {:induction false} NewestIsReached(rows: seq<Candle>)
    requires rows != []
    ensures exists i :: 0 <= i < |rows| && rows[i].open == Newest(rows)
    ensures forall i :: 0 <= i < |rows| ==> rows[i].open <= Newest(rows)
    decreases |rows|
  {
    if Newest(rows) == rows[0].open {
      assert rows[0].open == Newest(rows);
    }
    if |rows| > 1 {
      NewestIsReached(rows[1..]);
      var j :| 0 <= j < |rows[1..]| && rows[1..][j].open == Newest(rows[1..]);
      assert rows[j + 1].open == Newest(rows[1..]);
      forall i | 0 < i < |rows| ensures rows[i].open <= Newest(rows) {
        assert rows[i] == rows[1..][i - 1];
      }
    }
  }

  function WindowEnd(cursor: int, step: int, end: int): int {
    var w := cursor + (MAX_REST_LIMIT - 1) * step;
    if w < end then w else end
  }

  /** A window spans a thousand buckets, both ends counted, and never reaches past the request. */
  lemma WindowSpansAThousand(cursor: int, step: int, end: int)
    ensures WindowEnd(cursor, step, end) == Min(cursor + 999 * step, end)
  {
  }

  /** The row kept for an open time is the last one that states it. */
  lemma {:induction false} LastRowIsKept(into: map<int, int>, rows: seq<Candle>, i: nat)
    requires i < |rows| && forall j :: i < j < |rows| ==> rows[j].open != rows[i].open
    ensures rows[i].open in Collect(into, rows) && Collect(into, rows)[rows[i].open] == rows[i].row
    decreases |rows|
  {
    var before := rows[..|rows| - 1];
    if i < |before| {
      forall j | i < j < |before| ensures before[j].open != before[i].open {
        assert rows[j].open != rows[i].open;
      }
      LastRowIsKept(into, before, i);
      assert rows[|rows| - 1].open != rows[i].open;
    }
  }

  /** The venue holds a fixed set of candles and answers each window exactly. */
  ghost predicate AnswersExactly(venue: CandleVenue, candles: map<int, int>) {
    forall call, lo, hi ::
      ExactRows(venue(call, lo, hi), candles, lo, hi)
  }

  /** Candles stand on a grid of the step's width. */
  ghost predicate OnGrid(candles: map<int, int>, step: int) {
    forall t, u :: t in candles && u in candles && t < u ==> t + step <= u
  }

  function Requested(candles: map<int, int>, start: int, end: int): map<int, int> {
    map t | t in candles && start <= t <= end :: candles[t]
  }

  /** A stretch of a thousand empty buckets with a requested candle behind it. */
  ghost predicate GapAt(candles: map<int, int>, from: int, step: int, end: int) {
    && (forall t <- candles :: from <= t <= end ==> t > from + (MAX_REST_LIMIT - 1) * step)
    && (exists t <- candles :: from <= t <= end)
  }

  /** No gap opens at the start of the request, nor right behind any of its candles. */
  ghost predicate NoGap(candles: map<int, int>, start: int, step: int, end: int) {
    && !GapAt(candles, start, step, end)
    && forall t <- candles :: start <= t <= end ==> !GapAt(candles, t + step, step, end)
  }

  lemma {:induction false} CollectAt(into: map<int, int>, rows: seq<Candle>, t: int)
    ensures t in Collect(into, rows) <==> t in into || exists i :: 0 <= i < |rows| && rows[i].open == t
    ensures t in Collect(into, rows) && (forall i :: 0 <= i < |rows| ==> rows[i].open != t) ==>
              t in into && Collect(into, rows)[t] == into[t]
    ensures t in Collect(into, rows) && !(forall i :: 0 <= i < |rows| ==> rows[i].open != t) ==>
              exists i :: 0 <= i < |rows| && rows[i] == Candle(t, Collect(into, rows)[t])
    decreases |rows|
  {
    if rows != [] {
      var before, last := rows[..|rows| - 1], rows[|rows| - 1];
      CollectAt(into, before, t);
      assert forall i :: 0 <= i < |before| ==> before[i] == rows[i];
      if last.open == t {
        assert rows[|rows| - 1] == Candle(t, Collect(into, rows)[t]);
      } else if t in Collect(into, rows) && !(forall i :: 0 <= i < |rows| ==> rows[i].open != t) {
        var i :| 0 <= i < |before| && before[i] == Candle(t, Collect(into, before)[t]);
        assert rows[i] == before[i];
      }
      if exists i :: 0 <= i < |before| && before[i].open == t {
        var i :| 0 <= i < |before| && before[i].open == t;
        assert rows[i].open == t;
      }
    }
  }

  /** The rows of one window, exactly. */
  ghost predicate ExactRows(rows: seq<Candle>, candles: map<int, int>, lo: int, hi: int) {
    && (forall i :: 0 <= i < |rows| ==>
          lo <= rows[i].open <= hi && rows[i].open in candles && candles[rows[i].open] == rows[i].row)
    && (forall t <- candles :: lo <= t <= hi ==> exists i :: 0 <= i < |rows| && rows[i].open == t)
  }

  /** What one exact answer adds: every requested candle up to one step past its newest. */
  lemma WindowCollected(candles: map<int, int>, start: int, end: int, step: int, cursor: int,
                        rows: seq<Candle>, collected: map<int, int>)
    requires step > 0 && OnGrid(candles, step) && start <= cursor <= end
    requires ExactRows(rows, candles, cursor, WindowEnd(cursor, step, end))
    requires rows != [] && collected == Requested(candles, start, Min(cursor - 1, end))
    ensures Collect(collected, rows) == Requested(candles, start, Min(Newest(rows) + step - 1, end))
  {
    var newest := Newest(rows);
    NewestIsReached(rows);
    var hi := Min(newest + step - 1, end);
    var got, want := Collect(collected, rows), Requested(candles, start, hi);
    forall t ensures (t in got <==> t in want) && (t in got && t in want ==> got[t] == want[t]) {
      CollectAt(collected, rows, t);
      if t in want && t >= cursor {
        var i :| 0 <= i < |rows| && rows[i].open == newest;
        assert newest in candles;
        assert t <= newest;
      }
    }
    SameMap(got, want);
  }

  /** No gap opened anywhere the cursor has already been. */
  ghost predicate NoGapBefore(candles: map<int, int>, start: int, step: int, end: int, cursor: int) {
    && (cursor > start ==> !GapAt(candles, start, step, end))
    && forall t <- candles :: start <= t <= end && t + step < cursor ==> !GapAt(candles, t + step, step, end)
  }

  /** The cursor stands at the start, or one step behind a requested candle. */
  ghost predicate OnTrack(candles: map<int, int>, start: int, step: int, end: int, cursor: int) {
    cursor == start || (cursor - step in candles && start <= cursor - step <= end)
  }

  lemma CursorMovesOn(candles: map<int, int>, start: int, step: int, end: int, cursor: int, newest: int)
    requires step > 0 && OnGrid(candles, step) && start <= cursor <= end
    requires OnTrack(candles, start, step, end, cursor) && NoGapBefore(candles, start, step, end, cursor)
    requires newest in candles && cursor <= newest <= WindowEnd(cursor, step, end)
    ensures OnTrack(candles, start, step, end, newest + step)
    ensures NoGapBefore(candles, start, step, end, newest + step)
  {
    forall t <- candles | start <= t <= end && t + step < newest + step && t + step >= cursor
      ensures !GapAt(candles, t + step, step, end)
    {
      assert t + step <= newest;
    }
  }

  /** Where the loop stops: everything is collected exactly if no candle is left, and then no gap was met. */
  lemma CursorStops(candles: map<int, int>, start: int, step: int, end: int, cursor: int)
    requires step > 0 && OnGrid(candles, step) && start <= cursor
    requires OnTrack(candles, start, step, end, cursor) && NoGapBefore(candles, start, step, end, cursor)
    requires cursor > end || forall t <- candles :: !(cursor <= t <= WindowEnd(cursor, step, end))
    ensures NoGap(candles, start, step, end) <==> forall t <- candles :: !(cursor <= t <= end)
  {
    if forall t <- candles :: !(cursor <= t <= end) {
      forall t <- candles | start <= t <= end ensures !GapAt(candles, t + step, step, end) {
      }
    } else {
      assert GapAt(candles, cursor, step, end);
    }
  }

  lemma ListsOnlyOne(rows: seq<Candle>, a: map<int, int>, b: map<int, int>)
    requires Lists(rows, a) && Lists(rows, b)
    ensures a == b
  {
    forall t ensures (t in a <==> t in b) && (t in a && t in b ==> a[t] == b[t]) {
      if t in a {
        var i :| 0 <= i < |rows| && rows[i].open == t;
      }
      if t in b {
        var i :| 0 <= i < |rows| && rows[i].open == t;
      }
    }
    SameMap(a, b);
  }

  lemma CollectedIsComplete(candles: map<int, int>, start: int, end: int, cursor: int)
    requires start <= cursor
    ensures Requested(candles, start, Min(cursor - 1, end)) == Requested(candles, start, end)
       <==> forall t <- candles :: !(cursor <= t <= end)
  {
    var got, want := Requested(candles, start, Min(cursor - 1, end)), Requested(candles, start, end);
    if got == want {
      forall t <- candles ensures !(cursor <= t <= end) {
        assert t in got <==> t in want;
      }
    } else if forall t <- candles :: !(cursor <= t <= end) {
      SameMap(got, want);
    }
  }

  /**
    `_fetch_candles`. With a positive step it ends whatever the venue answers. If the venue
    answers each window exactly on a grid, the result is exactly the requested candles, in
    time order without repetition, if and only if no thousand-bucket gap stands in the way.
  */
  method FetchCandles(venue: CandleVenue, step: int, start: int, end: int, limit: nat,
                      latest: (int, int) -> seq<Candle>, ghost candles: map<int, int>)
    returns (rows: seq<Candle>)
    requires step > 0
    ensures Sorted(rows)
    ensures start <= 0 ==>
              var pageLimit := if limit == 0 then MAX_REST_LIMIT else Min(limit, MAX_REST_LIMIT);
              Lists(rows, Collect(map[], latest(pageLimit, end)))
    ensures start > 0 && AnswersExactly(venue, candles) && OnGrid(candles, step) ==>
              (Lists(rows, Requested(candles, start, end)) <==> NoGap(candles, start, step, end))
  {
    var collected: map<int, int> := map[];
    if start <= 0 {
      var pageLimit := if limit == 0 then MAX_REST_LIMIT else Min(limit, MAX_REST_LIMIT);
      collected := Collect(collected, latest(pageLimit, end));
      rows := SortedItems(collected);
      SortedItemsListAll(collected);
      return;
    }
    var cursor, calls := start, 0;
    ghost var exact := AnswersExactly(venue, candles) && OnGrid(candles, step);
    while cursor <= end
      invariant cursor >= start && calls >= 0
      invariant exact ==> Progress(candles, start, step, end, cursor, collected)
      decreases end - cursor
    {
      var windowEnd := WindowEnd(cursor, step, end);
      var page := venue(calls, cursor, windowEnd);
      assert exact ==> ExactRows(page, candles, cursor, windowEnd);
      calls := calls + 1;
      if page == [] {
        break;
      }
      if exact {
        PageProgress(candles, start, step, end, cursor, collected, page);
      }
      collected := Collect(collected, page);
      var newest := Newest(page);
      if newest + step <= cursor {
        break;
      }
      cursor := newest + step;
    }
    rows := SortedItems(collected);
    SortedItemsListAll(collected);
    if exact {
      PagingComplete(candles, start, step, end, cursor, collected, rows);
    }
  }

  /** What the loop keeps against an exact venue. */
  ghost predicate Progress(candles: map<int, int>, start: int, step: int, end: int, cursor: int,
                           collected: map<int, int>) {
    && start <= cursor && collected == Requested(candles, start, Min(cursor - 1, end))
    && OnTrack(candles, start, step, end, cursor) && NoGapBefore(candles, start, step, end, cursor)
  }

  lemma PageProgress(candles: map<int, int>, start: int, step: int, end: int, cursor: int,
                     collected: map<int, int>, page: seq<Candle>)
    requires step > 0 && OnGrid(candles, step) && cursor <= end && page != []
    requires Progress(candles, start, step, end, cursor, collected)
    requires ExactRows(page, candles, cursor, WindowEnd(cursor, step, end))
    ensures Newest(page) + step > cursor
    ensures Progress(candles, start, step, end, Newest(page) + step, Collect(collected, page))
  {
    NewestIsReached(page);
    WindowCollected(candles, start, end, step, cursor, page, collected);
    CursorMovesOn(candles, start, step, end, cursor, Newest(page));
  }

  lemma PagingComplete(candles: map<int, int>, start: int, step: int, end: int, cursor: int,
                       collected: map<int, int>, rows: seq<Candle>)
    requires step > 0 && OnGrid(candles, step)
    requires Progress(candles, start, step, end, cursor, collected) && Lists(rows, collected)
    requires cursor > end || forall t <- candles :: !(cursor <= t <= WindowEnd(cursor, step, end))
    ensures Lists(rows, Requested(candles, start, end)) <==> NoGap(candles, start, step, end)
  {
    CursorStops(candles, start, step, end, cursor);
    CollectedIsComplete(candles, start, end, cursor);
    if Lists(rows, Requested(candles, start, end)) {
      ListsOnlyOne(rows, collected, Requested(candles, start, end));
    }
  }
}
