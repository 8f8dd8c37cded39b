/**
  What each message does to the local book of gateio_nt/books.py, in the venue's own terms: ids,
  prices and sizes. A live stream keeps a synchronized book exactly as long as it has no gap.
*/
module BookStream {
  import opened Basics
  import opened Books

  /** An increment that states its range of update ids. */
  predicate Ranged(n: Notification) {
    !n.full && n.first.Some? && n.last.Some? && n.first.value <= n.last.value
  }

  // -- one message -------------------------------------------------------

  /**
    An increment on a synchronized book: a gap in front of it, and nothing else, is an error that
    unsynchronizes the book; one that follows on or overlaps moves the book to its last id; an old
    one changes nothing.
  */
  lemma GapIsDetected(b: BookState, n: Notification)
    requires b.synced && Ranged(n)
    ensures var r := AfterUpdate(b, n);
            && (r.outcome == SequenceError <==> n.first.value > b.lastId + 1)
            && (r.outcome == SequenceError ==> r.state == b.(synced := false, wasSnapshot := false))
            && (r.outcome != SequenceError ==> r.outcome == Applied && r.state.synced)
            && (n.first.value <= b.lastId + 1 <= n.last.value ==> r.state.lastId == n.last.value)
            && (n.last.value <= b.lastId ==> r.state == b.(wasSnapshot := false))
  {
  }

  /** An increment without its range is dropped by a synchronized book. */
  lemma UnrangedIsDropped(b: BookState, n: Notification)
    requires b.synced && !n.full && (n.first.None? || n.last.None?)
    ensures AfterUpdate(b, n) == Result(b.(wasSnapshot := false), Applied)
  {
  }

  /** Until the book is synchronized increments are kept, newest last; a full buffer loses its oldest. */
  lemma BufferedUntilSynchronized(b: BookState, n: Notification)
    requires !b.synced && !n.full && b.Valid() && b.maxBuffer > 0
    ensures var r := AfterUpdate(b, n);
            && r.outcome == Applied && r.state == b.(buffer := r.state.buffer, wasSnapshot := false)
            && r.state.buffer == (if |b.buffer| < b.maxBuffer then b.buffer else b.buffer[1..]) + [n]
  {
    if |b.buffer| == b.maxBuffer {
      assert (b.buffer + [n])[1..] == b.buffer[1..] + [n];
    }
  }

  /** A full push replaces the book unless it is no newer than a synchronized one. */
  lemma FullPushReplaces(b: BookState, n: Notification)
    requires n.full && n.last.Some?
    ensures var r := AfterUpdate(b, n);
            && r.outcome == Applied && r.state.buffer == b.buffer
            && (b.synced && n.last.value <= b.lastId ==> r.state == b.(wasSnapshot := false))
            && (!b.synced || n.last.value > b.lastId ==>
                  && r.state.synced && r.state.lastId == n.last.value && r.state.wasSnapshot
                  && HoldsLast(r.state.depth, n.bids, n.asks))
  {
    ReplacementHoldsLast(n.bids, n.asks);
  }

  /** A snapshot: refused without an id, stale if it is no newer than a synchronized book, and otherwise the book. */
  lemma SnapshotReplaces(b: BookState, s: Snapshot)
    ensures s.id.None? ==> AfterSnapshot(b, s) == Result(b, MissingIdError)
    ensures s.id.Some? && b.synced && s.id.value <= b.lastId ==> AfterSnapshot(b, s) == Result(b, StaleError)
    ensures s.id.Some? && (!b.synced || s.id.value > b.lastId) && b.buffer == [] ==>
              var r := AfterSnapshot(b, s);
              && r.outcome == Applied && r.state.synced && r.state.lastId == s.id.value && r.state.wasSnapshot
              && HoldsLast(r.state.depth, s.bids, s.asks)
  {
    ReplacementHoldsLast(s.bids, s.asks);
  }

  // -- sizes -------------------------------------------------------------

  /** The last positive size a list states for a price, zero if there is none. */
  function LastPositive(levels: seq<Level>, price: int): int {
    if levels == [] then 0
    else if levels[|levels| - 1].price == price && levels[|levels| - 1].size > 0 then levels[|levels| - 1].size
    else LastPositive(levels[..|levels| - 1], price)
  }

  lemma {:induction false} ReplacementAt(levels: seq<Level>, price: int)
    ensures SizeAt(Replacement(levels), price) == LastPositive(levels, price)
    ensures price in Replacement(levels) <==> LastPositive(levels, price) > 0
    decreases |levels|
  {
    if levels != [] {
      ReplacementAt(levels[..|levels| - 1], price);
    }
  }

  /** Every price has the last positive size its list states, and no other price has one. */
  ghost predicate HoldsLast(d: Depth, bids: seq<Level>, asks: seq<Level>) {
    forall price ::
      SizeAt(d.bids, price) == LastPositive(bids, price) && SizeAt(d.asks, price) == LastPositive(asks, price)
  }

  lemma ReplacementHoldsLast(bids: seq<Level>, asks: seq<Level>)
    ensures HoldsLast(Depth(Replacement(bids), Replacement(asks)), bids, asks)
  {
    forall price
      ensures SizeAt(Replacement(bids), price) == LastPositive(bids, price)
           && SizeAt(Replacement(asks), price) == LastPositive(asks, price)
    {
      ReplacementAt(bids, price);
      ReplacementAt(asks, price);
    }
  }

  /** The last size a list states for a price; `was` if it does not name it. */
  function LastStated(levels: seq<Level>, price: int, was: int): int {
    if levels == [] then was
    else if levels[|levels| - 1].price == price then
      if levels[|levels| - 1].size > 0 then levels[|levels| - 1].size else 0
    else LastStated(levels[..|levels| - 1], price, was)
  }

  lemma {:induction false} PatchStates(side: Side, levels: seq<Level>, price: int)
    ensures SizeAt(Patch(side, levels), price) == LastStated(levels, price, SizeAt(side, price))
    decreases |levels|
  {
    if levels != [] {
      PatchStates(side, levels[..|levels| - 1], price);
    }
  }

  /** An applied increment: every price it names has the last size stated, every other one the size it had. */
  lemma IncrementStatesSizes(b: BookState, n: Notification, name: SideName, price: int)
    requires b.synced && Ranged(n) && n.first.value <= b.lastId + 1 <= n.last.value
    ensures SizeAt(AfterUpdate(b, n).state.depth.Get(name), price)
         == LastStated(if name == Bid then n.bids else n.asks, price, SizeAt(b.depth.Get(name), price))
  {
    PatchStates(b.depth.Get(name), if name == Bid then n.bids else n.asks, price);
  }

  // -- a live stream -----------------------------------------------------

  /** The book behind a stream of messages. */
  function Streamed(b: BookState, ns: seq<Notification>): BookState {
    if ns == [] then b else AfterUpdate(Streamed(b, ns[..|ns| - 1]), ns[|ns| - 1]).state
  }

  predicate AllRanged(ns: seq<Notification>) {
    forall i :: 0 <= i < |ns| ==> Ranged(ns[i])
  }

  /** The newest id stated so far. */
  function Newest(id: int, ns: seq<Notification>): int
    requires AllRanged(ns)
  {
    if ns == [] then id else
    var before, last := Newest(id, ns[..|ns| - 1]), ns[|ns| - 1].last.value;
    if last > before then last else before
  }

  /** Every message begins at most one past everything stated before it. */
  ghost predicate NoGap(id: int, ns: seq<Notification>)
    requires AllRanged(ns)
  {
    forall i :: 0 <= i < |ns| ==> FollowsOn(id, ns, i)
  }

  predicate FollowsOn(id: int, ns: seq<Notification>, i: nat)
    requires i < |ns| && AllRanged(ns)
  {
    ns[i].first.value <= Newest(id, ns[..i]) + 1
  }

  lemma NoGapLast(id: int, ns: seq<Notification>)
    requires ns != [] && AllRanged(ns)
    ensures NoGap(id, ns) <==> NoGap(id, ns[..|ns| - 1]) && FollowsOn(id, ns, |ns| - 1)
  {
    var before := ns[..|ns| - 1];
    forall i | 0 <= i < |before| ensures FollowsOn(id, before, i) <==> FollowsOn(id, ns, i) {
      assert before[..i] == ns[..i];
    }
    if NoGap(id, ns) {
      assert FollowsOn(id, ns, |ns| - 1);
      forall i | 0 <= i < |before| ensures FollowsOn(id, before, i) {
        assert FollowsOn(id, ns, i);
      }
    }
    if NoGap(id, before) && FollowsOn(id, ns, |ns| - 1) {
      forall i | 0 <= i < |ns| ensures FollowsOn(id, ns, i) {
        if i < |before| {
          assert FollowsOn(id, before, i);
        }
      }
    }
  }

  /**
    Over every stream, with messages repeated, overlapping or old: a synchronized book stays
    synchronized if and only if no gap opens, and then it stands at the newest id stated.
  */
  lemma {:induction false} SynchronizedIffNoGap(b: BookState, ns: seq<Notification>)
    requires b.synced && AllRanged(ns)
    ensures Streamed(b, ns).synced <==> NoGap(b.lastId, ns)
    ensures NoGap(b.lastId, ns) ==> Streamed(b, ns).lastId == Newest(b.lastId, ns)
    decreases |ns|
  {
    if ns != [] {
      var before := ns[..|ns| - 1];
      SynchronizedIffNoGap(b, before);
      NoGapLast(b.lastId, ns);
    }
  }
}
