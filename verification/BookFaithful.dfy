/**
  Safety of the local book over whole runs: against an honest venue, whatever subset of its
  messages arrives and in whatever order, a synchronized book is the venue's book at its id.
*/
module BookFaithful {
  import opened Basics
  import opened Books

  /** The venue's own book after each update id. */
  type History = int -> Depth

  ghost predicate Genuine(v: History) {
    forall k :: PositiveDepth(v(k))
  }

  /** Update `k` moved the size at this price. */
  predicate Touched(v: History, name: SideName, price: int, k: int) {
    SizeAt(v(k).Get(name), price) != SizeAt(v(k - 1).Get(name), price)
  }

  predicate Names(levels: seq<Level>, price: int) {
    exists i :: 0 <= i < |levels| && levels[i].price == price
  }

  /** Every touched level is listed, and every listed level carries its size at `last`. */
  ghost predicate HonestLevels(v: History, name: SideName, first: int, last: int, levels: seq<Level>) {
    && (forall price, k :: first <= k <= last && Touched(v, name, price, k) ==> Names(levels, price))
    && (forall i :: 0 <= i < |levels| ==>
          SizeAt(v(last).Get(name), levels[i].price) == if levels[i].size > 0 then levels[i].size else 0)
  }

  ghost predicate Honest(v: History, n: Notification) {
    if n.full then
      n.last.Some? ==> Depth(Replacement(n.bids), Replacement(n.asks)) == v(n.last.value)
    else
      n.first.Some? && n.last.Some? ==>
        && HonestLevels(v, Bid, n.first.value, n.last.value, n.bids)
        && HonestLevels(v, Ask, n.first.value, n.last.value, n.asks)
  }

  ghost predicate HonestSnapshot(v: History, s: Snapshot) {
    s.id.Some? ==> Depth(Replacement(s.bids), Replacement(s.asks)) == v(s.id.value)
  }

  /** A synchronized book is the venue's book at its own id. */
  ghost predicate Faithful(v: History, b: BookState) {
    && (b.synced ==> b.depth == v(b.lastId))
    && (forall n <- b.buffer :: Honest(v, n))
  }

  // -- runs --------------------------------------------------------------

  datatype BookEvent = SnapshotArrives(s: Snapshot) | UpdateArrives(n: Notification) | ResetCalled

  function StepBook(b: BookState, e: BookEvent): Result {
    match e
    case SnapshotArrives(s) => AfterSnapshot(b, s)
    case UpdateArrives(n) => AfterUpdate(b, n)
    case ResetCalled => Result(AfterReset(b), Applied)
  }

  /** The book after a run, oldest event first; raised errors are caught by the caller. */
  function RunBook(b: BookState, events: seq<BookEvent>): BookState {
    if events == [] then b
    else StepBook(RunBook(b, events[..|events| - 1]), events[|events| - 1]).state
  }

  ghost predicate HonestEvent(v: History, e: BookEvent) {
    match e
    case SnapshotArrives(s) => HonestSnapshot(v, s)
    case UpdateArrives(n) => Honest(v, n)
    case ResetCalled => true
  }

  // -- one message -------------------------------------------------------

  /** Between two ids across which a price is never touched, its size stays the same. */
  lemma {:induction false} UntouchedKeeps(v: History, name: SideName, price: int, lo: int, hi: int)
    requires lo <= hi
    requires forall k :: lo < k <= hi ==> !Touched(v, name, price, k)
    ensures SizeAt(v(lo).Get(name), price) == SizeAt(v(hi).Get(name), price)
    decreases hi - lo
  {
    if lo < hi {
      assert !Touched(v, name, price, hi);
      UntouchedKeeps(v, name, price, lo, hi - 1);
    }
  }

  /** A patched price holds its listed size when all its listings agree, and is kept when unlisted. */
  lemma {:induction false} PatchAt(side: Side, levels: seq<Level>, price: int, size: int)
    requires Positive(side) && size >= 0
    requires forall i :: 0 <= i < |levels| && levels[i].price == price ==>
               size == if levels[i].size > 0 then levels[i].size else 0
    ensures Positive(Patch(side, levels))
    ensures SizeAt(Patch(side, levels), price) == if Names(levels, price) then size else SizeAt(side, price)
    decreases |levels|
  {
    if levels != [] {
      var before, level := levels[..|levels| - 1], levels[|levels| - 1];
      PatchAt(side, before, price, size);
      if Names(before, price) {
        var i :| 0 <= i < |before| && before[i].price == price;
        assert levels[i].price == price;
      }
      if level.price == price {
        assert Names(levels, price);
      } else if Names(levels, price) {
        var i :| 0 <= i < |levels| && levels[i].price == price;
        assert before[i].price == price;
      }
    }
  }

  /** Equal sizes at every price make equal sides. */
  lemma SameSizes(a: Side, b: Side)
    requires Positive(a) && Positive(b)
    requires forall p :: SizeAt(a, p) == SizeAt(b, p)
    ensures a == b
  {
    forall p ensures p in a <==> p in b {
      assert SizeAt(a, p) == SizeAt(b, p);
    }
    forall p | p in a ensures a[p] == b[p] {
      assert SizeAt(a, p) == SizeAt(b, p);
    }
    assert a.Keys == b.Keys;
  }

  /** An honest message takes the venue's book at any id it straddles to the venue's book at its end. */
  lemma PatchReachesLast(v: History, name: SideName, first: int, last: int, levels: seq<Level>, at: int)
    requires Genuine(v) && HonestLevels(v, name, first, last, levels)
    requires first - 1 <= at <= last
    ensures Patch(v(at).Get(name), levels) == v(last).Get(name)
  {
    var base, goal := v(at).Get(name), v(last).Get(name);
    assert PositiveDepth(v(at)) && PositiveDepth(v(last));
    var patched := Patch(base, levels);
    forall p ensures SizeAt(patched, p) == SizeAt(goal, p) && Positive(patched) {
      assert SizeAt(goal, p) >= 0;
      PatchAt(base, levels, p, SizeAt(goal, p));
      if !Names(levels, p) {
        UntouchedKeeps(v, name, p, at, last);
      }
    }
    assert SizeAt(patched, 0) == SizeAt(goal, 0);
    SameSizes(patched, goal);
  }

  lemma IncrementalFaithful(v: History, b: BookState, n: Notification)
    requires Genuine(v) && Faithful(v, b) && b.synced && !n.full && Honest(v, n)
    ensures Faithful(v, AfterIncremental(b, n).state)
  {
    if Extends(b, n) {
      PatchReachesLast(v, Bid, n.first.value, n.last.value, n.bids, b.lastId);
      PatchReachesLast(v, Ask, n.first.value, n.last.value, n.asks, b.lastId);
    }
  }

  lemma {:induction false} DrainFaithful(v: History, b: BookState, pending: seq<Notification>)
    requires Genuine(v) && Faithful(v, b) && b.synced && forall n <- pending :: Honest(v, n)
    ensures Faithful(v, Drain(b, pending).state)
    decreases |pending|
  {
    if pending != [] {
      assert Honest(v, pending[0]);
      if !pending[0].full {
        IncrementalFaithful(v, b, pending[0]);
      }
      var r := Replay(b, pending[0]);
      if r.outcome == SequenceError {
        var kept := r.state.buffer + pending;
        assert forall n <- KeepLast(kept, b.maxBuffer) :: n in kept;
      } else {
        ReplayKeepsSync(b, pending[0]);
        DrainFaithful(v, r.state, pending[1..]);
      }
    }
  }

  lemma ReplayKeepsSync(b: BookState, n: Notification)
    requires b.synced && Replay(b, n).outcome != SequenceError
    ensures Replay(b, n).state.synced && Replay(b, n).state.buffer == b.buffer
    ensures Replay(b, n).state.maxBuffer == b.maxBuffer
    ensures Replay(b, n).state.lastId >= b.lastId
  {
  }

  lemma StepFaithful(v: History, b: BookState, e: BookEvent)
    requires Genuine(v) && Faithful(v, b) && HonestEvent(v, e)
    ensures Faithful(v, StepBook(b, e).state)
  {
    match e
    case SnapshotArrives(s) =>
      if s.id.Some? && !(b.synced && s.id.value <= b.lastId) {
        DrainFaithful(v, Seeded(b, s), b.buffer);
      }
    case UpdateArrives(n) =>
      var b' := b.(wasSnapshot := false);
      if n.full {
      } else if !b.synced {
        var kept := b.buffer + [n];
        assert forall m <- KeepLast(kept, b.maxBuffer) :: m in kept;
      } else {
        IncrementalFaithful(v, b', n);
      }
    case ResetCalled =>
  }

  /**
    The book is faithful over every run of honest messages: lost, repeated, reordered and
    evicted ones included, since the run is an arbitrary list of them.
  */
  lemma {:induction false} FaithfulOverRuns(v: History, maxBuffer: nat, events: seq<BookEvent>)
    requires Genuine(v) && forall e <- events :: HonestEvent(v, e)
    ensures Faithful(v, RunBook(Fresh(maxBuffer), events))
    decreases |events|
  {
    if events != [] {
      FaithfulOverRuns(v, maxBuffer, events[..|events| - 1]);
      StepFaithful(v, RunBook(Fresh(maxBuffer), events[..|events| - 1]), events[|events| - 1]);
    }
  }

  // -- the id only moves forward -----------------------------------------

  lemma {:induction false} DrainAdvances(b: BookState, pending: seq<Notification>)
    requires b.synced
    ensures Drain(b, pending).state.lastId >= b.lastId
    decreases |pending|
  {
    if pending != [] {
      var r := Replay(b, pending[0]);
      if r.outcome != SequenceError {
        ReplayKeepsSync(b, pending[0]);
        DrainAdvances(r.state, pending[1..]);
      }
    }
  }

  /**
    While a book stays synchronized, a step either leaves depth and id alone or moves the id
    strictly forward.
  */
  lemma IdMovesForward(b: BookState, e: BookEvent)
    requires b.synced && StepBook(b, e).state.synced
    ensures var after := StepBook(b, e).state;
            (after.depth == b.depth && after.lastId == b.lastId) || after.lastId > b.lastId
  {
    if e.SnapshotArrives? && e.s.id.Some? && e.s.id.value > b.lastId {
      DrainAdvances(Seeded(b, e.s), b.buffer);
    }
  }

  /** The buffer never outgrows its bound, over every run. */
  lemma {:induction false} BufferStaysBounded(maxBuffer: nat, events: seq<BookEvent>)
    ensures var b := RunBook(Fresh(maxBuffer), events); b.Valid() && b.maxBuffer == maxBuffer
    decreases |events|
  {
    if events != [] {
      BufferStaysBounded(maxBuffer, events[..|events| - 1]);
      var b, e := RunBook(Fresh(maxBuffer), events[..|events| - 1]), events[|events| - 1];
      if e.SnapshotArrives? && e.s.id.Some? {
        DrainBuffer(Seeded(b, e.s), b.buffer);
      }
    }
  }
}
