/**
  What a resync on an old book object does to the consumer (gateio_nt/data.py). It publishes
  the old object's snapshot, so a consumer can be set back behind the book registered since.
*/
module BookOverwrite {
  import opened Basics
  import opened Books
  import opened BookDeltas
  import opened BookClient

  // -- nothing is ever rejected ------------------------------------------

  ghost predicate Accepted(c: Client) {
    PositiveBooks(c) && Mirror(c.published).Some?
  }

  lemma UpdateStaysAccepted(c: Client, n: Notification, known: bool, quantize: int -> int)
    requires Quantizes(quantize) && Accepted(c) && c.book.Some?
    ensures Accepted(OnUpdate(c, n, known, quantize))
  {
    var b, held := c.book.value, Mirror(c.published).value;
    var r := AfterUpdate(b, n);
    NotificationPositive(b, n);
    var c' := c.(book := Some(r.state));
    if r.outcome != SequenceError && known {
      if r.state.wasSnapshot {
        SnapshotRebuildsMirror(held, r.state.depth, quantize);
        PublishMirror(c', SnapshotDeltas(r.state.depth, quantize));
      } else if !n.full && b.synced {
        LevelChangesNonNegative(Bid, b.depth.bids, n.bids);
        LevelChangesNonNegative(Ask, b.depth.asks, n.asks);
        UpdatesAreAccepted(held, IncrementalChanges(b, n), quantize);
        PublishMirror(c', UpdateDeltas(IncrementalChanges(b, n), quantize));
      }
    }
  }

  lemma FetchStaysAccepted(c: Client, s: Snapshot, known: bool, quantize: int -> int)
    requires Quantizes(quantize) && Accepted(c) && Fetching(c)
    ensures Accepted(OnSnapshot(c, s, known, quantize))
  {
    var r := AfterSnapshot(TaskBook(c), s);
    SnapshotPositive(TaskBook(c), s);
    var c' := WithTaskBook(c, r.state);
    assert PositiveBooks(c') && c'.published == c.published;
    if r.outcome == Applied && known {
      SnapshotRebuildsMirror(Mirror(c.published).value, r.state.depth, quantize);
      PublishMirror(c'.(runner := None), SnapshotDeltas(r.state.depth, quantize));
    }
  }

  /** Over every run whatsoever, no published batch is rejected by the consumer. */
  lemma {:induction false} NothingIsEverRejected(events: seq<Event>, quantize: int -> int)
    requires Quantizes(quantize)
    ensures Accepted(Run(INITIAL, events, quantize))
    decreases |events|
  {
    if events != [] {
      var c, e := Run(INITIAL, events[..|events| - 1], quantize), events[|events| - 1];
      NothingIsEverRejected(events[..|events| - 1], quantize);
      if e.UpdateMessage? && c.book.Some? {
        UpdateStaysAccepted(c, e.n, e.known, quantize);
      } else if e.FetchReturns? && Fetching(c) {
        FetchStaysAccepted(c, e.s, e.known, quantize);
      } else if e.PublishCrashes? && Fetching(c) {
        FetchStaysAccepted(c, e.s, false, quantize);
      } else {
        OtherStepBooks(c, e, quantize);
      }
    }
  }

  // -- when a subscription can end with a wrong consumer -----------------

  ghost predicate CanLoseItsMirror(c: Client, quantize: int -> int) {
    exists events :: Harmless(c, events, quantize) && !Mirrored(Run(c, events, quantize), quantize)
  }

  /** Nothing but this one subscription overlaps a resync, and the instrument stays known. */
  ghost predicate Harmless(c: Client, events: seq<Event>, quantize: int -> int) {
    NeverDuringFetch(c, events, quantize) && forall e <- events :: KnownInstrument(e)
  }

  /** A full push of one bid, newer than the book. */
  function OneBid(b: BookState, size: int): Notification {
    Notification(true, None, Some(b.lastId + 1), [Level(1, size)], [])
  }

  lemma FullPushSynchronizes(c: Client, size: int, quantize: int -> int)
    requires Plain(c) && c.book.Some? && size > 0
    ensures var c1 := Step(c, UpdateMessage(OneBid(c.book.value, size), true), quantize);
            && c1.book.Some? && c1.book.value.synced && c1.book.value.depth == Depth(map[1 := size], map[])
            && c1.runner == c.runner && Plain(c1)
  {
    var n := OneBid(c.book.value, size);
    assert n.bids[..0] == [];
    assert Replacement(n.bids) == map[1 := size];
    UpdateStaysPlain(c.book.value, n);
  }

  /** An empty snapshot newer than everything the old object buffered goes out as a bare CLEAR. */
  lemma OldObjectClears(c: Client, quantize: int -> int)
    requires Quantizes(quantize) && Plain(c) && Fetching(c) && c.runner.value.detached.Some?
    ensures var c1 := Step(c, FetchReturns(NewestSnapshot(TaskBook(c)), true), quantize);
            c1.book == c.book && (Mirror(c1.published).Some? ==> Mirror(c1.published) == Some(EMPTY_DEPTH))
  {
    var b := TaskBook(c);
    var s := NewestSnapshot(b);
    NewestDrains(Seeded(b, s), b.buffer);
    var done := WithTaskBook(c, Seeded(b, s)).(runner := None);
    var batch := SnapshotDeltas(EMPTY_DEPTH, quantize);
    PublishMirror(done, batch);
    if Mirror(c.published).Some? {
      SnapshotRebuildsMirror(Mirror(c.published).value, EMPTY_DEPTH, quantize);
      assert Represent(EMPTY_DEPTH, quantize) == EMPTY_DEPTH;
    }
    assert Step(c, FetchReturns(s, true), quantize) == Publish(done, batch);
  }

  /** The registered book synchronizes on a full push; then the old object's snapshot overwrites the consumer. */
  lemma OldObjectOverwrites(c: Client, size: int, quantize: int -> int) returns (events: seq<Event>)
    requires Quantizes(quantize) && size > 0 && quantize(size) > 0
    requires Plain(c) && c.book.Some? && c.runner.Some? && c.runner.value.detached.Some?
    ensures !Mirrored(Run(c, events, quantize), quantize)
    ensures forall e <- events :: !e.Subscribe? && KnownInstrument(e)
  {
    var awake := if c.runner.value.sleeping then Step(c, WakeRunner, quantize) else c;
    var first := if c.runner.value.sleeping then [WakeRunner] else [];
    var push := UpdateMessage(OneBid(awake.book.value, size), true);
    FullPushSynchronizes(awake, size, quantize);
    var c1 := Step(awake, push, quantize);
    var fetch := FetchReturns(NewestSnapshot(TaskBook(c1)), true);
    OldObjectClears(c1, quantize);
    var c2 := Step(c1, fetch, quantize);
    assert 1 in RepresentSide(map[1 := size], quantize);
    assert Represent(c2.book.value.depth, quantize) != EMPTY_DEPTH;
    events := first + [push] + [fetch];
    RunThree(c, first, push, fetch, awake, quantize);
  }

  lemma RunThree(c: Client, first: seq<Event>, push: Event, fetch: Event, awake: Client, quantize: int -> int)
    requires awake == (if first == [] then c else Step(c, WakeRunner, quantize))
             && (first == [] || first == [WakeRunner])
    ensures Run(c, first + [push] + [fetch], quantize) == Step(Step(awake, push, quantize), fetch, quantize)
  {
    assert [WakeRunner][..0] == [];
    assert Run(c, first, quantize) == awake;
    assert (first + [push])[..|first|] == first;
    assert (first + [push] + [fetch])[..|first| + 1] == first + [push];
  }

  /**
    The exact condition. From any reachable state without a registered book, taking out the
    subscription can lead to a synchronized book the consumer does not hold if and only if a
    resync is still running at that moment.
  */
  lemma MirrorIsSafeIffNoTaskIsRunning(past: seq<Event>, size: int, quantize: int -> int)
    requires Quantizes(quantize) && size > 0 && quantize(size) > 0
    requires Run(INITIAL, past, quantize).book.None?
    ensures CanLoseItsMirror(Step(Run(INITIAL, past, quantize), Subscribe, quantize), quantize)
       <==> Run(INITIAL, past, quantize).runner.Some?
  {
    var c := Run(INITIAL, past, quantize);
    var c' := Step(c, Subscribe, quantize);
    RunPlain(past, quantize);
    if c.runner.Some? {
      var events := OldObjectOverwrites(c', size, quantize);
      assert Harmless(c', events, quantize);
    } else {
      NothingIsEverRejected(past, quantize);
      forall events | Harmless(c', events, quantize) ensures Mirrored(Run(c', events, quantize), quantize) {
        MirrorContinues(c', events, quantize);
      }
    }
  }

  /** A concrete run that ends with a wrong consumer: subscribed again while a snapshot is being fetched. */
  lemma ResubscribingDuringFetchCanLoseTheMirror(size: int, quantize: int -> int)
    requires Quantizes(quantize) && size > 0 && quantize(size) > 0
    ensures CanLoseItsMirror(Step(Run(INITIAL, FIRST_FETCH + [Unsubscribe], quantize), Subscribe, quantize), quantize)
  {
    UnsubscribingDuringFetch(quantize);
    MirrorIsSafeIffNoTaskIsRunning(FIRST_FETCH + [Unsubscribe], size, quantize);
  }
}
