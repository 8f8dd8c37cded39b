/**
  What a book change that was never published does to the consumer (gateio_nt/data.py): the
  instrument was not loaded, or an exception came between applying a snapshot and publishing it.
*/
module BookUnpublished {
  import opened Basics
  import opened Books
  import opened BookDeltas
  import opened BookClient
  import opened BookOverwrite

  /** A change of the registered book has not reached the consumer, and no whole book since. */
  function StepOwes(owed: bool, c: Client, e: Event): bool {
    match e
    case UpdateMessage(n, known) => if c.book.None? then owed else UpdateOwes(owed, c.book.value, n, known)
    case FetchReturns(s, known) =>
      if Fetching(c) && AfterSnapshot(TaskBook(c), s).outcome == Applied then !known else owed
    case PublishCrashes(s) => owed || (Fetching(c) && AfterSnapshot(TaskBook(c), s).outcome == Applied)
    case _ => owed
  }

  function UpdateOwes(owed: bool, b: BookState, n: Notification, known: bool): bool {
    var r := AfterUpdate(b, n);
    if r.outcome == SequenceError then owed
    else if r.state.wasSnapshot then !known
    else if n.full || !b.synced || IncrementalChanges(b, n) == [] then owed
    else owed || !known
  }

  function Owes(c: Client, events: seq<Event>, quantize: int -> int): bool {
    if events == [] then false else
    var before := events[..|events| - 1];
    StepOwes(Owes(c, before, quantize), Run(c, before, quantize), events[|events| - 1])
  }

  /** Nothing was ever rejected, and a synchronized book that owes nothing is mirrored. */
  ghost predicate MirroredUnless(owed: bool, c: Client, quantize: int -> int) {
    Accepted(c) && (owed || Mirrored(c, quantize))
  }

  /** A whole book that is published carries any consumer to it. */
  lemma WholeBookMirrors(c: Client, quantize: int -> int)
    requires Quantizes(quantize) && Accepted(c) && c.book.Some?
    ensures Mirrored(Publish(c, SnapshotDeltas(c.book.value.depth, quantize)), quantize)
  {
    SnapshotRebuildsMirror(Mirror(c.published).value, c.book.value.depth, quantize);
    PublishedIsMirrored(c, SnapshotDeltas(c.book.value.depth, quantize), quantize);
  }

  lemma UpdateMirrorsUnless(owed: bool, c: Client, n: Notification, known: bool, quantize: int -> int)
    requires Quantizes(quantize) && MirroredUnless(owed, c, quantize) && c.book.Some?
    ensures UpdateOwes(owed, c.book.value, n, known) || Mirrored(OnUpdate(c, n, known, quantize), quantize)
  {
    var b := c.book.value;
    var r := AfterUpdate(b, n);
    if r.outcome != SequenceError && r.state.wasSnapshot {
      NotificationPositive(b, n);
      WholeBookMirrors(c.(book := Some(r.state)), quantize);
    } else if r.outcome == SequenceError {
      NotificationPositive(b, n);
    } else if !UpdateOwes(owed, b, n, known) {
      assert OnUpdate(c, n, known, quantize) == OnUpdate(c, n, true, quantize);
      UpdateKeepsMirror(c, n, quantize);
    }
  }

  lemma StepMirrorsUnless(owed: bool, c: Client, e: Event, quantize: int -> int)
    requires Quantizes(quantize) && MirroredUnless(owed, c, quantize) && NoStaleTask(c)
    ensures StepOwes(owed, c, e) || Mirrored(Step(c, e, quantize), quantize)
  {
    if e.UpdateMessage? && c.book.Some? {
      UpdateMirrorsUnless(owed, c, e.n, e.known, quantize);
    } else if (e.FetchReturns? || e.PublishCrashes?) && Fetching(c) {
      if !StepOwes(owed, c, e) {
        assert Step(c, e, quantize) == OnSnapshot(c, e.s, true, quantize);
        FetchKeepsMirror(c, e.s, quantize);
      }
    } else if !owed {
      OtherStepKeepsMirror(c, e, quantize);
    }
  }

  /**
    Over every run whatever is published or not: a synchronized book that owes the consumer
    nothing is mirrored exactly. A change that was not published stays owed until the next whole
    book that is.
  */
  lemma {:induction false} MirrorUnlessOwed(events: seq<Event>, quantize: int -> int)
    requires Quantizes(quantize) && NeverDuringFetch(INITIAL, events, quantize)
    ensures MirroredUnless(Owes(INITIAL, events, quantize), Run(INITIAL, events, quantize), quantize)
    decreases |events|
  {
    NothingIsEverRejected(events, quantize);
    if events != [] {
      var before := events[..|events| - 1];
      forall i | 0 <= i < |before| ensures !SubscribesDuringFetch(Run(INITIAL, before[..i], quantize), before[i]) {
        assert before[..i] == events[..i];
      }
      MirrorUnlessOwed(before, quantize);
      NoBookIsAbandoned(before, quantize);
      StepMirrorsUnless(Owes(INITIAL, before, quantize), Run(INITIAL, before, quantize), events[|events| - 1],
                        quantize);
    }
  }

  // -- the retry behind a crash ------------------------------------------

  /** A synchronized book the consumer does not hold, and the running resync fetches for it. */
  ghost predicate AwaitsRetry(c: Client, quantize: int -> int) {
    && Accepted(c) && NoStaleTask(c) && Fetching(c)
    && c.book.Some? && c.book.value.synced && !Mirrored(c, quantize)
  }

  /**
    The exact condition: such a resync makes up for it if and only if its snapshot is newer than
    the book. A stale one ends the resync with nothing published and nothing armed.
  */
  lemma RetryRestoresIffNewer(c: Client, s: Snapshot, quantize: int -> int)
    requires Quantizes(quantize) && AwaitsRetry(c, quantize)
    ensures var c' := Step(c, FetchReturns(s, true), quantize);
            && (Mirrored(c', quantize) <==> s.id.Some? && s.id.value > c.book.value.lastId)
            && (s.id.Some? && s.id.value <= c.book.value.lastId ==> c' == c.(runner := None))
  {
    var b := c.book.value;
    if s.id.Some? && s.id.value > b.lastId {
      SnapshotPositive(b, s);
      DrainSettles(Seeded(b, s), b.buffer);
      if AfterSnapshot(b, s).outcome == Applied {
        FetchKeepsMirror(c, s, quantize);
      }
    }
  }

  /**
    Whatever state the resync is in: if publishing fails and the retry meets a stale snapshot, the
    client ends as if all had gone well, and the consumer never saw the book.
  */
  lemma CrashThenStaleLoses(c: Client, s: Snapshot, stale: Snapshot, quantize: int -> int)
    requires Quantizes(quantize) && Accepted(c) && NoStaleTask(c) && Fetching(c) && c.book.Some? && c.accepting
    requires AfterSnapshot(c.book.value, s).outcome == Applied
    requires Mirror(c.published) != Some(Represent(AfterSnapshot(c.book.value, s).state.depth, quantize))
    requires stale.id.Some? && stale.id.value <= AfterSnapshot(c.book.value, s).state.lastId
    ensures var c' := Run(c, [PublishCrashes(s)] + [WakeRetry] + [FetchReturns(stale, true)], quantize);
            && c' == c.(book := Some(AfterSnapshot(c.book.value, s).state), runner := None)
            && c'.book.value.synced && !Mirrored(c', quantize)
  {
    var after := AfterSnapshot(c.book.value, s).state;
    var c' := c.(book := Some(after), runner := Some(Runner(0, false, None)));
    CrashThenWake(c, s, quantize);
    RunsThrough(c, PublishCrashes(s), WakeRetry, FetchReturns(stale, true), quantize);
    SnapshotSettles(c.book.value, s);
    SnapshotPositive(c.book.value, s);
    RetryRestoresIffNewer(c', stale, quantize);
  }

  lemma CrashThenWake(c: Client, s: Snapshot, quantize: int -> int)
    requires NoStaleTask(c) && Fetching(c) && c.book.Some? && c.accepting
    requires AfterSnapshot(c.book.value, s).outcome == Applied
    ensures Step(Step(c, PublishCrashes(s), quantize), WakeRetry, quantize)
         == c.(book := Some(AfterSnapshot(c.book.value, s).state), runner := Some(Runner(0, false, None)))
  {
    var after := AfterSnapshot(c.book.value, s).state;
    assert Step(c, PublishCrashes(s), quantize)
        == c.(book := Some(after), runner := None, retries := c.retries + 1);
  }

  lemma RunsThrough(c: Client, e1: Event, e2: Event, e3: Event, quantize: int -> int)
    ensures Run(c, [e1] + [e2] + [e3], quantize) == Step(Step(Step(c, e1, quantize), e2, quantize), e3, quantize)
  {
    assert [e1][..0] == [];
    assert Run(c, [e1], quantize) == Step(c, e1, quantize);
    assert ([e1] + [e2])[..1] == [e1];
    assert ([e1] + [e2] + [e3])[..2] == [e1] + [e2];
  }

  function OneLevel(size: int): Snapshot {
    Snapshot(Some(1), [Level(1, size)], [])
  }

  lemma FirstSnapshotApplies(size: int)
    requires size > 0
    ensures var r := AfterSnapshot(Fresh(MAX_BUFFER), OneLevel(size));
            r.outcome == Applied && r.state.lastId == 1 && r.state.depth == Depth(map[1 := size], map[])
  {
    var s := OneLevel(size);
    assert s.bids[..0] == [];
    assert Replacement(s.bids) == map[1 := size];
  }

  lemma OneLevelShows(size: int, quantize: int -> int)
    requires quantize(size) > 0
    ensures Represent(Depth(map[1 := size], map[]), quantize) != EMPTY_DEPTH
  {
    assert 1 in RepresentSide(map[1 := size], quantize);
  }

  /** So a quiet venue, which answers the retry with the same first snapshot, leaves the consumer without the book. */
  lemma CrashCanLoseTheMirror(size: int, quantize: int -> int)
    requires Quantizes(quantize) && size > 0 && quantize(size) > 0
    ensures var s := OneLevel(size);
            var run := FIRST_FETCH + ([PublishCrashes(s)] + [WakeRetry] + [FetchReturns(s, true)]);
            var c := Run(INITIAL, run, quantize);
            && c.book.Some? && c.book.value.synced && c.accepting
            && !Mirrored(c, quantize) && !RepairPending(c)
  {
    var s := OneLevel(size);
    var c := Run(INITIAL, FIRST_FETCH, quantize);
    FirstFetch(quantize);
    FirstSnapshotApplies(size);
    OneLevelShows(size, quantize);
    assert Mirror(c.published) == Some(EMPTY_DEPTH);
    CrashThenStaleLoses(c, s, s, quantize);
    RunConcat(INITIAL, FIRST_FETCH, [PublishCrashes(s)] + [WakeRetry] + [FetchReturns(s, true)], quantize);
  }
}
