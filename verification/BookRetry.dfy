/**
  What a failed snapshot leaves behind. A snapshot that turns out older than the buffered
  messages raises a sequence error and keeps the part of the buffer it could not use; the
  results below say exactly when that happens, and that the failed attempt is invisible to
  everything that follows if and only if the book was not synchronized when it arrived.
*/
module BookRetry {
  import opened Basics
  import opened Books
  import opened BookFaithful

  /** The message moves a book's id when it is not old. */
  predicate Usable(n: Notification) {
    if n.full then n.last.Some? else n.first.Some? && n.last.Some?
  }

  /** A book standing at `id` can take this message, by applying it or by dropping it as old. */
  predicate Fits(id: int, n: Notification) {
    if n.full then n.last.Some?
    else Usable(n) ==> n.last.value <= id || n.first.value <= id + 1
  }

  function Advance(id: int, n: Notification): int {
    if Usable(n) && n.last.value > id then n.last.value else id
  }

  /** The newest of `id` and every usable message's last id. */
  function Reach(id: int, ns: seq<Notification>): int
    decreases |ns|
  {
    if ns == [] then id else Reach(Advance(id, ns[0]), ns[1..])
  }

  /** The position of the first message a book starting at `id` cannot take. */
  function FirstUnfit(id: int, ns: seq<Notification>): (k: nat)
    ensures k <= |ns|
    decreases |ns|
  {
    if ns == [] || !Fits(id, ns[0]) then 0 else 1 + FirstUnfit(Advance(id, ns[0]), ns[1..])
  }

  /** A buffer that fits throughout is one whose every message fits where the ones before it reach. */
  lemma {:induction false} FitsThroughout(id: int, ns: seq<Notification>)
    ensures FirstUnfit(id, ns) == |ns| <==> forall i :: 0 <= i < |ns| ==> Fits(Reach(id, ns[..i]), ns[i])
    decreases |ns|
  {
    if ns != [] {
      var id', rest := Advance(id, ns[0]), ns[1..];
      FitsThroughout(id', rest);
      assert ns[..0] == [];
      forall i | 0 <= i < |rest| ensures Reach(id', rest[..i]) == Reach(id, ns[..i + 1]) && rest[i] == ns[i + 1] {
        assert ns[..i + 1][1..] == rest[..i];
      }
      if forall i :: 0 <= i < |ns| ==> Fits(Reach(id, ns[..i]), ns[i]) {
        forall i | 0 <= i < |rest| ensures Fits(Reach(id', rest[..i]), rest[i]) {
          assert Fits(Reach(id, ns[..i + 1]), ns[i + 1]);
        }
        assert Fits(Reach(id, ns[..0]), ns[0]);
      }
      if FirstUnfit(id, ns) == |ns| {
        forall i | 0 <= i < |ns| ensures Fits(Reach(id, ns[..i]), ns[i]) {
          if i > 0 {
            assert Fits(Reach(id', rest[..i - 1]), rest[i - 1]);
          }
        }
      }
    }
  }

  /** Replaying one message succeeds exactly when it fits, and then advances the id. */
  lemma ReplayOutcome(b: BookState, n: Notification)
    requires b.synced
    ensures var r := Replay(b, n);
            && r.outcome == (if Fits(b.lastId, n) then Applied else SequenceError)
            && r.state.synced == Fits(b.lastId, n)
            && r.state.lastId == (if Fits(b.lastId, n) then Advance(b.lastId, n) else b.lastId)
            && r.state.buffer == b.buffer && r.state.maxBuffer == b.maxBuffer
  {
  }

  /**
    What a drain does: it stops at the first unfit message, keeps that message and everything
    behind it in order, and stands at the newest id it reached.
  */
  lemma {:induction false} DrainOutcome(b: BookState, pending: seq<Notification>)
    requires b.synced && b.buffer == [] && |pending| <= b.maxBuffer
    ensures var r, k := Drain(b, pending), FirstUnfit(b.lastId, pending);
            && (r.outcome == if k == |pending| then Applied else SequenceError)
            && r.state.buffer == pending[k..]
            && r.state.lastId == Reach(b.lastId, pending[..k])
            && r.state.synced == (k == |pending|)
            && r.state.maxBuffer == b.maxBuffer
    decreases |pending|
  {
    if pending != [] {
      ReplayOutcome(b, pending[0]);
      var r := Replay(b, pending[0]);
      if !Fits(b.lastId, pending[0]) {
        assert b.buffer + pending == pending;
        assert pending[0..] == pending && pending[..0] == [];
      } else {
        var rest := pending[1..];
        var k := FirstUnfit(r.state.lastId, rest);
        DrainOutcome(r.state, rest);
        assert pending[..k + 1][1..] == rest[..k];
        assert pending[k + 1..] == rest[k..];
      }
    }
  }

  /** A snapshot the book can use: it carries an id, and is newer than a synchronized book. */
  predicate Taken(b: BookState, s: Snapshot) {
    s.id.Some? && (!b.synced || s.id.value > b.lastId)
  }

  /** A snapshot the book takes, in terms of the buffer it meets. */
  lemma SnapshotOutcome(b: BookState, s: Snapshot)
    requires b.Valid() && Taken(b, s)
    ensures var r, k := AfterSnapshot(b, s), FirstUnfit(s.id.value, b.buffer);
            && (r.outcome == if k == |b.buffer| then Applied else SequenceError)
            && r.state.buffer == b.buffer[k..]
            && r.state.lastId == Reach(s.id.value, b.buffer[..k])
            && r.state.synced == (r.outcome == Applied)
  {
    DrainOutcome(Seeded(b, s), b.buffer);
  }

  // -- contiguous buffers ------------------------------------------------

  ghost predicate Contiguous(ns: seq<Notification>) {
    && (forall n <- ns :: !n.full && n.first.Some? && n.last.Some?)
    && (forall i :: 0 <= i < |ns| - 1 ==>
          ns[i].last.value <= ns[i + 1].last.value && ns[i + 1].first.value <= ns[i].last.value + 1)
  }

  lemma {:induction false} ContiguousFits(id: int, ns: seq<Notification>)
    requires Contiguous(ns)
    requires ns != [] ==> Fits(id, ns[0])
    ensures FirstUnfit(id, ns) == |ns|
    ensures Reach(id, ns) == if ns == [] || ns[|ns| - 1].last.value <= id then id else ns[|ns| - 1].last.value
    decreases |ns|
  {
    if ns != [] {
      var rest := ns[1..];
      if rest != [] {
        assert ns[0] in ns && ns[1] in ns;
        assert rest[0] == ns[1];
        assert ns[1].first.value <= ns[0].last.value + 1;
      }
      forall i | 0 <= i < |rest| - 1
        ensures rest[i].last.value <= rest[i + 1].last.value && rest[i + 1].first.value <= rest[i].last.value + 1
      {
        assert ns[i + 1].last.value <= ns[i + 2].last.value;
      }
      ContiguousFits(Advance(id, ns[0]), rest);
      LastIdsGrow(ns);
    }
  }

  lemma {:induction false} LastIdsGrow(ns: seq<Notification>)
    requires Contiguous(ns) && ns != []
    ensures ns[0].last.value <= ns[|ns| - 1].last.value
    decreases |ns|
  {
    if |ns| > 1 {
      var init := ns[..|ns| - 1];
      assert ns[|ns| - 2].last.value <= ns[|ns| - 2 + 1].last.value;
      LastIdsGrow(init);
    }
  }

  /**
    A contiguous buffer whose first id is at most one past the snapshot's always synchronizes,
    and ends at the newer of the snapshot id and the last buffered id.
  */
  lemma ContiguousBufferSynchronizes(b: BookState, s: Snapshot)
    requires b.Valid() && Taken(b, s)
    requires Contiguous(b.buffer)
    requires b.buffer != [] ==> b.buffer[0].first.value <= s.id.value + 1
    ensures var r := AfterSnapshot(b, s);
            && r.outcome == Applied && r.state.synced && r.state.buffer == []
            && r.state.lastId ==
               if b.buffer == [] || b.buffer[|b.buffer| - 1].last.value <= s.id.value
               then s.id.value else b.buffer[|b.buffer| - 1].last.value
  {
    ContiguousFits(s.id.value, b.buffer);
    SnapshotOutcome(b, s);
    assert b.buffer[..|b.buffer|] == b.buffer;
  }

  // -- a failed attempt is invisible afterwards --------------------------

  lemma {:induction false} ReachMonotone(id: int, id': int, ns: seq<Notification>)
    requires id <= id'
    ensures id <= Reach(id, ns)
    ensures Reach(id', ns) == if id' <= Reach(id, ns) then Reach(id, ns) else id'
    ensures FirstUnfit(id, ns) <= FirstUnfit(id', ns)
    decreases |ns|
  {
    if ns != [] {
      ReachMonotone(Advance(id, ns[0]), Advance(id', ns[0]), ns[1..]);
    }
  }

  lemma {:induction false} FirstUnfitSplit(id: int, a: seq<Notification>, b: seq<Notification>)
    ensures FirstUnfit(id, a + b) ==
            if FirstUnfit(id, a) == |a| then |a| + FirstUnfit(Reach(id, a), b) else FirstUnfit(id, a)
    decreases |a|
  {
    if a == [] {
      assert a + b == b;
    } else {
      assert (a + b)[1..] == a[1..] + b;
      FirstUnfitSplit(Advance(id, a[0]), a[1..], b);
    }
  }

  /** Messages a book already stands past are skipped without a trace. */
  lemma {:induction false} OldPrefixIsSkipped(b: BookState, a: seq<Notification>, rest: seq<Notification>)
    requires b.synced && FirstUnfit(b.lastId, a) == |a| && Reach(b.lastId, a) == b.lastId
    ensures Drain(b, a + rest) == Drain(b, rest)
    decreases |a|
  {
    if a == [] {
      assert a + rest == rest;
    } else {
      ReachMonotone(Advance(b.lastId, a[0]), Advance(b.lastId, a[0]), a[1..]);
      assert Replay(b, a[0]) == Result(b, Applied);
      assert (a + rest)[1..] == a[1..] + rest;
      OldPrefixIsSkipped(b, a[1..], rest);
    }
  }

  /**
    `left` is what a failed attempt left of `whole`: some book ran through the rest of
    `whole` and stopped at the head of `left`. Equal buffers qualify too.
  */
  ghost predicate LeftOver(left: seq<Notification>, whole: seq<Notification>) {
    left == whole || exists id :: StoppedAt(id, left, whole)
  }

  predicate StoppedAt(id: int, left: seq<Notification>, whole: seq<Notification>) {
    && left != [] && |left| <= |whole|
    && whole[|whole| - |left|..] == left
    && FirstUnfit(id, whole) == |whole| - |left|
  }

  /**
    The state with the failed attempt agrees with the state without it in everything a
    caller can see of a synchronized book, and holds a left-over of the same buffer.
  */
  ghost predicate Agree(with: BookState, without: BookState) {
    && with.maxBuffer == without.maxBuffer && with.Valid() && without.Valid()
    && with.synced == without.synced
    && (with.synced ==> with.depth == without.depth && with.lastId == without.lastId)
    && LeftOver(with.buffer, without.buffer)
  }

  /**
    The attempt that raised leaves exactly the unconsumed suffix of the buffer, and an
    unsynchronized book: it agrees with the one that never made the attempt if and only if
    that one is not synchronized either.
  */
  lemma FailedAttemptAgrees(b: BookState, s: Snapshot)
    requires b.Valid() && AfterSnapshot(b, s).outcome == SequenceError
    ensures var failed := AfterSnapshot(b, s).state;
            && !failed.synced && failed.Valid() && failed.maxBuffer == b.maxBuffer
            && s.id.Some? && StoppedAt(s.id.value, failed.buffer, b.buffer)
            && (Agree(failed, b) <==> !b.synced)
  {
    SnapshotOutcome(b, s);
    DrainOutcome(Seeded(b, s), b.buffer);
    var left := AfterSnapshot(b, s).state.buffer;
    assert StoppedAt(s.id.value, left, b.buffer);
  }

  ghost predicate EndAlike(r: Result, r': Result) {
    r.outcome == r'.outcome && Agree(r.state, r'.state)
  }

  /** A later snapshot at least as new as the failed one ends alike on both. */
  lemma NewerSnapshotAgrees(with: BookState, without: BookState, s: Snapshot, id: int)
    requires with.maxBuffer == without.maxBuffer && with.Valid() && without.Valid()
    requires s.id.Some? && id <= s.id.value && StoppedAt(id, with.buffer, without.buffer)
    ensures EndAlike(Drain(Seeded(with, s), with.buffer), Drain(Seeded(without, s), without.buffer))
  {
    var x, y, id2, seeded := with.buffer, without.buffer, s.id.value, Seeded(with, s);
    assert seeded == Seeded(without, s);
    DrainOutcome(seeded, x);
    DrainOutcome(seeded, y);
    var gone := y[..|y| - |x|];
    assert y == gone + x;
    FirstUnfitSplit(id, gone, x);
    FirstUnfitSplit(id2, gone, x);
    ReachMonotone(id, id2, gone);
    if Reach(id, gone) < id2 {
      OldPrefixIsSkippedAt(seeded, id, gone);
      OldPrefixIsSkipped(seeded, gone, x);
    } else {
      assert FirstUnfit(id2, x) == 0;
      assert x[0..] == x && y[|gone|..] == x;
    }
  }

  /** So does an older one: both stop, the book without the failed attempt no later than the other. */
  lemma OlderSnapshotAgrees(with: BookState, without: BookState, s: Snapshot, id: int)
    requires Agree(with, without) && s.id.Some? && s.id.value < id
    requires StoppedAt(id, with.buffer, without.buffer)
    ensures EndAlike(Drain(Seeded(with, s), with.buffer), Drain(Seeded(without, s), without.buffer))
  {
    var x, y, id2 := with.buffer, without.buffer, s.id.value;
    DrainOutcome(Seeded(with, s), x);
    DrainOutcome(Seeded(without, s), y);
    var gone := y[..|y| - |x|];
    assert y == gone + x;
    FirstUnfitSplit(id, gone, x);
    FirstUnfitSplit(id2, gone, x);
    ReachMonotone(id, id, gone);
    ReachMonotone(id2, id, gone);
    assert FirstUnfit(id2, x) == 0 && x[0..] == x;
    OlderStopsEarlier(id2, id, gone, x);
    StoppedSuffix(id, FirstUnfit(id2, y), x, y);
  }

  /** A later snapshot, newer or older than the failed one, ends alike on both. */
  lemma SnapshotAgrees(with: BookState, without: BookState, s: Snapshot)
    requires Agree(with, without)
    ensures EndAlike(AfterSnapshot(with, s), AfterSnapshot(without, s))
  {
    if s.id.Some? && !(with.synced && s.id.value <= with.lastId) {
      if with.buffer == without.buffer {
        SameBufferAgrees(with, without, s);
      } else {
        var id :| StoppedAt(id, with.buffer, without.buffer);
        if id <= s.id.value {
          NewerSnapshotAgrees(with, without, s, id);
        } else {
          OlderSnapshotAgrees(with, without, s, id);
        }
      }
    }
  }

  lemma SameBufferAgrees(with: BookState, without: BookState, s: Snapshot)
    requires Agree(with, without) && s.id.Some? && with.buffer == without.buffer
    ensures EndAlike(Drain(Seeded(with, s), with.buffer), Drain(Seeded(without, s), without.buffer))
  {
    DrainOutcome(Seeded(with, s), with.buffer);
    assert Seeded(with, s) == Seeded(without, s);
  }

  /** A book past everything a prefix reached skips that whole prefix. */
  lemma OldPrefixIsSkippedAt(b: BookState, id: int, gone: seq<Notification>)
    requires FirstUnfit(id, gone) == |gone| && id <= b.lastId && Reach(id, gone) <= b.lastId
    ensures FirstUnfit(b.lastId, gone) == |gone| && Reach(b.lastId, gone) == b.lastId
  {
    ReachMonotone(id, b.lastId, gone);
  }

  lemma OlderStopsEarlier(id2: int, id: int, gone: seq<Notification>, x: seq<Notification>)
    requires id2 <= id && x != [] && !Fits(Reach(id, gone), x[0])
    ensures FirstUnfit(id2, gone + x) <= |gone|
  {
    FirstUnfitSplit(id2, gone, x);
    ReachMonotone(id2, id, gone);
  }

  /** Dropping messages from the front of a stopped buffer leaves it stopped at the same place. */
  lemma {:induction false} StoppedSuffix(id: int, j: nat, left: seq<Notification>, whole: seq<Notification>)
    requires StoppedAt(id, left, whole) && j <= |whole| - |left|
    ensures LeftOver(left, whole[j..])
    decreases j
  {
    if j == 0 {
      assert whole[0..] == whole;
    } else {
      assert whole[1..][|whole[1..]| - |left|..] == left;
      assert StoppedAt(Advance(id, whole[0]), left, whole[1..]);
      StoppedSuffix(Advance(id, whole[0]), j - 1, left, whole[1..]);
      assert whole[1..][j - 1..] == whole[j..];
    }
  }

  lemma StoppedAtAppend(id: int, x: seq<Notification>, y: seq<Notification>, n: Notification)
    requires StoppedAt(id, x, y)
    ensures StoppedAt(id, x + [n], y + [n])
  {
    var gone := y[..|y| - |x|];
    assert y == gone + x && y + [n] == gone + (x + [n]);
    FirstUnfitSplit(id, gone, x);
    FirstUnfitSplit(id, gone, x + [n]);
    assert (y + [n])[|y + [n]| - |x + [n]|..] == x + [n];
  }

  /** Another buffered message keeps the relation, evictions from the full deque included. */
  lemma BufferingAgrees(x: seq<Notification>, y: seq<Notification>, n: Notification, limit: nat)
    requires LeftOver(x, y) && |x| <= limit && |y| <= limit
    ensures LeftOver(KeepLast(x + [n], limit), KeepLast(y + [n], limit))
  {
    if x != y {
      var id :| StoppedAt(id, x, y);
      StoppedAtAppend(id, x, y, n);
      assert KeepLast(x + [n], limit) == x + [n];
      var j := if |y + [n]| <= limit then 0 else |y + [n]| - limit;
      StoppedSuffix(id, j, x + [n], y + [n]);
      assert KeepLast(y + [n], limit) == (y + [n])[j..];
    }
  }

  lemma UpdateAgrees(with: BookState, without: BookState, n: Notification)
    requires Agree(with, without)
    ensures var r, r' := AfterUpdate(with, n), AfterUpdate(without, n);
            r.outcome == r'.outcome && Agree(r.state, r'.state) && r.state.wasSnapshot == r'.state.wasSnapshot
  {
    if !n.full && !with.synced {
      BufferingAgrees(with.buffer, without.buffer, n, with.maxBuffer);
    }
  }

  /** Every event ends alike on both books and keeps them in agreement. */
  lemma StepAgrees(with: BookState, without: BookState, e: BookEvent)
    requires Agree(with, without)
    ensures var r, r' := StepBook(with, e), StepBook(without, e);
            && r.outcome == r'.outcome && Agree(r.state, r'.state)
            && (e.UpdateArrives? ==> r.state.wasSnapshot == r'.state.wasSnapshot)
  {
    match e
    case SnapshotArrives(s) => SnapshotAgrees(with, without, s);
    case UpdateArrives(n) => UpdateAgrees(with, without, n);
    case ResetCalled =>
  }

  function Outcomes(b: BookState, events: seq<BookEvent>): seq<Outcome> {
    if events == [] then [] else
    var before := events[..|events| - 1];
    Outcomes(b, before) + [StepBook(RunBook(b, before), events[|events| - 1]).outcome]
  }

  /** Every later call ends alike, and whenever synchronized the books hold the same depth at the same id. */
  ghost predicate RunAlike(with: BookState, without: BookState, events: seq<BookEvent>) {
    Outcomes(with, events) == Outcomes(without, events) && Agree(RunBook(with, events), RunBook(without, events))
  }

  lemma {:induction false} AgreeingBooksRunAlike(with: BookState, without: BookState, events: seq<BookEvent>)
    requires Agree(with, without)
    ensures RunAlike(with, without, events)
    decreases |events|
  {
    if events != [] {
      var before, e := events[..|events| - 1], events[|events| - 1];
      AgreeingBooksRunAlike(with, without, before);
      StepAgrees(RunBook(with, before), RunBook(without, before), e);
    }
  }

  /**
    A failed snapshot does no harm, whatever follows it, if and only if the book was not
    synchronized when it arrived.
  */
  lemma FailedSnapshotIsInvisible(b: BookState, s: Snapshot)
    requires b.Valid() && AfterSnapshot(b, s).outcome == SequenceError
    ensures (forall events :: RunAlike(AfterSnapshot(b, s).state, b, events)) <==> !b.synced
  {
    FailedAttemptAgrees(b, s);
    if b.synced {
      assert !RunAlike(AfterSnapshot(b, s).state, b, []);
    } else {
      forall events ensures RunAlike(AfterSnapshot(b, s).state, b, events) {
        AgreeingBooksRunAlike(AfterSnapshot(b, s).state, b, events);
      }
    }
  }

  /**
    What holds of synchronized books too: a later snapshot at least as new as the failed one ends
    with the same outcome, depth and id as if the failed attempt had never been made.
  */
  lemma LaterSnapshotEndsAlike(b: BookState, s: Snapshot, later: Snapshot)
    requires b.Valid() && AfterSnapshot(b, s).outcome == SequenceError
    requires later.id.Some? && later.id.value >= s.id.value
    ensures EndAlike(AfterSnapshot(AfterSnapshot(b, s).state, later), AfterSnapshot(b, later))
  {
    FailedAttemptAgrees(b, s);
    NewerSnapshotAgrees(AfterSnapshot(b, s).state, b, later, s.id.value);
  }

  // -- a failed snapshot that does harm ----------------------------------

  function Message(id: int): Notification {
    Notification(false, Some(id), Some(id), [], [])
  }

  /** Three buffered messages, and then a full push older than all of them. */
  function PushedBehindTheBuffer(): seq<BookEvent> {
    [UpdateArrives(Message(20))] + [UpdateArrives(Message(21))] + [UpdateArrives(Message(22))]
    + [UpdateArrives(Notification(true, None, Some(15), [Level(1, 1)], []))]
  }

  /** A full push synchronizes a book without emptying its buffer. */
  lemma PushLeavesTheBuffer(maxBuffer: nat)
    requires maxBuffer >= 3
    ensures RunBook(Fresh(maxBuffer), PushedBehindTheBuffer())
         == BookState(Depth(map[1 := 1], map[]), [Message(20), Message(21), Message(22)], maxBuffer, 15, true, true)
  {
    var b := Fresh(maxBuffer);
    var m20, m21, m22 := [UpdateArrives(Message(20))], [UpdateArrives(Message(21))], [UpdateArrives(Message(22))];
    assert [] + m20 == m20 && [] + [Message(20)] == [Message(20)];
    OneMoreBuffered(b, [], 20);
    OneMoreBuffered(b, m20, 21);
    OneMoreBuffered(b, m20 + m21, 22);
    OneMoreStep(b, m20 + m21 + m22, UpdateArrives(Notification(true, None, Some(15), [Level(1, 1)], [])));
    OneLevel();
  }

  lemma OneMoreBuffered(b: BookState, before: seq<BookEvent>, id: int)
    requires var was := RunBook(b, before); !was.synced && !was.wasSnapshot && |was.buffer| < was.maxBuffer
    ensures var was := RunBook(b, before);
            RunBook(b, before + [UpdateArrives(Message(id))]) == was.(buffer := was.buffer + [Message(id)])
  {
    OneMoreStep(b, before, UpdateArrives(Message(id)));
  }

  lemma OneLevel()
    ensures Replacement([Level(1, 1)]) == map[1 := 1]
  {
    assert [Level(1, 1)][..0] == [];
  }

  lemma OneMoreStep(b: BookState, before: seq<BookEvent>, e: BookEvent)
    ensures RunBook(b, before + [e]) == StepBook(RunBook(b, before), e).state
  {
    assert (before + [e])[..|before|] == before;
  }

  /** The snapshot in flight then raises and unsynchronizes a book that was in order. */
  lemma FailedSnapshotCanUnsynchronize(maxBuffer: nat)
    requires maxBuffer >= 3
    ensures var b := RunBook(Fresh(maxBuffer), PushedBehindTheBuffer());
            var r := AfterSnapshot(b, Snapshot(Some(16), [], []));
            b.synced && r.outcome == SequenceError && !r.state.synced
  {
    PushLeavesTheBuffer(maxBuffer);
    var b := RunBook(Fresh(maxBuffer), PushedBehindTheBuffer());
    var s := Snapshot(Some(16), [], []);
    SnapshotOutcome(b, s);
    assert FirstUnfit(16, b.buffer) == 0;
  }
}
