/**
  The local L2 order book of gateio_nt/books.py.

  Prices and sizes are integers (the venue's decimals, scaled). A side of the book
  maps a price to its resting size. `BookState` is the value a book object holds;
  the functions below say what each operation makes of it, and the class
  `GateioOrderBook` at the end performs the same operations in place.
*/
module Books {
  import opened Basics

  datatype SideName = Bid | Ask

  datatype Level = Level(price: int, size: int)

  /** One reported change; a size of zero means the level was removed. */
  datatype Change = Change(side: SideName, price: int, size: int)

  type Side = map<int, int>

  datatype Depth = Depth(bids: Side, asks: Side) {
    function Get(name: SideName): Side {
      if name == Bid then bids else asks
    }

    function Put(name: SideName, side: Side): Depth {
      if name == Bid then Depth(side, asks) else Depth(bids, side)
    }
  }

  const EMPTY_DEPTH := Depth(map[], map[])

  /** A stream message covering the update ids `first..last`, or a full push at `last`. */
  datatype Notification = Notification(
    full: bool, first: Option<int>, last: Option<int>, bids: seq<Level>, asks: seq<Level>)

  /** A REST snapshot body. */
  datatype Snapshot = Snapshot(id: Option<int>, bids: seq<Level>, asks: seq<Level>)

  /** How a call ended: normally, or with one of the exceptions the source raises. */
  datatype Outcome = Applied | SequenceError | StaleError | MissingIdError

  datatype BookState = BookState(
    depth: Depth, buffer: seq<Notification>, maxBuffer: nat,
    lastId: int, synced: bool, wasSnapshot: bool)
  {
    predicate Valid() {
      |buffer| <= maxBuffer
    }
  }

  datatype Result = Result(state: BookState, outcome: Outcome)

  // -- levels ------------------------------------------------------------

  /** The size resting at a price, zero when there is no level. */
  function SizeAt(side: Side, price: int): int {
    if price in side then side[price] else 0
  }

  predicate Positive(side: Side) {
    forall p <- side :: side[p] > 0
  }

  predicate PositiveDepth(d: Depth) {
    Positive(d.bids) && Positive(d.asks)
  }

  function PutLevel(side: Side, level: Level): Side {
    if level.size <= 0 then side - {level.price} else side[level.price := level.size]
  }

  /** The side after a list of absolute levels, oldest first. */
  function Patch(side: Side, levels: seq<Level>): Side {
    if levels == [] then side else PutLevel(Patch(side, levels[..|levels| - 1]), levels[|levels| - 1])
  }

  /** The change one absolute level makes to a side, if it makes one. */
  function LevelChange(name: SideName, side: Side, level: Level): seq<Change> {
    if level.size <= 0 then
      if level.price in side then [Change(name, level.price, 0)] else []
    else if SizeAt(side, level.price) != level.size || level.price !in side then
      [Change(name, level.price, level.size)]
    else []
  }

  function LevelChanges(name: SideName, side: Side, levels: seq<Level>): seq<Change> {
    if levels == [] then [] else
    var before := levels[..|levels| - 1];
    LevelChanges(name, side, before) + LevelChange(name, Patch(side, before), levels[|levels| - 1])
  }

  /** The side a snapshot's level list denotes: non-positive sizes are skipped, the last one wins. */
  function Replacement(levels: seq<Level>): Side {
    if levels == [] then map[] else
    var before := Replacement(levels[..|levels| - 1]);
    var level := levels[|levels| - 1];
    if level.size > 0 then before[level.price := level.size] else before
  }

  // -- change lists ------------------------------------------------------

  function ApplyChange(d: Depth, c: Change): Depth {
    d.Put(c.side, PutLevel(d.Get(c.side), Level(c.price, c.size)))
  }

  function Fold(d: Depth, changes: seq<Change>): Depth {
    if changes == [] then d else ApplyChange(Fold(d, changes[..|changes| - 1]), changes[|changes| - 1])
  }

  /**
    An exact account of the step from one book to another: folding the changes over the
    first gives the second, and each change alters the level it names when its turn comes.
  */
  ghost predicate Transition(before: Depth, changes: seq<Change>, after: Depth) {
    && Fold(before, changes) == after
    && forall i :: 0 <= i < |changes| ==> AltersAt(before, changes, i)
  }

  ghost predicate AltersAt(before: Depth, changes: seq<Change>, i: nat)
    requires i < |changes|
  {
    ApplyChange(Fold(before, changes[..i]), changes[i]) != Fold(before, changes[..i])
  }

  lemma {:induction false} FoldConcat(d: Depth, a: seq<Change>, b: seq<Change>)
    ensures Fold(d, a + b) == Fold(Fold(d, a), b)
    decreases |b|
  {
    if b == [] {
      assert a + b == a;
    } else {
      assert (a + b)[..|a + b| - 1] == a + b[..|b| - 1];
      FoldConcat(d, a, b[..|b| - 1]);
    }
  }

  lemma {:induction false} TransitionConcat(d0: Depth, a: seq<Change>, d1: Depth, b: seq<Change>, d2: Depth)
    requires Transition(d0, a, d1) && Transition(d1, b, d2)
    ensures Transition(d0, a + b, d2)
  {
    FoldConcat(d0, a, b);
    forall i | 0 <= i < |a + b|
      ensures AltersAt(d0, a + b, i)
    {
      if i < |a| {
        assert AltersAt(d0, a, i);
        assert (a + b)[..i] == a[..i];
      } else {
        assert AltersAt(d1, b, i - |a|);
        assert (a + b)[..i] == a + b[..i - |a|];
        FoldConcat(d0, a, b[..i - |a|]);
      }
    }
  }

  lemma TransitionOne(d: Depth, c: Change)
    requires ApplyChange(d, c) != d
    ensures Transition(d, [c], ApplyChange(d, c))
  {
    assert [c][..0] == [];
    assert Fold(d, []) == d;
    assert [c][..1 - 1] == [];
  }

  lemma {:induction false} LevelChangesExact(name: SideName, d: Depth, levels: seq<Level>)
    ensures Transition(d, LevelChanges(name, d.Get(name), levels), d.Put(name, Patch(d.Get(name), levels)))
    decreases |levels|
  {
    if levels != [] {
      var before := levels[..|levels| - 1];
      var level := levels[|levels| - 1];
      LevelChangesExact(name, d, before);
      var mid := d.Put(name, Patch(d.Get(name), before));
      var step := LevelChange(name, mid.Get(name), level);
      var after := d.Put(name, PutLevel(mid.Get(name), level));
      if step == [] {
        assert after.Get(name) == mid.Get(name);
      } else {
        var c := step[0];
        assert ApplyChange(mid, c) == after;
        assert SizeAt(after.Get(name), level.price) != SizeAt(mid.Get(name), level.price)
            || (level.price in after.Get(name)) != (level.price in mid.Get(name));
        TransitionOne(mid, c);
        assert step == [c];
      }
      TransitionConcat(d, LevelChanges(name, d.Get(name), before), mid, step, after);
    }
  }

  // -- operations on the whole state -------------------------------------

  /** The last `limit` elements: what a bounded deque keeps. */
  function KeepLast<T>(s: seq<T>, limit: nat): (r: seq<T>)
    ensures |r| <= limit && |r| <= |s| && r == s[|s| - |r|..]
  {
    if |s| <= limit then s else s[|s| - limit..]
  }

  function AfterFull(b: BookState, n: Notification): Result {
    if n.last.None? then
      Result(b.(synced := false), SequenceError)
    else if b.synced && n.last.value <= b.lastId then
      Result(b, Applied)
    else
      Result(b.(depth := Depth(Replacement(n.bids), Replacement(n.asks)),
                lastId := n.last.value, synced := true, wasSnapshot := true), Applied)
  }

  function PatchDepth(d: Depth, n: Notification): Depth {
    Depth(Patch(d.bids, n.bids), Patch(d.asks, n.asks))
  }

  function AfterIncremental(b: BookState, n: Notification): Result {
    if n.first.None? || n.last.None? then
      Result(b, Applied)
    else if n.last.value < b.lastId + 1 then
      Result(b, Applied)
    else if n.first.value > b.lastId + 1 then
      Result(b.(synced := false), SequenceError)
    else
      Result(b.(depth := PatchDepth(b.depth, n), lastId := n.last.value), Applied)
  }

  /** Whether an incremental message is applied rather than dropped or refused. */
  predicate Extends(b: BookState, n: Notification) {
    n.first.Some? && n.last.Some? && n.first.value <= b.lastId + 1 <= n.last.value
  }

  function IncrementalChanges(b: BookState, n: Notification): seq<Change> {
    if Extends(b, n)
    then LevelChanges(Bid, b.depth.bids, n.bids) + LevelChanges(Ask, b.depth.asks, n.asks)
    else []
  }

  /** What replaying one buffered message does. */
  function Replay(b: BookState, n: Notification): Result {
    if n.full then
      AfterFull(b, n)
    else if n.last.Some? && n.last.value <= b.lastId then
      Result(b, Applied)
    else
      AfterIncremental(b, n)
  }

  /** Replays `pending` in order; a refused message and everything behind it go back. */
  function Drain(b: BookState, pending: seq<Notification>): Result
    decreases |pending|
  {
    if pending == [] then
      Result(b, Applied)
    else
      var r := Replay(b, pending[0]);
      if r.outcome == SequenceError
      then Result(r.state.(buffer := KeepLast(r.state.buffer + pending, b.maxBuffer)), SequenceError)
      else Drain(r.state, pending[1..])
  }

  /** The state right after a snapshot body replaced the book, before the buffer is replayed. */
  function Seeded(b: BookState, s: Snapshot): BookState
    requires s.id.Some?
  {
    b.(depth := Depth(Replacement(s.bids), Replacement(s.asks)), buffer := [],
       lastId := s.id.value, synced := true, wasSnapshot := true)
  }

  function AfterSnapshot(b: BookState, s: Snapshot): Result {
    if s.id.None? then
      Result(b, MissingIdError)
    else if b.synced && s.id.value <= b.lastId then
      Result(b, StaleError)
    else
      Drain(Seeded(b, s), b.buffer)
  }

  function AfterUpdate(b: BookState, n: Notification): Result {
    var b := b.(wasSnapshot := false);
    if n.full then
      AfterFull(b, n)
    else if !b.synced then
      Result(b.(buffer := KeepLast(b.buffer + [n], b.maxBuffer)), Applied)
    else
      AfterIncremental(b, n)
  }

  function AfterReset(b: BookState): BookState {
    b.(depth := EMPTY_DEPTH, buffer := [], lastId := 0, synced := false, wasSnapshot := false)
  }

  function Fresh(maxBuffer: nat): BookState {
    BookState(EMPTY_DEPTH, [], maxBuffer, 0, false, false)
  }

  /** An incremental message's change list accounts exactly for the step it takes. */
  lemma IncrementalChangesExact(b: BookState, n: Notification)
    ensures var r := AfterIncremental(b, n);
            Transition(b.depth, IncrementalChanges(b, n), r.state.depth)
  {
    if Extends(b, n) {
      LevelChangesExact(Bid, b.depth, n.bids);
      var mid := b.depth.Put(Bid, Patch(b.depth.bids, n.bids));
      LevelChangesExact(Ask, mid, n.asks);
      TransitionConcat(b.depth, LevelChanges(Bid, b.depth.bids, n.bids), mid,
                       LevelChanges(Ask, mid.asks, n.asks), PatchDepth(b.depth, n));
    }
  }

  /** Draining keeps what the buffer needs: the bound, and an empty buffer on success. */
  lemma {:induction false} DrainBuffer(b: BookState, pending: seq<Notification>)
    requires b.buffer == [] && |pending| <= b.maxBuffer
    ensures var r := Drain(b, pending);
            && r.state.maxBuffer == b.maxBuffer
            && (r.outcome == Applied ==> r.state.buffer == [] && (b.synced ==> r.state.synced))
            && (r.outcome != Applied ==> r.outcome == SequenceError && !r.state.synced)
            && r.state.Valid()
    decreases |pending|
  {
    if pending != [] {
      var r := Replay(b, pending[0]);
      ReplayBuffer(b, pending[0]);
      if r.outcome != SequenceError {
        DrainBuffer(r.state, pending[1..]);
      }
    }
  }

  /** Replaying a message leaves the buffer alone, and ends in success or a sequence error. */
  lemma ReplayBuffer(b: BookState, n: Notification)
    ensures var r := Replay(b, n);
            && r.state.buffer == b.buffer && r.state.maxBuffer == b.maxBuffer
            && (r.outcome == Applied ==> b.synced ==> r.state.synced)
            && (r.outcome != Applied ==> r.outcome == SequenceError && !r.state.synced)
  {
  }

  // -- the mutable book --------------------------------------------------

  class GateioOrderBook {
    var bids: Side
    var asks: Side
    var buffer: seq<Notification>
    const maxBuffer: nat
    var lastUpdateId: int
    var synced: bool
    var lastApplyWasSnapshot: bool

    function State(): BookState
      reads this
    {
      BookState(Depth(bids, asks), buffer, maxBuffer, lastUpdateId, synced, lastApplyWasSnapshot)
    }

    constructor (maxBuffer: nat)
      ensures State() == Fresh(maxBuffer)
    {
      this.bids, this.asks, this.buffer := map[], map[], [];
      this.maxBuffer := maxBuffer;
      this.lastUpdateId, this.synced, this.lastApplyWasSnapshot := 0, false, false;
    }

    method Reset()
      modifies this
      ensures State() == AfterReset(old(State()))
    {
      bids, asks, buffer := map[], map[], [];
      lastUpdateId, synced, lastApplyWasSnapshot := 0, false, false;
    }

    /** Applies a list of absolute levels to one side, reporting the levels it altered. */
    method ApplyLevels(name: SideName, levels: seq<Level>) returns (changes: seq<Change>)
      modifies this`bids, this`asks
      ensures Depth(bids, asks) == old(Depth(bids, asks)).Put(name, Patch(old(Depth(bids, asks)).Get(name), levels))
      ensures changes == LevelChanges(name, old(Depth(bids, asks)).Get(name), levels)
    {
      var book := if name == Bid then bids else asks;
      ghost var was := book;
      changes := [];
      for i := 0 to |levels|
        invariant book == Patch(was, levels[..i])
        invariant changes == LevelChanges(name, was, levels[..i])
      {
        var price, size := levels[i].price, levels[i].size;
        assert levels[..i + 1][..i] == levels[..i];
        if size <= 0 {
          if price in book {
            changes := changes + [Change(name, price, 0)];
          }
          book := book - {price};
        } else if price !in book || book[price] != size {
          book := book[price := size];
          changes := changes + [Change(name, price, size)];
        } else {
          assert book[price := size] == book;
        }
      }
      assert levels[..|levels|] == levels;
      if name == Bid { bids := book; } else { asks := book; }
    }

    method ApplyIncremental(n: Notification) returns (outcome: Outcome, changes: seq<Change>)
      modifies this
      ensures Result(State(), outcome) == AfterIncremental(old(State()), n)
      ensures changes == IncrementalChanges(old(State()), n)
    {
      outcome, changes := Applied, [];
      if n.first.None? || n.last.None? {
        return;
      }
      var expected := lastUpdateId + 1;
      if n.last.value < expected {
        return;
      }
      if n.first.value > expected {
        synced := false;
        outcome := SequenceError;
        return;
      }
      changes := ApplyLevels(Bid, n.bids);
      var more := ApplyLevels(Ask, n.asks);
      changes := changes + more;
      lastUpdateId := n.last.value;
    }

    /** Reports the levels of `was` that `now` no longer holds as removed. */
    static method DiffRemoved(name: SideName, was: Side, now: Side, ghost start: Depth) returns (changes: seq<Change>)
      requires start.Get(name) == was
      ensures Transition(start, changes, start.Put(name, Kept(was, now)))
    {
      changes := [];
      var todo: set<int> := was.Keys;
      ghost var cur := was;
      assert start.Put(name, cur) == start;
      while todo != {}
        invariant todo <= was.Keys
        invariant cur == was - (was.Keys - todo - now.Keys)
        invariant Transition(start, changes, start.Put(name, cur))
        decreases todo
      {
        ghost var w := Pick(todo);
        var p :| p in todo;
        todo := todo - {p};
        if p !in now {
          ghost var next := PutLevel(cur, Level(p, 0));
          assert p in cur && p !in next;
          StepTransition(name, start, changes, cur, Change(name, p, 0), next);
          changes := changes + [Change(name, p, 0)];
          cur := next;
        }
      }
    }

    /** Reports the levels of `now` that `was` did not hold, or held with another size. */
    static method DiffSet(name: SideName, was: Side, now: Side, ghost start: Depth) returns (changes: seq<Change>)
      requires start.Get(name) == Kept(was, now) && Positive(now)
      ensures Transition(start, changes, start.Put(name, now))
    {
      changes := [];
      var todo: set<int> := now.Keys;
      SetBounds(name, was, now, start);
      while todo != {}
        invariant todo <= now.Keys
        invariant Transition(start, changes, start.Put(name, SetSoFar(was, now, todo)))
        decreases todo
      {
        ghost var w := Pick(todo);
        var p :| p in todo;
        SetTurn(name, was, now, start, changes, todo, p);
        if p !in was || was[p] != now[p] {
          changes := changes + [Change(name, p, now[p])];
        }
        todo := todo - {p};
      }
    }

    /** Reports how a whole side turns into another: removals first, then new or resized levels. */
    static method DiffSide(name: SideName, was: Side, now: Side, ghost start: Depth) returns (changes: seq<Change>)
      requires start.Get(name) == was && Positive(now)
      ensures Transition(start, changes, start.Put(name, now))
    {
      changes := DiffRemoved(name, was, now, start);
      ghost var mid := start.Put(name, Kept(was, now));
      var more := DiffSet(name, was, now, mid);
      TransitionConcat(start, changes, mid, more, start.Put(name, now));
      changes := changes + more;
    }

    /** A full push: the whole depth is replaced unless the push is old or cannot be placed. */
    method ApplyFull(n: Notification) returns (outcome: Outcome, changes: seq<Change>)
      modifies this
      ensures Result(State(), outcome) == AfterFull(old(State()), n)
      ensures outcome == Applied ==> Transition(old(State()).depth, changes, State().depth)
      ensures old(synced) && n.last.Some? && n.last.value <= old(lastUpdateId) ==> changes == []
    {
      outcome, changes := Applied, [];
      if n.last.None? {
        synced := false;
        outcome := SequenceError;
        return;
      }
      if synced && n.last.value <= lastUpdateId {
        return;
      }
      var newBids, newAsks := Replacement(n.bids), Replacement(n.asks);
      ReplacementPositive(n.bids);
      ReplacementPositive(n.asks);
      changes := DiffSide(Bid, bids, newBids, Depth(bids, asks));
      var more := DiffSide(Ask, asks, newAsks, Depth(newBids, asks));
      TransitionConcat(Depth(bids, asks), changes, Depth(newBids, asks), more, Depth(newBids, newAsks));
      changes := changes + more;
      bids, asks := newBids, newAsks;
      lastUpdateId := n.last.value;
      synced := true;
      lastApplyWasSnapshot := true;
    }

    /** Replays one buffered message. */
    method ReplayOne(n: Notification) returns (outcome: Outcome, changes: seq<Change>)
      modifies this
      ensures Result(State(), outcome) == Replay(old(State()), n)
      ensures outcome == Applied ==> Transition(old(State()).depth, changes, State().depth)
    {
      outcome, changes := Applied, [];
      if n.full {
        outcome, changes := ApplyFull(n);
      } else if n.last.Some? && n.last.value <= lastUpdateId {
      } else {
        IncrementalChangesExact(State(), n);
        outcome, changes := ApplyIncremental(n);
      }
    }

    /**
      Replays the buffered messages. On success the returned changes account for the way from
      the depth before the replay to the depth after it.
    */
    method DrainBuffer() returns (outcome: Outcome, changes: seq<Change>)
      modifies this
      ensures Result(State(), outcome) == Drain(old(State()).(buffer := []), old(buffer))
      ensures outcome == Applied ==> Transition(old(State()).depth, changes, State().depth)
    {
      outcome, changes := Applied, [];
      if buffer == [] {
        return;
      }
      var buffered := buffer;
      buffer := [];
      ghost var start := State();
      for i := 0 to |buffered|
        invariant outcome == Applied
        invariant Drain(start, buffered) == Drain(State(), buffered[i..])
        invariant Transition(start.depth, changes, State().depth)
      {
        ghost var here := State();
        assert buffered[i..][1..] == buffered[i + 1..];
        var more;
        outcome, more := ReplayOne(buffered[i]);
        if outcome == SequenceError {
          buffer := KeepLast(buffer + buffered[i..], maxBuffer);
          return;
        }
        TransitionConcat(start.depth, changes, here.depth, more, State().depth);
        changes := changes + more;
      }
    }

    /**
      Replaces the book with a REST snapshot and replays the buffer. The returned changes are
      those of the replay alone, measured from the bare snapshot.
    */
    method ApplySnapshot(s: Snapshot) returns (outcome: Outcome, changes: seq<Change>)
      modifies this
      ensures Result(State(), outcome) == AfterSnapshot(old(State()), s)
      ensures outcome == Applied ==>
                Transition(Depth(Replacement(s.bids), Replacement(s.asks)), changes, State().depth)
    {
      outcome, changes := Applied, [];
      if s.id.None? {
        outcome := MissingIdError;
        return;
      }
      if synced && s.id.value <= lastUpdateId {
        outcome := StaleError;
        return;
      }
      bids, asks := Replacement(s.bids), Replacement(s.asks);
      lastUpdateId := s.id.value;
      synced := true;
      lastApplyWasSnapshot := true;
      outcome, changes := DrainBuffer();
    }

    /**
      Applies one stream message. The changes account exactly for the step from the old depth
      to the new one; a buffered or refused message reports none.
    */
    method ApplyUpdate(n: Notification) returns (outcome: Outcome, changes: seq<Change>)
      modifies this
      ensures Result(State(), outcome) == AfterUpdate(old(State()), n)
      ensures outcome == Applied ==> Transition(old(State()).depth, changes, State().depth)
      ensures n.full && outcome == Applied && !lastApplyWasSnapshot ==> changes == []
      ensures !n.full ==> changes == if old(synced) then IncrementalChanges(old(State()), n) else []
    {
      lastApplyWasSnapshot := false;
      if n.full {
        outcome, changes := ApplyFull(n);
        return;
      }
      if !synced {
        buffer := KeepLast(buffer + [n], maxBuffer);
        outcome, changes := Applied, [];
        return;
      }
      IncrementalChangesExact(State(), n);
      outcome, changes := ApplyIncremental(n);
    }
  }

  /** The levels of a side that its replacement holds too, at their old sizes. */
  ghost function Kept(was: Side, now: Side): Side {
    was - (was.Keys - now.Keys)
  }

  /** The side while the levels `todo` of its replacement are still to be set. */
  ghost function SetSoFar(was: Side, now: Side, todo: set<int>): Side {
    Kept(was, now) + (now - todo)
  }

  /** Where setting the levels starts, and where it ends. */
  lemma SetBounds(name: SideName, was: Side, now: Side, start: Depth)
    requires start.Get(name) == Kept(was, now)
    ensures start.Put(name, SetSoFar(was, now, now.Keys)) == start && SetSoFar(was, now, {}) == now
  {
    SameMap(SetSoFar(was, now, now.Keys), Kept(was, now));
    SameMap(SetSoFar(was, now, {}), now);
  }

  /** One level set: reported if it is new or resized, and nothing to do otherwise. */
  lemma SetTurn(name: SideName, was: Side, now: Side, start: Depth, changes: seq<Change>, todo: set<int>, p: int)
    requires Positive(now) && p in todo && todo <= now.Keys
    requires Transition(start, changes, start.Put(name, SetSoFar(was, now, todo)))
    ensures Transition(start,
                       if p !in was || was[p] != now[p] then changes + [Change(name, p, now[p])] else changes,
                       start.Put(name, SetSoFar(was, now, todo - {p})))
  {
    var cur, next := SetSoFar(was, now, todo), SetSoFar(was, now, todo - {p});
    SameMap(next, cur[p := now[p]]);
    if p !in was || was[p] != now[p] {
      assert p in cur ==> cur[p] == was[p];
      assert next[p] == now[p] && next == PutLevel(cur, Level(p, now[p]));
      StepTransition(name, start, changes, cur, Change(name, p, now[p]), next);
    } else {
      SameMap(next, cur);
    }
  }

  lemma StepTransition(name: SideName, start: Depth, changes: seq<Change>, cur: Side, c: Change, next: Side)
    requires Transition(start, changes, start.Put(name, cur))
    requires c.side == name && next == PutLevel(cur, Level(c.price, c.size)) && next != cur
    ensures Transition(start, changes + [c], start.Put(name, next))
  {
    var mid := start.Put(name, cur);
    assert mid.Get(name) == cur;
    assert ApplyChange(mid, c) == start.Put(name, next);
    assert start.Put(name, next).Get(name) == next;
    TransitionOne(mid, c);
    TransitionConcat(start, changes, mid, [c], start.Put(name, next));
  }

  lemma {:induction false} ReplacementPositive(levels: seq<Level>)
    ensures Positive(Replacement(levels))
    decreases |levels|
  {
    if levels != [] {
      ReplacementPositive(levels[..|levels| - 1]);
    }
  }
}
