/**
  The data client's book driver (gateio_nt/data.py) as a step machine over one instrument.

  A step is everything that runs between two `await`s. The machine has the registered book,
  the tasks that were created and have not started, the one task past the `_resyncing` guard,
  the retries asleep in `_schedule_book_retry`, the subscribe commands awaiting their
  acknowledgment, and every batch published so far.
*/
module BookClient {
  import opened Basics
  import opened Books
  import opened BookFaithful
  import opened BookDeltas

  const SNAPSHOT_ATTEMPTS := 4
  const MAX_BUFFER := 2048

  /**
    The resync past the guard: which attempt it is on, whether it sleeps between attempts, and
    the book object it works on. That is the registered one (`None`) unless the instrument
    was unsubscribed meanwhile; then it still holds the old object, with its own state.
  */
  datatype Runner = Runner(attempt: nat, sleeping: bool, detached: Option<BookState>)

  datatype Client = Client(
    book: Option<BookState>,
    created: nat,
    runner: Option<Runner>,
    retries: nat,
    subscribing: nat,
    awaitingReconnect: bool,
    accepting: bool,
    published: seq<seq<Delta>>)

  datatype SubscribeResult = Acknowledged | TransientFailure | PermanentFailure

  datatype Event =
    | Subscribe
    | SubscribeReturns(result: SubscribeResult)
    | Unsubscribe
    | UpdateMessage(n: Notification, known: bool)
    | StartTask
    | FetchReturns(s: Snapshot, known: bool)
    | FetchFails
    | FetchCrashes
    | PublishCrashes(s: Snapshot)
    | WakeRunner
    | WakeRetry
    | Reconnect
    | StopAccepting
    | CancelTasks

  const INITIAL := Client(None, 0, None, 0, 0, false, true, [])

  /** The registration is dropped; a task working on the object keeps it. */
  function Unregister(c: Client): Client {
    var runner := if c.book.Some? && c.runner.Some? && c.runner.value.detached.None?
                  then Some(c.runner.value.(detached := c.book)) else c.runner;
    c.(book := None, runner := runner, awaitingReconnect := false)
  }

  /** A retry is armed unless the transport is closing. */
  function ScheduleRetry(c: Client): Client {
    if c.accepting then c.(retries := c.retries + 1) else c
  }

  /** Entering `_book_snapshot_then_deltas`: past the guard, or an early return. */
  function EnterTask(c: Client): Client {
    if c.runner.Some? || c.book.None? then c
    else c.(runner := Some(Runner(0, false, None)))
  }

  /** An attempt ended without a book: sleep before the next one, or give up and arm a retry. */
  function AttemptFailed(c: Client): Client
    requires c.runner.Some?
  {
    if c.runner.value.attempt + 1 >= SNAPSHOT_ATTEMPTS
    then ScheduleRetry(c.(runner := None))
    else c.(runner := Some(c.runner.value.(sleeping := true)))
  }

  predicate Fetching(c: Client) {
    && c.runner.Some? && !c.runner.value.sleeping
    && (c.runner.value.detached.Some? || c.book.Some?)
  }

  /** The book object the running task works on. */
  function TaskBook(c: Client): BookState
    requires Fetching(c)
  {
    if c.runner.value.detached.Some? then c.runner.value.detached.value else c.book.value
  }

  function WithTaskBook(c: Client, b: BookState): Client
    requires Fetching(c)
  {
    if c.runner.value.detached.Some?
    then c.(runner := Some(c.runner.value.(detached := Some(b))))
    else c.(book := Some(b))
  }

  function Publish(c: Client, batch: seq<Delta>): Client {
    c.(published := c.published + [batch])
  }

  function OnSnapshot(c: Client, s: Snapshot, known: bool, quantize: int -> int): Client
    requires Fetching(c)
  {
    var r := AfterSnapshot(TaskBook(c), s);
    var c' := WithTaskBook(c, r.state);
    match r.outcome
    case Applied =>
      var done := c'.(runner := None);
      if known then Publish(done, SnapshotDeltas(r.state.depth, quantize)) else done
    case StaleError => c'.(runner := None)
    case SequenceError => AttemptFailed(c')
    case MissingIdError => AttemptFailed(c')
  }

  /**
    The snapshot was applied and an exception no branch expects came before it was published: the
    resync ends and arms a retry. One that was not applied ends as any other.
  */
  function OnCrash(c: Client, s: Snapshot, quantize: int -> int): Client
    requires Fetching(c)
  {
    var c' := OnSnapshot(c, s, false, quantize);
    if AfterSnapshot(TaskBook(c), s).outcome == Applied then ScheduleRetry(c') else c'
  }

  function OnUpdate(c: Client, n: Notification, known: bool, quantize: int -> int): Client
    requires c.book.Some?
  {
    var b := c.book.value;
    var r := AfterUpdate(b, n);
    if r.outcome == SequenceError then
      c.(book := Some(AfterReset(r.state)), created := c.created + 1)
    else
      var c' := c.(book := Some(r.state));
      var changes := if n.full || !b.synced then [] else IncrementalChanges(b, n);
      if r.state.wasSnapshot then
        if known then Publish(c', SnapshotDeltas(r.state.depth, quantize)) else c'
      else if changes == [] || !known then c'
      else Publish(c', UpdateDeltas(changes, quantize))
  }

  /** One step; an event that is not due leaves the client alone. */
  function Step(c: Client, e: Event, quantize: int -> int): Client {
    match e
    case Subscribe =>
      if c.book.Some? then c
      else c.(book := Some(Fresh(MAX_BUFFER)), subscribing := c.subscribing + 1)
    case SubscribeReturns(result) =>
      if c.subscribing == 0 then c else
      var c' := c.(subscribing := c.subscribing - 1);
      (match result
       case Acknowledged => c'.(created := c'.created + 1)
       case TransientFailure => c'.(awaitingReconnect := c'.book.Some?)
       case PermanentFailure => Unregister(c'))
    case Unsubscribe => Unregister(c)
    case UpdateMessage(n, known) => if c.book.None? then c else OnUpdate(c, n, known, quantize)
    case StartTask => if c.created == 0 then c else EnterTask(c.(created := c.created - 1))
    case FetchReturns(s, known) => if Fetching(c) then OnSnapshot(c, s, known, quantize) else c
    case FetchFails => if Fetching(c) then AttemptFailed(c) else c
    case FetchCrashes => if Fetching(c) then ScheduleRetry(c.(runner := None)) else c
    case PublishCrashes(s) => if Fetching(c) then OnCrash(c, s, quantize) else c
    case WakeRunner =>
      if c.runner.Some? && c.runner.value.sleeping
      then c.(runner := Some(c.runner.value.(attempt := c.runner.value.attempt + 1, sleeping := false)))
      else c
    case WakeRetry => if c.retries == 0 then c else EnterTask(c.(retries := c.retries - 1))
    case Reconnect =>
      if c.book.None? then c
      else c.(book := Some(AfterReset(c.book.value)), created := c.created + 1, awaitingReconnect := false)
    case StopAccepting => c.(accepting := false)
    case CancelTasks => if c.accepting then c else c.(created := 0, runner := None, retries := 0)
  }

  function Run(c: Client, events: seq<Event>, quantize: int -> int): Client {
    if events == [] then c
    else Step(Run(c, events[..|events| - 1], quantize), events[|events| - 1], quantize)
  }

  // -- no abandoned book -------------------------------------------------

  predicate Consistent(c: Client) {
    && (c.runner.Some? && c.runner.value.detached.None? ==> c.book.Some?)
    && (c.awaitingReconnect ==> c.book.Some?)
    && (c.runner.Some? ==>
          c.runner.value.attempt + (if c.runner.value.sleeping then 1 else 0) < SNAPSHOT_ATTEMPTS)
  }

  /** Something is under way that will reach this very book object. */
  predicate RepairPending(c: Client) {
    || c.created > 0 || c.retries > 0 || c.subscribing > 0 || c.awaitingReconnect
    || (c.runner.Some? && c.runner.value.detached.None?)
  }

  /** A registered book that is not synchronized and that nothing will repair. */
  predicate Abandoned(c: Client) {
    c.accepting && c.book.Some? && !c.book.value.synced && !RepairPending(c)
  }

  /** Subscribing while a task is still past the guard: it can only be holding an old object. */
  predicate SubscribesDuringFetch(c: Client, e: Event) {
    e.Subscribe? && c.book.None? && c.runner.Some?
  }

  ghost predicate NeverDuringFetch(c: Client, events: seq<Event>, quantize: int -> int) {
    forall i :: 0 <= i < |events| ==> !SubscribesDuringFetch(Run(c, events[..i], quantize), events[i])
  }

  /** No task holds an old object beside a registered one. */
  predicate NoStaleTask(c: Client) {
    c.runner.Some? && c.runner.value.detached.Some? ==> c.book.None?
  }

  lemma SnapshotSettles(b: BookState, s: Snapshot)
    ensures var r := AfterSnapshot(b, s);
            && (r.outcome == Applied || r.outcome == StaleError ==> r.state.synced)
            && (r.outcome == SequenceError ==> !r.state.synced)
            && (r.outcome == StaleError || r.outcome == MissingIdError ==> r.state == b)
  {
    if s.id.Some? && !(b.synced && s.id.value <= b.lastId) {
      DrainSettles(Seeded(b, s), b.buffer);
    }
  }

  lemma {:induction false} DrainSettles(b: BookState, pending: seq<Notification>)
    requires b.synced
    ensures var r := Drain(b, pending);
            && (r.outcome == Applied || r.outcome == SequenceError)
            && r.state.synced == (r.outcome == Applied)
    decreases |pending|
  {
    if pending != [] {
      var r := Replay(b, pending[0]);
      if r.outcome != SequenceError {
        ReplayKeepsSync(b, pending[0]);
        DrainSettles(r.state, pending[1..]);
      }
    }
  }

  lemma UpdateKeepsRepair(c: Client, n: Notification, known: bool, quantize: int -> int)
    requires Consistent(c) && NoStaleTask(c) && !Abandoned(c) && c.book.Some?
    ensures var c' := OnUpdate(c, n, known, quantize); Consistent(c') && NoStaleTask(c') && !Abandoned(c')
  {
    var r := AfterUpdate(c.book.value, n);
    assert r.outcome == Applied && c.book.value.synced ==> r.state.synced;
  }

  lemma FetchKeepsRepair(c: Client, s: Snapshot, known: bool, quantize: int -> int)
    requires Consistent(c) && NoStaleTask(c) && !Abandoned(c) && Fetching(c)
    ensures var c' := OnSnapshot(c, s, known, quantize); Consistent(c') && NoStaleTask(c') && !Abandoned(c')
  {
    SnapshotSettles(TaskBook(c), s);
  }

  lemma StepKeepsRepair(c: Client, e: Event, quantize: int -> int)
    requires Consistent(c) && NoStaleTask(c) && !Abandoned(c) && !SubscribesDuringFetch(c, e)
    ensures var c' := Step(c, e, quantize); Consistent(c') && NoStaleTask(c') && !Abandoned(c')
  {
    if e.UpdateMessage? && c.book.Some? {
      UpdateKeepsRepair(c, e.n, e.known, quantize);
    } else if e.FetchReturns? && Fetching(c) {
      FetchKeepsRepair(c, e.s, e.known, quantize);
    } else if e.PublishCrashes? && Fetching(c) {
      FetchKeepsRepair(c, e.s, false, quantize);
    }
  }

  /**
    No book is ever abandoned: over every run in which no subscription is taken out while a
    task is still past the guard, a registered unsynchronized book always has a repair under
    way, for as long as the transport accepts requests.
  */
  lemma {:induction false} NoBookIsAbandoned(events: seq<Event>, quantize: int -> int)
    requires NeverDuringFetch(INITIAL, events, quantize)
    ensures var c := Run(INITIAL, events, quantize); Consistent(c) && NoStaleTask(c) && !Abandoned(c)
    decreases |events|
  {
    if events != [] {
      var before := events[..|events| - 1];
      forall i | 0 <= i < |before| ensures !SubscribesDuringFetch(Run(INITIAL, before[..i], quantize), before[i]) {
        assert before[..i] == events[..i];
      }
      NoBookIsAbandoned(before, quantize);
      StepKeepsRepair(Run(INITIAL, before, quantize), events[|events| - 1], quantize);
    }
  }

  // -- when it can be abandoned after all --------------------------------

  function MaxLast(ns: seq<Notification>, id: int): (m: int)
    ensures m >= id && forall n <- ns :: n.last.Some? ==> n.last.value <= m
  {
    if ns == [] then id else
    var m := MaxLast(ns[..|ns| - 1], id);
    var n := ns[|ns| - 1];
    if n.last.Some? && n.last.value > m then n.last.value else m
  }

  predicate NoFullBuffered(b: BookState) {
    forall n <- b.buffer :: !n.full
  }

  /** No step buffers a full push, in the registered book or in the one a task holds. */
  predicate Plain(c: Client) {
    && (c.book.Some? ==> NoFullBuffered(c.book.value))
    && (c.runner.Some? && c.runner.value.detached.Some? ==> NoFullBuffered(c.runner.value.detached.value))
  }

  lemma {:induction false} DrainPlain(b: BookState, pending: seq<Notification>)
    requires NoFullBuffered(b) && forall n <- pending :: !n.full
    ensures NoFullBuffered(Drain(b, pending).state)
    decreases |pending|
  {
    if pending != [] {
      assert pending[0] in pending;
      var r := Replay(b, pending[0]);
      if r.outcome == SequenceError {
        KeepLastMembers(r.state.buffer + pending, b.maxBuffer);
      } else {
        DrainPlain(r.state, pending[1..]);
      }
    }
  }

  lemma BookStepPlain(b: BookState, e: BookEvent)
    requires NoFullBuffered(b)
    ensures NoFullBuffered(StepBook(b, e).state)
  {
    if e.SnapshotArrives? && e.s.id.Some? && !(b.synced && e.s.id.value <= b.lastId) {
      DrainPlain(Seeded(b, e.s), b.buffer);
    } else if e.UpdateArrives? {
      UpdateStaysPlain(b, e.n);
    }
  }

  lemma UpdateStaysPlain(b: BookState, n: Notification)
    requires NoFullBuffered(b)
    ensures NoFullBuffered(AfterUpdate(b, n).state)
  {
    if !n.full {
      KeepLastMembers(b.buffer + [n], b.maxBuffer);
    }
  }

  lemma KeepLastMembers(ns: seq<Notification>, limit: nat)
    ensures forall n <- KeepLast(ns, limit) :: n in ns
  {
  }

  lemma UpdatePlain(c: Client, n: Notification, known: bool, quantize: int -> int)
    requires Plain(c) && Consistent(c) && c.book.Some?
    ensures Plain(OnUpdate(c, n, known, quantize)) && Consistent(OnUpdate(c, n, known, quantize))
  {
    BookStepPlain(c.book.value, UpdateArrives(n));
  }

  /** Whatever becomes of the resync, the books are those behind `apply_snapshot`. */
  lemma SnapshotBooks(c: Client, s: Snapshot, known: bool, quantize: int -> int)
    requires Fetching(c)
    ensures var c', w := OnSnapshot(c, s, known, quantize), WithTaskBook(c, AfterSnapshot(TaskBook(c), s).state);
            && c'.book == w.book
            && (c'.runner.Some? ==> w.runner.Some? && c'.runner.value.detached == w.runner.value.detached)
  {
  }

  lemma FetchPlain(c: Client, s: Snapshot, known: bool, quantize: int -> int)
    requires Plain(c) && Consistent(c) && Fetching(c)
    ensures Plain(OnSnapshot(c, s, known, quantize)) && Consistent(OnSnapshot(c, s, known, quantize))
  {
    BookStepPlain(TaskBook(c), SnapshotArrives(s));
    var c' := WithTaskBook(c, AfterSnapshot(TaskBook(c), s).state);
    assert Plain(c') && Consistent(c');
    SnapshotBooks(c, s, known, quantize);
  }

  lemma StepPlain(c: Client, e: Event, quantize: int -> int)
    requires Plain(c) && Consistent(c)
    ensures Plain(Step(c, e, quantize)) && Consistent(Step(c, e, quantize))
  {
    if e.UpdateMessage? && c.book.Some? {
      UpdatePlain(c, e.n, e.known, quantize);
    } else if e.FetchReturns? && Fetching(c) {
      FetchPlain(c, e.s, e.known, quantize);
    } else if e.PublishCrashes? && Fetching(c) {
      FetchPlain(c, e.s, false, quantize);
    } else {
      OtherStepPlain(c, e, quantize);
    }
  }

  /** A message or a snapshot reaches a book. */
  predicate ReachesBook(c: Client, e: Event) {
    (e.UpdateMessage? && c.book.Some?) || ((e.FetchReturns? || e.PublishCrashes?) && Fetching(c))
  }

  lemma OtherStepPlain(c: Client, e: Event, quantize: int -> int)
    requires Plain(c) && Consistent(c) && !ReachesBook(c, e)
    ensures Plain(Step(c, e, quantize)) && Consistent(Step(c, e, quantize))
  {
    OtherStepBooks(c, e, quantize);
  }

  /** Where the books come from when no message and no snapshot arrives. */
  predicate BooksComeFrom(c': Client, c: Client) {
    && c'.published == c.published
    && (c'.book.Some? && c'.book != c.book ==>
        c'.book.value.depth == EMPTY_DEPTH && c'.book.value.buffer == [] && !c'.book.value.synced)
    && (c'.runner.Some? && c'.runner.value.detached.Some? ==>
          c'.runner.value.detached == c.book || (c.runner.Some? && c'.runner.value.detached == c.runner.value.detached))
  }

  lemma OtherStepBooks(c: Client, e: Event, quantize: int -> int)
    requires !ReachesBook(c, e)
    ensures BooksComeFrom(Step(c, e, quantize), c)
    ensures Consistent(c) ==> Consistent(Step(c, e, quantize))
  {
  }

  lemma {:induction false} RunPlain(events: seq<Event>, quantize: int -> int)
    ensures Plain(Run(INITIAL, events, quantize)) && Consistent(Run(INITIAL, events, quantize))
    decreases |events|
  {
    if events != [] {
      var c := Run(INITIAL, events[..|events| - 1], quantize);
      RunPlain(events[..|events| - 1], quantize);
      StepPlain(c, events[|events| - 1], quantize);
    }
  }

  /** A snapshot newer than everything buffered always succeeds. */
  lemma {:induction false} NewestDrains(b: BookState, pending: seq<Notification>)
    requires b.synced
    requires forall n <- pending :: !n.full && (n.last.Some? ==> n.last.value <= b.lastId)
    ensures Drain(b, pending) == Result(b, Applied)
    decreases |pending|
  {
    if pending != [] {
      assert pending[0] in pending;
      NewestDrains(b, pending[1..]);
    }
  }

  function NewestSnapshot(b: BookState): Snapshot {
    Snapshot(Some(MaxLast(b.buffer, b.lastId) + 1), [], [])
  }

  lemma {:induction false} RunConcat(c: Client, a: seq<Event>, b: seq<Event>, quantize: int -> int)
    ensures Run(c, a + b, quantize) == Run(Run(c, a, quantize), b, quantize)
    decreases |b|
  {
    if b == [] {
      assert a + b == a;
    } else {
      assert (a + b)[..|a + b| - 1] == a + b[..|b| - 1];
      RunConcat(c, a, b[..|b| - 1], quantize);
    }
  }

  predicate StaleTaskBesideBook(c: Client) {
    && c.accepting && !c.awaitingReconnect && Plain(c)
    && c.book.Some? && !c.book.value.synced
    && c.runner.Some? && c.runner.value.detached.Some?
  }

  /**
    With a task past the guard on an old object, every other repair runs into the guard and
    returns, and the running resync then ends content with the old object.
  */
  lemma {:induction false} GuardSwallowsRepairs(c: Client, quantize: int -> int) returns (events: seq<Event>)
    requires StaleTaskBesideBook(c)
    ensures Abandoned(Run(c, events, quantize))
    ensures forall e <- events :: !e.Subscribe?
    decreases 2 * c.subscribing + c.created + c.retries, c.runner.value.sleeping
  {
    if c.subscribing > 0 || c.created > 0 || c.retries > 0 || c.runner.value.sleeping {
      var e := if c.subscribing > 0 then SubscribeReturns(Acknowledged)
               else if c.created > 0 then StartTask
               else if c.retries > 0 then WakeRetry
               else WakeRunner;
      var rest := GuardSwallowsRepairs(Step(c, e, quantize), quantize);
      events := [e] + rest;
      assert [e][..0] == [];
      assert Run(c, [e], quantize) == Step(Run(c, [], quantize), e, quantize);
      RunConcat(c, [e], rest, quantize);
    } else {
      var b := TaskBook(c);
      var s := NewestSnapshot(b);
      assert NoFullBuffered(b);
      NewestDrains(Seeded(b, s), b.buffer);
      events := [FetchReturns(s, false)];
      assert events[..0] == [];
      assert Run(c, events, quantize) == Step(Run(c, [], quantize), events[0], quantize);
    }
  }

  ghost predicate CanBeAbandoned(c: Client, quantize: int -> int) {
    exists events :: NeverDuringFetch(c, events, quantize) && Abandoned(Run(c, events, quantize))
  }

  lemma {:induction false} SafeContinuation(c: Client, events: seq<Event>, quantize: int -> int)
    requires Consistent(c) && NoStaleTask(c) && !Abandoned(c) && NeverDuringFetch(c, events, quantize)
    ensures var c' := Run(c, events, quantize); Consistent(c') && NoStaleTask(c') && !Abandoned(c')
    decreases |events|
  {
    if events != [] {
      var before := events[..|events| - 1];
      forall i | 0 <= i < |before| ensures !SubscribesDuringFetch(Run(c, before[..i], quantize), before[i]) {
        assert before[..i] == events[..i];
      }
      SafeContinuation(c, before, quantize);
      StepKeepsRepair(Run(c, before, quantize), events[|events| - 1], quantize);
    }
  }

  /**
    The exact condition. From any reachable state without a registered book, taking out the
    subscription can lead to an abandoned book if and only if a task is past the guard at
    that moment, which is what membership in `_resyncing` tells a caller beforehand.
  */
  lemma SubscribeIsSafeIffNoTaskIsRunning(past: seq<Event>, quantize: int -> int)
    requires var c := Run(INITIAL, past, quantize); c.accepting && c.book.None?
    ensures var c := Run(INITIAL, past, quantize);
            CanBeAbandoned(Step(c, Subscribe, quantize), quantize) <==> c.runner.Some?
  {
    var c := Run(INITIAL, past, quantize);
    var c' := Step(c, Subscribe, quantize);
    RunPlain(past, quantize);
    if c.runner.Some? {
      var events := GuardSwallowsRepairs(c', quantize);
      assert NeverDuringFetch(c', events, quantize);
    } else {
      forall events | NeverDuringFetch(c', events, quantize) ensures !Abandoned(Run(c', events, quantize)) {
        SafeContinuation(c', events, quantize);
      }
    }
  }

  lemma RunOne(before: seq<Event>, c: Client, e: Event, quantize: int -> int)
    requires Run(INITIAL, before, quantize) == c
    ensures Run(INITIAL, before + [e], quantize) == Step(c, e, quantize)
  {
    assert (before + [e])[..|before|] == before;
  }

  const FIRST_FETCH := [Subscribe] + [SubscribeReturns(Acknowledged)] + [StartTask]

  /** Subscribed and acknowledged, the first snapshot is being fetched. */
  lemma FirstFetch(quantize: int -> int)
    ensures Run(INITIAL, FIRST_FETCH, quantize)
         == INITIAL.(book := Some(Fresh(MAX_BUFFER)), runner := Some(Runner(0, false, None)))
  {
    var b := Fresh(MAX_BUFFER);
    var e1, e2 := Subscribe, SubscribeReturns(Acknowledged);
    var c1 := INITIAL.(book := Some(b), subscribing := 1);
    var c2 := INITIAL.(book := Some(b), created := 1);
    RunOne([], INITIAL, e1, quantize);
    assert [] + [e1] == [e1];
    RunOne([e1], c1, e2, quantize);
    RunOne([e1] + [e2], c2, StartTask, quantize);
  }

  /** A concrete run up to the dangerous moment: unsubscribed while the snapshot is being fetched. */
  lemma UnsubscribingDuringFetch(quantize: int -> int)
    ensures Run(INITIAL, FIRST_FETCH + [Unsubscribe], quantize)
         == INITIAL.(runner := Some(Runner(0, false, Some(Fresh(MAX_BUFFER)))))
  {
    var c := INITIAL.(book := Some(Fresh(MAX_BUFFER)), runner := Some(Runner(0, false, None)));
    FirstFetch(quantize);
    RunOne(FIRST_FETCH, c, Unsubscribe, quantize);
  }

  /** Resubscribing right then can leave the new book without any repair. */
  lemma ResubscribingDuringFetchCanAbandon(quantize: int -> int)
    ensures CanBeAbandoned(Step(Run(INITIAL, FIRST_FETCH + [Unsubscribe], quantize), Subscribe, quantize), quantize)
  {
    UnsubscribingDuringFetch(quantize);
    SubscribeIsSafeIffNoTaskIsRunning(FIRST_FETCH + [Unsubscribe], quantize);
  }

  // -- the downstream mirror ---------------------------------------------

  /** Whatever this event has to publish is published. */
  predicate KnownInstrument(e: Event) {
    match e
    case UpdateMessage(_, known) => known
    case FetchReturns(_, known) => known
    case PublishCrashes(_) => false
    case _ => true
  }

  predicate PositiveBooks(c: Client) {
    && (c.book.Some? ==> PositiveDepth(c.book.value.depth))
    && (c.runner.Some? && c.runner.value.detached.Some? ==> PositiveDepth(c.runner.value.detached.value.depth))
  }

  /** Nothing published was ever rejected, and a synchronized book is mirrored exactly. */
  ghost predicate Mirrored(c: Client, quantize: int -> int) {
    && PositiveBooks(c)
    && Mirror(c.published).Some?
    && (c.book.Some? && c.book.value.synced ==>
          Mirror(c.published) == Some(Represent(c.book.value.depth, quantize)))
  }

  lemma PublishMirror(c: Client, batch: seq<Delta>)
    ensures Mirror(Publish(c, batch).published)
         == if Mirror(c.published).None? then None else ConsumeBatch(Mirror(c.published).value, batch)
  {
    assert Publish(c, batch).published[..|c.published|] == c.published;
  }

  lemma {:induction false} PatchPositive(side: Side, levels: seq<Level>)
    requires Positive(side)
    ensures Positive(Patch(side, levels))
    decreases |levels|
  {
    if levels != [] {
      PatchPositive(side, levels[..|levels| - 1]);
    }
  }

  lemma NotificationPositive(b: BookState, n: Notification)
    requires PositiveDepth(b.depth)
    ensures PositiveDepth(Replay(b, n).state.depth) && PositiveDepth(AfterUpdate(b, n).state.depth)
  {
    PatchPositive(b.depth.bids, n.bids);
    PatchPositive(b.depth.asks, n.asks);
    ReplacementPositive(n.bids);
    ReplacementPositive(n.asks);
  }

  lemma {:induction false} DrainPositive(b: BookState, pending: seq<Notification>)
    requires PositiveDepth(b.depth)
    ensures PositiveDepth(Drain(b, pending).state.depth)
    decreases |pending|
  {
    if pending != [] {
      NotificationPositive(b, pending[0]);
      var r := Replay(b, pending[0]);
      if r.outcome != SequenceError {
        DrainPositive(r.state, pending[1..]);
      }
    }
  }

  lemma SnapshotPositive(b: BookState, s: Snapshot)
    requires PositiveDepth(b.depth)
    ensures PositiveDepth(AfterSnapshot(b, s).state.depth)
  {
    if s.id.Some? && !(b.synced && s.id.value <= b.lastId) {
      ReplacementPositive(s.bids);
      ReplacementPositive(s.asks);
      DrainPositive(Seeded(b, s), b.buffer);
    }
  }

  /** A batch that moves the consumer to the registered book leaves it mirrored. */
  lemma PublishedIsMirrored(c: Client, batch: seq<Delta>, quantize: int -> int)
    requires PositiveBooks(c) && c.book.Some? && Mirror(c.published).Some?
    requires ConsumeBatch(Mirror(c.published).value, batch) == Some(Represent(c.book.value.depth, quantize))
    ensures Mirrored(Publish(c, batch), quantize)
  {
    PublishMirror(c, batch);
  }

  /** An update that neither replaced the book nor extended it: buffered, or a stale full push. */
  lemma QuietUpdate(b: BookState, n: Notification)
    requires AfterUpdate(b, n).outcome != SequenceError && !AfterUpdate(b, n).state.wasSnapshot
    requires n.full || !b.synced
    ensures AfterUpdate(b, n).state.depth == b.depth && (AfterUpdate(b, n).state.synced ==> b.synced)
  {
  }

  lemma UpdateKeepsMirror(c: Client, n: Notification, quantize: int -> int)
    requires Quantizes(quantize) && Mirrored(c, quantize) && c.book.Some?
    ensures Mirrored(OnUpdate(c, n, true, quantize), quantize)
  {
    var b, held := c.book.value, Mirror(c.published).value;
    var r := AfterUpdate(b, n);
    NotificationPositive(b, n);
    if r.outcome != SequenceError {
      var c' := c.(book := Some(r.state));
      if r.state.wasSnapshot {
        SnapshotRebuildsMirror(held, r.state.depth, quantize);
        PublishedIsMirrored(c', SnapshotDeltas(r.state.depth, quantize), quantize);
      } else if !n.full && b.synced {
        IncrementalMoves(b, n, quantize);
        PublishedIsMirrored(c', UpdateDeltas(IncrementalChanges(b, n), quantize), quantize);
      } else {
        QuietUpdate(b, n);
      }
    }
  }

  /** The batch of an incremental update moves a consumer in step with the book. */
  lemma IncrementalMoves(b: BookState, n: Notification, quantize: int -> int)
    requires Quantizes(quantize) && b.synced && !n.full && AfterUpdate(b, n).outcome != SequenceError
    ensures ConsumeBatch(Represent(b.depth, quantize), UpdateDeltas(IncrementalChanges(b, n), quantize))
         == Some(Represent(AfterUpdate(b, n).state.depth, quantize))
  {
    IncrementalChangesExact(b.(wasSnapshot := false), n);
    LevelChangesNonNegative(Bid, b.depth.bids, n.bids);
    LevelChangesNonNegative(Ask, b.depth.asks, n.asks);
    assert IncrementalChanges(b.(wasSnapshot := false), n) == IncrementalChanges(b, n);
    UpdatesKeepMirror(b.depth, IncrementalChanges(b, n), quantize);
  }

  lemma SnapshotKeepsPositive(c: Client, s: Snapshot)
    requires PositiveBooks(c) && Fetching(c)
    ensures PositiveBooks(WithTaskBook(c, AfterSnapshot(TaskBook(c), s).state))
  {
    SnapshotPositive(TaskBook(c), s);
  }

  lemma FetchKeepsMirror(c: Client, s: Snapshot, quantize: int -> int)
    requires Quantizes(quantize) && Fetching(c) && NoStaleTask(c)
    requires PositiveBooks(c) && Mirror(c.published).Some?
    requires AfterSnapshot(TaskBook(c), s).outcome == Applied || Mirrored(c, quantize)
    ensures Mirrored(OnSnapshot(c, s, true, quantize), quantize)
  {
    var r := AfterSnapshot(TaskBook(c), s);
    SnapshotKeepsPositive(c, s);
    SnapshotSettles(TaskBook(c), s);
    var c' := WithTaskBook(c, r.state);
    assert c'.published == c.published;
    if r.outcome == Applied {
      SnapshotPositive(TaskBook(c), s);
      var batch := SnapshotDeltas(r.state.depth, quantize);
      SnapshotRebuildsMirror(Mirror(c.published).value, r.state.depth, quantize);
      PublishMirror(c'.(runner := None), batch);
      assert OnSnapshot(c, s, true, quantize) == Publish(c'.(runner := None), batch);
    }
  }

  lemma StepKeepsMirror(c: Client, e: Event, quantize: int -> int)
    requires Quantizes(quantize) && Mirrored(c, quantize) && NoStaleTask(c) && KnownInstrument(e)
    ensures Mirrored(Step(c, e, quantize), quantize)
  {
    if e.UpdateMessage? && c.book.Some? {
      UpdateKeepsMirror(c, e.n, quantize);
    } else if e.FetchReturns? && Fetching(c) {
      FetchKeepsMirror(c, e.s, quantize);
    } else {
      OtherStepKeepsMirror(c, e, quantize);
    }
  }

  lemma OtherStepKeepsMirror(c: Client, e: Event, quantize: int -> int)
    requires Mirrored(c, quantize) && !ReachesBook(c, e)
    ensures Mirrored(Step(c, e, quantize), quantize)
  {
    OtherStepBooks(c, e, quantize);
  }

  // -- end to end --------------------------------------------------------

  ghost predicate HonestClientEvent(v: History, e: Event) {
    match e
    case UpdateMessage(n, _) => Honest(v, n)
    case FetchReturns(s, _) => HonestSnapshot(v, s)
    case PublishCrashes(s) => HonestSnapshot(v, s)
    case _ => true
  }

  ghost predicate FaithfulBooks(v: History, c: Client) {
    && (c.book.Some? ==> Faithful(v, c.book.value))
    && (c.runner.Some? && c.runner.value.detached.Some? ==> Faithful(v, c.runner.value.detached.value))
  }

  lemma StepKeepsFaithful(v: History, c: Client, e: Event, quantize: int -> int)
    requires Genuine(v) && FaithfulBooks(v, c) && HonestClientEvent(v, e)
    ensures FaithfulBooks(v, Step(c, e, quantize))
  {
    if e.UpdateMessage? && c.book.Some? {
      UpdateKeepsFaithful(v, c, e.n, e.known, quantize);
    } else if e.FetchReturns? && Fetching(c) {
      FetchKeepsFaithful(v, c, e.s, e.known, quantize);
    } else if e.PublishCrashes? && Fetching(c) {
      FetchKeepsFaithful(v, c, e.s, false, quantize);
    }
  }

  lemma UpdateKeepsFaithful(v: History, c: Client, n: Notification, known: bool, quantize: int -> int)
    requires Genuine(v) && FaithfulBooks(v, c) && Honest(v, n) && c.book.Some?
    ensures FaithfulBooks(v, OnUpdate(c, n, known, quantize))
  {
    StepFaithful(v, c.book.value, UpdateArrives(n));
  }

  lemma FetchKeepsFaithful(v: History, c: Client, s: Snapshot, known: bool, quantize: int -> int)
    requires Genuine(v) && FaithfulBooks(v, c) && HonestSnapshot(v, s) && Fetching(c)
    ensures FaithfulBooks(v, OnSnapshot(c, s, known, quantize))
  {
    StepFaithful(v, TaskBook(c), SnapshotArrives(s));
    var w := WithTaskBook(c, AfterSnapshot(TaskBook(c), s).state);
    assert FaithfulBooks(v, w);
    SnapshotBooks(c, s, known, quantize);
  }

  /**
    The downstream mirror: over every run with a known instrument, no published batch is ever
    rejected, and whenever the book is synchronized the consumer's book is exactly the local
    one in the instrument's own sizes.
  */
  lemma MirrorOverRuns(events: seq<Event>, quantize: int -> int)
    requires Quantizes(quantize) && NeverDuringFetch(INITIAL, events, quantize)
    requires forall e <- events :: KnownInstrument(e)
    ensures Mirrored(Run(INITIAL, events, quantize), quantize)
  {
    MirrorContinues(INITIAL, events, quantize);
  }

  lemma {:induction false} MirrorContinues(c: Client, events: seq<Event>, quantize: int -> int)
    requires Consistent(c) && NoStaleTask(c) && !Abandoned(c)
    requires Quantizes(quantize) && Mirrored(c, quantize) && NeverDuringFetch(c, events, quantize)
    requires forall e <- events :: KnownInstrument(e)
    ensures Mirrored(Run(c, events, quantize), quantize)
    decreases |events|
  {
    if events != [] {
      var before := events[..|events| - 1];
      forall i | 0 <= i < |before| ensures !SubscribesDuringFetch(Run(c, before[..i], quantize), before[i]) {
        assert before[..i] == events[..i];
      }
      MirrorContinues(c, before, quantize);
      SafeContinuation(c, before, quantize);
      StepKeepsMirror(Run(c, before, quantize), events[|events| - 1], quantize);
    }
  }

  lemma {:induction false} BooksStayFaithful(v: History, events: seq<Event>, quantize: int -> int)
    requires Genuine(v) && forall e <- events :: HonestClientEvent(v, e)
    ensures FaithfulBooks(v, Run(INITIAL, events, quantize))
    decreases |events|
  {
    if events != [] {
      BooksStayFaithful(v, events[..|events| - 1], quantize);
      StepKeepsFaithful(v, Run(INITIAL, events[..|events| - 1], quantize), events[|events| - 1], quantize);
    }
  }

  /**
    From the venue to the consumer: with honest messages in any order, whenever the book is
    synchronized the consumer holds the venue's book at the local update id.
  */
  lemma ConsumerSeesVenueBook(v: History, events: seq<Event>, quantize: int -> int)
    requires Genuine(v) && Quantizes(quantize) && NeverDuringFetch(INITIAL, events, quantize)
    requires forall e <- events :: KnownInstrument(e) && HonestClientEvent(v, e)
    ensures var c := Run(INITIAL, events, quantize);
            c.book.Some? && c.book.value.synced ==>
              Mirror(c.published) == Some(Represent(v(c.book.value.lastId), quantize))
  {
    MirrorOverRuns(events, quantize);
    BooksStayFaithful(v, events, quantize);
  }
}
