/**
  What single steps of the data client promise about a subscribed book (gateio_nt/data.py): what a
  gap, a reconnect and the answer to a subscription lead to, and how often a resync tries.
*/
module BookSteps {
  import opened Basics
  import opened Books
  import opened BookStream
  import opened BookDeltas
  import opened BookClient

  /** A gap in the live stream empties and unsynchronizes the registered book, and a resync is created. */
  lemma GapCreatesResync(c: Client, n: Notification, known: bool, quantize: int -> int)
    requires c.book.Some? && c.book.value.synced && Ranged(n) && n.first.value > c.book.value.lastId + 1
    ensures var c' := Step(c, UpdateMessage(n, known), quantize);
            && c'.book.Some? && !c'.book.value.synced && c'.book.value.depth == Depth(map[], map[])
            && c'.book.value.buffer == [] && c'.created == c.created + 1
            && c' == c.(book := c'.book, created := c'.created)
  {
    GapIsDetected(c.book.value, n);
  }

  /** An increment of a synchronized book that opens no gap leaves it synchronized, and creates nothing. */
  lemma NoGapCreatesNothing(c: Client, n: Notification, known: bool, quantize: int -> int)
    requires c.book.Some? && c.book.value.synced && Ranged(n) && n.first.value <= c.book.value.lastId + 1
    ensures var c' := Step(c, UpdateMessage(n, known), quantize);
            && c'.book.Some? && c'.book.value.synced && c'.book.value.lastId >= c.book.value.lastId
            && c'.created == c.created && c'.runner == c.runner && c'.retries == c.retries
  {
    GapIsDetected(c.book.value, n);
  }

  /** A reconnect distrusts the registered book, empties its buffer with it, and creates a resync. */
  lemma ReconnectResets(c: Client, quantize: int -> int)
    ensures var c' := Step(c, Reconnect, quantize);
            && (c.book.None? ==> c' == c)
            && (c.book.Some? ==>
                  && c'.book.Some? && !c'.book.value.synced && c'.book.value.depth == Depth(map[], map[])
                  && c'.book.value.buffer == [] && c'.book.value.maxBuffer == c.book.value.maxBuffer
                  && c'.created == c.created + 1 && !c'.awaitingReconnect
                  && c' == c.(book := c'.book, created := c'.created, awaitingReconnect := false))
  {
  }

  /**
    What the answer to a subscription leads to: an acknowledgment creates the first resync, a
    transient failure keeps the book for the reconnect, a refusal drops the registration.
  */
  lemma SubscriptionAnswered(c: Client, result: SubscribeResult, quantize: int -> int)
    requires c.subscribing > 0
    ensures var c' := Step(c, SubscribeReturns(result), quantize);
            && c'.subscribing == c.subscribing - 1 && c'.published == c.published && c'.retries == c.retries
            && (result == PermanentFailure ==> c'.book.None?)
            && (result != PermanentFailure ==> c'.book == c.book && c'.runner == c.runner)
            && c'.created == c.created + (if result == Acknowledged then 1 else 0)
            && (result == TransientFailure ==> (c'.awaitingReconnect <==> c.book.Some?))
            && (result == PermanentFailure ==> !c'.awaitingReconnect)
  {
  }

  /** A subscription registers an empty book, before it is acknowledged, that buffers up to 2048 increments. */
  lemma SubscriptionRegisters(c: Client, quantize: int -> int)
    ensures var c' := Step(c, Subscribe, quantize);
            && (c.book.Some? ==> c' == c)
            && (c.book.None? ==>
                  && c'.book == Some(BookState(Depth(map[], map[]), [], 2048, 0, false, false))
                  && c' == c.(book := c'.book, subscribing := c.subscribing + 1))
  {
  }

  /** Once requests are refused nothing is armed any more, and the tasks under way may be canceled. */
  lemma StoppingEndsEverything(c: Client, quantize: int -> int)
    ensures var stopped := Step(c, StopAccepting, quantize);
            var canceled := Step(stopped, CancelTasks, quantize);
            && !stopped.accepting && stopped == c.(accepting := false)
            && (Fetching(stopped) ==> Step(stopped, FetchCrashes, quantize) == stopped.(runner := None))
            && canceled == stopped.(created := 0, runner := None, retries := 0)
    ensures c.accepting ==> Step(c, CancelTasks, quantize) == c
  {
  }

  /** A task that fetches fails, sleeps and wakes for its next attempt. */
  function FailAndWake(c: Client, quantize: int -> int): Client {
    Step(Step(c, FetchFails, quantize), WakeRunner, quantize)
  }

  /** A resync tries four times; the fourth failure ends it, and arms a retry while requests are accepted. */
  lemma FourAttempts(c: Client, quantize: int -> int)
    requires Fetching(c) && c.runner.value.attempt == 0
    ensures var second := FailAndWake(c, quantize);
            var third := FailAndWake(second, quantize);
            var fourth := FailAndWake(third, quantize);
            && Fetching(second) && Fetching(third) && Fetching(fourth)
            && fourth == c.(runner := Some(c.runner.value.(attempt := 3)))
            && Step(fourth, FetchFails, quantize)
               == c.(runner := None, retries := if c.accepting then c.retries + 1 else c.retries)
  {
    var r := c.runner.value;
    assert FailAndWake(c, quantize) == c.(runner := Some(r.(attempt := 1)));
  }

  /** One more failure: the task sleeps before its next attempt, or after the fourth ends and arms a retry. */
  ghost predicate CountsAsFailure(c: Client, c': Client)
    requires c.runner.Some?
  {
    && c'.created == c.created && c'.published == c.published
    && if c.runner.value.attempt < 3
       then c'.retries == c.retries && c'.runner.Some? && c'.runner.value.sleeping
            && c'.runner.value.attempt == c.runner.value.attempt
       else c'.runner.None? && c'.retries == if c.accepting then c.retries + 1 else c.retries
  }

  /**
    What an answered fetch leads to: a snapshot older than the buffer, or one without an id, counts
    as a failure like a refused fetch; one that is applied or stale ends the resync for good; an
    unexpected error ends it and arms a retry.
  */
  lemma FetchAnswered(c: Client, s: Snapshot, known: bool, quantize: int -> int)
    requires Consistent(c) && Fetching(c)
    ensures var outcome, c' := AfterSnapshot(TaskBook(c), s).outcome, Step(c, FetchReturns(s, known), quantize);
            if outcome == SequenceError || outcome == MissingIdError then CountsAsFailure(c, c')
            else c'.runner.None? && c'.retries == c.retries && c'.created == c.created
    ensures CountsAsFailure(c, Step(c, FetchFails, quantize))
    ensures var c' := Step(c, FetchCrashes, quantize);
            c' == c.(runner := None, retries := if c.accepting then c.retries + 1 else c.retries)
  {
  }

  /** The guard: while a task is past it, another one that starts ends at once. */
  lemma OneResyncAtATime(c: Client, quantize: int -> int)
    requires c.created > 0
    ensures var c' := Step(c, StartTask, quantize);
            && c'.created == c.created - 1 && c'.book == c.book
            && (c.runner.Some? ==> c'.runner == c.runner)
            && (c.runner.None? && c.book.Some? ==>
                  c'.runner == Some(Runner(0, false, None)) && Fetching(c') && TaskBook(c') == c.book.value)
            && (c.runner.None? && c.book.None? ==> c'.runner.None?)
  {
  }
}
