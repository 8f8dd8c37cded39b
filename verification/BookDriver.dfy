/**
  The data client's handlers as they are written: methods over mutable fields and shared book
  objects. `View` reads a client's fields as a state of the step machine of BookClient; each
  handler is one step of that machine, so everything proved over its runs holds of the object.
*/
module BookDriver {
  import opened Basics
  import opened Books
  import opened BookDeltas
  import opened BookClient

  class DataClient {
    const quantize: int -> int
    var book: GateioOrderBook?           // the registered book, if any
    var created: nat                     // tasks created and not started
    var resyncing: bool                  // a task is past the guard
    var taskBook: GateioOrderBook?       // the object that task took when it started
    var taskAttempt: nat
    var taskSleeping: bool
    var retries: nat                     // retries asleep
    var subscribing: nat                 // subscribe commands awaiting an answer
    var awaitingReconnect: bool
    var accepting: bool
    var published: seq<seq<Delta>>

    ghost predicate Valid()
      reads this, book, taskBook
    {
      && Quantizes(quantize)
      && (resyncing ==> taskBook != null)
      && (book != null ==> PositiveDepth(book.State().depth))
      && (resyncing ==> PositiveDepth(taskBook.State().depth))
    }

    /** The step machine's state. A task whose object is not the registered one holds it detached. */
    function View(): Client
      reads this, book, taskBook
    {
      Client(
        if book == null then None else Some(book.State()),
        created,
        if !resyncing || taskBook == null then None
        else Some(Runner(taskAttempt, taskSleeping, if taskBook == book then None else Some(taskBook.State()))),
        retries, subscribing, awaitingReconnect, accepting, published)
    }

    constructor (quantize: int -> int)
      requires Quantizes(quantize)
      ensures Valid() && View() == INITIAL && this.quantize == quantize
    {
      this.quantize := quantize;
      book, taskBook, resyncing := null, null, false;
      created, retries, subscribing, taskAttempt, taskSleeping := 0, 0, 0, 0, false;
      awaitingReconnect, accepting, published := false, true, [];
    }

    /** `_subscribe_order_book_deltas` up to its await: the book is registered before subscribing. */
    method Subscribe()
      requires Valid()
      modifies this
      ensures Valid() && View() == Step(old(View()), BookClient.Subscribe, quantize)
      ensures old(book) == null ==> fresh(book)
    {
      if book != null {
        return;
      }
      book := new GateioOrderBook(MAX_BUFFER);
      subscribing := subscribing + 1;
    }

    /** The rest of it, once the venue answered. */
    method SubscribeReturns(result: SubscribeResult)
      requires Valid() && subscribing > 0
      modifies this
      ensures Valid() && View() == Step(old(View()), BookClient.SubscribeReturns(result), quantize)
    {
      subscribing := subscribing - 1;
      match result
      case Acknowledged => created := created + 1;
      case TransientFailure => awaitingReconnect := book != null;
      case PermanentFailure =>
        book := null;
        awaitingReconnect := false;
    }

    method Unsubscribe()
      requires Valid()
      modifies this
      ensures Valid() && View() == Step(old(View()), BookClient.Unsubscribe, quantize)
    {
      book := null;
      awaitingReconnect := false;
    }

    /** `_handle_ws_reconnect` for this instrument. */
    method HandleReconnect()
      requires Valid()
      modifies this, book
      ensures Valid() && View() == Step(old(View()), Reconnect, quantize)
    {
      if book != null {
        book.Reset();
        created := created + 1;
        awaitingReconnect := false;
      }
    }

    /** Publishes a whole book, if the instrument is known: whatever the consumer held, it then holds that book. */
    method PublishSnapshot(d: Depth, known: bool)
      requires Quantizes(quantize) && PositiveDepth(d)
      modifies this`published
      ensures published == if known then old(published) + [SnapshotDeltas(d, quantize)] else old(published)
      ensures known && Mirror(old(published)).Some? ==> Mirror(published) == Some(Represent(d, quantize))
    {
      if known {
        var deltas := BuildSnapshotDeltas(d, quantize);
        MirrorAppend(published, deltas);
        published := published + [deltas];
      }
    }

    /**
      Publishes the changes of one update, if there are any and the instrument is known: a consumer
      in step with the book they change then is in step with the changed one.
    */
    method PublishChanges(changes: seq<Change>, known: bool)
      requires Quantizes(quantize)
      modifies this`published
      ensures published == if changes == [] || !known then old(published)
                           else old(published) + [UpdateDeltas(changes, quantize)]
      ensures forall d :: known && NonNegative(changes) && Mirror(old(published)) == Some(Represent(d, quantize)) ==>
                Mirror(published) == Some(Represent(Fold(d, changes), quantize))
    {
      if changes == [] || !known {
        return;
      }
      var deltas := BuildUpdateDeltas(changes, quantize);
      MirrorAppend(published, deltas);
      forall d | NonNegative(changes) && Mirror(published) == Some(Represent(d, quantize))
        ensures ConsumeBatch(Represent(d, quantize), deltas) == Some(Represent(Fold(d, changes), quantize))
      {
        UpdatesKeepMirror(d, changes, quantize);
      }
      published := published + [deltas];
    }

    /** `_handle_book_update`. */
    method HandleBookUpdate(n: Notification, known: bool)
      requires Valid()
      modifies this, book
      ensures Valid() && View() == Step(old(View()), UpdateMessage(n, known), quantize)
    {
      if book == null {
        return;
      }
      ghost var was := View();
      var outcome, changes := ApplyToBook(n);
      AnswerUpdate(outcome, changes, known, was, n);
    }

    /** `apply_update` on the registered object, which a running task may share. */
    method ApplyToBook(n: Notification) returns (outcome: Outcome, changes: seq<Change>)
      requires Valid() && book != null
      modifies book
      ensures Valid() && View() == old(View()).(book := Some(book.State()))
      ensures Result(book.State(), outcome) == AfterUpdate(old(book.State()), n)
      ensures outcome == SequenceError || book.lastApplyWasSnapshot
              || changes == old(if n.full || !book.State().synced then [] else IncrementalChanges(book.State(), n))
    {
      NotificationPositive(book.State(), n);
      outcome, changes := book.ApplyUpdate(n);
    }

    /** Behind `apply_update`: a gap resets the book and asks for a snapshot, the rest is published. */
    method AnswerUpdate(outcome: Outcome, changes: seq<Change>, known: bool, ghost was: Client, ghost n: Notification)
      requires Valid() && book != null && was.book.Some?
      requires Result(book.State(), outcome) == AfterUpdate(was.book.value, n)
      requires View() == was.(book := Some(book.State()))
      requires outcome == SequenceError || book.lastApplyWasSnapshot
               || changes == if n.full || !was.book.value.synced then [] else IncrementalChanges(was.book.value, n)
      modifies this, book
      ensures Valid() && View() == OnUpdate(was, n, known, quantize)
    {
      if outcome == SequenceError {
        book.Reset();
        created := created + 1;
        return;
      }
      PublishApplied(changes, known);
    }

    /** What an applied update publishes: the whole book if it was replaced, otherwise the changes. */
    method PublishApplied(changes: seq<Change>, known: bool)
      requires book != null && PositiveDepth(book.State().depth) && Quantizes(quantize)
      modifies this`published
      ensures published == if book.lastApplyWasSnapshot
                           then if known then old(published) + [SnapshotDeltas(book.State().depth, quantize)]
                               else old(published)
                           else if changes == [] || !known then old(published)
                           else old(published) + [UpdateDeltas(changes, quantize)]
    {
      if book.lastApplyWasSnapshot {
        PublishSnapshot(book.State().depth, known);
      } else {
        PublishChanges(changes, known);
      }
    }

    /** Entering `_book_snapshot_then_deltas`, up to its first await. */
    method EnterTask()
      requires Valid()
      modifies this`resyncing, this`taskBook, this`taskAttempt, this`taskSleeping
      ensures Valid() && View() == BookClient.EnterTask(old(View()))
    {
      if resyncing || book == null {
        return;
      }
      resyncing, taskBook, taskAttempt, taskSleeping := true, book, 0, false;
    }

    method StartTask()
      requires Valid() && created > 0
      modifies this
      ensures Valid() && View() == Step(old(View()), BookClient.StartTask, quantize)
    {
      created := created - 1;
      EnterTask();
    }

    /** A scheduled retry wakes up. */
    method WakeRetry()
      requires Valid() && retries > 0
      modifies this
      ensures Valid() && View() == Step(old(View()), BookClient.WakeRetry, quantize)
    {
      retries := retries - 1;
      if book == null {
        return;
      }
      EnterTask();
    }

    method ScheduleRetry()
      requires Valid()
      modifies this`retries
      ensures Valid() && View() == BookClient.ScheduleRetry(old(View()))
    {
      if !accepting {
        return;
      }
      retries := retries + 1;
    }

    /** One attempt failed: sleep, or give up after the last one. */
    method AttemptFailed()
      requires Valid() && resyncing
      modifies this
      ensures Valid() && View() == BookClient.AttemptFailed(old(View()))
      ensures book == old(book) && taskBook == old(taskBook)
    {
      if taskAttempt + 1 >= SNAPSHOT_ATTEMPTS {
        resyncing := false;
        ScheduleRetry();
        return;
      }
      taskSleeping := true;
    }

    /** The fetch awaited by the running task answered with a snapshot. */
    method FetchReturned(s: Snapshot, known: bool)
      requires Valid() && resyncing && !taskSleeping
      modifies this, taskBook
      ensures Valid() && View() == Step(old(View()), FetchReturns(s, known), quantize)
    {
      ghost var was := View();
      var outcome := ApplyToTaskBook(s);
      AnswerFetch(outcome, known, was, s);
    }

    /** `apply_snapshot` on the object the running task holds, registered or not. */
    method ApplyToTaskBook(s: Snapshot) returns (outcome: Outcome)
      requires Valid() && resyncing && !taskSleeping
      modifies taskBook
      ensures Valid() && Fetching(old(View()))
      ensures Result(taskBook.State(), outcome) == AfterSnapshot(TaskBook(old(View())), s)
      ensures View() == WithTaskBook(old(View()), taskBook.State())
    {
      var changes;
      SnapshotPositive(taskBook.State(), s);
      outcome, changes := taskBook.ApplySnapshot(s);
    }

    /** Behind `apply_snapshot`: publish and be done, be done, or go on to the next attempt. */
    method AnswerFetch(outcome: Outcome, known: bool, ghost was: Client, ghost s: Snapshot)
      requires Valid() && resyncing && Fetching(was)
      requires Result(taskBook.State(), outcome) == AfterSnapshot(TaskBook(was), s)
      requires View() == WithTaskBook(was, taskBook.State())
      modifies this
      ensures Valid() && View() == OnSnapshot(was, s, known, quantize)
    {
      match outcome
      case Applied =>
        PublishSnapshot(taskBook.State().depth, known);
        resyncing := false;
      case StaleError => resyncing := false;
      case SequenceError => AttemptFailed();
      case MissingIdError => AttemptFailed();
    }

    method FetchFailed()
      requires Valid() && resyncing && !taskSleeping
      modifies this
      ensures Valid() && View() == Step(old(View()), FetchFails, quantize)
    {
      AttemptFailed();
    }

    /** An exception no branch expects escapes the fetch: the resync ends and arms a retry. */
    method FetchCrashed()
      requires Valid() && resyncing && !taskSleeping
      modifies this
      ensures Valid() && View() == Step(old(View()), FetchCrashes, quantize)
    {
      resyncing := false;
      ScheduleRetry();
    }

    /** The snapshot was applied, but building or publishing its batch raised: the resync ends and arms a retry. */
    method PublishCrashed(s: Snapshot)
      requires Valid() && resyncing && !taskSleeping
      modifies this, taskBook
      ensures Valid() && View() == Step(old(View()), PublishCrashes(s), quantize)
    {
      ghost var was := View();
      var outcome := ApplyToTaskBook(s);
      AnswerFetch(outcome, false, was, s);
      if outcome == Applied {
        ScheduleRetry();
      }
    }

    method WakeTask()
      requires Valid() && resyncing && taskSleeping
      modifies this
      ensures Valid() && View() == Step(old(View()), WakeRunner, quantize)
    {
      taskAttempt := taskAttempt + 1;
      taskSleeping := false;
    }
  }
}
