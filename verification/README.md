# Gate.io adapter: verified model

A Dafny model of the stateful core of a NautilusTrader adapter for Gate.io: the local order
book and the client around it, execution recovery and its bookkeeping, and the stream and
paging machines of the data client. `dafny verify dfyconfig.toml` checks all of it.

The parts, by file:

- `Books`: the order book of `gateio_nt/books.py`, as a class over its fields, proved against
  functions on values. `BookFaithful`: the book equals the venue's history at its own id, over
  all runs. `BookStream`: what each message does, and how long a live stream keeps the book.
  `BookRetry`: when a failed snapshot is invisible to everything that follows.
- `BookDeltas`: the published batches and the consumer they build. `BookClient`: the data
  client as a step machine, a step ending wherever the code awaits; no book is abandoned, the
  consumer mirrors the local book, and, end to end, sees the venue's book. `BookSteps`: what
  single steps of it promise. `BookOverwrite`,
  `BookUnpublished`: the exact conditions under which the consumer can lose the book.
  `BookDriver`: the handlers over mutable fields and shared book objects, each one step of that
  machine.
- `Grouping`, `OrderLists`: batching an order list and fanning a batch response out.
- `Recovery`: handing recovered trades to the engine. `StalePositions`: the memory that holds
  back stale position answers. `CashBuys`: the quantity bound of quote-denominated market buys.
  `TriggerLinks`: the armed and fired identities of price-triggered orders. `Wallets`,
  `WalletRuns`: the account aggregate, its publication, and both over whole runs.
- `Bars`, `Paging`, `ReportPages`, `Statuses`: pending bars, the candle cursor, report pages and
  the polled instrument status.

Prices, sizes and balances are integers at a common scale, times are integers, identifiers are
naturals or strings. NautilusTrader is a small abstract order; order events go through a queue
that is delivered later, reports are applied before the call that sends them returns.

What the model assumes of others is in the preconditions: an honest venue message states the
absolute size, at its last id, of every level touched in its id range (`BookFaithful.Honest`);
every venue id belongs to one order (`TriggerLinks.VenueIssued`); nothing takes a booked trade
off again (`Recovery.Stays`), orders stay indexed (`Recovery.IndexKept`), and a lone trade that
fits is put on the order the engine's index leads to (`Recovery.Books`), all met by
`Recovery.INDEX_ENGINE`.

Where the code and its own documentation disagree, the model follows the code:

- "A book that cannot be aligned is never abandoned" (`gateio_nt/data.py:1589`) fails when an
  instrument is unsubscribed and subscribed again while its snapshot is fetched: the running
  resync works on the old book object and its guard turns every other resync away.
  `BookClient.SubscribeIsSafeIffNoTaskIsRunning` gives the exact condition. In the same situation
  the old object's snapshot can overwrite what the consumer holds of the new book
  (`BookOverwrite.MirrorIsSafeIffNoTaskIsRunning`), so the results about whole runs of the client
  ask that no subscription overlaps a resync.
- "An unexpected failure must not silence the subscription" (`gateio_nt/data.py:1580`) fails when
  the failure comes between applying a snapshot and publishing it and the retry meets a snapshot
  that is not newer: the book is synchronized, the consumer does not hold it, and nothing is
  armed. `BookUnpublished.RetryRestoresIffNewer` gives the exact condition,
  `BookUnpublished.MirrorUnlessOwed` what holds over all runs nevertheless.
- A fill in flight when a cash buy is closed is "already covered"
  (`gateio_nt/execution.py:5213-5216`): not if it is handled before the cancel queued by the close
  has reached the order. It is then lost until the venue's trades are read again.
  `CashBuys.FillIsLostIffHandledInTheGap` gives the exact condition.
- `_plan_order_list` documents sends "in the caller's own order"
  (`gateio_nt/execution.py:2851`); that holds if and only if the orders of each batchable
  product stand next to each other (`OrderLists.PlanOrderList`): it fails when two products
  interleave, and also when a triggered order or one of a product without batches stands between
  two orders of one product.
- A link captured before an await may have been forgotten when `_resolve_fired_order`
  (`gateio_nt/execution.py:4706-4738`) attaches the fired id; the indexes are then no longer
  inverse. `TriggerLinks.RunCommands` gives the exact condition over whole runs.
- Paging for fills is complete only up to the cap of two thousand rows, and one row that is not
  an object can end it early and lose fills. `ReportPages.FillReports` gives the exact condition,
  `ReportPages.JunkRowLosesAFill` a lost fill.
- A snapshot that raises is meant to cost nothing but a retry (`gateio_nt/books.py:333-339`). A full
  push synchronizes a book without emptying its buffer, and a snapshot still in flight can then
  raise and unsynchronize it: `BookRetry.FailedSnapshotIsInvisible` gives the exact condition.
- `_reoffer_recovered_fills` sends a trade alone when it can resolve the order by the client order
  id, though the engine's single-report channel resolves by the venue order id only
  (`gateio_nt/execution.py:2101-2111`). A trade whose order is not indexed is then lost without a
  word; `Recovery.AloneReachesIffIndexed` gives the exact condition.
- A pending bar is lost when a valid candle of an older bucket takes its place;
  `Bars.CandleLosesIff` says exactly which candles lose which buckets.
- An answered listing without rows counts as read, so it reports every instrument of its scope
  that was available as removed (`Statuses.EmptyListingRemovesAll`).

## Model

| member | source | states |
|---|---|---|
| Books.GateioOrderBook.constructor | gateio_nt/books.py:171-190 | a new book is empty and unsynchronized, with an empty buffer of the given bound |
| Books.GateioOrderBook.Reset | gateio_nt/books.py:273-279 | the book forgets depth, buffer and id and is unsynchronized |
| Books.GateioOrderBook.ApplyLevels | gateio_nt/books.py:540-551 | absolute sizes: the side becomes the patched side, and the returned changes are an exact transition to it |
| Books.GateioOrderBook.ApplyIncremental | gateio_nt/books.py:501-538 | old, unranged, gapped and straddling messages each end as specified; on success the change list folds the book before into the book after, every change altering the level it names |
| Books.GateioOrderBook.DiffRemoved | gateio_nt/books.py:484-487 | the removals of a replacement are an exact transition to the levels both books hold |
| Books.GateioOrderBook.DiffSet | gateio_nt/books.py:488-490 | the new and resized levels complete that transition, in whatever order they are visited |
| Books.GateioOrderBook.DiffSide | gateio_nt/books.py:483-490 | folding the reported changes turns the old side into the new one, no change being redundant |
| Books.GateioOrderBook.ApplyFull | gateio_nt/books.py:459-499 | a full push without an id unsynchronizes, a stale one changes nothing, an accepted one replaces the book and reports the exact transition |
| Books.GateioOrderBook.ReplayOne | gateio_nt/books.py:427-440 | one buffered message: skipped if old, otherwise applied or refused, with an exact change list |
| Books.GateioOrderBook.DrainBuffer | gateio_nt/books.py:422-443 | the buffer is replayed in order; a refused message and everything behind it go back; the changes are exact from the bare snapshot |
| Books.GateioOrderBook.ApplySnapshot | gateio_nt/books.py:341-373 | missing id, stale snapshot, sequence error and success each end as specified, state and outcome |
| Books.GateioOrderBook.ApplyUpdate | gateio_nt/books.py:395-411 | buffering, full pushes, gaps and increments each end as specified; an applied update reports an exact transition of the depth |
| Books.LevelChangesExact | gateio_nt/books.py:540-551 | the changes of any level list, repeated prices and absent deletions included, fold the side before into the side after, none of them idle |
| Books.IncrementalChangesExact | gateio_nt/books.py:530-531 | both sides together: the change list of an incremental message is an exact transition |
| Books.TransitionConcat | gateio_nt/books.py:530-531 | exact change lists compose |
| Books.DrainBuffer | gateio_nt/books.py:422-443 | draining ends applied with an empty buffer or refused and unsynchronized, and never exceeds the bound |
| Books.ReplacementPositive | gateio_nt/books.py:360-365 | a replaced side holds positive sizes only |
| BookStream.SynchronizedIffNoGap | gateio_nt/books.py:501-538 | over every live stream, messages repeated, overlapping or old: a synchronized book stays synchronized if and only if each message begins at most one past everything stated before it, and then it stands at the newest id stated |
| BookStream.GapIsDetected | gateio_nt/books.py:501-538 | an increment of a synchronized book is a sequence error if and only if it begins more than one past the local id, and then unsynchronizes the book and nothing else; one that reaches across the id is applied up to its last id, an older one changes nothing |
| BookStream.IncrementStatesSizes | gateio_nt/books.py:530-551 | behind an applied increment every price it names has the last size stated for it, and every other price the size it had |
| BookStream.UnrangedIsDropped | gateio_nt/books.py:502-508 | an increment without a range of ids is dropped |
| BookStream.BufferedUntilSynchronized | gateio_nt/books.py:406-409 | increments of an unsynchronized book are kept, newest last, a full buffer losing its oldest |
| BookStream.FullPushReplaces | gateio_nt/books.py:459-499 | a full push newer than a synchronized book, or any on an unsynchronized one, makes the book: each price the last positive size stated |
| BookStream.SnapshotReplaces | gateio_nt/books.py:341-373 | a snapshot without an id is refused, one no newer than a synchronized book is stale, and any other makes the book |
| BookFaithful.FaithfulOverRuns | gateio_nt/books.py:313-551 | for every run of snapshots, increments, full pushes, gaps and resets over honest messages, lost, repeated, reordered or evicted, a synchronized book equals the venue history at its own id |
| BookFaithful.StepFaithful | gateio_nt/books.py:313-551 | one step keeps the synchronized book and every buffered message true to the venue history |
| BookFaithful.IncrementalFaithful | gateio_nt/books.py:501-538 | a message that straddles the local id still lands on the venue book at its last id |
| BookFaithful.PatchReachesLast | gateio_nt/books.py:540-551 | absolute sizes of every level touched in a range carry any book inside the range to the book at its end |
| BookFaithful.DrainFaithful | gateio_nt/books.py:422-443 | replaying an honest buffer on a faithful book keeps it faithful |
| BookFaithful.IdMovesForward | gateio_nt/books.py:313-551 | while synchronized, a step leaves depth and id alone or moves the id strictly forward |
| BookFaithful.BufferStaysBounded | gateio_nt/books.py:406-409 | over every run the buffer stays within its bound |
| BookRetry.FailedSnapshotIsInvisible | gateio_nt/books.py:341-443 | a snapshot that raised the sequence error is invisible to every later call, outcomes, depth and id, if and only if the book was not synchronized when it arrived |
| BookRetry.AgreeingBooksRunAlike | gateio_nt/books.py:341-443 | books in agreement end every later call alike, whatever the calls |
| BookRetry.LaterSnapshotEndsAlike | gateio_nt/books.py:341-443 | of any book, synchronized or not: a later snapshot at least as new ends with the same outcome, depth and id as if the failed attempt had never been made |
| BookRetry.FailedSnapshotCanUnsynchronize | gateio_nt/books.py:341-443 | a run in which a failed snapshot does harm: a full push synchronizes the book and leaves the buffer, and the snapshot in flight then unsynchronizes it |
| BookRetry.PushLeavesTheBuffer | gateio_nt/books.py:459-499 | a full push synchronizes a book without emptying its buffer |
| BookRetry.FailedAttemptAgrees | gateio_nt/books.py:436-442 | the failed attempt leaves exactly the unconsumed suffix of the buffer and an unsynchronized book, which agrees with the one before exactly if that was not synchronized either |
| BookRetry.SnapshotOutcome | gateio_nt/books.py:341-443 | a snapshot the book takes succeeds exactly if every buffered message fits in turn; otherwise the messages from the first misfit on remain |
| BookRetry.ContiguousBufferSynchronizes | gateio_nt/books.py:341-443 | on any snapshot the book takes, a contiguous buffer starting at most one past its id always succeeds and ends at the newer of snapshot id and last buffered id |
| BookRetry.SnapshotAgrees | gateio_nt/books.py:341-443 | a later snapshot, newer or older than the failed one, ends alike with and without the failed attempt |
| BookRetry.StepAgrees | gateio_nt/books.py:341-443 | every operation keeps the two books in agreement, evictions from the full buffer included |
| BookRetry.FitsThroughout | gateio_nt/books.py:422-443 | the whole buffer fits if and only if each message fits behind the ones before it |
| BookDeltas.VenueQuantity | gateio_nt/data.py:326-334 | truncation to the instrument precision: the largest multiple of the unit not above the size |
| BookDeltas.VenueQuantityQuantizes | gateio_nt/data.py:326-334 | truncation is non-negative and maps zero to zero, all the mirror needs of it |
| BookDeltas.SnapshotRebuildsMirror | gateio_nt/data.py:1620-1676 | a CLEAR followed by the additions leaves any consumer with exactly the representable local book, and no delta is rejected |
| BookDeltas.UpdatesKeepMirror | gateio_nt/data.py:1735-1766 | the UPDATE and DELETE batch of an update moves a consumer in step with the local book, and is never rejected |
| BookDeltas.ChangeKeepsMirror | gateio_nt/data.py:1736-1764 | one change and its delta have the same effect on local book and consumer |
| BookDeltas.ConsumeConcat | gateio_nt/data.py:1620-1676 | batches compose; one rejected delta aborts the rest |
| BookDeltas.BuildAdds | gateio_nt/data.py:1648-1673 | the loop over one side emits an addition per representable level, in order |
| BookDeltas.BuildSnapshotDeltas | gateio_nt/data.py:1620-1676 | the published batch, with its effect on every consumer |
| BookDeltas.BuildUpdateDeltas | gateio_nt/data.py:1735-1764 | the loop over the changes emits a deletion for what truncates to zero and an update otherwise |
| BookClient.NoBookIsAbandoned | gateio_nt/data.py:1510-1612 | over every run that never subscribes while a resync runs, a registered unsynchronized book has a repair under way for as long as requests are accepted |
| BookClient.SubscribeIsSafeIffNoTaskIsRunning | gateio_nt/data.py:1512-1519 | the exact condition: from any reachable state a new subscription can end abandoned if and only if a resync of that instrument is still running |
| BookClient.ResubscribingDuringFetchCanAbandon | gateio_nt/data.py:1512-1519 | a concrete run in which a book is abandoned: unsubscribed and subscribed again during a fetch |
| BookClient.UnsubscribingDuringFetch | gateio_nt/data.py:1003-1021 | the reachable state of that run: a resync that still holds the old book object |
| BookClient.GuardSwallowsRepairs | gateio_nt/data.py:1512-1516 | with a resync on an old object beside a registered book, every other repair can be used up by the guard |
| BookClient.StepKeepsRepair | gateio_nt/data.py:1453-1766 | each step, early returns and stale snapshots included, keeps a repair under way |
| BookClient.MirrorOverRuns | gateio_nt/data.py:1510-1766 | over every run in which whatever there is to publish is published, no batch is rejected, and whenever the book is synchronized the consumer holds exactly the local book in instrument sizes |
| BookClient.UpdateKeepsMirror | gateio_nt/data.py:1691-1766 | whatever an update does, replace, extend, drop or break, the consumer stays in step |
| BookClient.IncrementalMoves | gateio_nt/data.py:1722-1766 | the published changes of an increment carry the consumer to the new local book |
| BookClient.FetchKeepsMirror | gateio_nt/data.py:1526-1576 | a fetched snapshot is published after its buffer was replayed, and the consumer then agrees |
| BookClient.BooksStayFaithful | gateio_nt/data.py:1510-1766 | over every run of the client on honest messages each book object is faithful to the venue |
| BookClient.ConsumerSeesVenueBook | gateio_nt/data.py:1510-1766 | end to end: whenever the book is synchronized, the consumer holds the venue book at the local id |
| BookClient.MirrorContinues | gateio_nt/data.py:1510-1766 | the same from any state that is mirrored and holds no old book object |
| BookDeltas.UpdatesAreAccepted | gateio_nt/data.py:1735-1766 | no consumer rejects an update batch, whatever it holds |
| BookDeltas.SnapshotIsBestFirst | gateio_nt/data.py:1626-1676 | a snapshot batch starts with a CLEAR and adds the bids from the highest and the asks from the lowest price, bids before asks |
| BookSteps.GapCreatesResync | gateio_nt/data.py:1702-1712 | a gap in the live stream leaves the registered book empty and unsynchronized, and one more resync created |
| BookSteps.NoGapCreatesNothing | gateio_nt/data.py:1702-1712 | any other increment leaves a synchronized book synchronized and creates no resync |
| BookSteps.ReconnectResets | gateio_nt/data.py:1473-1484 | a reconnect empties and unsynchronizes the registered book and creates a resync |
| BookSteps.SubscriptionRegisters | gateio_nt/data.py:961-975 | the book is registered empty before the subscription is acknowledged |
| BookSteps.SubscriptionAnswered | gateio_nt/data.py:976-1001 | an acknowledgment creates the first resync, a transient failure keeps the book for the reconnect, a refusal drops it |
| BookSteps.FetchAnswered | gateio_nt/data.py:1526-1584 | a snapshot older than the buffer or without an id counts as one failed attempt, an applied or stale one ends the resync, an unexpected error ends it and arms a retry |
| BookSteps.FourAttempts | gateio_nt/data.py:1526-1571 | a resync tries four times; the fourth failure ends it and arms a retry while requests are accepted |
| BookSteps.OneResyncAtATime | gateio_nt/data.py:1510-1519 | a task that starts while another is past the guard ends at once; otherwise it takes the registered book |
| BookSteps.StoppingEndsEverything | gateio_nt/data.py:1600-1604 | once requests are refused no retry is armed any more |
| BookUnpublished.MirrorUnlessOwed | gateio_nt/data.py:1510-1766 | over every run, unknown instruments and errors between applying and publishing included: a synchronized book is mirrored exactly unless a change of it went unpublished and no whole book was published since |
| BookUnpublished.RetryRestoresIffNewer | gateio_nt/data.py:1538-1542 | the exact condition: a resync makes up for an unpublished book if and only if its snapshot is newer than the book; a stale one ends it with nothing published and nothing armed |
| BookUnpublished.CrashThenStaleLoses | gateio_nt/data.py:1538-1584 | from any fetching state: an error between applying and publishing, then a retry that meets a stale snapshot, leave a synchronized book the consumer does not hold, and no trace of it |
| BookUnpublished.CrashCanLoseTheMirror | gateio_nt/data.py:1538-1584 | a run from the start in which the consumer never sees the book: a quiet venue answers the retry with the same snapshot, and no repair is under way |
| BookUnpublished.StepMirrorsUnless | gateio_nt/data.py:1510-1766 | one step keeps that invariant |
| BookOverwrite.NothingIsEverRejected | gateio_nt/data.py:1510-1766 | over every run whatsoever no published batch is rejected |
| BookOverwrite.MirrorIsSafeIffNoTaskIsRunning | gateio_nt/data.py:1512-1576 | the exact condition for the mirror: a new subscription can end with a synchronized book the consumer does not hold if and only if a resync of that instrument is still running |
| BookOverwrite.ResubscribingDuringFetchCanLoseTheMirror | gateio_nt/data.py:1512-1576 | a concrete run in which the consumer loses the book: subscribed again while a snapshot is fetched |
| BookOverwrite.OldObjectOverwrites | gateio_nt/data.py:1535-1576 | the old object's snapshot is published over a registered book that a full push has synchronized |
| BookOverwrite.OldObjectClears | gateio_nt/data.py:1573-1576 | a resync publishes the book object it holds, whichever is registered |
| BookDriver.DataClient.Subscribe | gateio_nt/data.py:952-982 | the book is registered before the subscription is sent; a second subscription changes nothing |
| BookDriver.DataClient.SubscribeReturns | gateio_nt/data.py:982-1001 | acknowledged, transient and permanent failures: a resync is created, the book is kept for the reconnect, or it is dropped |
| BookDriver.DataClient.Unsubscribe | gateio_nt/data.py:1003-1021 | the registration goes; a running resync keeps its object |
| BookDriver.DataClient.HandleReconnect | gateio_nt/data.py:1461-1483 | the book is reset and a resync created |
| BookDriver.DataClient.AnswerUpdate | gateio_nt/data.py:1701-1766 | a gap resets the book and creates a resync, a replaced book goes out whole, anything else as its changes: one step of the machine, whose mirror the runs prove |
| BookDriver.DataClient.HandleBookUpdate | gateio_nt/data.py:1690-1766 | the handler over shared mutable books is one step of the machine |
| BookDriver.DataClient.EnterTask | gateio_nt/data.py:1512-1519 | the guard: at most one resync per instrument, and it takes the registered object |
| BookDriver.DataClient.StartTask | gateio_nt/data.py:1510-1519 | a created resync starts, or returns at the guard |
| BookDriver.DataClient.WakeRetry | gateio_nt/data.py:1606-1610 | a retry starts a resync, or returns if there is nothing to do |
| BookDriver.DataClient.ScheduleRetry | gateio_nt/data.py:1600-1612 | a retry is armed unless the transport is closing |
| BookDriver.DataClient.AttemptFailed | gateio_nt/data.py:1544-1571 | a failed attempt sleeps, or gives up into a retry |
| BookDriver.DataClient.FetchReturned | gateio_nt/data.py:1535-1576 | the fetched snapshot on the held object is one step of the machine, whichever object that is |
| BookDriver.DataClient.FetchFailed | gateio_nt/data.py:1560-1571 | a refused fetch takes the same retry path as a sequence error |
| BookDriver.DataClient.FetchCrashed | gateio_nt/data.py:1579-1584 | an unexpected error before the snapshot is applied arms a retry and releases the guard |
| BookDriver.DataClient.PublishCrashed | gateio_nt/data.py:1535-1584 | an unexpected error behind a snapshot that was applied: the book is synchronized, nothing is published, and a retry is armed |
| BookDriver.DataClient.AnswerFetch | gateio_nt/data.py:1538-1576 | behind the snapshot the resync publishes and ends, ends, or goes on to the next attempt |
| BookDriver.DataClient.WakeTask | gateio_nt/data.py:1526-1571 | the next attempt follows the sleep |
| Grouping.GroupBy | gateio_nt/execution.py:1607-1611 | the insertion-ordered dictionary is the grouping of the list: whole groups, in order of first appearance, nothing lost or repeated |
| Grouping.PlaceItem | gateio_nt/execution.py:2866-2877 | one item joins the slot of its key or opens a new one |
| Grouping.GroupingIsUnique | gateio_nt/execution.py:2864-2877 | what is promised of the groups determines them |
| Grouping.OrderIsKeptIffContiguous | gateio_nt/execution.py:2864-2885 | regrouping keeps the order of the list if and only if the items of each key stand next to each other |
| OrderLists.PlanOrderList | gateio_nt/execution.py:2862-2885 | the plan sends exactly the prepared orders; a batch holds at least two batchable untriggered orders of one product, in the order given, within the caps; the whole is in caller order if and only if the orders of each batchable product stand next to each other |
| OrderLists.BatchFits | gateio_nt/execution.py:2893-2908 | fits if and only if the venue caps are met: pairs and orders per pair on spot, the total elsewhere |
| OrderLists.CountPairs | gateio_nt/execution.py:2901-2904 | the counter holds exactly the pairs of the group and their numbers of orders |
| OrderLists.BatchIffFits | gateio_nt/execution.py:2879-2885 | a product goes out as a batch exactly if at least two of its orders are batchable and the caps allow it |
| OrderLists.PlanSound | gateio_nt/execution.py:2879-2886 | partition, soundness of every send, and when a batch is used |
| OrderLists.PlanInPlainTerms | gateio_nt/execution.py:2845-2902 | every batch is all untriggered orders of spot, perpetual or inverse, in list order, at least two, at most ten, on spot at most four pairs with ten each; such a batch goes out whenever it can; every triggered order, and every delivery or option order, is a send by itself |
| OrderLists.AlternatingProductsAreReordered | gateio_nt/execution.py:2849-2885 | the documented caller order fails: of two products that alternate the third order is sent second |
| OrderLists.ApplyBatchResults | gateio_nt/execution.py:2979-3011 | what is told to which order, how often and in which order: row by row, then the orders left over |
| OrderLists.TellingSays | gateio_nt/execution.py:2994-3011 | an order is told exactly what some row attributed to it resolves to, or that it has no result |
| OrderLists.RowOutcome | gateio_nt/execution.py:3060-3083 | a row marked failed, or labelled without being marked succeeded, rejects; any other hands on the order object if it names one and settles nothing if not |
| OrderLists.TextedRowIsAttributed | gateio_nt/execution.py:3022-3026 | a row with a text speaks for the last order sent with it, wherever it stands |
| OrderLists.UntextedRowIsAttributed | gateio_nt/execution.py:3032-3038 | a row without one speaks for the order at its own index, if there are as many rows as orders |
| OrderLists.OtherRowsSpeakForNobody | gateio_nt/execution.py:2995-3001 | an unreadable row, one with a text nobody sent, and an untexted one of a misaligned answer speak for nobody |
| OrderLists.IndexTexts | gateio_nt/execution.py:2980-2984 | every text of the batch leads to the last order that carried it |
| OrderLists.PermutingRowsChangesNothing | gateio_nt/execution.py:2975-3038 | unless a readable row has to be placed by position, permuting the rows changes nothing any order is told, nor how often |
| OrderLists.ExactlyOneOutcome | gateio_nt/execution.py:2994-3011 | with rows that name distinct orders, every order of the batch is told exactly one thing, exactly once |
| OrderLists.AnsweredOrLeft | gateio_nt/execution.py:2995-3011 | every order of the batch is answered by a row or left unresolved, never both |
| OrderLists.OnlySentOrders | gateio_nt/execution.py:3013-3038 | nothing is told to an order outside the batch |
| OrderLists.RejectionsHaveAFailingRow | gateio_nt/execution.py:3057-3066 | no order is rejected without a failing row attributed to it |
| Recovery.HandOverUnappliedFills | gateio_nt/execution.py:1607-1621 | unbooked trades are grouped by venue order and settled in turn; all are then booked or accounted for, unless the pass is refused with the trades it raises; every lone trade the index led to its order is on it |
| Recovery.PassCoversEveryTrade | gateio_nt/execution.py:1607-1621 | after a pass that raised nothing, a trade is on its order, excluded with a declined order, sent as a last resort to a cached order, or was sent alone while the index did not lead to its order |
| Recovery.SettleOrder | gateio_nt/execution.py:1613-1621 | one order: restated if that is safe, then its trades re-offered, none dropped |
| Recovery.ReofferCovers | gateio_nt/execution.py:2056-2295 | each trade of an order ends booked, was sent alone to an order that could take it or as a last resort to a cached one, is excluded with a declined order, or is in the exception |
| Recovery.PrefixWentAlone | gateio_nt/execution.py:2056-2070 | whatever the engine makes of it, every trade of the lone prefix was sent to an open order with room for it |
| Recovery.ReofferReaches | gateio_nt/execution.py:2056-2295 | every lone trade the engine's index led to its order when it was sent is on that order afterwards |
| Recovery.AloneReachesIffIndexed | gateio_nt/execution.py:2098-2111 | the exact condition: a trade sent alone reaches its order if and only if the venue order id is indexed to that order, whatever the adapter resolved itself |
| Recovery.UnindexedTradeIsLost | gateio_nt/execution.py:2056-2111 | a trade that is lost: its order is cached under the client order id it carries but not indexed under the venue's, it goes out alone and nothing is raised |
| Recovery.AloneNeverOverfills | gateio_nt/execution.py:2094-2096 | trades sent alone never overfill an order, although the engine applies them without looking |
| Recovery.IndexEngineMeetsThem | gateio_nt/execution.py:2098-2111 | what is asked of the engine is met by one that reads only its index and applies reports inline |
| Recovery.SendAlone | gateio_nt/execution.py:2056-2070 | trades go out alone exactly as long as each can go to an open base-denominated order with room for it |
| Recovery.ReofferRecoveredFills | gateio_nt/execution.py:2056-2070 | a prefix is sent alone, the remaining trades together with the order statement |
| Recovery.ReofferKeeps | gateio_nt/execution.py:2056-2295 | a trade once booked stays booked |
| Recovery.HandOverFillsWithTheirOrder | gateio_nt/execution.py:2200-2295 | the three exits, by whether the cache holds the order and whether a statement arrived |
| Recovery.HandOverCovers | gateio_nt/execution.py:2200-2295 | of trades handed over with their order none is dropped |
| Recovery.ThreeExits | gateio_nt/execution.py:2224-2295 | a trade still unbooked behind its statement goes out as a last resort if and only if the cache then holds its order, is excluded if and only if it does not and a statement came, and is raised if and only if neither |
| Recovery.RestatedIffHarmless | gateio_nt/execution.py:2018-2048 | a listed report goes ahead of the trades if and only if it states another quantity of an open, base-denominated, cached order and the engine would neither infer a fill from it nor do anything but restate |
| Recovery.AloneIffRoom | gateio_nt/execution.py:2056-2097 | a trade may go alone if and only if the order named by its client order id, or else led to by its venue order id, is cached, open and base-denominated with room for it |
| Recovery.CollectUnbooked | gateio_nt/execution.py:2228-2230 | exactly the trades no order holds yet, in order |
| StalePositions.MemoryReflectsHistory | gateio_nt/execution.py:1677-1805 | over every run an armed entry holds the signed sum and the latest stamp of all trades armed since it was last cleared, and exists exactly while there are any |
| StalePositions.WithheldIffUnproven | gateio_nt/execution.py:1778-1805 | an answer is withheld, the memory unchanged, exactly if trades are pending and it is neither stamped after all of them nor equal to the local net position |
| StalePositions.PassRemembersIff | gateio_nt/execution.py:1677-1690 | after any run, a pass leaves an instrument remembered if and only if it was already or the pass held a trade on it that extends a known order or an open position |
| StalePositions.SumIsBoughtLessSold | gateio_nt/execution.py:1686-1700 | the remembered sum is what was bought less what was sold |
| StalePositions.ZeroNetStaysArmed | gateio_nt/execution.py:1781-1789 | a net sum of zero disarms nothing |
| StalePositions.PassReflects | gateio_nt/execution.py:1677-1707 | a pass adds exactly the trades on known orders or open positions |
| StalePositions.AnswerReflects | gateio_nt/execution.py:1778-1805 | an answer clears exactly the entry it proves itself against |
| StalePositions.RecoveryMemory.RecordRecoveryBookings | gateio_nt/execution.py:1677-1707 | the mutable memory after a pass |
| StalePositions.RecoveryMemory.PositionAnswerIsStale | gateio_nt/execution.py:1778-1805 | verdict and memory against the local net position summed over the open positions |
| CashBuys.FillsNeverOverfillOrComplete | gateio_nt/execution.py:4971-5188 | for every interleaving of fill messages with event delivery, until the venue finishes the order, the bound stays exactly one increment above what was bought, no fill overfills the order and none completes it, and all of them are on it once delivered |
| CashBuys.ClosingSquaresIffTotalsAgree | gateio_nt/execution.py:5220-5265 | over every run, messages behind the close included: the first finish decides, the order ends canceled with exactly the fills handled before it; quantity and filled agree if and only if the total stated there equals them, and without a readable total the bound stays one increment above them |
| CashBuys.FillIsLostIffHandledInTheGap | gateio_nt/execution.py:4972-5057 | the fate of every positive fill, over every run: on the order if and only if no finish was handled before it, handed to reconciliation if and only if the order is closed here by then, and lost exactly in between, finished with the cancel still queued |
| CashBuys.FillInFlightIsLost | gateio_nt/execution.py:5213-5216 | whatever came before, a new fill handled right behind the finish is lost, though the venue total may include it |
| CashBuys.LostStaysLost | gateio_nt/execution.py:4972-4976 | a lost trade counts as applied: however often it is delivered again, nothing happens until the venue says finished once more |
| CashBuys.CloseCancels | gateio_nt/execution.py:5220-5265 | closing a safe order queues its cancel behind every fill and restates the quantity to the readable total |
| CashBuys.OutcomeStands | gateio_nt/execution.py:4971-5265 | no message changes what a closed order ends as |
| CashBuys.CashBuyClient.HandleLateFill | gateio_nt/execution.py:2297-2354 | a positive fill of a canceled order goes to reconciliation, any other is dropped |
| CashBuys.FillIsSafe | gateio_nt/execution.py:4971-5057 | one fill keeps the bound above what was bought; duplicates and empty fills change nothing |
| CashBuys.RaisedBoundCovers | gateio_nt/execution.py:5160-5188 | the bound queued ahead of a fill is exactly one increment above everything credited with it |
| CashBuys.DeliveryIsSafe | gateio_nt/execution.py:5160-5188 | events applied later, in order, each still take effect |
| CashBuys.CashBuyClient.RaiseCashBuyBound | gateio_nt/execution.py:5160-5188 | bound, credited total and queued restatement |
| CashBuys.CashBuyClient.HandleFill | gateio_nt/execution.py:4971-5057 | the fill handler on the mutable client |
| CashBuys.CashBuyClient.CloseFinishedCashBuy | gateio_nt/execution.py:5220-5265 | the closing handler on the mutable client |
| TriggerLinks.Link.constructor | gateio_nt/execution.py:797-807 | a link has its armed id and client order for good, and no fired id yet |
| TriggerLinks.TriggerIndex.AttachFired | gateio_nt/execution.py:2561-2570 | the new indexes; they stay mutually inverse exactly if the link is still live and the id nobody else's |
| TriggerLinks.TriggerIndex.FindOrCreate | gateio_nt/execution.py:2550-2554 | the live link of this armed id, or a new one indexed under both keys |
| TriggerLinks.TriggerIndex.RegisterLink | gateio_nt/execution.py:2550-2557 | the indexes stay mutually inverse exactly if the order has no other armed id and neither id is anyone else's |
| TriggerLinks.RegisteredStates | gateio_nt/execution.py:2542-2557 | a registration states the armed id of its order and the fired id given or already known under that armed id, and says nothing of any other order |
| TriggerLinks.TriggerIndex.LinkFor | gateio_nt/execution.py:2574-2574 | armed or fired, a venue id leads to the one order it belongs to |
| TriggerLinks.TriggerIndex.DropLink | gateio_nt/execution.py:2584-2589 | one link leaves all three indexes, which stay mutually inverse, and no trace of either id is left |
| TriggerLinks.TriggerIndex.DropKeeps | gateio_nt/execution.py:2582-2589 | taking any link out of inverse indexes leaves inverse indexes that name neither of its ids and keep every other identity |
| TriggerLinks.TriggerIndex.RegisterDecides | gateio_nt/execution.py:2550-2557 | whether the indexes stay inverse is decided by what was indexed before the link was found or created |
| TriggerLinks.TriggerIndex.ForgetOrder | gateio_nt/execution.py:2578-2589 | no trace of either id is left, in the indexes or among the resolution attempts |
| TriggerLinks.RunCommands | gateio_nt/execution.py:2542-2589 | over every run on ids the venue issued, links held across awaits included, the three aliased indexes stay mutually inverse, agree with one reference map and share no id up to the first attach of a new id through a link whose order was forgotten, and exactly there they break |
| TriggerLinks.RunCommand | gateio_nt/execution.py:2542-2589 | one operation on the aliased indexes is one step of the reference, unless it is the one that breaks them |
| TriggerLinks.RunAttachHeld | gateio_nt/execution.py:4712-4730 | an attach through a link held across an await breaks the indexes if and only if its order was forgotten meanwhile and the id is new to it |
| TriggerLinks.ForgottenRunBreaks | gateio_nt/execution.py:4712-4730 | a run on ids the venue issued that breaks them: register, hold the link, forget the order, attach through the link; the last command is the first that does |
| TriggerLinks.IssuedIdsAreNotShared | gateio_nt/execution.py:2542-2589 | no two live orders share an id |
| TriggerLinks.IdentitiesStayIssued | gateio_nt/execution.py:2542-2589 | the armed id survives firing, and every live id is the one issued to that order |
| TriggerLinks.TriggerIndex.AttachDecides | gateio_nt/execution.py:2559-2570 | attaching keeps the indexes inverse if and only if the link is live and the id nobody else's |
| TriggerLinks.MayRegisterIssued | gateio_nt/execution.py:2542-2557 | ids issued by the venue always meet the exact condition for registering |
| TriggerLinks.MayAttachIssued | gateio_nt/execution.py:2559-2570 | and for attaching to a live link |
| Wallets.AccountClient.RebuildAggregate | gateio_nt/execution.py:5316-5326 | each figure is the unified ledger's where it names the currency and otherwise the sum over the product wallets, and nothing else is named |
| Wallets.AccountClient.AddWallet | gateio_nt/execution.py:5317-5321 | one wallet adds its own contribution to every currency the unified ledger does not name |
| Wallets.AccountClient.MergeProduct | gateio_nt/execution.py:5721-5722 | one product adds its margins to their scopes |
| Wallets.AccountClient.MergeMargins | gateio_nt/execution.py:5719-5723 | per scope the sum over the products, and no live scope is left out |
| Wallets.AccountClient.PublishAccountState | gateio_nt/execution.py:5697-5730 | total is locked plus free with nothing locked negative, for exactly the aggregate's currencies; no balance, no publication |
| Wallets.AccountClient.HandleSpotBalance | gateio_nt/execution.py:5269-5303 | one currency of one wallet moves, and what is published is the aggregate of all wallets |
| Wallets.AccountClient.HandleDerivativeBalance | gateio_nt/execution.py:5279-5303 | the locked part of a derivative wallet stays locked when only its total is streamed |
| Wallets.AccountClient.SweepRead | gateio_nt/execution.py:5453-5454 | an answered product replaces its wallet, an unread one keeps it |
| Wallets.AccountClient.FinishSweep | gateio_nt/execution.py:5456-5491 | unread products keep wallet and margins; without a unified ledger in unified mode nothing is stated; with nothing held a zero for every settlement currency, otherwise the aggregate |
| Wallets.AccountClient.Zeros | gateio_nt/execution.py:5486-5487 | exactly the settlement currencies of the products, at zero |
| Wallets.AccountClient.PatchDerivative | gateio_nt/execution.py:5279-5290 | the wallet behind a derivative message |
| Wallets.LockedStaysLocked | gateio_nt/execution.py:5279-5290 | a derivative message sets the total and leaves free what is above the locked part; the locked part is unchanged whenever the total covers it, and every other currency stays; implicit currencies are bitcoin on inverse and tether elsewhere |
| Wallets.SpotMessageStates | gateio_nt/execution.py:5271-5278 | a spot message states both figures of its currency; one without a currency, or about nothing and nothing held, is ignored |
| Wallets.AggregateFreeIsNonNegative | gateio_nt/execution.py:5304-5326 | no aggregate states a negative free figure, and without an oversold wallet it is the plain sum |
| Wallets.OneWalletMovesOnlyItsOwnShare | gateio_nt/execution.py:5267-5321 | replacing one wallet leaves every other contribution alone and moves each sum, total and free, by exactly its own difference |
| Wallets.ProductsStayDistinct | gateio_nt/execution.py:5269 | assigning a wallet never lists a product twice |
| WalletRuns.RunEvents | gateio_nt/execution.py:5267-5491 | over every interleaving of stream messages and sweep steps with unread products: products stay distinct, each wallet is its last answer as patched since, and every publication states at its own step exactly what the history adds up to, each wallet counted once |
| WalletRuns.HandleEvent | gateio_nt/execution.py:5267-5491 | one event on the mutable client follows the history, and what it publishes states it |
| WalletRuns.AggregateIsHistory | gateio_nt/execution.py:5304-5326 | a published balance is the unified figure where named and otherwise the sum over the five products' wallets as the history left them |
| WalletRuns.LockedOverRuns | gateio_nt/execution.py:5279-5290 | over any run of derivative messages whose totals cover it, what a product has locked in a currency never changes |
| WalletRuns.MergedIsHistory | gateio_nt/execution.py:5709-5723 | published margins are, per scope, the sums over the products' last stated margins |
| WalletRuns.SumsCountOnce | gateio_nt/execution.py:5316-5321 | with distinct products the sum over the dictionary counts each product's wallet once |
| WalletRuns.AnswersAssigned | gateio_nt/execution.py:5475 | a sweep replaces the margins of the products that answered and keeps the others |
| Wallets.WalletSumAppend | gateio_nt/execution.py:5316-5321 | adding a wallet to the running sums is the sum over one more wallet |
| Wallets.MergedAppend | gateio_nt/execution.py:7841-7852 | adding a product to the merged margins is the sum over one more product |
| Bars.PublishedInOrder | gateio_nt/data.py:2077-2082 | for every stream whatsoever published open times strictly increase, so no bucket goes out twice |
| Bars.PublishedBarIsLastCandle | gateio_nt/data.py:2007-2082 | for every stream, what a step publishes is the last valid candle of its bucket seen before |
| Bars.PublishedOnlyWhenOver | gateio_nt/data.py:2026-2068 | for every stream, no bar goes out before its bucket is over: by its closing candle, a candle of a newer bucket, or the clock five seconds past the close of a bucket of known length |
| Bars.OverIsPublished | gateio_nt/data.py:2026-2032 | conversely, a closing candle newer than the last published goes out at once, and a candle of a newer bucket puts the pending one out |
| Bars.ClockPublishes | gateio_nt/data.py:2034-2068 | and behind every tick or unclosed candle no bucket the clock has closed is still to go out |
| Bars.CandleLosesIff | gateio_nt/data.py:2007-2082 | the exact condition, for every stream: a bucket is lost by its own first candle if that is no newer than the last published, or by a candle of an older bucket that takes its place as the pending one, and by nothing else |
| Bars.CompleteIffNothingIsLost | gateio_nt/data.py:2007-2082 | every bucket seen is published or pending, at every moment, if and only if no candle of the stream is one that loses a bucket |
| Bars.InOrderLosesNothing | gateio_nt/data.py:2007-2082 | in a stream in order no candle is |
| Bars.EveryBucketIsOutOrPending | gateio_nt/data.py:2007-2082 | so for a stream in order every bucket seen is published or the one pending, with its last candle |
| Bars.OutOfOrderLosesABucket | gateio_nt/data.py:2026-2040 | a candle out of order that loses the pending bucket |
| Bars.CandleLive | gateio_nt/data.py:2026-2040 | which buckets are published or pending behind a candle, exactly |
| Bars.FlushKeepsLive | gateio_nt/data.py:2059-2067 | the clock loses no bucket |
| Bars.EarlierBucketsAreOut | gateio_nt/data.py:2007-2040 | once a valid candle is handled every earlier bucket is out |
| Bars.BarPublisher.Publish | gateio_nt/data.py:2076-2082 | the publisher on the mutable client |
| Bars.BarPublisher.FlushPending | gateio_nt/data.py:2059-2067 | a pending bar goes out once its grace period has passed |
| Bars.BarPublisher.HandleCandlestick | gateio_nt/data.py:2007-2040 | the handler is one step of the specified machine |
| Paging.FetchCandles | gateio_nt/data.py:3068-3103 | ends for any venue and positive step; against exact answers on a grid the result is the requested candles, sorted and unrepeated, if and only if no thousand-bucket gap opens at the start or behind a candle |
| Paging.WindowCollected | gateio_nt/data.py:3084-3097 | an exact window adds every requested candle up to a step past its newest |
| Paging.WindowSpansAThousand | gateio_nt/data.py:3085 | a window spans a thousand buckets and never reaches past the request |
| Paging.LastRowIsKept | gateio_nt/data.py:3096-3097 | of several rows with one open time the last is kept |
| Paging.CursorStops | gateio_nt/data.py:3084-3101 | the loop stops short exactly in front of such a gap |
| Paging.SortedItemsListAll | gateio_nt/data.py:3103 | the sorted items of the collected dictionary list each key once, in order |
| ReportPages.CollectPages | gateio_nt/execution.py:6105-6119 | pages are read once each and in order, up to the first short one, the first the stop rule names, or the cap |
| ReportPages.FillReports | gateio_nt/execution.py:7299-7339 | the fills of the window of any static newest-first listing are complete if and only if none lies behind the cap on pages or behind a full page that holds a row which is no object |
| ReportPages.EarlyStopLosesNothing | gateio_nt/execution.py:6105-6119 | that exact condition, for any number of pages the stop rules lead to |
| ReportPages.PagesCompleteIff | gateio_nt/execution.py:6105-6119 | for any listing, reading some of its pages loses nothing of the window if and only if nothing of it lies behind them |
| ReportPages.OtherStopsLeaveNothing | gateio_nt/execution.py:6109-6114 | paging that ends for any reason but a junk row leaves nothing of the window behind |
| ReportPages.JunkPageStops | gateio_nt/execution.py:6109-6112 | a full page with a row that is no object reads as short and ends the paging, on whichever page |
| ReportPages.JunkRowLosesAFill | gateio_nt/execution.py:6109-6112 | a listing with one such row of which a fill of the window is lost |
| ReportPages.FilterRows | gateio_nt/execution.py:7313-7339 | exactly the rows inside the window, in order; a row without a time fails the listing |
| ReportPages.KeptMembers | gateio_nt/execution.py:7855-7860 | the rows kept are the objects stamped from the start of the window to one second past its end |
| ReportPages.TwoThousandAreRead | gateio_nt/execution.py:6088-6119 | a listing of fills of the window alone is read completely if and only if there are at most two thousand |
| ReportPages.OldRowStops | gateio_nt/execution.py:6113-6117 | a page with a row from before the window is the last one read |
| ReportPages.BehindTheWindow | gateio_nt/execution.py:7869-7873 | behind a row older than the window start a newest-first listing holds nothing of the window |
| Statuses.CollectStatuses | gateio_nt/data.py:2512-2528 | a failed listing neither states anything nor completes its scope; the rest are folded together, the last row of an instrument winning |
| Statuses.StatusClient.DiffAndEmit | gateio_nt/common/status.py:159-177 | the tracked state, and exactly the changed and wanted instruments announced once each with the action now tracked |
| Statuses.StatusClient.Track | gateio_nt/common/status.py:160-165 | one turn tracks an action and announces it if it changed and is wanted |
| Statuses.StatusClient.EmitListed | gateio_nt/common/status.py:159-165 | every listed status is tracked whether anyone is subscribed or not |
| Statuses.StatusClient.EmitRemoved | gateio_nt/common/status.py:167-177 | what is missing from a listing that was read becomes unavailable, everything else stands |
| Statuses.StatusClient.PollAnswers | gateio_nt/data.py:2425-2439 | a poll is one step of the machine; with nothing read nothing is said |
| Statuses.StatusClient.SubscribeStatus | gateio_nt/data.py:1303-1323 | a tracked instrument is reported at once, an untracked one is fetched |
| Statuses.StatusClient.StatusFetched | gateio_nt/data.py:1312-1323 | a fetched status is tracked and reported |
| Statuses.StatusClient.UnsubscribeStatus | gateio_nt/data.py:1325-1329 | the subscription goes, the tracked action stays |
| Statuses.InformedOverRuns | gateio_nt/data.py:1303-1329 | over every run, whatever fails or interleaves, every subscriber of a tracked instrument was last told its tracked action |
| Statuses.PollTracks | gateio_nt/common/status.py:159-177 | behind a poll an instrument has the action of its last row if a listing read names it, is absent if only its own listing was read, and otherwise stands; a subscriber is told exactly the changes |
| Statuses.LastRowWins | gateio_nt/data.py:2512-2528 | each instrument is recorded with the action of its last row in the last listing that names it, and no other is recorded |
| Statuses.RemovedIffReadAndAbsent | gateio_nt/common/status.py:167-177 | an instrument is reported removed if and only if it is subscribed, was available, its own listing was read, and no listing read names it |
| Statuses.EmptyListingRemovesAll | gateio_nt/common/status.py:167-177 | a listing answered without a row reports exactly the subscribed and available instruments of its scope as removed |
| Statuses.RepeatedPollIsSilent | gateio_nt/common/status.py:159-177 | repeating a poll with the same answers changes nothing and emits nothing |
| Statuses.LastOfAppend | gateio_nt/common/status.py:159-177 | the last word on an instrument after a round is the action now tracked, if it was announced at all |

## Left out

- REST and WebSocket transports, signing, configuration, factories, logging and counters
  (`updates_applied`, `gaps_detected` and the like), and the book's `last_update_ms`.
- Parsing of JSON numbers and decimals, and price precision: levels, sizes and times arrive as
  integers; comparisons of timestamps in floating-point seconds are modelled exactly.
- Several instruments at once: each step machine follows one, since the handlers touch one entry
  of their dictionaries at a time.
- Whether the book's `depth` outgrows the subscribed window: the venue history is whatever the
  channel maintains.
- The order in which a full push reports its changes, and in which dictionaries are walked in
  the status diff and the aggregates: any order.
- Request bodies, side and time-in-force mappings, trigger rules, `market_status_action` and
  order status mapping: decided by reading one branch.
- The post-only flag of a batch rejection, and what `_handle_order_payload` does with a row.
- What the engine makes of a late fill of a canceled order once it is handed over, and the pruning
  of reports a sweep outran.
- NautilusTrader's engine beyond the assumptions named above; the venue's answer to a re-read of
  an order is a parameter.
- Quotes, trades, tickers, funding, settlement prices and instrument parsing: field copying.
- The refusal of new requests while the transport closes and the cancellation of tasks are steps
  of `BookClient` without a method of their own in `BookDriver`.
- BookDriver.DataClient.SubscribeReturns: which error is transient is a parameter, and an exception outside `GateioError` and `ValueError`, which would leave a registered book without a resync, is no result.
- BookDriver.DataClient.PublishCrashed: an unexpected error while the batch is handed over counts as not published, and one inside `apply_snapshot` is no step.
- CashBuys.CashBuyClient.CloseFinishedCashBuy: an instrument that is not loaded is treated like a total that cannot be read.
- Recovery.HandOverUnappliedFills: that every trade is covered assumes an engine with `Stays` and `IndexKept`, which belong to another library; the cache changes only through what the pass sends and while an order is re-read, the one await of a pass.
- ReportPages.FillReports: a row whose symbol names no known instrument is skipped by the code before its time is read; every row here is parsed.
- Wallets.AccountClient.HandleSpotBalance: a payload without a currency still creates the empty wallet, as in the code, and is otherwise ignored.
