/**
  Spot market buys denominated in cash (gateio_nt/execution.py). Their quantity is a cash
  amount, so each fill raises a base-denominated bound one increment above what the venue has
  credited, and the venue's own total closes the order when it finishes. A fill handled after
  that close and before the cancel it queued has reached the order is lost.

  Quantities are integers in units of the instrument's size increment. Events the client
  generates reach the order through a first-in first-out queue, at any later moment.
*/
module CashBuys {
  import opened Basics

  datatype Status = Open | Filled | Canceled

  datatype Order = Order(quantity: int, filled: int, quoteQuantity: bool, status: Status, trades: set<nat>)

  datatype OrderEvent = Updated(quantity: int) | FilledBy(trade: nat, qty: int) | CanceledByVenue

  /**
    The platform's order: an update moves no state, a fill beyond the quantity is discarded, a
    fill that reaches it completes the order, and a closed order refuses everything (`None`).
  */
  function Apply(o: Order, e: OrderEvent): Option<Order> {
    if o.status != Open then None else
    match e
    case Updated(quantity) => Some(o.(quantity := quantity, quoteQuantity := false))
    case FilledBy(trade, qty) =>
      if o.filled + qty > o.quantity then None
      else Some(o.(filled := o.filled + qty, trades := o.trades + {trade},
                   status := if o.filled + qty < o.quantity then Open else Filled))
    case CanceledByVenue => Some(o.(status := Canceled))
  }

  /** The order once the whole queue has been applied; a refused event changes nothing. */
  function ApplyAll(o: Order, queue: seq<OrderEvent>): Order {
    if queue == [] then o else
    var before := ApplyAll(o, queue[..|queue| - 1]);
    var r := Apply(before, queue[|queue| - 1]);
    if r.Some? then r.value else before
  }

  /** Every queued event takes effect when its turn comes, and leaves the order open. */
  ghost predicate Smooth(o: Order, queue: seq<OrderEvent>) {
    forall i :: 0 <= i < |queue| ==> TakesEffect(o, queue, i)
  }

  ghost predicate TakesEffect(o: Order, queue: seq<OrderEvent>, i: nat)
    requires i < |queue|
  {
    var r := Apply(ApplyAll(o, queue[..i]), queue[i]);
    r.Some? && r.value.status == Open
  }

  // -- the client's side -------------------------------------------------

  /** What has been credited in base units, and the bound last stated for it. */
  datatype Bound = Bound(credited: int, stated: Option<int>)

  /** `late` holds the trades handed to reconciliation because the order was already canceled. */
  datatype State = State(order: Order, queue: seq<OrderEvent>, bound: Option<Bound>, applied: set<nat>, late: set<nat>)

  /** `_raise_cash_buy_bound`. */
  function RaiseBound(s: State, qty: int): State {
    if s.bound.None? && !s.order.quoteQuantity then s else
    var was := if s.bound.Some? then s.bound.value else Bound(0, None);
    var credited := was.credited + qty;
    if was.stated.Some? && was.stated.value > credited then
      s.(bound := Some(Bound(credited, was.stated)))
    else
      s.(bound := Some(Bound(credited, Some(credited + 1))), queue := s.queue + [Updated(credited + 1)])
  }

  predicate Duplicate(s: State, trade: nat) {
    trade in s.applied || trade in s.order.trades
  }

  /**
    A fill message. Duplicates and empty fills are ignored; a fill of an order that is canceled
    here is remembered and handed to reconciliation.
  */
  function OnFill(s: State, trade: nat, qty: int): State {
    if Duplicate(s, trade) then s else
    if s.order.status != Open then LateFill(s.(applied := s.applied + {trade}), trade, qty) else
    if qty <= 0 then s else
    var raised := RaiseBound(s, qty);
    raised.(applied := s.applied + {trade}, queue := raised.queue + [FilledBy(trade, qty)])
  }

  /** `_handle_late_fill`: an order that is closed but not canceled takes no fill any more. */
  function LateFill(s: State, trade: nat, qty: int): State {
    if s.order.status == Canceled && qty > 0 then s.(late := s.late + {trade}) else s
  }

  /** The engine applies the oldest queued event. */
  function Deliver(s: State): State {
    if s.queue == [] then s else
    var r := Apply(s.order, s.queue[0]);
    s.(order := if r.Some? then r.value else s.order, queue := s.queue[1..])
  }

  /** `_close_finished_cash_buy`; `total` is the base total the venue states, if it is readable. */
  function Close(s: State, total: Option<int>): State {
    var forgotten := s.(bound := None, applied := {});
    if s.order.status != Open then forgotten else
    var stated := if s.bound.Some? then s.bound.value.stated else None;
    var restate := total.Some? && total.value > 0 && total != stated;
    forgotten.(queue := s.queue + (if restate then [Updated(total.value)] else []) + [CanceledByVenue])
  }

  datatype Message = FillArrives(trade: nat, qty: int) | Delivered | Finished(total: Option<int>)

  function Step(s: State, m: Message): State {
    match m
    case FillArrives(trade, qty) => OnFill(s, trade, qty)
    case Delivered => Deliver(s)
    case Finished(total) => Close(s, total)
  }

  function Run(s: State, messages: seq<Message>): State {
    if messages == [] then s
    else Step(Run(s, messages[..|messages| - 1]), messages[|messages| - 1])
  }

  /** A cash buy as it was submitted, nothing filled and nothing queued. */
  function Submitted(cash: int): State {
    State(Order(cash, 0, true, Open, {}), [], None, {}, {})
  }

  /** The order the queued events lead to. */
  function Outcome(s: State): Order {
    ApplyAll(s.order, s.queue)
  }

  /** The venue has said that the order is finished. */
  predicate Finishes(messages: seq<Message>) {
    exists m <- messages :: m.Finished?
  }

  /** The messages before the first that says so. */
  function UpToFinish(messages: seq<Message>): seq<Message>
    decreases |messages|
  {
    if !Finishes(messages) then messages else UpToFinish(messages[..|messages| - 1])
  }

  /** The total that message states. */
  function FirstTotal(messages: seq<Message>): Option<int>
    requires Finishes(messages)
    decreases |messages|
  {
    var before := messages[..|messages| - 1];
    if Finishes(before) then FirstTotal(before) else
    FinishIsLast(messages);
    messages[|messages| - 1].total
  }

  lemma FinishIsLast(messages: seq<Message>)
    requires Finishes(messages) && !Finishes(messages[..|messages| - 1])
    ensures messages[|messages| - 1].Finished?
  {
    var before, last := messages[..|messages| - 1], messages[|messages| - 1];
    assert messages == before + [last];
    var m :| m in messages && m.Finished?;
    assert m !in before;
  }

  /** The base quantity of the distinct positive fills among the messages. */
  function Bought(messages: seq<Message>): int {
    if messages == [] then 0 else
    var before, m := messages[..|messages| - 1], messages[|messages| - 1];
    if m.FillArrives? && m.qty > 0 && m.trade !in Trades(before) then Bought(before) + m.qty else Bought(before)
  }

  function Trades(messages: seq<Message>): set<nat> {
    if messages == [] then {} else
    var before, m := messages[..|messages| - 1], messages[|messages| - 1];
    if m.FillArrives? && m.qty > 0 then Trades(before) + {m.trade} else Trades(before)
  }

  // -- the queue ---------------------------------------------------------

  lemma SmoothAppend(o: Order, queue: seq<OrderEvent>, e: OrderEvent)
    requires Smooth(o, queue)
    requires var r := Apply(ApplyAll(o, queue), e); r.Some? && r.value.status == Open
    ensures Smooth(o, queue + [e])
    ensures ApplyAll(o, queue + [e]) == Apply(ApplyAll(o, queue), e).value
  {
    var after := queue + [e];
    assert after[..|queue|] == queue;
    forall i | 0 <= i < |after| ensures TakesEffect(o, after, i) {
      if i < |queue| {
        assert TakesEffect(o, queue, i);
        assert after[..i] == queue[..i];
      }
    }
  }

  lemma {:induction false} ApplyHead(o: Order, queue: seq<OrderEvent>)
    requires queue != []
    ensures var r := Apply(o, queue[0]);
            ApplyAll(o, queue) == ApplyAll(if r.Some? then r.value else o, queue[1..])
    decreases |queue|
  {
    if |queue| == 1 {
      assert queue[..0] == [] && queue[1..] == [];
    } else {
      var init := queue[..|queue| - 1];
      ApplyHead(o, init);
      assert queue[1..][..|queue[1..]| - 1] == init[1..];
    }
  }

  lemma SmoothDelivery(o: Order, queue: seq<OrderEvent>)
    requires queue != [] && Smooth(o, queue)
    ensures Apply(o, queue[0]).Some? && Smooth(Apply(o, queue[0]).value, queue[1..])
  {
    assert TakesEffect(o, queue, 0);
    assert queue[..0] == [];
    var o' := Apply(o, queue[0]).value;
    forall i | 0 <= i < |queue| - 1 ensures TakesEffect(o', queue[1..], i) {
      assert TakesEffect(o, queue, i + 1);
      ApplyHead(o, queue[..i + 1]);
      assert queue[..i + 1][1..] == queue[1..][..i];
    }
  }

  // -- safety ------------------------------------------------------------

  /**
    What every run keeps: the queue applies without a refusal and leaves the order open, and
    the order it leads to holds exactly the fills, strictly below its stated bound.
  */
  ghost predicate Safe(s: State, bought: int, trades: set<nat>) {
    var ahead := ApplyAll(s.order, s.queue);
    && s.order.status == Open && ahead.status == Open && Smooth(s.order, s.queue)
    && ahead.filled == bought && ahead.trades == trades && s.applied == trades && s.order.trades <= trades
    && s.late == {}
    && (s.bound.None? ==> s.queue == [] && s.order.quoteQuantity && bought == 0)
    && (s.bound.Some? ==>
          && s.bound.value.credited == bought && s.bound.value.stated == Some(ahead.quantity)
          && ahead.quantity == bought + 1 && !ahead.quoteQuantity)
  }

  /** The bound queued ahead of a fill is exactly one increment above everything credited with it. */
  lemma RaisedBoundCovers(s: State, qty: int, bought: int, trades: set<nat>)
    requires Safe(s, bought, trades) && qty > 0
    ensures var r := RaiseBound(s, qty);
            var ahead := ApplyAll(r.order, r.queue);
            && r.order == s.order && r.applied == s.applied && r.late == s.late && Smooth(r.order, r.queue)
            && ahead.status == Open && ahead.filled == bought && ahead.trades == trades && !ahead.quoteQuantity
            && ahead.quantity == bought + qty + 1
            && r.bound == Some(Bound(bought + qty, Some(ahead.quantity)))
  {
    if RaiseBound(s, qty).queue != s.queue {
      SmoothAppend(s.order, s.queue, Updated(bought + qty + 1));
    }
  }

  lemma FillIsSafe(s: State, trade: nat, qty: int, bought: int, trades: set<nat>)
    requires Safe(s, bought, trades)
    ensures if qty > 0 && trade !in trades then Safe(OnFill(s, trade, qty), bought + qty, trades + {trade})
            else OnFill(s, trade, qty) == s
  {
    if qty > 0 && trade !in trades {
      RaisedBoundCovers(s, qty, bought, trades);
      SmoothAppend(s.order, RaiseBound(s, qty).queue, FilledBy(trade, qty));
    }
  }

  lemma DeliveryIsSafe(s: State, bought: int, trades: set<nat>)
    requires Safe(s, bought, trades)
    ensures Safe(Deliver(s), bought, trades)
  {
    if s.queue != [] {
      SmoothDelivery(s.order, s.queue);
      ApplyHead(s.order, s.queue);
      TradesGrow(Deliver(s).order, Deliver(s).queue);
      assert TakesEffect(s.order, s.queue, 0);
      assert s.queue[..0] == [];
    }
  }

  lemma {:induction false} TradesGrow(o: Order, queue: seq<OrderEvent>)
    ensures o.trades <= ApplyAll(o, queue).trades
    decreases |queue|
  {
    if queue != [] {
      TradesGrow(o, queue[..|queue| - 1]);
    }
  }

  /**
    For every interleaving of fill messages with the delivery of what they generate: no fill is
    ever discarded as an overfill, and none completes the order before the venue finishes it.
  */
  lemma {:induction false} FillsNeverOverfillOrComplete(cash: int, messages: seq<Message>)
    ensures Finishes(messages) || Safe(Run(Submitted(cash), messages), Bought(messages), Trades(messages))
    decreases |messages|
  {
    if messages != [] && !Finishes(messages) {
      var before, m := messages[..|messages| - 1], messages[|messages| - 1];
      assert m in messages && forall m <- before :: m in messages;
      FillsNeverOverfillOrComplete(cash, before);
      var s := Run(Submitted(cash), before);
      match m
      case FillArrives(trade, qty) => FillIsSafe(s, trade, qty, Bought(before), Trades(before));
      case Delivered => DeliveryIsSafe(s, Bought(before), Trades(before));
    }
  }

  // -- the close ---------------------------------------------------------

  /** A closed order refuses whatever is queued behind. */
  lemma {:induction false} ClosedRefuses(o: Order, queue: seq<OrderEvent>, more: seq<OrderEvent>)
    requires ApplyAll(o, queue).status != Open
    ensures ApplyAll(o, queue + more) == ApplyAll(o, queue)
    decreases |more|
  {
    if more == [] {
      assert queue + more == queue;
    } else {
      ClosedRefuses(o, queue, more[..|more| - 1]);
      assert (queue + more)[..|queue + more| - 1] == queue + more[..|more| - 1];
    }
  }

  /** What is queued when the order is closed only ever grows at the end, or is delivered: the outcome stands. */
  lemma OutcomeStands(s: State, m: Message)
    requires Outcome(s).status != Open
    ensures Outcome(Step(s, m)) == Outcome(s)
  {
    var s' := Step(s, m);
    if m.Delivered? {
      if s.queue != [] {
        ApplyHead(s.order, s.queue);
      }
    } else {
      assert s'.queue == s.queue + s'.queue[|s.queue|..];
      ClosedRefuses(s.order, s.queue, s'.queue[|s.queue|..]);
    }
  }

  lemma CloseCancels(s: State, total: Option<int>, bought: int, trades: set<nat>)
    requires Safe(s, bought, trades)
    ensures Closed(Outcome(Close(s, total)), total, bought, trades)
  {
    var s' := Close(s, total);
    var stated := if s.bound.Some? then s.bound.value.stated else None;
    if total.Some? && total.value > 0 && total != stated {
      SmoothAppend(s.order, s.queue, Updated(total.value));
      assert s'.queue == s.queue + [Updated(total.value)] + [CanceledByVenue];
      assert s'.queue[..|s'.queue| - 1] == s.queue + [Updated(total.value)];
    } else {
      assert s'.queue == s.queue + [CanceledByVenue];
      assert s'.queue[..|s'.queue| - 1] == s.queue;
    }
  }

  /**
    Canceled with exactly these fills. The quantity equals what was filled if and only if the
    venue's total equals the fills; without a readable total the bound stands, one above the fills.
  */
  predicate Closed(o: Order, total: Option<int>, bought: int, trades: set<nat>) {
    && o.status == Canceled && o.filled == bought && o.trades == trades
    && (total.Some? && total.value > 0 ==>
          o.quantity == total.value && (o.quantity == o.filled <==> total.value == bought))
    && ((total.None? || total.value <= 0) && bought > 0 ==> o.quantity == o.filled + 1)
  }

  /**
    For every interleaving, closes included: the first message that says the order is finished
    decides what becomes of it. It is canceled with exactly the fills handled before, squared if
    and only if the total stated there equals them, and nothing that follows changes that.
  */
  lemma {:induction false} ClosingSquaresIffTotalsAgree(cash: int, messages: seq<Message>)
    requires Finishes(messages)
    ensures var before := UpToFinish(messages);
            Closed(Outcome(Run(Submitted(cash), messages)), FirstTotal(messages), Bought(before), Trades(before))
    decreases |messages|
  {
    var before, m := messages[..|messages| - 1], messages[|messages| - 1];
    if Finishes(before) {
      ClosingSquaresIffTotalsAgree(cash, before);
      OutcomeStands(Run(Submitted(cash), before), m);
    } else {
      FinishIsLast(messages);
      FillsNeverOverfillOrComplete(cash, before);
      CloseCancels(Run(Submitted(cash), before), m.total, Bought(before), Trades(before));
    }
  }

  // -- what becomes of a fill --------------------------------------------

  /** Neither on the order, now or later, nor handed to reconciliation. */
  predicate Lost(s: State, trade: nat) {
    trade !in Outcome(s).trades && trade !in s.late
  }

  /** Until the cancel is delivered the order is open; from then on it is what the close made of it. */
  lemma ClosedIsCanceled(cash: int, messages: seq<Message>)
    ensures var s := Run(Submitted(cash), messages);
            s.order.status != Open ==> Finishes(messages) && s.order.status == Canceled && s.order == Outcome(s)
  {
    var s := Run(Submitted(cash), messages);
    if s.order.status != Open {
      FillsNeverOverfillOrComplete(cash, messages);
      ClosingSquaresIffTotalsAgree(cash, messages);
      ClosedRefuses(s.order, [], s.queue);
      assert [] + s.queue == s.queue;
    }
  }

  /**
    The fate of a positive fill that is no duplicate, over every run: it comes to stand on the order
    if and only if the venue's finish was not handled before it (or it is there already); it goes to
    reconciliation if and only if the order is closed here by then. In between, finished and the
    cancel still queued, it is lost.
  */
  lemma FillIsLostIffHandledInTheGap(cash: int, messages: seq<Message>, trade: nat, qty: int)
    requires qty > 0 && !Duplicate(Run(Submitted(cash), messages), trade)
    ensures var s := Run(Submitted(cash), messages);
            var s' := OnFill(s, trade, qty);
            && (trade in Outcome(s').trades <==> !Finishes(messages) || trade in Outcome(s).trades)
            && (trade in s'.late <==> s.order.status != Open || trade in s.late)
            && (Lost(s', trade) <==> Finishes(messages) && s.order.status == Open && Lost(s, trade))
            && trade in s'.applied
  {
    var s := Run(Submitted(cash), messages);
    FillsNeverOverfillOrComplete(cash, messages);
    ClosedIsCanceled(cash, messages);
    if Finishes(messages) {
      ClosingSquaresIffTotalsAgree(cash, messages);
      OutcomeStands(s, FillArrives(trade, qty));
    } else {
      FillIsSafe(s, trade, qty, Bought(messages), Trades(messages));
    }
  }

  /** A lost trade is remembered as applied: until the venue says finished again, redeliveries do nothing. */
  lemma {:induction false} LostStaysLost(s: State, trade: nat, more: seq<Message>)
    requires Outcome(s).status != Open && Lost(s, trade) && trade in s.applied && !Finishes(more)
    ensures var s' := Run(s, more); Outcome(s') == Outcome(s) && Lost(s', trade) && trade in s'.applied
    decreases |more|
  {
    if more != [] {
      var before, m := more[..|more| - 1], more[|more| - 1];
      assert m in more && forall m <- before :: m in more;
      LostStaysLost(s, trade, before);
      OutcomeStands(Run(s, before), m);
    }
  }

  /**
    Whatever came before: a new fill handled right behind the first finish is lost, although the
    total stated there may well include it.
  */
  lemma FillInFlightIsLost(cash: int, messages: seq<Message>, total: Option<int>, trade: nat, qty: int)
    requires !Finishes(messages) && qty > 0 && trade !in Trades(messages)
    ensures var run := messages + [Finished(total)] + [FillArrives(trade, qty)];
            var s := Run(Submitted(cash), run);
            && Lost(s, trade) && trade in s.applied && Bought(run) == Bought(messages) + qty
            && Closed(Outcome(s), total, Bought(messages), Trades(messages))
  {
    var closed := messages + [Finished(total)];
    var run := closed + [FillArrives(trade, qty)];
    assert closed[..|messages|] == messages && run[..|closed|] == closed;
    assert closed[|messages|].Finished?;
    FillsNeverOverfillOrComplete(cash, messages);
    ClosingSquaresIffTotalsAgree(cash, closed);
    FillIsLostIffHandledInTheGap(cash, closed, trade, qty);
    OutcomeStands(Run(Submitted(cash), closed), FillArrives(trade, qty));
  }

  // -- the handlers ------------------------------------------------------

  class CashBuyClient {
    var order: Order
    var queue: seq<OrderEvent>
    var bound: Option<Bound>
    var applied: set<nat>
    var late: set<nat>

    function View(): State
      reads this
    {
      State(order, queue, bound, applied, late)
    }

    constructor (cash: int)
      ensures View() == Submitted(cash)
    {
      order, queue, bound, applied, late := Order(cash, 0, true, Open, {}), [], None, {}, {};
    }

    method RaiseCashBuyBound(qty: int)
      modifies this`bound, this`queue
      ensures View() == RaiseBound(old(View()), qty)
    {
      var credited, stated := 0, None;
      if bound.None? {
        if !order.quoteQuantity {
          return;
        }
      } else {
        credited, stated := bound.value.credited, bound.value.stated;
      }
      credited := credited + qty;
      if stated.Some? && stated.value > credited {
        bound := Some(Bound(credited, stated));
        return;
      }
      var quantity := credited + 1;
      bound := Some(Bound(credited, Some(quantity)));
      queue := queue + [Updated(quantity)];
    }

    method HandleFill(trade: nat, qty: int)
      modifies this
      ensures View() == OnFill(old(View()), trade, qty)
      ensures order == old(order)
      ensures old(trade !in applied && trade !in order.trades && (order.status != Open || qty > 0)) ==>
                applied == old(applied) + {trade}
      ensures old(order.status != Open) ==> queue == old(queue)
    {
      if trade in applied || trade in order.trades {
        return;
      }
      if order.status != Open {
        applied := applied + {trade};
        HandleLateFill(trade, qty);
        return;
      }
      if qty <= 0 {
        return;
      }
      RaiseCashBuyBound(qty);
      applied := applied + {trade};
      queue := queue + [FilledBy(trade, qty)];
    }

    method HandleLateFill(trade: nat, qty: int)
      modifies this`late
      ensures View() == LateFill(old(View()), trade, qty)
    {
      if qty <= 0 {
        return;
      }
      if order.status != Canceled {
        return;
      }
      late := late + {trade};
    }

    method CloseFinishedCashBuy(total: Option<int>)
      modifies this
      ensures View() == Close(old(View()), total)
      ensures order == old(order) && bound == None && applied == {} && late == old(late)
      ensures if old(order.status) != Open then queue == old(queue)
              else queue != [] && queue[|queue| - 1] == CanceledByVenue
    {
      if order.status != Open {
        bound, applied := None, {};
        return;
      }
      var stated := if bound.Some? then bound.value.stated else None;
      if total.Some? && total.value > 0 && total != stated {
        queue := queue + [Updated(total.value)];
      }
      queue := queue + [CanceledByVenue];
      bound, applied := None, {};
    }
  }
}
