/**
  Booking recovered venue trades (gateio_nt/execution.py): every trade a recovery pass finds
  that is not yet on its order is offered alone while its order can take it, and otherwise
  together with the venue's own statement of the order.

  The execution engine is whatever it is: its reaction to each thing sent is an arbitrary
  function of its cache. Reports are applied before the call that sends them returns. The one
  await of a pass is the re-read of an order, and the cache may change while it lasts.
*/
module Recovery {
  import opened Basics
  import opened Grouping

  datatype Order = Order(
    quantity: int, filled: int, closed: bool, quoteQuantity: bool, restatable: bool, trades: set<nat>)

  /** The engine's cache: orders by client order id, and client order ids by venue order id. */
  datatype Cache = Cache(orders: map<nat, Order>, index: map<nat, nat>)

  datatype Fill = Fill(trade: nat, clientOrder: Option<nat>, venueOrder: nat, qty: int)

  datatype ReportStatus = Accepted | OtherShortCircuit | FallsThrough

  datatype OrderReport = OrderReport(
    clientOrder: Option<nat>, venueOrder: nat, status: ReportStatus, quantity: int, filled: int)

  datatype Engine = Engine(
    onFill: (Cache, Fill) -> Cache,
    onReport: (Cache, OrderReport) -> Cache,
    onMassStatus: (Cache, OrderReport, seq<Fill>) -> Cache,
    whileAsking: Cache -> Cache)

  /** What was done with a trade, in the order it was done. `held` is the cache at that moment. */
  datatype Act =
    | Restated(report: OrderReport)
    | SentAlone(fill: Fill, held: Cache)
    | SentWithOrder(report: OrderReport, fills: seq<Fill>)
    | SentAsLastResort(fill: Fill, held: Cache)
    | Excluded(fill: Fill, held: Cache)

  datatype World = World(cache: Cache, acts: seq<Act>)

  // -- looking things up -------------------------------------------------

  function Resolve(c: Cache, clientOrder: Option<nat>, venueOrder: nat): Option<Order> {
    var id := if clientOrder.Some? then clientOrder
              else if venueOrder in c.index then Some(c.index[venueOrder]) else None;
    if id.Some? && id.value in c.orders then Some(c.orders[id.value]) else None
  }

  function OrderOf(c: Cache, f: Fill): Option<Order> {
    Resolve(c, f.clientOrder, f.venueOrder)
  }

  predicate IsBooked(c: Cache, f: Fill) {
    var order := OrderOf(c, f);
    order.Some? && f.trade in order.value.trades
  }

  function Unbooked(c: Cache, fills: seq<Fill>): seq<Fill> {
    if fills == [] then [] else
    var before := Unbooked(c, fills[..|fills| - 1]);
    if IsBooked(c, fills[|fills| - 1]) then before else before + [fills[|fills| - 1]]
  }

  /** `_order_can_take`: a base-denominated order with enough quantity left. */
  predicate CanTake(order: Order, f: Fill) {
    !order.quoteQuantity && order.quantity - order.filled >= f.qty
  }

  /** A trade may be sent alone to a cached, open, base-denominated order that still has room for it. */
  predicate CanGoAlone(c: Cache, f: Fill) {
    var order := OrderOf(c, f);
    order.Some? && !order.value.closed && CanTake(order.value, f)
  }

  /** The cache holds the order object a venue order id leads to, not just an index entry. */
  predicate HoldsOrder(c: Cache, venueOrder: nat) {
    venueOrder in c.index && c.index[venueOrder] in c.orders
  }

  /**
    The engine's own route to the order of a lone trade: only the venue order id counts, and a
    client order id on the trade must agree with what it leads to.
  */
  predicate IndexedTo(c: Cache, f: Fill) {
    HoldsOrder(c, f.venueOrder) && (f.clientOrder.Some? ==> f.clientOrder.value == c.index[f.venueOrder])
  }

  // -- sending -----------------------------------------------------------

  function CacheAfter(engine: Engine, c: Cache, fills: seq<Fill>): Cache {
    if fills == [] then c
    else engine.onFill(CacheAfter(engine, c, fills[..|fills| - 1]), fills[|fills| - 1])
  }

  function AloneActs(engine: Engine, c: Cache, fills: seq<Fill>): seq<Act> {
    if fills == [] then [] else
    var before := fills[..|fills| - 1];
    AloneActs(engine, c, before) + [SentAlone(fills[|fills| - 1], CacheAfter(engine, c, before))]
  }

  function LastResortActs(engine: Engine, c: Cache, fills: seq<Fill>): seq<Act> {
    if fills == [] then [] else
    var before := fills[..|fills| - 1];
    LastResortActs(engine, c, before) + [SentAsLastResort(fills[|fills| - 1], CacheAfter(engine, c, before))]
  }

  function ExcludedActs(c: Cache, fills: seq<Fill>): seq<Act> {
    if fills == [] then []
    else ExcludedActs(c, fills[..|fills| - 1]) + [Excluded(fills[|fills| - 1], c)]
  }

  /** The cache once the order was asked for and its statement, if one came, was handed over with the trades. */
  function CacheBehind(engine: Engine, c: Cache, fills: seq<Fill>, statement: Option<OrderReport>): Cache {
    var asked := engine.whileAsking(c);
    if statement.Some? then engine.onMassStatus(asked, statement.value, fills) else asked
  }

  /** The outcome of one order's trades: the world, and the trades an exception carries away. */
  datatype Settled = Settled(world: World, raised: Option<seq<Fill>>)

  /**
    Handing trades over together with the statement of their order. What is still unbooked
    then goes out alone if the cache holds the order, is excluded with an order the engine
    declined, or is raised when there is neither order nor statement.
  */
  function HandedOver(engine: Engine, w: World, fills: seq<Fill>, statement: Option<OrderReport>): Settled
    requires fills != []
  {
    var w1 := World(CacheBehind(engine, w.cache, fills, statement),
                    w.acts + (if statement.Some? then [SentWithOrder(statement.value, fills)] else []));
    var left := Unbooked(w1.cache, fills);
    if left == [] then
      Settled(w1, None)
    else if HoldsOrder(w1.cache, fills[0].venueOrder) then
      Settled(World(CacheAfter(engine, w1.cache, left), w1.acts + LastResortActs(engine, w1.cache, left)), None)
    else if statement.Some? then
      Settled(World(w1.cache, w1.acts + ExcludedActs(w1.cache, left)), None)
    else
      Settled(w1, Some(left))
  }

  /** The trades the orders do not hold yet, in their order. */
  method CollectUnbooked(c: Cache, fills: seq<Fill>) returns (left: seq<Fill>)
    ensures left == Unbooked(c, fills)
  {
    left := [];
    for i := 0 to |fills|
      invariant left == Unbooked(c, fills[..i])
    {
      assert fills[..i + 1][..i] == fills[..i];
      if !IsBooked(c, fills[i]) {
        left := left + [fills[i]];
      }
    }
    assert fills[..|fills|] == fills;
  }

  method HandOverFillsWithTheirOrder(engine: Engine, w: World, fills: seq<Fill>, statement: Option<OrderReport>)
    returns (settled: Settled)
    ensures fills == [] ==> settled == Settled(w, None)
    ensures fills != [] ==> settled == HandedOver(engine, w, fills, statement)
  {
    if fills == [] {
      return Settled(w, None);
    }
    var cache, acts := engine.whileAsking(w.cache), w.acts;
    if statement.Some? {
      cache := engine.onMassStatus(cache, statement.value, fills);
      acts := acts + [SentWithOrder(statement.value, fills)];
    }
    var left := CollectUnbooked(cache, fills);
    if left == [] {
      return Settled(World(cache, acts), None);
    }
    if !HoldsOrder(cache, fills[0].venueOrder) {
      if statement.Some? {
        return Settled(World(cache, acts + ExcludedActs(cache, left)), None);
      }
      return Settled(World(cache, acts), Some(left));
    }
    ghost var c, a := cache, acts;
    for i := 0 to |left|
      invariant cache == CacheAfter(engine, c, left[..i])
      invariant acts == a + LastResortActs(engine, c, left[..i])
    {
      assert left[..i + 1][..i] == left[..i];
      acts := acts + [SentAsLastResort(left[i], cache)];
      cache := engine.onFill(cache, left[i]);
    }
    assert left[..|left|] == left;
    settled := Settled(World(cache, acts), None);
  }

  ghost predicate AllGoAlone(engine: Engine, c: Cache, fills: seq<Fill>, n: nat)
    requires n <= |fills|
  {
    forall i :: 0 <= i < n ==> CanGoAlone(CacheAfter(engine, c, fills[..i]), fills[i])
  }

  /** The trades of one order, split where the first one cannot go alone. */
  ghost predicate IsSplit(engine: Engine, c: Cache, fills: seq<Fill>, alone: nat) {
    && alone <= |fills|
    && AllGoAlone(engine, c, fills, alone)
    && (alone < |fills| ==> !CanGoAlone(CacheAfter(engine, c, fills[..alone]), fills[alone]))
  }

  ghost function Reoffered(engine: Engine, w: World, fills: seq<Fill>, alone: nat,
                           statement: Option<OrderReport>): Settled
    requires alone <= |fills|
  {
    var sent := World(CacheAfter(engine, w.cache, fills[..alone]),
                      w.acts + AloneActs(engine, w.cache, fills[..alone]));
    if alone == |fills| then Settled(sent, None) else HandedOver(engine, sent, fills[alone..], statement)
  }

  lemma OneMoreAlone(engine: Engine, c: Cache, fills: seq<Fill>, i: nat)
    requires i < |fills|
    ensures CacheAfter(engine, c, fills[..i + 1]) == engine.onFill(CacheAfter(engine, c, fills[..i]), fills[i])
    ensures AloneActs(engine, c, fills[..i + 1])
         == AloneActs(engine, c, fills[..i]) + [SentAlone(fills[i], CacheAfter(engine, c, fills[..i]))]
  {
    assert fills[..i + 1][..i] == fills[..i];
  }

  /** The loop that sends trades alone, up to the first that cannot be. */
  method SendAlone(engine: Engine, w: World, fills: seq<Fill>) returns (sent: World, alone: nat)
    ensures IsSplit(engine, w.cache, fills, alone)
    ensures sent == World(CacheAfter(engine, w.cache, fills[..alone]),
                          w.acts + AloneActs(engine, w.cache, fills[..alone]))
  {
    var cache, acts := w.cache, w.acts;
    for i := 0 to |fills|
      invariant cache == CacheAfter(engine, w.cache, fills[..i])
      invariant acts == w.acts + AloneActs(engine, w.cache, fills[..i])
      invariant AllGoAlone(engine, w.cache, fills, i)
    {
      if !CanGoAlone(cache, fills[i]) {
        return World(cache, acts), i;
      }
      assert AllGoAlone(engine, w.cache, fills, i + 1);
      OneMoreAlone(engine, w.cache, fills, i);
      acts := acts + [SentAlone(fills[i], cache)];
      cache := engine.onFill(cache, fills[i]);
    }
    return World(cache, acts), |fills|;
  }

  /** `_reoffer_recovered_fills`: a prefix goes out alone, the rest with the order's own report. */
  method ReofferRecoveredFills(engine: Engine, w: World, fills: seq<Fill>, statement: Option<OrderReport>)
    returns (settled: Settled, alone: nat)
    ensures IsSplit(engine, w.cache, fills, alone)
    ensures settled == Reoffered(engine, w, fills, alone, statement)
  {
    var sent;
    sent, alone := SendAlone(engine, w, fills);
    if alone < |fills| {
      settled := HandOverFillsWithTheirOrder(engine, sent, fills[alone..], statement);
    } else {
      settled := Settled(sent, None);
    }
  }

  /** `_restate_from_listing`: whether the listed report is sent ahead of the trades. */
  predicate Restates(c: Cache, report: OrderReport) {
    var order := Resolve(c, report.clientOrder, report.venueOrder);
    && order.Some? && !order.value.closed
    && order.value.quantity != report.quantity
    && !order.value.quoteQuantity
    && match report.status
       case Accepted => order.value.restatable
       case OtherShortCircuit => false
       case FallsThrough => report.filled <= order.value.filled
  }

  function AfterRestate(engine: Engine, w: World, report: Option<OrderReport>): World {
    if report.Some? && Restates(w.cache, report.value)
    then World(engine.onReport(w.cache, report.value), w.acts + [Restated(report.value)])
    else w
  }

  /** A client order id counts where there is one, and the index of venue order ids only otherwise. */
  predicate LeadsTo(c: Cache, clientOrder: Option<nat>, venueOrder: nat, id: nat) {
    clientOrder == Some(id) || (clientOrder.None? && venueOrder in c.index && c.index[venueOrder] == id)
  }

  /** The engine would close the difference with an inferred fill, ahead of the trade that makes it up. */
  predicate InfersFill(o: Order, report: OrderReport) {
    report.status == FallsThrough && report.filled > o.filled
  }

  /** The engine would do something else than restate: reject, trigger, cancel, expire, or refuse the transition. */
  predicate ActsOtherwise(o: Order, report: OrderReport) {
    report.status == OtherShortCircuit || (report.status == Accepted && !o.restatable)
  }

  /**
    A listed report is sent ahead of the trades if and only if it states another quantity of an
    open, base-denominated order of the cache, and the engine would do nothing but restate it.
  */
  lemma RestatedIffHarmless(engine: Engine, w: World, report: OrderReport, id: nat)
    requires LeadsTo(w.cache, report.clientOrder, report.venueOrder, id)
    ensures var after := AfterRestate(engine, w, Some(report));
            if && id in w.cache.orders
               && var o := w.cache.orders[id];
               && !o.closed && !o.quoteQuantity && o.quantity != report.quantity
               && !InfersFill(o, report) && !ActsOtherwise(o, report)
            then after == World(engine.onReport(w.cache, report), w.acts + [Restated(report)])
            else after == w
  {
  }

  /** Of an order the cache does not lead to, and without a listed report, nothing is sent. */
  lemma UnheldIsNotRestated(engine: Engine, w: World, report: OrderReport)
    requires report.clientOrder.None? && report.venueOrder !in w.cache.index
    ensures AfterRestate(engine, w, Some(report)) == w && AfterRestate(engine, w, None) == w
  {
  }

  /**
    A trade may go alone if and only if the order its client order id names, or else its venue order
    id leads to, is cached, open and base-denominated and has at least the trade's quantity left.
  */
  lemma AloneIffRoom(c: Cache, f: Fill, id: nat)
    requires LeadsTo(c, f.clientOrder, f.venueOrder, id)
    ensures CanGoAlone(c, f) <==>
            && id in c.orders && !c.orders[id].closed && !c.orders[id].quoteQuantity
            && c.orders[id].filled + f.qty <= c.orders[id].quantity
    ensures IsBooked(c, f) <==> id in c.orders && f.trade in c.orders[id].trades
  {
  }

  // -- what becomes of every trade ---------------------------------------

  /** Nothing the engine is sent, and nothing that happens while it is not, takes a booked trade off. */
  ghost predicate Stays(engine: Engine) {
    && (forall c, f, g :: IsBooked(c, g) ==> IsBooked(engine.onFill(c, f), g))
    && (forall c, r, g :: IsBooked(c, g) ==> IsBooked(engine.onReport(c, r), g))
    && (forall c, r, fs, g :: IsBooked(c, g) ==> IsBooked(engine.onMassStatus(c, r, fs), g))
    && (forall c, g :: IsBooked(c, g) ==> IsBooked(engine.whileAsking(c), g))
  }

  /** A lone trade the engine's index leads to an order with room for is put on it. */
  ghost predicate Books(engine: Engine) {
    forall c, f :: CanGoAlone(c, f) && IndexedTo(c, f) ==> IsBooked(engine.onFill(c, f), f)
  }

  ghost predicate WentAlone(acts: seq<Act>, f: Fill) {
    exists held :: SentAlone(f, held) in acts && CanGoAlone(held, f)
  }

  ghost predicate WentAsLastResort(acts: seq<Act>, f: Fill) {
    exists held :: SentAsLastResort(f, held) in acts && HoldsOrder(held, f.venueOrder)
  }

  /** Excluded with an order the engine declined: its statement was handed over, and the cache lacks the order. */
  ghost predicate WentExcluded(acts: seq<Act>, f: Fill) {
    && (exists held :: Excluded(f, held) in acts && !HoldsOrder(held, f.venueOrder))
    && exists report, fills :: SentWithOrder(report, fills) in acts && f in fills
  }

  /** The record says what was done with the trade: an exit the adapter chose, not one it fell through. */
  ghost predicate Accounted(acts: seq<Act>, f: Fill) {
    WentExcluded(acts, f) || WentAsLastResort(acts, f) || WentAlone(acts, f)
  }

  lemma {:induction false} UnbookedMembers(c: Cache, fills: seq<Fill>, f: Fill)
    ensures f in Unbooked(c, fills) <==> f in fills && !IsBooked(c, f)
    decreases |fills|
  {
    if fills != [] {
      UnbookedMembers(c, fills[..|fills| - 1], f);
      assert fills == fills[..|fills| - 1] + [fills[|fills| - 1]];
    }
  }

  /** The unbooked trades stand in the order of the list they come from. */
  lemma {:induction false} UnbookedConcat(c: Cache, a: seq<Fill>, b: seq<Fill>)
    ensures Unbooked(c, a + b) == Unbooked(c, a) + Unbooked(c, b)
    decreases |b|
  {
    if b == [] {
      assert a + b == a;
    } else {
      assert (a + b)[..|a + b| - 1] == a + b[..|b| - 1];
      UnbookedConcat(c, a, b[..|b| - 1]);
    }
  }

  lemma {:induction false} SendingKeeps(engine: Engine, c: Cache, fills: seq<Fill>, f: Fill)
    requires Stays(engine) && IsBooked(c, f)
    ensures IsBooked(CacheAfter(engine, c, fills), f)
    decreases |fills|
  {
    if fills != [] {
      SendingKeeps(engine, c, fills[..|fills| - 1], f);
    }
  }

  /** Whatever the engine makes of it, a trade of the lone prefix was sent to an order that could take it. */
  lemma PrefixWentAlone(engine: Engine, c: Cache, fills: seq<Fill>, f: Fill)
    requires AllGoAlone(engine, c, fills, |fills|) && f in fills
    ensures WentAlone(AloneActs(engine, c, fills), f)
  {
    var i :| 0 <= i < |fills| && fills[i] == f;
    SentAt(engine, c, fills, i);
    assert CanGoAlone(CacheAfter(engine, c, fills[..i]), fills[i]);
  }

  lemma PrefixAlone(engine: Engine, c: Cache, fills: seq<Fill>, n: nat)
    requires n <= |fills| && AllGoAlone(engine, c, fills, n)
    ensures AllGoAlone(engine, c, fills[..n], n)
  {
    forall i | 0 <= i < n ensures CanGoAlone(CacheAfter(engine, c, fills[..n][..i]), fills[..n][i]) {
      assert fills[..n][..i] == fills[..i];
    }
  }

  /** What is excluded, with the cache at that moment, and nothing else is recorded meanwhile. */
  lemma {:induction false} ExcludedMembers(c: Cache, fills: seq<Fill>, f: Fill)
    ensures f in fills <==> Excluded(f, c) in ExcludedActs(c, fills)
    ensures forall a <- ExcludedActs(c, fills) :: a.Excluded? && a.held == c && a.fill in fills
    decreases |fills|
  {
    if fills != [] {
      ExcludedMembers(c, fills[..|fills| - 1], f);
      assert fills == fills[..|fills| - 1] + [fills[|fills| - 1]];
    }
  }

  /** Exactly the trades given go out as a last resort, and nothing else is recorded meanwhile. */
  lemma {:induction false} LastResortFor(engine: Engine, c: Cache, fills: seq<Fill>, f: Fill)
    ensures f in fills <==> exists held :: SentAsLastResort(f, held) in LastResortActs(engine, c, fills)
    ensures forall a <- LastResortActs(engine, c, fills) :: a.SentAsLastResort?
    decreases |fills|
  {
    if fills != [] {
      var before, last := fills[..|fills| - 1], fills[|fills| - 1];
      LastResortFor(engine, c, before, f);
      assert fills == before + [last];
      var one := SentAsLastResort(last, CacheAfter(engine, c, before));
      assert LastResortActs(engine, c, fills) == LastResortActs(engine, c, before) + [one];
      assert one in LastResortActs(engine, c, fills);
      if f in before {
        var held :| SentAsLastResort(f, held) in LastResortActs(engine, c, before);
        assert SentAsLastResort(f, held) in LastResortActs(engine, c, fills);
      }
    }
  }

  /** What a hand-over records: the statement if one came, and then one of its exits. */
  lemma HandOverRecords(engine: Engine, w: World, fills: seq<Fill>, statement: Option<OrderReport>)
    requires fills != []
    ensures var c := CacheBehind(engine, w.cache, fills, statement);
            var left := Unbooked(c, fills);
            var s := HandedOver(engine, w, fills, statement);
            var sent := if statement.Some? then [SentWithOrder(statement.value, fills)] else [];
            var holds := HoldsOrder(c, fills[0].venueOrder);
            && s.world.acts == w.acts + sent + (if left == [] then []
                                                else if holds then LastResortActs(engine, c, left)
                                                else if statement.Some? then ExcludedActs(c, left) else [])
            && s.raised == if left != [] && !holds && statement.None? then Some(left) else None
  {
  }

  ghost predicate LastResortIn(acts: seq<Act>, f: Fill) {
    exists held :: SentAsLastResort(f, held) in acts
  }

  ghost predicate ExcludedIn(acts: seq<Act>, f: Fill) {
    exists held :: Excluded(f, held) in acts
  }

  /** What the exits record of one trade. */
  lemma ExitRecords(engine: Engine, c: Cache, left: seq<Fill>, sent: seq<Act>, f: Fill)
    requires forall a <- sent :: a.SentWithOrder?
    ensures LastResortIn(sent + LastResortActs(engine, c, left), f) <==> f in left
    ensures !ExcludedIn(sent + LastResortActs(engine, c, left), f)
    ensures ExcludedIn(sent + ExcludedActs(c, left), f) <==> f in left
    ensures !LastResortIn(sent + ExcludedActs(c, left), f)
  {
    ExcludedMembers(c, left, f);
    LastResortFor(engine, c, left, f);
    if f in left {
      var held :| SentAsLastResort(f, held) in LastResortActs(engine, c, left);
      assert SentAsLastResort(f, held) in sent + LastResortActs(engine, c, left);
      assert Excluded(f, c) in sent + ExcludedActs(c, left);
    }
  }

  /**
    The three exits of a hand-over. A trade its statement left unbooked goes out as a last resort if
    and only if the cache then holds its order; it is excluded if and only if the cache does not and
    a statement came; it is raised if and only if neither. A booked one takes no exit.
  */
  lemma ThreeExits(engine: Engine, w: World, fills: seq<Fill>, statement: Option<OrderReport>, f: Fill)
    requires fills != [] && SameOrder(fills) && f in fills
    ensures var c := CacheBehind(engine, w.cache, fills, statement);
            var s := HandedOver(engine, w, fills, statement);
            var open, holds := !IsBooked(c, f), HoldsOrder(c, f.venueOrder);
            && w.acts <= s.world.acts
            && var since := s.world.acts[|w.acts|..];
            && (statement.Some? ==> since != [] && since[0] == SentWithOrder(statement.value, fills))
            && (LastResortIn(since, f) <==> open && holds)
            && (ExcludedIn(since, f) <==> open && !holds && statement.Some?)
            && (s.raised.Some? && f in s.raised.value <==> open && !holds && statement.None?)
  {
    var c := CacheBehind(engine, w.cache, fills, statement);
    var left := Unbooked(c, fills);
    var sent := if statement.Some? then [SentWithOrder(statement.value, fills)] else [];
    HandOverRecords(engine, w, fills, statement);
    UnbookedMembers(c, fills, f);
    ExitRecords(engine, c, left, sent, f);
    var exits := if left == [] then []
                 else if HoldsOrder(c, fills[0].venueOrder) then LastResortActs(engine, c, left)
                 else if statement.Some? then ExcludedActs(c, left) else [];
    RecordedSince(w.acts, sent, exits);
    if exits == [] {
      assert sent + exits == sent;
    }
  }

  lemma RecordedSince(before: seq<Act>, sent: seq<Act>, exits: seq<Act>)
    ensures before <= before + sent + exits && (before + sent + exits)[|before|..] == sent + exits
  {
  }

  /** The first last-resort trade is sent while the cache holds its order. */
  ghost predicate IndexKept(engine: Engine) {
    forall c, f, v :: HoldsOrder(c, v) ==> HoldsOrder(engine.onFill(c, f), v)
  }

  lemma {:induction false} LastResortMembers(engine: Engine, c: Cache, fills: seq<Fill>, f: Fill, venueOrder: nat)
    requires IndexKept(engine) && HoldsOrder(c, venueOrder) && f in fills
    ensures HoldsOrder(CacheAfter(engine, c, fills), venueOrder)
    ensures exists held :: SentAsLastResort(f, held) in LastResortActs(engine, c, fills) && HoldsOrder(held, venueOrder)
    decreases |fills|
  {
    var before := fills[..|fills| - 1];
    if f in before {
      LastResortMembers(engine, c, before, f, venueOrder);
    } else {
      assert fills == before + [fills[|fills| - 1]];
      StillHolds(engine, c, before, venueOrder);
      assert SentAsLastResort(f, CacheAfter(engine, c, before)) in LastResortActs(engine, c, fills);
    }
  }

  lemma {:induction false} StillHolds(engine: Engine, c: Cache, fills: seq<Fill>, venueOrder: nat)
    requires IndexKept(engine) && HoldsOrder(c, venueOrder)
    ensures HoldsOrder(CacheAfter(engine, c, fills), venueOrder)
    decreases |fills|
  {
    if fills != [] {
      StillHolds(engine, c, fills[..|fills| - 1], venueOrder);
    }
  }

  ghost predicate SameOrder(fills: seq<Fill>) {
    forall f <- fills :: f.venueOrder == fills[0].venueOrder
  }

  /** Of the trades handed over with their order, each is booked, accounted for, or raised. */
  lemma HandOverCovers(engine: Engine, w: World, fills: seq<Fill>, statement: Option<OrderReport>, f: Fill)
    requires Stays(engine) && IndexKept(engine) && fills != [] && SameOrder(fills) && f in fills
    ensures var s := HandedOver(engine, w, fills, statement);
            || IsBooked(s.world.cache, f)
            || Accounted(s.world.acts, f)
            || (s.raised.Some? && f in s.raised.value)
  {
    var cache := CacheBehind(engine, w.cache, fills, statement);
    var left := Unbooked(cache, fills);
    UnbookedMembers(cache, fills, f);
    if IsBooked(cache, f) {
      SendingKeeps(engine, cache, left, f);
    } else if HoldsOrder(cache, fills[0].venueOrder) {
      LastResortMembers(engine, cache, left, f, f.venueOrder);
    } else if statement.Some? {
      ExcludedMembers(cache, left, f);
      var acts := HandedOver(engine, w, fills, statement).world.acts;
      assert acts == w.acts + [SentWithOrder(statement.value, fills)] + ExcludedActs(cache, left);
      assert Excluded(f, cache) in acts && SentWithOrder(statement.value, fills) in acts;
    }
  }

  /** A booked trade stays booked through a hand-over. */
  lemma HandOverKeeps(engine: Engine, w: World, fills: seq<Fill>, statement: Option<OrderReport>, f: Fill)
    requires Stays(engine) && fills != [] && IsBooked(w.cache, f)
    ensures IsBooked(HandedOver(engine, w, fills, statement).world.cache, f)
  {
    var cache := CacheBehind(engine, w.cache, fills, statement);
    SendingKeeps(engine, cache, Unbooked(cache, fills), f);
  }

  /**
    Per venue order, no trade is dropped silently: each ends on its order, or was sent alone to an
    order that could take it, or as a last resort to an order the cache holds, or is excluded with
    the order the engine declined, or is in the exception.
  */
  lemma ReofferCovers(engine: Engine, w: World, fills: seq<Fill>, alone: nat, statement: Option<OrderReport>, f: Fill)
    requires Stays(engine) && IndexKept(engine) && SameOrder(fills) && f in fills
    requires IsSplit(engine, w.cache, fills, alone)
    ensures var s := Reoffered(engine, w, fills, alone, statement);
            || IsBooked(s.world.cache, f)
            || Accounted(s.world.acts, f)
            || (s.raised.Some? && f in s.raised.value)
  {
    var prefix, suffix := fills[..alone], fills[alone..];
    assert fills == prefix + suffix;
    var sent := World(CacheAfter(engine, w.cache, prefix), w.acts + AloneActs(engine, w.cache, prefix));
    if f in prefix {
      PrefixIsAccounted(engine, w, fills, alone, statement, f);
    } else {
      assert SameOrder(suffix);
      HandOverCovers(engine, sent, suffix, statement, f);
    }
  }

  lemma PrefixIsAccounted(engine: Engine, w: World, fills: seq<Fill>, alone: nat, statement: Option<OrderReport>,
                          f: Fill)
    requires IsSplit(engine, w.cache, fills, alone) && f in fills[..alone]
    ensures WentAlone(Reoffered(engine, w, fills, alone, statement).world.acts, f)
  {
    var prefix := fills[..alone];
    PrefixAlone(engine, w.cache, fills, alone);
    PrefixWentAlone(engine, w.cache, prefix, f);
    var held :| SentAlone(f, held) in AloneActs(engine, w.cache, prefix) && CanGoAlone(held, f);
    var sent := World(CacheAfter(engine, w.cache, prefix), w.acts + AloneActs(engine, w.cache, prefix));
    if alone < |fills| {
      HandOverGrows(engine, sent, fills[alone..], statement, SentAlone(f, held));
    }
  }

  lemma HandOverGrows(engine: Engine, w: World, fills: seq<Fill>, statement: Option<OrderReport>, a: Act)
    requires fills != [] && a in w.acts
    ensures a in HandedOver(engine, w, fills, statement).world.acts
  {
  }

  lemma ActsOnlyGrow(engine: Engine, w: World, fills: seq<Fill>, alone: nat, statement: Option<OrderReport>)
    requires alone <= |fills|
    ensures w.acts <= Reoffered(engine, w, fills, alone, statement).world.acts
  {
  }

  lemma AccountedGrows(acts: seq<Act>, more: seq<Act>, f: Fill)
    requires Accounted(acts, f) && acts <= more
    ensures Accounted(more, f)
  {
    assert forall a <- acts :: a in more;
  }

  lemma ReofferKeeps(engine: Engine, w: World, fills: seq<Fill>, alone: nat, statement: Option<OrderReport>, f: Fill)
    requires Stays(engine) && alone <= |fills| && IsBooked(w.cache, f)
    ensures IsBooked(Reoffered(engine, w, fills, alone, statement).world.cache, f)
  {
    SendingKeeps(engine, w.cache, fills[..alone], f);
    if alone < |fills| {
      var sent := World(CacheAfter(engine, w.cache, fills[..alone]),
                        w.acts + AloneActs(engine, w.cache, fills[..alone]));
      HandOverKeeps(engine, sent, fills[alone..], statement, f);
    }
  }

  // -- which lone trades reach their order -------------------------------

  /** Every lone trade the index led to its order when it was sent is on that order. */
  ghost predicate AloneReached(w: World) {
    forall f, held :: SentAlone(f, held) in w.acts && CanGoAlone(held, f) && IndexedTo(held, f) ==> IsBooked(w.cache, f)
  }

  lemma {:induction false} PrefixReaches(engine: Engine, w: World, fills: seq<Fill>)
    requires Stays(engine) && Books(engine) && AloneReached(w)
    requires AllGoAlone(engine, w.cache, fills, |fills|)
    ensures AloneReached(World(CacheAfter(engine, w.cache, fills), w.acts + AloneActs(engine, w.cache, fills)))
    decreases |fills|
  {
    if fills == [] {
      assert w.acts + AloneActs(engine, w.cache, fills) == w.acts;
    } else {
      var n := |fills| - 1;
      PrefixAlone(engine, w.cache, fills, n);
      PrefixReaches(engine, w, fills[..n]);
      var c := CacheAfter(engine, w.cache, fills[..n]);
      assert CanGoAlone(c, fills[n]);
      OneMoreReaches(engine, World(c, w.acts + AloneActs(engine, w.cache, fills[..n])), fills[n]);
      assert w.acts + AloneActs(engine, w.cache, fills)
          == w.acts + AloneActs(engine, w.cache, fills[..n]) + [SentAlone(fills[n], c)];
    }
  }

  lemma OneMoreReaches(engine: Engine, w: World, f: Fill)
    requires Stays(engine) && Books(engine) && AloneReached(w) && CanGoAlone(w.cache, f)
    ensures AloneReached(World(engine.onFill(w.cache, f), w.acts + [SentAlone(f, w.cache)]))
  {
    var after := World(engine.onFill(w.cache, f), w.acts + [SentAlone(f, w.cache)]);
    forall g, held | SentAlone(g, held) in after.acts && CanGoAlone(held, g) && IndexedTo(held, g)
      ensures IsBooked(after.cache, g)
    {
      if SentAlone(g, held) in w.acts {
        assert IsBooked(w.cache, g);
      }
    }
  }

  lemma {:induction false} NoneGoesAlone(engine: Engine, c: Cache, fills: seq<Fill>)
    ensures forall a <- LastResortActs(engine, c, fills) :: !a.SentAlone?
    ensures forall a <- ExcludedActs(c, fills) :: !a.SentAlone?
    decreases |fills|
  {
    if fills != [] {
      NoneGoesAlone(engine, c, fills[..|fills| - 1]);
    }
  }

  lemma HandOverSendsNoneAlone(engine: Engine, w: World, fills: seq<Fill>, statement: Option<OrderReport>, a: Act)
    requires fills != [] && a.SentAlone? && a in HandedOver(engine, w, fills, statement).world.acts
    ensures a in w.acts
  {
    var cache := CacheBehind(engine, w.cache, fills, statement);
    NoneGoesAlone(engine, cache, Unbooked(cache, fills));
  }

  lemma HandOverReaches(engine: Engine, w: World, fills: seq<Fill>, statement: Option<OrderReport>)
    requires Stays(engine) && AloneReached(w) && fills != []
    ensures AloneReached(HandedOver(engine, w, fills, statement).world)
  {
    var after := HandedOver(engine, w, fills, statement).world;
    forall f, held | SentAlone(f, held) in after.acts && CanGoAlone(held, f) && IndexedTo(held, f)
      ensures IsBooked(after.cache, f)
    {
      HandOverSendsNoneAlone(engine, w, fills, statement, SentAlone(f, held));
      HandOverKeeps(engine, w, fills, statement, f);
    }
  }

  lemma ReofferReaches(engine: Engine, w: World, fills: seq<Fill>, alone: nat, statement: Option<OrderReport>)
    requires Stays(engine) && Books(engine) && AloneReached(w) && IsSplit(engine, w.cache, fills, alone)
    ensures AloneReached(Reoffered(engine, w, fills, alone, statement).world)
  {
    PrefixAlone(engine, w.cache, fills, alone);
    PrefixReaches(engine, w, fills[..alone]);
    var sent := World(CacheAfter(engine, w.cache, fills[..alone]),
                      w.acts + AloneActs(engine, w.cache, fills[..alone]));
    if alone < |fills| {
      HandOverReaches(engine, sent, fills[alone..], statement);
    }
  }

  lemma RestateReaches(engine: Engine, w: World, report: Option<OrderReport>)
    requires Stays(engine) && AloneReached(w)
    ensures AloneReached(AfterRestate(engine, w, report))
  {
    var after := AfterRestate(engine, w, report);
    forall f, held | SentAlone(f, held) in after.acts && CanGoAlone(held, f) && IndexedTo(held, f)
      ensures IsBooked(after.cache, f)
    {
      assert SentAlone(f, held) in w.acts;
      assert IsBooked(w.cache, f);
    }
  }

  // -- the whole pass ----------------------------------------------------

  function VenueKey(f: Fill): Option<nat> {
    Some(f.venueOrder)
  }

  /** Every trade of a finished group is on its order or accounted for. */
  ghost predicate GroupDone(w: World, g: Group<Fill, nat>) {
    forall f <- g.items :: IsBooked(w.cache, f) || Accounted(w.acts, f)
  }

  ghost predicate GroupRaised(w: World, g: Group<Fill, nat>, raised: seq<Fill>) {
    forall f <- g.items :: IsBooked(w.cache, f) || Accounted(w.acts, f) || f in raised
  }

  /** What a pass raises: trades of this order, unbooked, whose order the cache does not hold. */
  ghost predicate RaisedUnheld(w: World, g: Group<Fill, nat>, raised: seq<Fill>) {
    raised != [] && forall f <- raised :: f in g.items && !IsBooked(w.cache, f) && !HoldsOrder(w.cache, f.venueOrder)
  }

  lemma ReofferRaises(engine: Engine, w: World, fills: seq<Fill>, alone: nat, statement: Option<OrderReport>, f: Fill)
    requires alone <= |fills| && SameOrder(fills)
    ensures var s := Reoffered(engine, w, fills, alone, statement);
            s.raised.Some? ==>
              && statement.None? && s.raised.value != []
              && (f in s.raised.value ==>
                    f in fills && !IsBooked(s.world.cache, f) && !HoldsOrder(s.world.cache, f.venueOrder))
  {
    if alone < |fills| {
      var suffix := fills[alone..];
      assert SameOrder(suffix);
      var c := CacheBehind(engine, CacheAfter(engine, w.cache, fills[..alone]), suffix, statement);
      UnbookedMembers(c, suffix, f);
    }
  }

  lemma GroupsShareOrder(groups: seq<Group<Fill, nat>>, items: seq<Fill>, i: nat)
    requires IsGrouping(groups, items, VenueKey) && i < |groups|
    ensures groups[i].items != [] && SameOrder(groups[i].items)
  {
    assert Whole(groups[i], items, VenueKey);
    GroupingIsUniform(groups, items, VenueKey);
    forall f <- groups[i].items ensures f.venueOrder == groups[i].items[0].venueOrder {
      assert VenueKey(f) == groups[i].key && VenueKey(groups[i].items[0]) == groups[i].key;
    }
  }

  /** One order of the pass: restate it from the listing, then re-offer its trades. */
  method SettleOrder(engine: Engine, w: World, g: Group<Fill, nat>,
                     listed: Option<OrderReport>, statement: Option<OrderReport>)
    returns (settled: Settled)
    requires g.items != [] && SameOrder(g.items)
    ensures w.acts <= settled.world.acts
    ensures Stays(engine) ==> forall f :: IsBooked(w.cache, f) ==> IsBooked(settled.world.cache, f)
    ensures Stays(engine) && IndexKept(engine) ==>
              if settled.raised.None? then GroupDone(settled.world, g)
              else GroupRaised(settled.world, g, settled.raised.value)
    ensures settled.raised.Some? ==> statement.None? && RaisedUnheld(settled.world, g, settled.raised.value)
    ensures Stays(engine) && Books(engine) && AloneReached(w) ==> AloneReached(settled.world)
  {
    var w1 := AfterRestate(engine, w, listed);
    var alone;
    settled, alone := ReofferRecoveredFills(engine, w1, g.items, statement);
    ActsOnlyGrow(engine, w1, g.items, alone, statement);
    forall f {
      ReofferRaises(engine, w1, g.items, alone, statement, f);
    }
    if Stays(engine) && Books(engine) && AloneReached(w) {
      RestateReaches(engine, w, listed);
      ReofferReaches(engine, w1, g.items, alone, statement);
    }
    if Stays(engine) {
      forall f | IsBooked(w.cache, f) ensures IsBooked(settled.world.cache, f) {
        ReofferKeeps(engine, w1, g.items, alone, statement, f);
      }
      if IndexKept(engine) {
        forall f <- g.items
          ensures IsBooked(settled.world.cache, f) || Accounted(settled.world.acts, f)
               || (settled.raised.Some? && f in settled.raised.value)
        {
          ReofferCovers(engine, w1, g.items, alone, statement, f);
        }
      }
    }
  }

  lemma DoneStaysDone(w: World, w': World, g: Group<Fill, nat>)
    requires GroupDone(w, g) && w.acts <= w'.acts
    requires forall f :: IsBooked(w.cache, f) ==> IsBooked(w'.cache, f)
    ensures GroupDone(w', g)
  {
    forall f <- g.items ensures IsBooked(w'.cache, f) || Accounted(w'.acts, f) {
      if !IsBooked(w.cache, f) {
        AccountedGrows(w.acts, w'.acts, f);
      }
    }
  }

  lemma AllStayDone(w: World, w': World, groups: seq<Group<Fill, nat>>, n: nat)
    requires n <= |groups| && w.acts <= w'.acts
    requires forall f :: IsBooked(w.cache, f) ==> IsBooked(w'.cache, f)
    requires forall i :: 0 <= i < n ==> GroupDone(w, groups[i])
    ensures forall i :: 0 <= i < n ==> GroupDone(w', groups[i])
  {
    forall i | 0 <= i < n ensures GroupDone(w', groups[i]) {
      DoneStaysDone(w, w', groups[i]);
    }
  }

  /**
    `_hand_over_unapplied_fills`: the unbooked trades are grouped by venue order, exactly, and
    settled order by order. `settledOrders` orders were finished when the pass ended; it stops
    early only at an order whose trades it raises, and then the caller refuses the pass.
  */
  method HandOverUnappliedFills(engine: Engine, w: World, fills: seq<Fill>,
                                listed: map<nat, OrderReport>, ask: nat -> Option<OrderReport>)
    returns (settled: Settled, groups: seq<Group<Fill, nat>>, settledOrders: nat)
    ensures IsGrouping(groups, Unbooked(w.cache, fills), VenueKey)
    ensures if settled.raised.None? then settledOrders == |groups| else settledOrders < |groups|
    ensures Stays(engine) ==> forall f :: IsBooked(w.cache, f) ==> IsBooked(settled.world.cache, f)
    ensures Stays(engine) && IndexKept(engine) ==>
              && (forall i :: 0 <= i < settledOrders ==> GroupDone(settled.world, groups[i]))
              && (settled.raised.Some? ==> GroupRaised(settled.world, groups[settledOrders], settled.raised.value))
    ensures settled.raised.Some? ==>
              && RaisedUnheld(settled.world, groups[settledOrders], settled.raised.value)
              && groups[settledOrders].items != [] && ask(groups[settledOrders].items[0].venueOrder) == None
    ensures Stays(engine) && Books(engine) && AloneReached(w) ==> AloneReached(settled.world)
  {
    var unapplied := CollectUnbooked(w.cache, fills);
    groups := GroupBy(unapplied, VenueKey);
    settled, settledOrders := Settled(w, None), 0;
    while settledOrders < |groups|
      invariant settledOrders <= |groups| && settled.raised.None?
      invariant Stays(engine) ==> forall f :: IsBooked(w.cache, f) ==> IsBooked(settled.world.cache, f)
      invariant Stays(engine) && IndexKept(engine) ==>
                  forall i :: 0 <= i < settledOrders ==> GroupDone(settled.world, groups[i])
      invariant Stays(engine) && Books(engine) && AloneReached(w) ==> AloneReached(settled.world)
    {
      GroupsShareOrder(groups, unapplied, settledOrders);
      var g := groups[settledOrders];
      var venueOrder := g.items[0].venueOrder;
      var report := if venueOrder in listed then Some(listed[venueOrder]) else None;
      var before := settled.world;
      settled := SettleOrder(engine, before, g, report, ask(venueOrder));
      if Stays(engine) && IndexKept(engine) {
        AllStayDone(before, settled.world, groups, settledOrders);
      }
      if settled.raised.Some? {
        return;
      }
      settledOrders := settledOrders + 1;
    }
  }

  /**
    After a pass that raised nothing, every trade it was given is on its order, or excluded with a
    declined order, or was sent as a last resort to a cached order, or was sent alone to an order
    that could take it while the engine's index did not lead there.
  */
  lemma PassCoversEveryTrade(w: World, after: World, fills: seq<Fill>, groups: seq<Group<Fill, nat>>, f: Fill)
    requires IsGrouping(groups, Unbooked(w.cache, fills), VenueKey) && f in fills
    requires forall i :: 0 <= i < |groups| ==> GroupDone(after, groups[i])
    requires IsBooked(w.cache, f) ==> IsBooked(after.cache, f)
    requires AloneReached(after)
    ensures || IsBooked(after.cache, f) || WentExcluded(after.acts, f) || WentAsLastResort(after.acts, f)
            || exists held :: SentAlone(f, held) in after.acts && CanGoAlone(held, f) && !IndexedTo(held, f)
  {
    if !IsBooked(w.cache, f) {
      UnbookedMembers(w.cache, fills, f);
      assert f in multiset(Flatten(groups));
      FlattenMember(groups, f);
      var i :| 0 <= i < |groups| && f in groups[i].items;
      assert GroupDone(after, groups[i]);
    }
  }

  // -- an engine that reads only its index -------------------------------

  /** A lone trade touches at most the order the index leads to. */
  ghost predicate ReadsOnlyTheIndex(engine: Engine) {
    forall c, f :: TouchesOnlyIndexed(c, engine.onFill(c, f), f)
  }

  ghost predicate TouchesOnlyIndexed(c: Cache, after: Cache, f: Fill) {
    && after.index == c.index && after.orders.Keys == c.orders.Keys
    && forall id <- c.orders :: after.orders[id] == c.orders[id] || (IndexedTo(c, f) && id == c.index[f.venueOrder])
  }

  lemma {:induction false} UnindexedIsDeferred(engine: Engine, c: Cache, fills: seq<Fill>, f: Fill)
    requires ReadsOnlyTheIndex(engine) && forall g <- fills :: g.venueOrder == f.venueOrder
    ensures var after := CacheAfter(engine, c, fills);
            && after.index == c.index && after.orders.Keys == c.orders.Keys
            && (!IndexedTo(c, f) ==> OrderOf(after, f) == OrderOf(c, f))
    decreases |fills|
  {
    if fills != [] {
      var last := fills[|fills| - 1];
      UnindexedIsDeferred(engine, c, fills[..|fills| - 1], f);
      assert last in fills;
      var before := CacheAfter(engine, c, fills[..|fills| - 1]);
      assert TouchesOnlyIndexed(before, engine.onFill(before, last), last);
      OneTradeTouches(before, engine.onFill(before, last), last, f);
    }
  }

  lemma OneTradeTouches(c: Cache, after: Cache, g: Fill, f: Fill)
    requires TouchesOnlyIndexed(c, after, g) && g.venueOrder == f.venueOrder
    ensures !IndexedTo(c, f) ==> OrderOf(after, f) == OrderOf(c, f)
  {
    assert forall id :: id in after.orders.Keys <==> id in c.orders.Keys;
    if !IndexedTo(c, f) && f.clientOrder.Some? && f.clientOrder.value in c.orders {
      assert after.orders[f.clientOrder.value] == c.orders[f.clientOrder.value];
    }
  }

  /**
    The exact condition. Of the trades of one order sent alone, each reaches its order if and only
    if the venue order id is indexed to that order, whatever the adapter could resolve itself.
  */
  lemma AloneReachesIffIndexed(engine: Engine, c: Cache, fills: seq<Fill>, i: nat)
    requires ReadsOnlyTheIndex(engine) && Books(engine) && Stays(engine) && SameOrder(fills)
    requires AllGoAlone(engine, c, fills, |fills|) && i < |fills| && !IsBooked(c, fills[i])
    ensures IsBooked(CacheAfter(engine, c, fills), fills[i]) <==> IndexedTo(c, fills[i])
  {
    UnindexedIsDeferred(engine, c, fills, fills[i]);
    if IndexedTo(c, fills[i]) {
      UnindexedIsDeferred(engine, c, fills[..i], fills[i]);
      PrefixReaches(engine, World(c, []), fills);
      var held := CacheAfter(engine, c, fills[..i]);
      assert CanGoAlone(held, fills[i]) && IndexedTo(held, fills[i]);
      SentAt(engine, c, fills, i);
    }
  }

  lemma {:induction false} SentAt(engine: Engine, c: Cache, fills: seq<Fill>, i: nat)
    requires i < |fills|
    ensures SentAlone(fills[i], CacheAfter(engine, c, fills[..i])) in AloneActs(engine, c, fills)
    decreases |fills|
  {
    var n := |fills| - 1;
    if i < n {
      SentAt(engine, c, fills[..n], i);
      assert fills[..n][..i] == fills[..i];
    }
  }

  /** Applies a lone trade to whatever order the index leads to, without looking at it. */
  function ApplyByIndex(c: Cache, f: Fill): Cache {
    if !IndexedTo(c, f) then c else
    var id := c.index[f.venueOrder];
    var order := c.orders[id];
    c.(orders := c.orders[id := order.(filled := order.filled + f.qty,
                                       closed := order.closed || order.filled + f.qty >= order.quantity,
                                       trades := order.trades + {f.trade})])
  }

  const INDEX_ENGINE := Engine(ApplyByIndex, (c, r) => c, (c, r, fs) => c, c => c)

  /** What the results above ask of an engine is met by that one. */
  lemma IndexEngineMeetsThem()
    ensures Stays(INDEX_ENGINE) && Books(INDEX_ENGINE) && IndexKept(INDEX_ENGINE) && ReadsOnlyTheIndex(INDEX_ENGINE)
  {
    forall c, f, g | IsBooked(c, g) ensures IsBooked(ApplyByIndex(c, f), g) {
      if IndexedTo(c, f) {
        assert ApplyByIndex(c, f).orders.Keys == c.orders.Keys + {c.index[f.venueOrder]};
      }
    }
  }

  /**
    A concrete trade that is lost: its order is cached under the client order id it carries, but
    not indexed under the venue's. It goes out alone, nothing is raised, and it is not booked.
  */
  lemma UnindexedTradeIsLost()
    ensures var c := Cache(map[1 := Order(10, 0, false, false, true, {})], map[]);
            var f := Fill(7, Some(1), 99, 5);
            && IsSplit(INDEX_ENGINE, c, [f], 1)
            && var s := Reoffered(INDEX_ENGINE, World(c, []), [f], 1, None);
               s.raised.None? && s.world.cache == c && !IsBooked(s.world.cache, f)
  {
    var c := Cache(map[1 := Order(10, 0, false, false, true, {})], map[]);
    var f := Fill(7, Some(1), 99, 5);
    assert [f][..0] == [] && [f][..1] == [f];
    assert CacheAfter(INDEX_ENGINE, c, [f][..0]) == c;
    assert CanGoAlone(c, f);
    assert CacheAfter(INDEX_ENGINE, c, [f]) == ApplyByIndex(c, f) == c;
  }

  predicate NoOverfill(c: Cache) {
    forall id <- c.orders :: !c.orders[id].quoteQuantity ==> c.orders[id].filled <= c.orders[id].quantity
  }

  /** Trades sent alone never overfill an order, although the engine does not look: each had room when it was sent. */
  lemma {:induction false} AloneNeverOverfills(c: Cache, fills: seq<Fill>)
    requires AllGoAlone(INDEX_ENGINE, c, fills, |fills|) && NoOverfill(c)
    ensures NoOverfill(CacheAfter(INDEX_ENGINE, c, fills))
    decreases |fills|
  {
    if fills != [] {
      var n := |fills| - 1;
      PrefixAlone(INDEX_ENGINE, c, fills, n);
      AloneNeverOverfills(c, fills[..n]);
      assert CanGoAlone(CacheAfter(INDEX_ENGINE, c, fills[..n]), fills[n]);
    }
  }
}
