/**
  Order-list submission in gateio_nt/execution.py: deciding which requests Gate.io receives
  for a prepared list, and fanning a batch response back out over the orders it was sent for.
*/
module OrderLists {
  import opened Basics
  import opened Grouping

  predicate Batchable(product: Product) {
    product == Spot || product == Perp || product == Inverse
  }

  const SPOT_BATCH_MAX_PAIRS := 4
  const SPOT_BATCH_MAX_ORDERS_PER_PAIR := 10
  const FUTURES_BATCH_MAX_ORDERS := 10

  /** One validated order with the request built for it. `text` is the client text it carries. */
  datatype Prepared = Prepared(order: nat, product: Product, isTrigger: bool, pair: string, text: Option<string>)

  datatype Send = Send(product: Product, orders: seq<Prepared>, asBatch: bool)

  /** The product a prepared order may share a batch on, if it may join one. */
  function BatchKey(p: Prepared): Option<Product> {
    if p.isTrigger || !Batchable(p.product) then None else Some(p.product)
  }

  // -- the venue's caps --------------------------------------------------

  function PairKey(p: Prepared): Option<string> {
    Some(p.pair)
  }

  ghost function Pairs(group: seq<Prepared>): set<string> {
    set p <- group :: p.pair
  }

  /** What the venue accepts in one batch request. */
  ghost predicate MeetsCaps(product: Product, group: seq<Prepared>) {
    if product == Spot then
      && |Pairs(group)| <= SPOT_BATCH_MAX_PAIRS
      && forall pair :: |OfKey(group, PairKey, pair)| <= SPOT_BATCH_MAX_ORDERS_PER_PAIR
    else
      |group| <= FUTURES_BATCH_MAX_ORDERS
  }

  /** The counter holds each pair the group trades, with the number of its orders. */
  ghost predicate CountsPairs(perPair: map<string, nat>, group: seq<Prepared>) {
    && perPair.Keys == Pairs(group)
    && forall pair :: |OfKey(group, PairKey, pair)| == CountOf(perPair, pair)
  }

  function CountOf(perPair: map<string, nat>, pair: string): nat {
    if pair in perPair then perPair[pair] else 0
  }

  lemma CountOneMore(perPair: map<string, nat>, group: seq<Prepared>, i: nat)
    requires i < |group| && CountsPairs(perPair, group[..i])
    ensures CountsPairs(perPair[group[i].pair := CountOf(perPair, group[i].pair) + 1], group[..i + 1])
  {
    assert group[..i + 1] == group[..i] + [group[i]];
    assert group[..i + 1][..i] == group[..i];
    assert Pairs(group[..i + 1]) == Pairs(group[..i]) + {group[i].pair};
    var next := perPair[group[i].pair := CountOf(perPair, group[i].pair) + 1];
    forall pair ensures |OfKey(group[..i + 1], PairKey, pair)| == CountOf(next, pair) {
      assert |OfKey(group[..i], PairKey, pair)| == CountOf(perPair, pair);
    }
  }

  /** How many orders of the group trade each pair. */
  method CountPairs(group: seq<Prepared>) returns (perPair: map<string, nat>)
    ensures CountsPairs(perPair, group)
  {
    perPair := map[];
    for i := 0 to |group|
      invariant CountsPairs(perPair, group[..i])
    {
      var pair := group[i].pair;
      CountOneMore(perPair, group, i);
      perPair := perPair[pair := CountOf(perPair, pair) + 1];
    }
    assert group[..|group|] == group;
  }

  method BatchFits(product: Product, group: seq<Prepared>) returns (fits: bool)
    requires group != []
    ensures fits <==> MeetsCaps(product, group)
  {
    if product != Spot {
      return |group| <= FUTURES_BATCH_MAX_ORDERS;
    }
    var perPair := CountPairs(group);
    assert |perPair| == |perPair.Keys|;
    fits := |perPair| <= SPOT_BATCH_MAX_PAIRS
         && forall pair <- perPair.Keys :: perPair[pair] <= SPOT_BATCH_MAX_ORDERS_PER_PAIR;
    if !fits && |perPair| <= SPOT_BATCH_MAX_PAIRS {
      var pair :| pair in perPair.Keys && perPair[pair] > SPOT_BATCH_MAX_ORDERS_PER_PAIR;
      assert |OfKey(group, PairKey, pair)| > SPOT_BATCH_MAX_ORDERS_PER_PAIR;
    }
  }

  // -- the plan ----------------------------------------------------------

  function Orders(plan: seq<Send>): seq<Prepared> {
    if plan == [] then [] else Orders(plan[..|plan| - 1]) + plan[|plan| - 1].orders
  }

  ghost predicate SendIsSound(s: Send, prepared: seq<Prepared>) {
    if s.asBatch then
      // every batchable order of one product, in the caller's order, within the venue's caps
      && Batchable(s.product) && |s.orders| >= 2
      && s.orders == OfKey(prepared, BatchKey, s.product)
      && MeetsCaps(s.product, s.orders)
    else
      |s.orders| == 1 && s.orders[0].product == s.product && s.orders[0] in prepared
  }

  /** One send per order. */
  function Singles(product: Product, items: seq<Prepared>): seq<Send> {
    if items == [] then []
    else Singles(product, items[..|items| - 1]) + [Send(product, [items[|items| - 1]], false)]
  }

  /** The sends of one group: one batch if the venue takes it, otherwise one send each. */
  ghost function SendsOf(g: Group<Prepared, Product>): seq<Send> {
    if g.items == [] then [] else
    var product := g.items[0].product;
    if |g.items| > 1 && MeetsCaps(product, g.items) then [Send(product, g.items, true)]
    else Singles(product, g.items)
  }

  ghost function PlanOf(groups: seq<Group<Prepared, Product>>): seq<Send> {
    JoinOf(groups, SendsOf)
  }

  ghost function JoinOf<G, S>(groups: seq<G>, parts: G -> seq<S>): seq<S> {
    if groups == [] then [] else JoinOf(groups[..|groups| - 1], parts) + parts(groups[|groups| - 1])
  }

  ghost predicate PartOf<G, S>(groups: seq<G>, parts: G -> seq<S>, i: nat, s: S) {
    i < |groups| && s in parts(groups[i])
  }

  lemma {:induction false} JoinMembers<G, S>(groups: seq<G>, parts: G -> seq<S>, s: S)
    ensures s in JoinOf(groups, parts) <==> exists i: nat :: PartOf(groups, parts, i, s)
    decreases |groups|
  {
    if groups != [] {
      var init, last := groups[..|groups| - 1], |groups| - 1;
      JoinMembers(init, parts, s);
      if s in JoinOf(init, parts) {
        var i: nat :| PartOf(init, parts, i, s);
        assert PartOf(groups, parts, i, s);
      }
      if s in parts(groups[last]) {
        assert PartOf(groups, parts, last, s);
      }
      if s !in parts(groups[last]) && exists i: nat :: PartOf(groups, parts, i, s) {
        var i: nat :| PartOf(groups, parts, i, s);
        assert PartOf(init, parts, i, s);
      }
    }
  }

  lemma {:induction false} OrdersConcat(a: seq<Send>, b: seq<Send>)
    ensures Orders(a + b) == Orders(a) + Orders(b)
    decreases |b|
  {
    if b == [] {
      assert a + b == a;
    } else {
      assert (a + b)[..|a + b| - 1] == a + b[..|b| - 1];
      OrdersConcat(a, b[..|b| - 1]);
    }
  }

  lemma {:induction false} SinglesOrders(product: Product, items: seq<Prepared>)
    ensures Orders(Singles(product, items)) == items
    decreases |items|
  {
    if items != [] {
      SinglesOrders(product, items[..|items| - 1]);
      var one := Send(product, [items[|items| - 1]], false);
      OneSend(one);
      OrdersConcat(Singles(product, items[..|items| - 1]), [one]);
    }
  }

  lemma {:induction false} SinglesAreSingle(product: Product, items: seq<Prepared>)
    ensures forall s <- Singles(product, items) ::
            !s.asBatch && |s.orders| == 1 && s.orders[0] in items && s.product == product
    decreases |items|
  {
    if items != [] {
      SinglesAreSingle(product, items[..|items| - 1]);
    }
  }

  lemma OneSend(s: Send)
    ensures Orders([s]) == s.orders
  {
    assert [s][..0] == [];
  }

  lemma SendsOrders(g: Group<Prepared, Product>)
    requires g.items != []
    ensures Orders(SendsOf(g)) == g.items
  {
    SinglesOrders(g.items[0].product, g.items);
    OneSend(Send(g.items[0].product, g.items, true));
  }

  lemma {:induction false} PlanOrders(groups: seq<Group<Prepared, Product>>)
    requires forall g <- groups :: g.items != []
    ensures Orders(PlanOf(groups)) == Flatten(groups)
    decreases |groups|
  {
    if groups != [] {
      var g := groups[|groups| - 1];
      PlanOrders(groups[..|groups| - 1]);
      OrdersConcat(PlanOf(groups[..|groups| - 1]), SendsOf(g));
      SendsOrders(g);
    }
  }

  lemma GroupProduct(groups: seq<Group<Prepared, Product>>, prepared: seq<Prepared>, i: nat)
    requires IsGrouping(groups, prepared, BatchKey) && i < |groups|
    ensures groups[i].items != []
    ensures forall p <- groups[i].items :: p in prepared && p.product == groups[i].items[0].product
    ensures |groups[i].items| > 1 ==> groups[i].key == Some(groups[i].items[0].product)
    ensures groups[i].key.Some? ==> groups[i].items == OfKey(prepared, BatchKey, groups[i].key.value)
  {
    assert Whole(groups[i], prepared, BatchKey);
    GroupingIsUniform(groups, prepared, BatchKey);
    forall p <- groups[i].items ensures p in prepared && p.product == groups[i].items[0].product {
      FlattenMember(groups, p);
      assert p in multiset(Flatten(groups));
      assert BatchKey(p) == groups[i].key && BatchKey(groups[i].items[0]) == groups[i].key;
    }
  }

  lemma NoEmptyGroup(groups: seq<Group<Prepared, Product>>, prepared: seq<Prepared>)
    requires IsGrouping(groups, prepared, BatchKey)
    ensures forall g <- groups :: g.items != []
  {
    forall i | 0 <= i < |groups| ensures groups[i].items != [] {
      assert Whole(groups[i], prepared, BatchKey);
    }
  }

  /**
    The plan sends exactly the prepared orders, each once; every send is sound; and the
    batchable orders of a product go out as one batch exactly when there are at least two of
    them and the venue's caps allow it.
  */
  ghost predicate PlanIsSound(plan: seq<Send>, prepared: seq<Prepared>) {
    && multiset(Orders(plan)) == multiset(prepared)
    && (forall s <- plan :: SendIsSound(s, prepared))
    && (forall product: Product {:trigger OfKey(prepared, BatchKey, product)} ::
          (exists s <- plan :: s.asBatch && s.product == product) <==>
          var orders := OfKey(prepared, BatchKey, product); |orders| >= 2 && MeetsCaps(product, orders))
  }

  lemma PlanSound(groups: seq<Group<Prepared, Product>>, prepared: seq<Prepared>)
    requires IsGrouping(groups, prepared, BatchKey)
    ensures PlanIsSound(PlanOf(groups), prepared)
  {
    var plan := PlanOf(groups);
    NoEmptyGroup(groups, prepared);
    PlanOrders(groups);
    forall s <- plan ensures SendIsSound(s, prepared) {
      JoinMembers(groups, SendsOf, s);
      var i: nat :| PartOf(groups, SendsOf, i, s);
      GroupProduct(groups, prepared, i);
      SinglesAreSingle(groups[i].items[0].product, groups[i].items);
      if s.asBatch {
        OfKeyMembers(prepared, BatchKey, s.product, s.orders[0]);
      }
    }
    forall product: Product
      ensures (exists s <- plan :: s.asBatch && s.product == product) <==>
              var orders := OfKey(prepared, BatchKey, product); |orders| >= 2 && MeetsCaps(product, orders)
    {
      BatchIffFits(groups, prepared, product);
    }
  }

  lemma BatchIffFits(groups: seq<Group<Prepared, Product>>, prepared: seq<Prepared>, product: Product)
    requires IsGrouping(groups, prepared, BatchKey)
    ensures (exists s <- PlanOf(groups) :: s.asBatch && s.product == product) <==>
            var orders := OfKey(prepared, BatchKey, product); |orders| >= 2 && MeetsCaps(product, orders)
  {
    var orders := OfKey(prepared, BatchKey, product);
    if exists s <- PlanOf(groups) :: s.asBatch && s.product == product {
      var s :| s in PlanOf(groups) && s.asBatch && s.product == product;
      BatchFitsCaps(groups, prepared, s);
    }
    if |orders| >= 2 && MeetsCaps(product, orders) {
      FittingIsSent(groups, prepared, product);
    }
  }

  lemma BatchFitsCaps(groups: seq<Group<Prepared, Product>>, prepared: seq<Prepared>, s: Send)
    requires IsGrouping(groups, prepared, BatchKey)
    requires s in PlanOf(groups) && s.asBatch
    ensures s.orders == OfKey(prepared, BatchKey, s.product) && |s.orders| >= 2 && MeetsCaps(s.product, s.orders)
  {
    JoinMembers(groups, SendsOf, s);
    var i: nat :| PartOf(groups, SendsOf, i, s);
    GroupProduct(groups, prepared, i);
    SinglesAreSingle(groups[i].items[0].product, groups[i].items);
  }

  lemma FittingIsSent(groups: seq<Group<Prepared, Product>>, prepared: seq<Prepared>, product: Product)
    requires IsGrouping(groups, prepared, BatchKey)
    requires var orders := OfKey(prepared, BatchKey, product); |orders| >= 2 && MeetsCaps(product, orders)
    ensures Send(product, OfKey(prepared, BatchKey, product), true) in PlanOf(groups)
  {
    var orders := OfKey(prepared, BatchKey, product);
    var slot := KeySlot(groups, prepared, BatchKey, product);
    GroupProduct(groups, prepared, slot);
    OfKeyMembers(prepared, BatchKey, product, orders[0]);
    var s := Send(product, orders, true);
    assert PartOf(groups, SendsOf, slot, s);
    JoinMembers(groups, SendsOf, s);
  }

  // -- the plan in plain terms -------------------------------------------

  /** The untriggered orders of one product, in the order of the list. */
  function Untriggered(prepared: seq<Prepared>, product: Product): seq<Prepared> {
    if prepared == [] then [] else
    var before, p := Untriggered(prepared[..|prepared| - 1], product), prepared[|prepared| - 1];
    if p.product == product && !p.isTrigger then before + [p] else before
  }

  function OnPair(group: seq<Prepared>, pair: string): seq<Prepared> {
    if group == [] then [] else
    var before, p := OnPair(group[..|group| - 1], pair), group[|group| - 1];
    if p.pair == pair then before + [p] else before
  }

  /** Gate.io takes ten orders in a futures batch; a spot batch may trade four pairs, with ten orders on each. */
  ghost predicate VenueTakes(product: Product, group: seq<Prepared>) {
    if product == Spot
    then |Pairs(group)| <= 4 && forall pair :: |OnPair(group, pair)| <= 10
    else |group| <= 10
  }

  /**
    What the plan promises. Every batch is the untriggered orders of one of the three products that
    have batches, all of them, at least two, in the order of the list, and the venue takes it; such
    a batch is sent whenever it can be. Every other send is one order, and triggered orders and
    those of a product without batches always are.
  */
  ghost predicate PlanIsAsPromised(plan: seq<Send>, prepared: seq<Prepared>) {
    && (forall s <- plan :: if s.asBatch then BatchIsAsPromised(s, prepared) else |s.orders| == 1)
    && (forall product :: Untriggered(prepared, product) in BatchesOf(plan, product) <==>
          && (product == Spot || product == Perp || product == Inverse)
          && |Untriggered(prepared, product)| >= 2 && VenueTakes(product, Untriggered(prepared, product)))
    && (forall p <- prepared :: p.isTrigger || p.product == Delivery || p.product == Options ==>
          exists s <- plan :: !s.asBatch && s.orders == [p] && s.product == p.product)
  }

  ghost predicate BatchIsAsPromised(s: Send, prepared: seq<Prepared>) {
    && (s.product == Spot || s.product == Perp || s.product == Inverse)
    && s.orders == Untriggered(prepared, s.product) && |s.orders| >= 2 && VenueTakes(s.product, s.orders)
    && forall p <- s.orders :: !p.isTrigger && p.product == s.product
  }

  ghost function BatchesOf(plan: seq<Send>, product: Product): set<seq<Prepared>> {
    set s <- plan | s.asBatch && s.product == product :: s.orders
  }

  lemma {:induction false} UntriggeredIsKeyed(prepared: seq<Prepared>, product: Product)
    ensures product == Spot || product == Perp || product == Inverse ==>
              OfKey(prepared, BatchKey, product) == Untriggered(prepared, product)
    ensures product == Delivery || product == Options ==> OfKey(prepared, BatchKey, product) == []
    ensures forall p <- Untriggered(prepared, product) :: !p.isTrigger && p.product == product
    decreases |prepared|
  {
    if prepared != [] {
      UntriggeredIsKeyed(prepared[..|prepared| - 1], product);
    }
  }

  lemma {:induction false} OnPairIsKeyed(group: seq<Prepared>, pair: string)
    ensures OfKey(group, PairKey, pair) == OnPair(group, pair)
    decreases |group|
  {
    if group != [] {
      OnPairIsKeyed(group[..|group| - 1], pair);
    }
  }

  lemma CapsInPlainTerms(product: Product, group: seq<Prepared>)
    ensures MeetsCaps(product, group) <==> VenueTakes(product, group)
  {
    forall pair ensures OfKey(group, PairKey, pair) == OnPair(group, pair) {
      OnPairIsKeyed(group, pair);
    }
  }

  lemma {:induction false} OrdersMember(plan: seq<Send>, p: Prepared)
    requires p in Orders(plan)
    ensures exists s <- plan :: p in s.orders
    decreases |plan|
  {
    var before, last := plan[..|plan| - 1], plan[|plan| - 1];
    if p in last.orders {
      assert last in plan;
    } else {
      OrdersMember(before, p);
    }
  }

  lemma SendInPlainTerms(s: Send, prepared: seq<Prepared>)
    requires SendIsSound(s, prepared)
    ensures s.asBatch ==> BatchIsAsPromised(s, prepared)
  {
    UntriggeredIsKeyed(prepared, s.product);
    CapsInPlainTerms(s.product, s.orders);
  }

  lemma BatchesInPlainTerms(plan: seq<Send>, prepared: seq<Prepared>, product: Product)
    requires PlanIsSound(plan, prepared)
    ensures Untriggered(prepared, product) in BatchesOf(plan, product) <==>
            && (product == Spot || product == Perp || product == Inverse)
            && |Untriggered(prepared, product)| >= 2 && VenueTakes(product, Untriggered(prepared, product))
  {
    var orders := OfKey(prepared, BatchKey, product);
    UntriggeredIsKeyed(prepared, product);
    CapsInPlainTerms(product, orders);
    if exists s <- plan :: s.asBatch && s.product == product {
      var s :| s in plan && s.asBatch && s.product == product;
      assert SendIsSound(s, prepared);
      SendInPlainTerms(s, prepared);
    }
  }

  lemma SentByItself(plan: seq<Send>, prepared: seq<Prepared>, p: Prepared)
    requires PlanIsSound(plan, prepared) && p in prepared
    requires p.isTrigger || p.product == Delivery || p.product == Options
    ensures exists s <- plan :: !s.asBatch && s.orders == [p] && s.product == p.product
  {
    assert p in multiset(Orders(plan));
    OrdersMember(plan, p);
    var s :| s in plan && p in s.orders;
    StandsAlone(s, prepared, p);
  }

  lemma StandsAlone(s: Send, prepared: seq<Prepared>, p: Prepared)
    requires SendIsSound(s, prepared) && p in s.orders
    requires p.isTrigger || p.product == Delivery || p.product == Options
    ensures !s.asBatch && s.orders == [p] && s.product == p.product
  {
    SendInPlainTerms(s, prepared);
  }

  lemma PlanInPlainTerms(plan: seq<Send>, prepared: seq<Prepared>)
    requires PlanIsSound(plan, prepared)
    ensures PlanIsAsPromised(plan, prepared)
  {
    forall s <- plan ensures if s.asBatch then BatchIsAsPromised(s, prepared) else |s.orders| == 1 {
      assert SendIsSound(s, prepared);
      SendInPlainTerms(s, prepared);
    }
    forall product
      ensures Untriggered(prepared, product) in BatchesOf(plan, product) <==>
              && (product == Spot || product == Perp || product == Inverse)
              && |Untriggered(prepared, product)| >= 2 && VenueTakes(product, Untriggered(prepared, product))
    {
      BatchesInPlainTerms(plan, prepared, product);
    }
    forall p <- prepared | p.isTrigger || p.product == Delivery || p.product == Options
      ensures exists s <- plan :: !s.asBatch && s.orders == [p] && s.product == p.product
    {
      SentByItself(plan, prepared, p);
    }
  }

  lemma PlanTurn(groups: seq<Group<Prepared, Product>>, i: nat)
    requires i < |groups|
    ensures PlanOf(groups[..i + 1]) == PlanOf(groups[..i]) + SendsOf(groups[i])
  {
    assert groups[..i + 1][..i] == groups[..i];
  }

  /** `_plan_order_list`. */
  method PlanOrderList(prepared: seq<Prepared>) returns (plan: seq<Send>)
    ensures PlanIsSound(plan, prepared) && PlanIsAsPromised(plan, prepared)
    ensures Orders(plan) == prepared <==> Contiguous(prepared, BatchKey)
  {
    var groups := GroupBy(prepared, BatchKey);
    NoEmptyGroup(groups, prepared);
    plan := [];
    for i := 0 to |groups|
      invariant plan == PlanOf(groups[..i])
    {
      var group := groups[i].items;
      var product := group[0].product;
      PlanTurn(groups, i);
      var batch := false;
      if |group| > 1 {
        batch := BatchFits(product, group);
      }
      if batch {
        plan := plan + [Send(product, group, true)];
      } else {
        plan := plan + Singles(product, group);
      }
    }
    assert groups[..|groups|] == groups;
    PlanSound(groups, prepared);
    PlanInPlainTerms(plan, prepared);
    PlanOrders(groups);
    OrderIsKeptIffContiguous(groups, prepared, BatchKey);
  }

  /** The order of the sends is not always the caller's: two products that alternate are regrouped. */
  lemma AlternatingProductsAreReordered(groups: seq<Group<Prepared, Product>>, a: Prepared, b: Prepared, c: Prepared)
    requires BatchKey(a) == Some(Perp) && BatchKey(b) == Some(Spot) && BatchKey(c) == Some(Perp)
    requires IsGrouping(groups, [a, b, c], BatchKey)
    ensures Orders(PlanOf(groups)) == [a, c, b]
  {
    NoEmptyGroup(groups, [a, b, c]);
    PlanOrders(groups);
    ThreeLeads(a, b, c);
    AlternatingGroups(groups, [a, b, c], a, b, c);
  }

  lemma AlternatingGroups(groups: seq<Group<Prepared, Product>>, items: seq<Prepared>, a: Prepared, b: Prepared,
                          c: Prepared)
    requires IsGrouping(groups, items, BatchKey) && Leads(items, BatchKey) == [a, b]
    requires BatchKey(a) == Some(Perp) && BatchKey(b) == Some(Spot)
    requires OfKey(items, BatchKey, Perp) == [a, c] && OfKey(items, BatchKey, Spot) == [b]
    ensures Flatten(groups) == [a, c, b]
  {
    TwoGroups(groups, items, a, b);
  }

  lemma TwoGroups(groups: seq<Group<Prepared, Product>>, items: seq<Prepared>, a: Prepared, b: Prepared)
    requires BatchKey(a).Some? && BatchKey(b).Some? && IsGrouping(groups, items, BatchKey)
    requires Leads(items, BatchKey) == [a, b]
    ensures Flatten(groups) == OfKey(items, BatchKey, BatchKey(a).value) + OfKey(items, BatchKey, BatchKey(b).value)
  {
    assert |groups| == 2;
    WholeGroup(groups[0], items, a);
    WholeGroup(groups[1], items, b);
    assert groups == [groups[0], groups[1]];
    FlattenTwo(groups[0], groups[1]);
  }

  lemma WholeGroup(g: Group<Prepared, Product>, items: seq<Prepared>, lead: Prepared)
    requires Whole(g, items, BatchKey) && g.items[0] == lead && BatchKey(lead).Some?
    ensures g == Group(BatchKey(lead), OfKey(items, BatchKey, BatchKey(lead).value))
  {
  }

  lemma FlattenTwo(g: Group<Prepared, Product>, h: Group<Prepared, Product>)
    ensures Flatten([g, h]) == g.items + h.items
  {
    assert [g, h][..1] == [g] && [g][..0] == [];
    assert Flatten([g]) == g.items;
  }

  lemma ThreeLeads(a: Prepared, b: Prepared, c: Prepared)
    requires BatchKey(a) == Some(Perp) && BatchKey(b) == Some(Spot) && BatchKey(c) == Some(Perp)
    ensures Leads([a, b, c], BatchKey) == [a, b]
    ensures OfKey([a, b, c], BatchKey, Perp) == [a, c] && OfKey([a, b, c], BatchKey, Spot) == [b]
  {
    var none: seq<Prepared> := [];
    assert [a, b, c][..2] == [a, b] && [a, b][..1] == [a] && [a][..0] == none;
    assert OfKey([a], BatchKey, Perp) == [a] && OfKey([a], BatchKey, Spot) == [];
    assert OfKey([a, b], BatchKey, Perp) == [a] && OfKey([a, b], BatchKey, Spot) == [b];
    assert Leads([a], BatchKey) == [a] && Leads([a, b], BatchKey) == [a, b];
  }

  // -- fanning a batch response out --------------------------------------

  /** One element of the response; `text` and `failureLabel` are empty when the row states none. */
  datatype Row =
    | Unreadable
    | Row(text: string, succeeded: Option<bool>, failureLabel: string, hasId: bool)

  /** What one order is told: the venue's refusal, the venue's order object, or nothing certain. */
  datatype Outcome = Rejected(row: Row) | Handled(row: Row) | StatesNeither | NoResult

  datatype Told = Told(order: nat, outcome: Outcome)

  /** A row the venue marked failed, or gave a failure label without marking it succeeded. */
  predicate Fails(row: Row)
    requires row.Row?
  {
    row.succeeded == Some(false) || (row.succeeded != Some(true) && row.failureLabel != "")
  }

  function Resolve(row: Row): Outcome
    requires row.Row?
  {
    if Fails(row) then Rejected(row) else if row.hasId then Handled(row) else StatesNeither
  }

  /** The order whose request carried this text; the last one, if several did. */
  function ByText(group: seq<Prepared>, text: string): Option<nat> {
    if group == [] then None
    else if group[|group| - 1].text == Some(text) then Some(group[|group| - 1].order)
    else ByText(group[..|group| - 1], text)
  }

  /** The order one row speaks for: by text first, by position only when the lengths agree. */
  function Attributed(group: seq<Prepared>, rows: seq<Row>, i: nat): Option<nat>
    requires i < |rows|
  {
    if rows[i].Unreadable? then None
    else if rows[i].text != "" then ByText(group, rows[i].text)
    else if |rows| != |group| then None
    else Some(group[i].order)
  }

  predicate Answered(group: seq<Prepared>, rows: seq<Row>, order: nat) {
    exists i :: 0 <= i < |rows| && Attributed(group, rows, i) == Some(order)
  }

  /** What the fan-out says, as facts about each order: one per row attributed to it, or none at all. */
  ghost predicate Says(group: seq<Prepared>, rows: seq<Row>, told: Told) {
    || (exists i :: 0 <= i < |rows| &&
          Attributed(group, rows, i) == Some(told.order) && told.outcome == Resolve(rows[i]))
    || (told.outcome == NoResult && (exists p <- group :: p.order == told.order) && !Answered(group, rows, told.order))
  }

  /** What is told, in order: row by row to the order each speaks for, then to the orders left over. */
  function Telling(group: seq<Prepared>, rows: seq<Row>): seq<Told> {
    RowTells(group, rows, |rows|) + LeftTells(group, rows, |group|)
  }

  function RowTells(group: seq<Prepared>, rows: seq<Row>, n: nat): seq<Told>
    requires n <= |rows|
  {
    if n == 0 then [] else
    var order := Attributed(group, rows, n - 1);
    RowTells(group, rows, n - 1) + (if order.Some? then [Told(order.value, Resolve(rows[n - 1]))] else [])
  }

  function LeftTells(group: seq<Prepared>, rows: seq<Row>, n: nat): seq<Told>
    requires n <= |group|
  {
    if n == 0 then [] else
    LeftTells(group, rows, n - 1)
    + (if Answered(group, rows, group[n - 1].order) then [] else [Told(group[n - 1].order, NoResult)])
  }

  lemma {:induction false} RowTellsMember(group: seq<Prepared>, rows: seq<Row>, n: nat, told: Told)
    requires n <= |rows|
    ensures told in RowTells(group, rows, n) <==>
            exists j :: 0 <= j < n && Attributed(group, rows, j) == Some(told.order) && told.outcome == Resolve(rows[j])
    decreases n
  {
    if n > 0 {
      RowTellsMember(group, rows, n - 1, told);
    }
  }

  lemma {:induction false} LeftTellsMember(group: seq<Prepared>, rows: seq<Row>, n: nat, told: Told)
    requires n <= |group|
    ensures told in LeftTells(group, rows, n) <==>
            told.outcome == NoResult && !Answered(group, rows, told.order)
            && exists j :: 0 <= j < n && group[j].order == told.order
    decreases n
  {
    if n > 0 {
      LeftTellsMember(group, rows, n - 1, told);
    }
  }

  lemma TellingSays(group: seq<Prepared>, rows: seq<Row>, told: Told)
    ensures told in Telling(group, rows) <==> Says(group, rows, told)
  {
    RowTellsMember(group, rows, |rows|, told);
    LeftTellsMember(group, rows, |group|, told);
    assert forall j :: 0 <= j < |group| ==> group[j] in group;
  }

  lemma {:induction false} ByTextIsSent(group: seq<Prepared>, text: string)
    ensures ByText(group, text).Some? ==>
            exists p <- group :: p.order == ByText(group, text).value && p.text == Some(text)
    ensures ByText(group, text).None? ==> forall p <- group :: p.text != Some(text)
    decreases |group|
  {
    if group != [] {
      ByTextIsSent(group[..|group| - 1], text);
      assert group == group[..|group| - 1] + [group[|group| - 1]];
    }
  }

  /** The texts the requests carried, each with its order. */
  method IndexTexts(group: seq<Prepared>) returns (orderByText: map<string, nat>)
    ensures forall text :: text in orderByText <==> text != "" && ByText(group, text).Some?
    ensures forall text <- orderByText :: ByText(group, text) == Some(orderByText[text])
  {
    orderByText := map[];
    for i := 0 to |group|
      invariant forall text :: text in orderByText <==> text != "" && ByText(group[..i], text).Some?
      invariant forall text <- orderByText :: ByText(group[..i], text) == Some(orderByText[text])
    {
      assert group[..i + 1][..i] == group[..i];
      if group[i].text.Some? && group[i].text.value != "" {
        orderByText := orderByText[group[i].text.value := group[i].order];
      }
    }
    assert group[..|group|] == group;
  }

  /** `_apply_batch_results`: exactly what is told, to which order, how often and in which order. */
  method ApplyBatchResults(group: seq<Prepared>, rows: seq<Row>) returns (events: seq<Told>)
    ensures events == Telling(group, rows)
  {
    var orderByText := IndexTexts(group);
    var aligned := |rows| == |group|;
    var answered: set<nat> := {};
    events := [];
    for i := 0 to |rows|
      invariant forall order ::
        (order in answered <==> exists j :: 0 <= j < i && Attributed(group, rows, j) == Some(order))
      invariant events == RowTells(group, rows, i)
    {
      var row := rows[i];
      var order: Option<nat> := None;
      if row.Unreadable? {
      } else if row.text != "" {
        if row.text in orderByText {
          order := Some(orderByText[row.text]);
        }
      } else if aligned {
        order := Some(group[i].order);
      }
      assert order == Attributed(group, rows, i);
      if order.Some? {
        answered := answered + {order.value};
        events := events + [Told(order.value, Resolve(row))];
      }
    }

    for i := 0 to |group|
      invariant events == RowTells(group, rows, |rows|) + LeftTells(group, rows, i)
    {
      if group[i].order !in answered {
        events := events + [Told(group[i].order, NoResult)];
      }
    }
  }

  // -- the fan-out in plain terms ----------------------------------------

  /** The request at this position is the last that carried the text. */
  predicate LastWithText(group: seq<Prepared>, k: nat, text: string) {
    k < |group| && group[k].text == Some(text) && forall j :: k < j < |group| ==> group[j].text != Some(text)
  }

  lemma {:induction false} ByTextIsLast(group: seq<Prepared>, text: string, k: nat)
    requires LastWithText(group, k, text)
    ensures ByText(group, text) == Some(group[k].order)
    decreases |group|
  {
    var before := group[..|group| - 1];
    if k < |before| {
      forall j | k < j < |before| ensures before[j].text != Some(text) {
        assert group[j].text != Some(text);
      }
      ByTextIsLast(before, text, k);
    }
  }

  /** A readable row with a text speaks for the last order sent with that text, wherever the row stands. */
  lemma TextedRowIsAttributed(group: seq<Prepared>, rows: seq<Row>, i: nat, k: nat)
    requires i < |rows| && rows[i].Row? && rows[i].text != "" && LastWithText(group, k, rows[i].text)
    ensures Told(group[k].order, Resolve(rows[i])) in Telling(group, rows)
  {
    ByTextIsLast(group, rows[i].text, k);
    RowIsTold(group, rows, i);
  }

  /** One without a text speaks for the order at its own index, if there are as many rows as orders. */
  lemma UntextedRowIsAttributed(group: seq<Prepared>, rows: seq<Row>, i: nat)
    requires i < |rows| == |group| && rows[i].Row? && rows[i].text == ""
    ensures Told(group[i].order, Resolve(rows[i])) in Telling(group, rows)
  {
    RowIsTold(group, rows, i);
  }

  /** Any other row speaks for nobody: unreadable, with a text nobody sent, or untexted where the lengths differ. */
  lemma OtherRowsSpeakForNobody(group: seq<Prepared>, rows: seq<Row>, i: nat)
    requires i < |rows|
    requires rows[i].Row? ==>
               if rows[i].text != "" then forall p <- group :: p.text != Some(rows[i].text) else |rows| != |group|
    ensures Attributed(group, rows, i).None?
  {
    if rows[i].Row? && rows[i].text != "" {
      ByTextIsSent(group, rows[i].text);
    }
  }

  lemma RowIsTold(group: seq<Prepared>, rows: seq<Row>, i: nat)
    requires i < |rows| && Attributed(group, rows, i).Some?
    ensures Told(Attributed(group, rows, i).value, Resolve(rows[i])) in Telling(group, rows)
  {
    TellingSays(group, rows, Told(Attributed(group, rows, i).value, Resolve(rows[i])));
  }

  /**
    What a row tells its order: a rejection if it is marked failed, or carries a failure label
    without being marked succeeded; otherwise the venue's order object if it names one, and nothing
    certain if not.
  */
  lemma RowOutcome(row: Row)
    requires row.Row?
    ensures row.succeeded == Some(false) ==> Resolve(row) == Rejected(row)
    ensures row.succeeded == None && row.failureLabel != "" ==> Resolve(row) == Rejected(row)
    ensures row.succeeded == Some(true) || (row.succeeded == None && row.failureLabel == "") ==>
              Resolve(row) == if row.hasId then Handled(row) else StatesNeither
  {
  }

  /** An order of the batch is either answered by a row or left without a result, never both. */
  lemma AnsweredOrLeft(group: seq<Prepared>, rows: seq<Row>, p: Prepared)
    requires p in group
    ensures Says(group, rows, Told(p.order, NoResult)) <==> !Answered(group, rows, p.order)
    ensures (exists o :: o != NoResult && Says(group, rows, Told(p.order, o))) <==> Answered(group, rows, p.order)
  {
    if Answered(group, rows, p.order) {
      var i :| 0 <= i < |rows| && Attributed(group, rows, i) == Some(p.order);
      assert Says(group, rows, Told(p.order, Resolve(rows[i])));
    }
  }

  /** Nothing is ever told to an order outside the batch. */
  lemma OnlySentOrders(group: seq<Prepared>, rows: seq<Row>, told: Told)
    requires Says(group, rows, told)
    ensures exists p <- group :: p.order == told.order
  {
    if told.outcome != NoResult {
      var i :| 0 <= i < |rows| && Attributed(group, rows, i) == Some(told.order) && told.outcome == Resolve(rows[i]);
      if rows[i].text != "" {
        ByTextIsSent(group, rows[i].text);
      } else {
        assert group[i] in group;
      }
    }
  }

  /** No order is rejected without a failing row attributed to it. */
  lemma RejectionsHaveAFailingRow(group: seq<Prepared>, rows: seq<Row>, order: nat, row: Row)
    requires Says(group, rows, Told(order, Rejected(row)))
    ensures exists i :: 0 <= i < |rows| &&
              rows[i] == row && row.Row? && Fails(row) && Attributed(group, rows, i) == Some(order)
  {
  }

  /** A row speaks by its text, or the response is not index-aligned and it does not speak at all. */
  predicate SpeaksByText(group: seq<Prepared>, rows: seq<Row>) {
    |rows| != |group| || forall row <- rows :: row.Row? ==> row.text != ""
  }

  lemma PermutedAnswered(group: seq<Prepared>, rows: seq<Row>, rows': seq<Row>, order: nat)
    requires SpeaksByText(group, rows) && multiset(rows) == multiset(rows')
    ensures Answered(group, rows, order) ==> Answered(group, rows', order)
  {
    assert |rows| == |multiset(rows)| == |rows'|;
    if Answered(group, rows, order) {
      var i :| 0 <= i < |rows| && Attributed(group, rows, i) == Some(order);
      assert rows[i] in multiset(rows');
      var j :| 0 <= j < |rows'| && rows'[j] == rows[i];
      assert Attributed(group, rows', j) == Attributed(group, rows, i);
    }
  }

  /** What a row tells by its text alone. */
  function TextTells(group: seq<Prepared>): Row -> seq<Told> {
    (row: Row) =>
      if row.Row? && row.text != "" && ByText(group, row.text).Some?
      then [Told(ByText(group, row.text).value, Resolve(row))] else []
  }

  lemma {:induction false} RowsTellByText(group: seq<Prepared>, rows: seq<Row>, n: nat)
    requires SpeaksByText(group, rows) && n <= |rows|
    ensures RowTells(group, rows, n) == JoinOf(rows[..n], TextTells(group))
    decreases n
  {
    if n > 0 {
      RowsTellByText(group, rows, n - 1);
      assert rows[..n][..n - 1] == rows[..n - 1];
    }
  }

  lemma {:induction false} JoinConcat<G, S>(a: seq<G>, b: seq<G>, parts: G -> seq<S>)
    ensures JoinOf(a + b, parts) == JoinOf(a, parts) + JoinOf(b, parts)
    decreases |b|
  {
    if b == [] {
      assert a + b == a;
    } else {
      assert (a + b)[..|a + b| - 1] == a + b[..|b| - 1];
      JoinConcat(a, b[..|b| - 1], parts);
    }
  }

  lemma JoinOne<G, S>(x: G, parts: G -> seq<S>)
    ensures JoinOf([x], parts) == parts(x)
  {
    assert [x][..0] == [];
  }

  /** One element in the middle adds its part. */
  lemma JoinMiddle<G, S>(a: seq<G>, x: G, b: seq<G>, parts: G -> seq<S>)
    ensures multiset(JoinOf(a + [x] + b, parts)) == multiset(JoinOf(a + b, parts)) + multiset(parts(x))
  {
    JoinConcat(a + [x], b, parts);
    JoinConcat(a, [x], parts);
    JoinConcat(a, b, parts);
    JoinOne(x, parts);
  }

  lemma {:induction false} JoinPermutes<G, S>(a: seq<G>, b: seq<G>, parts: G -> seq<S>)
    requires multiset(a) == multiset(b)
    ensures multiset(JoinOf(a, parts)) == multiset(JoinOf(b, parts))
    decreases |a|
  {
    if a == [] {
      assert |multiset(a)| == |multiset(b)| == |b|;
    } else {
      var init, x := a[..|a| - 1], a[|a| - 1];
      assert x in multiset(b);
      var j :| 0 <= j < |b| && b[j] == x;
      var before, behind := b[..j], b[j + 1..];
      WithoutOne(init, before, behind, x, a, b);
      JoinPermutes(init, before + behind, parts);
      JoinMiddle(before, x, behind, parts);
    }
  }

  lemma WithoutOne<G>(init: seq<G>, before: seq<G>, behind: seq<G>, x: G, a: seq<G>, b: seq<G>)
    requires multiset(a) == multiset(b)
    requires |a| == |init| + 1 && a[..|init|] == init && a[|init|] == x
    requires |b| == |before| + 1 + |behind| && b[..|before|] == before && b[|before|] == x
             && b[|before| + 1..] == behind
    ensures multiset(init) == multiset(before + behind) && b == before + [x] + behind
  {
    assert a == init + [x] && b == before + [x] + behind;
    assert multiset(a) == multiset(init) + multiset{x};
    assert multiset(b) == multiset(before) + multiset{x} + multiset(behind);
    assert multiset(before + behind) == multiset(before) + multiset(behind);
    forall y ensures multiset(init)[y] == multiset(before + behind)[y] {
      assert multiset(a)[y] == multiset(init)[y] + multiset{x}[y];
      assert multiset(b)[y] == multiset(before + behind)[y] + multiset{x}[y];
    }
  }

  lemma {:induction false} LeftTellsAlike(group: seq<Prepared>, rows: seq<Row>, rows': seq<Row>, n: nat)
    requires n <= |group| && forall order :: Answered(group, rows, order) <==> Answered(group, rows', order)
    ensures LeftTells(group, rows, n) == LeftTells(group, rows', n)
    decreases n
  {
    if n > 0 {
      LeftTellsAlike(group, rows, rows', n - 1);
    }
  }

  /**
    A misaligned response is harmless: as long as no readable row has to be placed by its
    position, permuting the rows changes nothing any order is told, nor how often.
  */
  lemma PermutingRowsChangesNothing(group: seq<Prepared>, rows: seq<Row>, rows': seq<Row>)
    requires SpeaksByText(group, rows) && multiset(rows) == multiset(rows')
    ensures multiset(Telling(group, rows)) == multiset(Telling(group, rows'))
  {
    assert |rows| == |multiset(rows)| == |rows'|;
    forall row ensures row in rows <==> row in rows' {
      assert row in multiset(rows) <==> row in multiset(rows');
    }
    RowsTellByText(group, rows, |rows|);
    RowsTellByText(group, rows', |rows'|);
    assert rows[..|rows|] == rows && rows'[..|rows'|] == rows';
    JoinPermutes(rows, rows', TextTells(group));
    forall order ensures Answered(group, rows, order) <==> Answered(group, rows', order) {
      PermutedAnswered(group, rows, rows', order);
      PermutedAnswered(group, rows', rows, order);
    }
    LeftTellsAlike(group, rows, rows', |group|);
  }

  /** Rows that speak for distinct orders. */
  ghost predicate DistinctRows(group: seq<Prepared>, rows: seq<Row>) {
    forall i, j :: 0 <= i < j < |rows| && Attributed(group, rows, i).Some? ==>
      Attributed(group, rows, i) != Attributed(group, rows, j)
  }

  ghost predicate DistinctOrders(group: seq<Prepared>) {
    forall i, j :: 0 <= i < j < |group| ==> group[i].order != group[j].order
  }

  ghost predicate ToldOnce(telling: seq<Told>) {
    forall i, j :: 0 <= i < j < |telling| ==> telling[i].order != telling[j].order
  }

  lemma ToldOnceAppend(a: seq<Told>, b: seq<Told>)
    requires ToldOnce(a) && ToldOnce(b)
    requires forall x, y :: x in a && y in b ==> x.order != y.order
    ensures ToldOnce(a + b)
  {
    forall i, j | 0 <= i < j < |a + b| ensures (a + b)[i].order != (a + b)[j].order {
      if i < |a| <= j {
        assert a[i] in a && b[j - |a|] in b;
      }
    }
  }

  lemma {:induction false} RowsTellOnce(group: seq<Prepared>, rows: seq<Row>, n: nat)
    requires DistinctRows(group, rows) && n <= |rows|
    ensures ToldOnce(RowTells(group, rows, n))
    decreases n
  {
    if n > 0 {
      RowsTellOnce(group, rows, n - 1);
      var order := Attributed(group, rows, n - 1);
      forall told | told in RowTells(group, rows, n - 1) ensures Some(told.order) != order {
        RowTellsMember(group, rows, n - 1, told);
      }
      if order.Some? {
        ToldOnceAppend(RowTells(group, rows, n - 1), [Told(order.value, Resolve(rows[n - 1]))]);
      }
    }
  }

  lemma {:induction false} LeftTellOnce(group: seq<Prepared>, rows: seq<Row>, n: nat)
    requires DistinctOrders(group) && n <= |group|
    ensures ToldOnce(LeftTells(group, rows, n))
    decreases n
  {
    if n > 0 {
      LeftTellOnce(group, rows, n - 1);
      forall told | told in LeftTells(group, rows, n - 1) ensures told.order != group[n - 1].order {
        LeftTellsMember(group, rows, n - 1, told);
      }
      ToldOnceAppend(LeftTells(group, rows, n - 1), [Told(group[n - 1].order, NoResult)]);
    }
  }

  /** When the rows name distinct orders, each order of the batch is told exactly one thing, exactly once. */
  lemma ExactlyOneOutcome(group: seq<Prepared>, rows: seq<Row>)
    requires DistinctRows(group, rows) && DistinctOrders(group)
    ensures ToldOnce(Telling(group, rows))
    ensures forall p <- group :: exists told <- Telling(group, rows) :: told.order == p.order
  {
    RowsTellOnce(group, rows, |rows|);
    LeftTellOnce(group, rows, |group|);
    forall x, y | x in RowTells(group, rows, |rows|) && y in LeftTells(group, rows, |group|)
      ensures x.order != y.order
    {
      RowTellsMember(group, rows, |rows|, x);
      LeftTellsMember(group, rows, |group|, y);
    }
    ToldOnceAppend(RowTells(group, rows, |rows|), LeftTells(group, rows, |group|));
    forall p <- group ensures exists told <- Telling(group, rows) :: told.order == p.order {
      if Answered(group, rows, p.order) {
        var i :| 0 <= i < |rows| && Attributed(group, rows, i) == Some(p.order);
        TellingSays(group, rows, Told(p.order, Resolve(rows[i])));
      } else {
        TellingSays(group, rows, Told(p.order, NoResult));
      }
    }
  }
}
