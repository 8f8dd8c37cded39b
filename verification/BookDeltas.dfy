/**
  What the data client publishes about a book (gateio_nt/data.py): the delta batches, and
  the book a downstream consumer assembles from them.
*/
module BookDeltas {
  import opened Basics
  import opened Books

  datatype Delta =
    | Clear
    | Add(side: SideName, price: int, quantity: int)
    | Update(side: SideName, price: int, quantity: int)
    | Delete(side: SideName, price: int)

  /**
    A venue size in units of the instrument's size increment, truncated toward zero.
    `unit` is the increment on the integer scale of venue sizes.
  */
  function VenueQuantity(size: int, unit: int): (quantity: int)
    requires unit > 0
    ensures size >= 0 ==> 0 <= quantity * unit <= size < quantity * unit + unit
    ensures size <= 0 ==> quantity * unit - unit < size <= quantity * unit <= 0
  {
    if size >= 0 then size / unit else -(-size / unit)
  }

  /** What the batches below need of a conversion: nothing stays nothing, and no size turns negative. */
  ghost predicate Quantizes(quantize: int -> int) {
    quantize(0) == 0 && forall size :: size > 0 ==> quantize(size) >= 0
  }

  lemma VenueQuantityQuantizes(unit: int)
    requires unit > 0
    ensures Quantizes(size => if unit > 0 then VenueQuantity(size, unit) else 0)
  {
  }

  // -- the consumer ------------------------------------------------------

  /** One delta on the consumer's book; an addition or update of size zero is rejected. */
  function Consume(mirror: Depth, delta: Delta): Option<Depth> {
    match delta
    case Clear => Some(EMPTY_DEPTH)
    case Add(side, price, quantity) =>
      if quantity <= 0 then None else Some(mirror.Put(side, mirror.Get(side)[price := quantity]))
    case Update(side, price, quantity) =>
      if quantity <= 0 then None else Some(mirror.Put(side, mirror.Get(side)[price := quantity]))
    case Delete(side, price) => Some(mirror.Put(side, mirror.Get(side) - {price}))
  }

  /** A whole batch; one rejected delta aborts it. */
  function ConsumeBatch(mirror: Depth, batch: seq<Delta>): Option<Depth> {
    if batch == [] then Some(mirror) else
    var before := ConsumeBatch(mirror, batch[..|batch| - 1]);
    if before.None? then None else Consume(before.value, batch[|batch| - 1])
  }

  /** Everything published so far, oldest batch first, on an initially empty consumer. */
  function Mirror(published: seq<seq<Delta>>): Option<Depth> {
    if published == [] then Some(EMPTY_DEPTH) else
    var before := Mirror(published[..|published| - 1]);
    if before.None? then None else ConsumeBatch(before.value, published[|published| - 1])
  }

  /** The local book as the instrument can express it: truncated sizes, unrepresentable levels absent. */
  function RepresentSide(side: Side, quantize: int -> int): Side
  {
    map p | p in side && quantize(side[p]) > 0 :: quantize(side[p])
  }

  function Represent(d: Depth, quantize: int -> int): Depth
  {
    Depth(RepresentSide(d.bids, quantize), RepresentSide(d.asks, quantize))
  }

  lemma {:induction false} ConsumeConcat(mirror: Depth, a: seq<Delta>, b: seq<Delta>)
    ensures var mid := ConsumeBatch(mirror, a);
            ConsumeBatch(mirror, a + b) == if mid.None? then None else ConsumeBatch(mid.value, b)
    decreases |b|
  {
    if b == [] {
      assert a + b == a;
    } else {
      assert (a + b)[..|a + b| - 1] == a + b[..|b| - 1];
      ConsumeConcat(mirror, a, b[..|b| - 1]);
    }
  }

  // -- snapshot batches --------------------------------------------------

  predicate IsBest(best: int, prices: set<int>, highest: bool) {
    best in prices && forall q <- prices :: if highest then q <= best else q >= best
  }

  lemma {:induction false} HasBest(prices: set<int>, highest: bool)
    requires prices != {}
    ensures exists best <- prices :: IsBest(best, prices, highest)
    decreases |prices|
  {
    var p := Pick(prices);
    var rest := prices - {p};
    if rest == {} {
      assert prices == {p};
      assert IsBest(p, prices, highest);
    } else {
      HasBest(rest, highest);
      var other :| other in rest && IsBest(other, rest, highest);
      var best := if (if highest then other > p else other < p) then other else p;
      forall q <- prices ensures if highest then q <= best else q >= best {
        if q != p {
          assert q in rest;
        }
      }
      assert IsBest(best, prices, highest);
    }
  }

  function Best(prices: set<int>, highest: bool): (best: int)
    requires prices != {}
    ensures IsBest(best, prices, highest)
  {
    HasBest(prices, highest);
    var best :| best in prices && IsBest(best, prices, highest);
    best
  }

  /** The levels of a side, best first: highest price first for bids, lowest first for asks. */
  function SortedLevels(side: Side, highest: bool): seq<Level>
    decreases |side|
  {
    if side == map[] then [] else
    var p := Best(side.Keys, highest);
    assert (side - {p}).Keys == side.Keys - {p};
    [Level(p, side[p])] + SortedLevels(side - {p}, highest)
  }

  function AddOne(name: SideName, level: Level, quantize: int -> int): seq<Delta>
  {
    var quantity := quantize(level.size);
    if quantity == 0 then [] else [Add(name, level.price, quantity)]
  }

  function Adds(name: SideName, levels: seq<Level>, quantize: int -> int): seq<Delta>
  {
    if levels == [] then []
    else Adds(name, levels[..|levels| - 1], quantize) + AddOne(name, levels[|levels| - 1], quantize)
  }

  function SnapshotDeltas(d: Depth, quantize: int -> int): seq<Delta>
  {
    [Clear] + Adds(Bid, SortedLevels(d.bids, true), quantize) + Adds(Ask, SortedLevels(d.asks, false), quantize)
  }

  // -- best first --------------------------------------------------------

  predicate Better(name: SideName, price: int, other: int) {
    if name == Bid then price > other else price < other
  }

  ghost predicate BestFirst(name: SideName, levels: seq<Level>) {
    forall i, j :: 0 <= i < j < |levels| ==> Better(name, levels[i].price, levels[j].price)
  }

  lemma {:induction false} SortedBestFirst(name: SideName, side: Side)
    ensures BestFirst(name, SortedLevels(side, name == Bid))
    ensures forall l <- SortedLevels(side, name == Bid) :: l.price in side && l.size == side[l.price]
    decreases |side|
  {
    if side != map[] {
      var p := Best(side.Keys, name == Bid);
      var rest := SortedLevels(side - {p}, name == Bid);
      assert (side - {p}).Keys == side.Keys - {p};
      SortedBestFirst(name, side - {p});
      forall l <- rest ensures Better(name, p, l.price) {
        assert l.price in side.Keys && l.price != p;
      }
      assert forall j :: 0 <= j < |rest| ==> rest[j] in rest;
    }
  }

  /** Additions of one side, in the order of the book. */
  ghost predicate AddsBestFirst(name: SideName, batch: seq<Delta>) {
    forall i, j :: 0 <= i < j < |batch| && AddsOn(name, batch[i]) && AddsOn(name, batch[j]) ==>
      Better(name, batch[i].price, batch[j].price)
  }

  predicate AddsOn(name: SideName, delta: Delta) {
    delta.Add? && delta.side == name
  }

  lemma {:induction false} AddsInOrder(name: SideName, levels: seq<Level>, quantize: int -> int)
    requires BestFirst(name, levels)
    ensures AddsBestFirst(name, Adds(name, levels, quantize))
    ensures forall delta <- Adds(name, levels, quantize) ::
              AddsOn(name, delta) && exists i :: 0 <= i < |levels| && levels[i].price == delta.price
    decreases |levels|
  {
    if levels != [] {
      var n := |levels| - 1;
      var before := Adds(name, levels[..n], quantize);
      AddsInOrder(name, levels[..n], quantize);
      forall delta <- before
        ensures Better(name, delta.price, levels[n].price)
             && exists i :: 0 <= i < |levels| && levels[i].price == delta.price
      {
        var i :| 0 <= i < n && levels[..n][i].price == delta.price;
        assert levels[i].price == delta.price;
      }
      assert forall i :: 0 <= i < |before| ==> before[i] in before;
    }
  }

  /** A batch of a CLEAR and the two sides, bids first. */
  lemma SidesInOrder(bids: seq<Delta>, asks: seq<Delta>, name: SideName)
    requires (forall delta <- bids :: AddsOn(Bid, delta)) && (forall delta <- asks :: AddsOn(Ask, delta))
    requires AddsBestFirst(Bid, bids) && AddsBestFirst(Ask, asks)
    ensures AddsBestFirst(name, [Clear] + bids + asks) && BidsBeforeAsks([Clear] + bids + asks)
  {
    var batch := [Clear] + bids + asks;
    forall i | 0 <= i < |batch|
      ensures i == 0 ==> batch[i] == Clear
      ensures 1 <= i < 1 + |bids| ==> batch[i] == bids[i - 1] && AddsOn(Bid, batch[i])
      ensures 1 + |bids| <= i ==> batch[i] == asks[i - 1 - |bids|] && AddsOn(Ask, batch[i])
    {
      if 1 <= i < 1 + |bids| {
        assert batch[i] == bids[i - 1] && bids[i - 1] in bids;
      } else if 1 + |bids| <= i {
        assert batch[i] == asks[i - 1 - |bids|] && asks[i - 1 - |bids|] in asks;
      }
    }
  }

  ghost predicate BidsBeforeAsks(batch: seq<Delta>) {
    forall i, j :: 0 <= i < |batch| && 0 <= j < |batch| && AddsOn(Bid, batch[i]) && AddsOn(Ask, batch[j]) ==> i < j
  }

  /** A snapshot goes out best prices first, the highest bid and the lowest ask, all bids before all asks. */
  lemma SnapshotIsBestFirst(d: Depth, quantize: int -> int, name: SideName)
    ensures var batch := SnapshotDeltas(d, quantize);
            batch[0] == Clear && AddsBestFirst(name, batch) && BidsBeforeAsks(batch)
  {
    var bids, asks := SortedLevels(d.bids, true), SortedLevels(d.asks, false);
    SortedBestFirst(Bid, d.bids);
    SortedBestFirst(Ask, d.asks);
    AddsInOrder(Bid, bids, quantize);
    AddsInOrder(Ask, asks, quantize);
    SidesInOrder(Adds(Bid, bids, quantize), Adds(Ask, asks, quantize), name);
  }

  lemma {:induction false} AddsConcat(name: SideName, a: seq<Level>, b: seq<Level>, quantize: int -> int)
    requires Quantizes(quantize)
    ensures Adds(name, a + b, quantize) == Adds(name, a, quantize) + Adds(name, b, quantize)
    decreases |b|
  {
    if b == [] {
      assert a + b == a;
    } else {
      assert (a + b)[..|a + b| - 1] == a + b[..|b| - 1];
      AddsConcat(name, a, b[..|b| - 1], quantize);
    }
  }

  /** The side with one more level, if the instrument can represent it. */
  function WithLevel(have: Side, level: Level, quantize: int -> int): Side
  {
    var q := quantize(level.size);
    if q == 0 then have else have[level.price := q]
  }

  lemma AddOneBuilds(mirror: Depth, name: SideName, level: Level, quantize: int -> int)
    requires Quantizes(quantize) && level.size > 0
    ensures ConsumeBatch(mirror, Adds(name, [level], quantize))
         == Some(mirror.Put(name, WithLevel(mirror.Get(name), level, quantize)))
  {
    OneAdd(name, level, quantize);
    if quantize(level.size) != 0 {
      ConsumeOne(mirror, Add(name, level.price, quantize(level.size)));
    }
  }

  lemma OneAdd(name: SideName, level: Level, quantize: int -> int)
    ensures Adds(name, [level], quantize) == AddOne(name, level, quantize)
  {
    assert [level][..0] == [];
  }

  lemma ConsumeOne(mirror: Depth, delta: Delta)
    ensures ConsumeBatch(mirror, [delta]) == Consume(mirror, delta)
  {
    assert [delta][..0] == [];
    assert ConsumeBatch(mirror, []) == Some(mirror);
  }

  lemma RepresentedAt(side: Side, p: int, quantize: int -> int)
    requires Quantizes(quantize) && Positive(side)
    ensures var r := RepresentSide(side, quantize);
            if p in side && quantize(side[p]) != 0
            then p in r && r[p] == quantize(side[p]) else p !in r
  {
    if p in side {
      assert quantize(side[p]) >= 0;
    }
  }

  lemma RepresentSplit(have: Side, side: Side, p: int, quantize: int -> int)
    requires Quantizes(quantize) && Positive(side) && p in side
    ensures WithLevel(have, Level(p, side[p]), quantize) + RepresentSide(side - {p}, quantize)
         == have + RepresentSide(side, quantize)
  {
    var a := WithLevel(have, Level(p, side[p]), quantize) + RepresentSide(side - {p}, quantize);
    var b := have + RepresentSide(side, quantize);
    forall q ensures (q in a <==> q in b) && (q in a ==> a[q] == b[q]) {
      RepresentedAt(side, q, quantize);
      RepresentedAt(side - {p}, q, quantize);
    }
    SameMap(a, b);
  }

  /** The additions of a sorted side put exactly its representable levels on the consumer's side. */
  lemma {:induction false} AddsBuildSide(mirror: Depth, name: SideName, side: Side, highest: bool, quantize: int -> int)
    requires Quantizes(quantize) && Positive(side)
    ensures ConsumeBatch(mirror, Adds(name, SortedLevels(side, highest), quantize))
         == Some(mirror.Put(name, mirror.Get(name) + RepresentSide(side, quantize)))
    decreases |side|
  {
    var have := mirror.Get(name);
    if side == map[] {
      assert have + RepresentSide(side, quantize) == have;
    } else {
      var p := Best(side.Keys, highest);
      var rest := side - {p};
      assert rest.Keys == side.Keys - {p};
      var level := Level(p, side[p]);
      AddsConcat(name, [level], SortedLevels(rest, highest), quantize);
      AddOneBuilds(mirror, name, level, quantize);
      var mid := mirror.Put(name, WithLevel(have, level, quantize));
      ConsumeConcat(mirror, Adds(name, [level], quantize), Adds(name, SortedLevels(rest, highest), quantize));
      AddsBuildSide(mid, name, rest, highest, quantize);
      RepresentSplit(have, side, p, quantize);
    }
  }

  lemma BothSidesBuilt(d: Depth, quantize: int -> int)
    requires Quantizes(quantize) && PositiveDepth(d)
    ensures ConsumeBatch(EMPTY_DEPTH, Adds(Bid, SortedLevels(d.bids, true), quantize)
                                      + Adds(Ask, SortedLevels(d.asks, false), quantize))
         == Some(Represent(d, quantize))
  {
    var bids, asks := Adds(Bid, SortedLevels(d.bids, true), quantize), Adds(Ask, SortedLevels(d.asks, false), quantize);
    ConsumeConcat(EMPTY_DEPTH, bids, asks);
    AddsBuildSide(EMPTY_DEPTH, Bid, d.bids, true, quantize);
    var mid := Depth(RepresentSide(d.bids, quantize), map[]);
    SameMap(EMPTY_DEPTH.bids + RepresentSide(d.bids, quantize), mid.bids);
    AddsBuildSide(mid, Ask, d.asks, false, quantize);
    SameMap(mid.asks + RepresentSide(d.asks, quantize), RepresentSide(d.asks, quantize));
  }

  /** Behind a CLEAR nothing of the consumer's book is left. */
  lemma ClearRestarts(mirror: Depth, bids: seq<Delta>, asks: seq<Delta>)
    ensures ConsumeBatch(mirror, [Clear] + bids + asks) == ConsumeBatch(EMPTY_DEPTH, bids + asks)
  {
    ConsumeOne(mirror, Clear);
    assert [Clear] + bids + asks == [Clear] + (bids + asks);
    ConsumeConcat(mirror, [Clear], bids + asks);
  }

  /** A snapshot batch makes any consumer hold the representable local book, and is never rejected. */
  lemma SnapshotRebuildsMirror(mirror: Depth, d: Depth, quantize: int -> int)
    requires Quantizes(quantize) && PositiveDepth(d)
    ensures ConsumeBatch(mirror, SnapshotDeltas(d, quantize)) == Some(Represent(d, quantize))
  {
    var bids, asks := Adds(Bid, SortedLevels(d.bids, true), quantize), Adds(Ask, SortedLevels(d.asks, false), quantize);
    ClearRestarts(mirror, bids, asks);
    BothSidesBuilt(d, quantize);
  }

  /** One more published batch is one more batch on the consumer. */
  lemma MirrorAppend(published: seq<seq<Delta>>, batch: seq<Delta>)
    ensures Mirror(published + [batch])
         == if Mirror(published).None? then None else ConsumeBatch(Mirror(published).value, batch)
  {
    assert (published + [batch])[..|published|] == published;
  }

  // -- update batches ----------------------------------------------------

  function UpdateDelta(c: Change, quantize: int -> int): Delta
  {
    var quantity := quantize(c.size);
    if quantity == 0 then Delete(c.side, c.price) else Update(c.side, c.price, quantity)
  }

  function UpdateDeltas(changes: seq<Change>, quantize: int -> int): seq<Delta>
  {
    if changes == [] then []
    else UpdateDeltas(changes[..|changes| - 1], quantize) + [UpdateDelta(changes[|changes| - 1], quantize)]
  }

  predicate NonNegative(changes: seq<Change>) {
    forall c <- changes :: c.size >= 0
  }

  lemma ChangeKeepsMirror(d: Depth, c: Change, quantize: int -> int)
    requires Quantizes(quantize) && c.size >= 0
    ensures Consume(Represent(d, quantize), UpdateDelta(c, quantize)) == Some(Represent(ApplyChange(d, c), quantize))
  {
    var side, after := d.Get(c.side), PutLevel(d.Get(c.side), Level(c.price, c.size));
    var q := quantize(c.size);
    if q == 0 {
      assert RepresentSide(after, quantize) == RepresentSide(side, quantize) - {c.price};
    } else {
      assert RepresentSide(after, quantize) == RepresentSide(side, quantize)[c.price := q];
    }
  }

  /** The batch of an update moves a consumer in step with the local book, and is never rejected. */
  lemma {:induction false} UpdatesKeepMirror(d: Depth, changes: seq<Change>, quantize: int -> int)
    requires Quantizes(quantize) && NonNegative(changes)
    ensures ConsumeBatch(Represent(d, quantize), UpdateDeltas(changes, quantize))
            == Some(Represent(Fold(d, changes), quantize))
    decreases |changes|
  {
    if changes != [] {
      var before, c := changes[..|changes| - 1], changes[|changes| - 1];
      UpdatesKeepMirror(d, before, quantize);
      ChangeKeepsMirror(Fold(d, before), c, quantize);
      var ds := UpdateDeltas(changes, quantize);
      assert ds[..|ds| - 1] == UpdateDeltas(before, quantize);
    }
  }

  /** No consumer rejects an update batch, whatever it holds. */
  lemma {:induction false} UpdatesAreAccepted(mirror: Depth, changes: seq<Change>, quantize: int -> int)
    requires Quantizes(quantize) && NonNegative(changes)
    ensures ConsumeBatch(mirror, UpdateDeltas(changes, quantize)).Some?
    decreases |changes|
  {
    if changes != [] {
      var ds := UpdateDeltas(changes, quantize);
      UpdatesAreAccepted(mirror, changes[..|changes| - 1], quantize);
      assert ds[..|ds| - 1] == UpdateDeltas(changes[..|changes| - 1], quantize);
    }
  }

  lemma {:induction false} LevelChangesNonNegative(name: SideName, side: Side, levels: seq<Level>)
    ensures NonNegative(LevelChanges(name, side, levels))
    decreases |levels|
  {
    if levels != [] {
      LevelChangesNonNegative(name, side, levels[..|levels| - 1]);
    }
  }

  // -- the loops that build the batches ----------------------------------

  method BuildAdds(name: SideName, levels: seq<Level>, quantize: int -> int) returns (deltas: seq<Delta>)
    requires Quantizes(quantize)
    ensures deltas == Adds(name, levels, quantize)
  {
    deltas := [];
    for i := 0 to |levels|
      invariant deltas == Adds(name, levels[..i], quantize)
    {
      assert levels[..i + 1][..i] == levels[..i];
      var quantity := quantize(levels[i].size);
      if quantity == 0 {
        continue;
      }
      deltas := deltas + [Add(name, levels[i].price, quantity)];
    }
    assert levels[..|levels|] == levels;
  }

  method BuildSnapshotDeltas(d: Depth, quantize: int -> int) returns (deltas: seq<Delta>)
    requires Quantizes(quantize) && PositiveDepth(d)
    ensures deltas == SnapshotDeltas(d, quantize)
    ensures forall mirror :: ConsumeBatch(mirror, deltas) == Some(Represent(d, quantize))
  {
    var bids := BuildAdds(Bid, SortedLevels(d.bids, true), quantize);
    var asks := BuildAdds(Ask, SortedLevels(d.asks, false), quantize);
    deltas := [Clear] + bids + asks;
    forall mirror {
      SnapshotRebuildsMirror(mirror, d, quantize);
    }
  }

  method BuildUpdateDeltas(changes: seq<Change>, quantize: int -> int) returns (deltas: seq<Delta>)
    requires Quantizes(quantize)
    ensures deltas == UpdateDeltas(changes, quantize)
  {
    deltas := [];
    for i := 0 to |changes|
      invariant deltas == UpdateDeltas(changes[..i], quantize)
    {
      assert changes[..i + 1][..i] == changes[..i];
      var quantity := quantize(changes[i].size);
      if quantity == 0 {
        deltas := deltas + [Delete(changes[i].side, changes[i].price)];
      } else {
        deltas := deltas + [Update(changes[i].side, changes[i].price, quantity)];
      }
    }
    assert changes[..|changes|] == changes;
  }
}
