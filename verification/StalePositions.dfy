/**
  The stale-position memory of gateio_nt/execution.py: what a recovery pass books is
  remembered per instrument, and a position answer that neither postdates those trades nor
  agrees with the local book is withheld.
*/
module StalePositions {
  import opened Basics

  /** A venue trade the pass sets out to book. `known` orders were in the cache when it began. */
  datatype Trade = Trade(instrument: nat, order: Option<nat>, buy: bool, quantity: int, ts: nat)

  /** The memory of one instrument: the signed sum booked and the latest venue timestamp. */
  datatype Entry = Entry(delta: int, latest: nat)

  type Memory = map<nat, Entry>

  function Signed(t: Trade): int {
    if t.buy then t.quantity else -t.quantity
  }

  /** Prior knowledge: a cached order the trade extends, or an open position on its instrument. */
  predicate Arms(t: Trade, knownOrders: set<nat>, openPositions: set<nat>) {
    (t.order.Some? && t.order.value in knownOrders) || t.instrument in openPositions
  }

  function Remember(m: Memory, t: Trade): Memory {
    var was := if t.instrument in m then m[t.instrument] else Entry(0, 0);
    m[t.instrument := Entry(was.delta + Signed(t), if t.ts > was.latest then t.ts else was.latest)]
  }

  // -- runs, and what they leave armed -----------------------------------

  datatype Event =
    | Pass(unbooked: seq<Trade>, knownOrders: set<nat>, openPositions: set<nat>)
    | Answer(instrument: nat, quantity: int, ts: nat, localNet: int)

  /** The trades of one pass that arm an instrument, in order. */
  function Armed(trades: seq<Trade>, known: set<nat>, open: set<nat>, instrument: nat): seq<Trade> {
    if trades == [] then [] else
    var before, t := Armed(trades[..|trades| - 1], known, open, instrument), trades[|trades| - 1];
    if t.instrument == instrument && Arms(t, known, open) then before + [t] else before
  }

  function Sum(trades: seq<Trade>): int {
    if trades == [] then 0 else Sum(trades[..|trades| - 1]) + Signed(trades[|trades| - 1])
  }

  /** The answer proves itself current: stamped after every pending trade, or equal to the local book. */
  predicate ProvesCurrent(pending: seq<Trade>, e: Event)
    requires e.Answer?
  {
    (forall t <- pending :: e.ts > t.ts) || e.quantity == e.localNet
  }

  /**
    The reference: the armed trades of an instrument since its memory was last cleared, read
    off the history of passes and answers alone.
  */
  function Pending(events: seq<Event>, instrument: nat): seq<Trade> {
    if events == [] then [] else
    var before, e := Pending(events[..|events| - 1], instrument), events[|events| - 1];
    match e
    case Pass(unbooked, known, open) => before + Armed(unbooked, known, open, instrument)
    case Answer(i, _, _, _) => if i == instrument && ProvesCurrent(before, e) then [] else before
  }

  /** The latest timestamp of a non-empty list of trades. */
  ghost predicate IsLatest(ts: nat, trades: seq<Trade>) {
    (exists t <- trades :: t.ts == ts) && forall t <- trades :: t.ts <= ts
  }

  /** The memory is exactly the history's pending trades: their sum and their latest timestamp. */
  ghost predicate Reflects(m: Memory, pending: nat -> seq<Trade>) {
    forall i: nat :: ReflectsAt(m, i, pending(i))
  }

  ghost predicate ReflectsAt(m: Memory, i: nat, trades: seq<Trade>) {
    && (i in m <==> trades != [])
    && (i in m ==> m[i].delta == Sum(trades) && IsLatest(m[i].latest, trades))
  }

  ghost function History(events: seq<Event>): nat -> seq<Trade> {
    (i: nat) => Pending(events, i)
  }

  /** The verdict on an answer: withheld or not, and the memory it leaves. */
  function Judge(m: Memory, instrument: nat, quantity: int, ts: nat, localNet: int): (bool, Memory) {
    if instrument !in m then (false, m)
    else if ts > m[instrument].latest then (false, m - {instrument})
    else if quantity == localNet then (false, m - {instrument})
    else (true, m)
  }

  function RememberAll(m: Memory, trades: seq<Trade>, known: set<nat>, open: set<nat>): Memory {
    if trades == [] then m else
    var before, t := RememberAll(m, trades[..|trades| - 1], known, open), trades[|trades| - 1];
    if Arms(t, known, open) then Remember(before, t) else before
  }

  function StepMemory(m: Memory, e: Event): Memory {
    match e
    case Pass(unbooked, known, open) => RememberAll(m, unbooked, known, open)
    case Answer(i, quantity, ts, localNet) => Judge(m, i, quantity, ts, localNet).1
  }

  function RunMemory(events: seq<Event>): Memory {
    if events == [] then map[] else StepMemory(RunMemory(events[..|events| - 1]), events[|events| - 1])
  }

  lemma RememberHere(m: Memory, was: seq<Trade>, t: Trade)
    requires ReflectsAt(m, t.instrument, was)
    ensures ReflectsAt(Remember(m, t), t.instrument, was + [t])
  {
    var i, now := t.instrument, was + [t];
    assert now[..|now| - 1] == was && now[|was|] == t;
    if i in m && t.ts <= m[i].latest {
      var u :| u in was && u.ts == m[i].latest;
      assert u in now;
    }
  }

  lemma RememberReflects(m: Memory, pending: nat -> seq<Trade>, t: Trade, pending': nat -> seq<Trade>)
    requires Reflects(m, pending)
    requires forall i: nat :: pending'(i) == if i == t.instrument then pending(i) + [t] else pending(i)
    ensures Reflects(Remember(m, t), pending')
  {
    RememberHere(m, pending(t.instrument), t);
    forall j: nat ensures ReflectsAt(Remember(m, t), j, pending'(j)) {
      assert ReflectsAt(m, j, pending(j));
      if j != t.instrument {
        RememberElsewhere(m, t, j, pending(j));
      }
    }
  }

  lemma RememberElsewhere(m: Memory, t: Trade, j: nat, trades: seq<Trade>)
    requires j != t.instrument && ReflectsAt(m, j, trades)
    ensures ReflectsAt(Remember(m, t), j, trades)
  {
  }

  lemma {:induction false} PassReflects(m: Memory, pending: nat -> seq<Trade>, trades: seq<Trade>, known: set<nat>,
                                        open: set<nat>)
    requires Reflects(m, pending)
    ensures Reflects(RememberAll(m, trades, known, open), (i: nat) => pending(i) + Armed(trades, known, open, i))
    decreases |trades|
  {
    var after := (i: nat) => pending(i) + Armed(trades, known, open, i);
    if trades == [] {
      assert forall i: nat :: pending(i) + Armed(trades, known, open, i) == pending(i);
      assert forall i: nat :: after(i) == pending(i);
    } else {
      var before, t := trades[..|trades| - 1], trades[|trades| - 1];
      PassReflects(m, pending, before, known, open);
      var mid := (i: nat) => pending(i) + Armed(before, known, open, i);
      assert forall i: nat :: i != t.instrument ==> after(i) == mid(i);
      if Arms(t, known, open) {
        assert after(t.instrument) == mid(t.instrument) + [t];
        RememberReflects(RememberAll(m, before, known, open), mid, t, after);
      } else {
        assert forall i: nat :: after(i) == mid(i);
      }
    }
  }

  lemma AnswerReflects(m: Memory, pending: nat -> seq<Trade>, e: Event, pending': nat -> seq<Trade>)
    requires e.Answer? && Reflects(m, pending)
    requires forall i: nat :: pending'(i) ==
               if i == e.instrument && ProvesCurrent(pending(i), e) then [] else pending(i)
    ensures Reflects(Judge(m, e.instrument, e.quantity, e.ts, e.localNet).1, pending')
    ensures Judge(m, e.instrument, e.quantity, e.ts, e.localNet).0
        <==> pending(e.instrument) != [] && !ProvesCurrent(pending(e.instrument), e)
  {
    var p := pending(e.instrument);
    assert e.instrument in m <==> p != [];
    if e.instrument in m {
      assert IsLatest(m[e.instrument].latest, p);
      assert e.ts > m[e.instrument].latest <==> forall t <- p :: e.ts > t.ts;
    }
    var m' := Judge(m, e.instrument, e.quantity, e.ts, e.localNet).1;
    forall j: nat
      ensures && (j in m' <==> pending'(j) != [])
              && (j in m' ==> m'[j].delta == Sum(pending'(j)) && IsLatest(m'[j].latest, pending'(j)))
    {
      assert j in m <==> pending(j) != [];
    }
  }

  /**
    Over every run of passes and answers, the memory of an instrument holds the signed sum and
    the latest timestamp of every trade armed since it was last cleared, and exists exactly
    while there is one; a sum of zero disarms nothing.
  */
  lemma {:induction false} MemoryReflectsHistory(events: seq<Event>)
    ensures Reflects(RunMemory(events), History(events))
    decreases |events|
  {
    if events != [] {
      var before, e := events[..|events| - 1], events[|events| - 1];
      MemoryReflectsHistory(before);
      var h := History(events);
      match e
      case Pass(unbooked, known, open) =>
        PassReflects(RunMemory(before), History(before), unbooked, known, open);
        var g := (i: nat) => History(before)(i) + Armed(unbooked, known, open, i);
        assert forall i: nat :: h(i) == g(i);
      case Answer(_, _, _, _) =>
        AnswerReflects(RunMemory(before), History(before), e, h);
    }
  }

  /** An answer is withheld exactly when trades are pending and it proves neither freshness nor agreement. */
  lemma WithheldIffUnproven(events: seq<Event>, e: Event)
    requires e.Answer?
    ensures var m, pending := RunMemory(events), Pending(events, e.instrument);
            && (Judge(m, e.instrument, e.quantity, e.ts, e.localNet).0 <==> pending != [] && !ProvesCurrent(pending, e))
            && (Judge(m, e.instrument, e.quantity, e.ts, e.localNet).0 ==> StepMemory(m, e) == m)
  {
    MemoryReflectsHistory(events);
    AnswerReflects(RunMemory(events), History(events), e,
                   (i: nat) => if i == e.instrument && ProvesCurrent(History(events)(i), e)
                               then [] else History(events)(i));
  }

  // -- the memory in plain terms -----------------------------------------

  function QuantityOf(trades: seq<Trade>, buy: bool): int {
    if trades == [] then 0 else
    QuantityOf(trades[..|trades| - 1], buy)
    + (if trades[|trades| - 1].buy == buy then trades[|trades| - 1].quantity else 0)
  }

  /** The remembered sum is what was bought less what was sold. */
  lemma {:induction false} SumIsBoughtLessSold(trades: seq<Trade>)
    ensures Sum(trades) == QuantityOf(trades, true) - QuantityOf(trades, false)
    decreases |trades|
  {
    if trades != [] {
      SumIsBoughtLessSold(trades[..|trades| - 1]);
    }
  }

  /** Which trades of a pass are remembered: of an order that was known, or on an instrument with an open position. */
  lemma {:induction false} ArmedMembers(trades: seq<Trade>, known: set<nat>, open: set<nat>, instrument: nat, t: Trade)
    ensures t in Armed(trades, known, open, instrument) <==>
            t in trades && t.instrument == instrument
            && ((t.order.Some? && t.order.value in known) || instrument in open)
    decreases |trades|
  {
    if trades != [] {
      ArmedMembers(trades[..|trades| - 1], known, open, instrument, t);
      assert trades == trades[..|trades| - 1] + [trades[|trades| - 1]];
    }
  }

  /**
    After a pass, whatever came before: an instrument is remembered if and only if it was already, or
    the pass held a trade on it that extends a known order or an open position.
  */
  lemma PassRemembersIff(events: seq<Event>, unbooked: seq<Trade>, known: set<nat>, open: set<nat>, instrument: nat)
    ensures instrument in RunMemory(events + [Pass(unbooked, known, open)]) <==>
            || instrument in RunMemory(events)
            || exists t <- unbooked ::
                 t.instrument == instrument && ((t.order.Some? && t.order.value in known) || instrument in open)
  {
    var after := events + [Pass(unbooked, known, open)];
    var armed := Armed(unbooked, known, open, instrument);
    assert after[..|after| - 1] == events;
    MemoryReflectsHistory(events);
    MemoryReflectsHistory(after);
    assert ReflectsAt(RunMemory(events), instrument, History(events)(instrument));
    assert ReflectsAt(RunMemory(after), instrument, History(after)(instrument));
    forall t ensures t in armed <==>
      t in unbooked && t.instrument == instrument
      && ((t.order.Some? && t.order.value in known) || instrument in open)
    {
      ArmedMembers(unbooked, known, open, instrument, t);
    }
    if armed != [] {
      assert armed[0] in armed;
    }
  }

  // -- the client --------------------------------------------------------

  class RecoveryMemory {
    var booked: Memory

    constructor ()
      ensures booked == map[]
    {
      booked := map[];
    }

    /** `_record_recovery_bookings`. */
    method RecordRecoveryBookings(unbooked: seq<Trade>, knownOrders: set<nat>, openPositions: set<nat>)
      modifies this
      ensures booked == RememberAll(old(booked), unbooked, knownOrders, openPositions)
    {
      for i := 0 to |unbooked|
        invariant booked == RememberAll(old(booked), unbooked[..i], knownOrders, openPositions)
      {
        assert unbooked[..i + 1][..i] == unbooked[..i];
        var t := unbooked[i];
        var extendsKnown := t.order.Some? && t.order.value in knownOrders;
        if !extendsKnown && t.instrument !in openPositions {
          continue;
        }
        var signed := if t.buy then t.quantity else -t.quantity;
        var was := if t.instrument in booked then booked[t.instrument] else Entry(0, 0);
        booked := booked[t.instrument := Entry(was.delta + signed, if was.latest >= t.ts then was.latest else t.ts)];
      }
      assert unbooked[..|unbooked|] == unbooked;
    }

    /** `_position_answer_is_stale`; the local net position is the sum over the open positions. */
    method PositionAnswerIsStale(instrument: nat, quantity: int, ts: nat, positions: seq<int>) returns (stale: bool)
      modifies this
      ensures (stale, booked) == Judge(old(booked), instrument, quantity, ts, Total(positions))
    {
      if instrument !in booked {
        return false;
      }
      var latest := booked[instrument].latest;
      if ts > latest {
        booked := booked - {instrument};
        return false;
      }
      var net := 0;
      for i := 0 to |positions|
        invariant net == Total(positions[..i])
      {
        assert positions[..i + 1][..i] == positions[..i];
        net := net + positions[i];
      }
      assert positions[..|positions|] == positions;
      if quantity == net {
        booked := booked - {instrument};
        return false;
      }
      stale := true;
    }
  }

  function Total(quantities: seq<int>): int {
    if quantities == [] then 0 else Total(quantities[..|quantities| - 1]) + quantities[|quantities| - 1]
  }

  /** A round trip that nets to zero leaves the memory armed. */
  lemma ZeroNetStaysArmed(events: seq<Event>, instrument: nat)
    requires Pending(events, instrument) != [] && Sum(Pending(events, instrument)) == 0
    ensures instrument in RunMemory(events) && RunMemory(events)[instrument].delta == 0
  {
    MemoryReflectsHistory(events);
    assert History(events)(instrument) == Pending(events, instrument);
  }
}
