/**
  The account over whole runs: any interleaving of balance messages from the streams with the
  steps of REST sweeps, in which some products may go unread. What is published is compared with
  the history of those events alone.
*/
module WalletRuns {
  import opened Basics
  import opened Wallets

  datatype Event =
    | SpotStream(currency: string, total: int, free: int)
    | DerivativeStream(product: Product, stated: string, total: int)
    | SweepRead(product: Product, ledger: Ledger)
    | SweepEnd(products: seq<Product>, unifiedAnswer: Option<Ledger>, answered: ByProduct<Margins>)

  predicate Possible(e: Event) {
    (e.DerivativeStream? ==> e.product != Spot) && (e.SweepEnd? ==> e.products != [])
  }

  // -- what the history says ---------------------------------------------

  /** A product's wallet: its last answer, as patched by the messages since. */
  function WalletAfter(events: seq<Event>, p: Product): Option<Ledger> {
    if events == [] then None else
    var was, e := WalletAfter(events[..|events| - 1], p), events[|events| - 1];
    var ledger := if was.Some? then was.value else map[];
    match e
    case SpotStream(currency, total, free) =>
      if p == Spot then Some(SpotPatched(ledger, currency, total, free)) else was
    case DerivativeStream(product, stated, total) =>
      if p == product then Some(DerivativePatched(ledger, product, stated, total)) else was
    case SweepRead(product, answer) => if p == product then Some(answer) else was
    case SweepEnd(_, _, _) => was
  }

  /** The unified ledger: the last one that was read. */
  function UnifiedAfter(events: seq<Event>): Ledger {
    if events == [] then map[] else
    var was, e := UnifiedAfter(events[..|events| - 1]), events[|events| - 1];
    if e.SweepEnd? && e.unifiedAnswer.Some? then e.unifiedAnswer.value else was
  }

  /** A sweep states nothing in unified mode while no unified ledger was ever read. */
  predicate SweepStates(unifiedMode: bool, before: seq<Event>, e: Event)
    requires e.SweepEnd?
  {
    e.unifiedAnswer.Some? || !unifiedMode || UnifiedAfter(before) != map[]
  }

  /** A product's margins: the last it answered to a sweep that stated anything. */
  function MarginsAfter(unifiedMode: bool, events: seq<Event>, p: Product): Option<Margins> {
    if events == [] then None else
    var before, e := events[..|events| - 1], events[|events| - 1];
    var was := MarginsAfter(unifiedMode, before, p);
    if e.SweepEnd? && SweepStates(unifiedMode, before, e) then LastAnswer(e.answered, p, was) else was
  }

  function LastAnswer(answered: ByProduct<Margins>, p: Product, was: Option<Margins>): Option<Margins> {
    if answered == [] then was
    else if answered[|answered| - 1].0 == p then Some(answered[|answered| - 1].1)
    else LastAnswer(answered[..|answered| - 1], p, was)
  }

  predicate Publishes(unifiedMode: bool, before: seq<Event>, e: Event) {
    match e
    case SpotStream(currency, total, free) =>
      var was := WalletAfter(before, Spot);
      !SpotIgnored(if was.Some? then was.value else map[], currency, total, free)
    case DerivativeStream(_, _, _) => true
    case SweepRead(_, _) => false
    case SweepEnd(_, _, _) => SweepStates(unifiedMode, before, e)
  }

  /** The lengths of the prefixes behind which something is published. */
  function Publications(unifiedMode: bool, events: seq<Event>): seq<nat> {
    if events == [] then [] else
    var before := events[..|events| - 1];
    Publications(unifiedMode, before)
        + (if Publishes(unifiedMode, before, events[|events| - 1]) then [|events|] else [])
  }

  /** The sum over the five products, each counted once. */
  function OverProducts(f: Product -> int): int {
    f(Spot) + f(Perp) + f(Inverse) + f(Delivery) + f(Options)
  }

  function WalletOr(events: seq<Event>, p: Product): Ledger {
    var w := WalletAfter(events, p);
    if w.Some? then w.value else map[]
  }

  function MarginsOr(unifiedMode: bool, events: seq<Event>, p: Product): Margins {
    var m := MarginsAfter(unifiedMode, events, p);
    if m.Some? then m.value else map[]
  }

  ghost predicate Named(events: seq<Event>, c: string) {
    c in UnifiedAfter(events) || exists p :: c in WalletOr(events, p)
  }

  function WalletTotal(events: seq<Event>, c: string): int {
    OverProducts(p => TotalIn(WalletOr(events, p), c))
  }

  function WalletFree(events: seq<Event>, c: string): int {
    OverProducts(p => FreeIn(WalletOr(events, p), c))
  }

  function TotalOver(events: seq<Event>, c: string): int {
    if c in UnifiedAfter(events) then UnifiedAfter(events)[c].total
    else WalletTotal(events, c)
  }

  function FreeOver(events: seq<Event>, c: string): int {
    if c in UnifiedAfter(events) then NonNegative(UnifiedAfter(events)[c].free)
    else WalletFree(events, c)
  }

  /** One stated balance: total is locked plus free, free is clamped to the total, nothing locked is negative. */
  predicate Splits(s: Stated, total: int, free: int) {
    s.total == total && s.total == s.locked + s.free && s.free == if free < total then free else total
  }

  /** The balances are exactly what the history adds up to; with nothing named they are zeros. */
  ghost predicate BalancesOf(account: Account, events: seq<Event>) {
    if exists c :: Named(events, c) then
      && (forall c :: c in account.balances <==> Named(events, c))
      && (forall c <- account.balances :: Splits(account.balances[c], TotalOver(events, c), FreeOver(events, c)))
    else
      events != [] && events[|events| - 1].SweepEnd? && StatesZero(account, events[|events| - 1].products)
  }

  /** Per scope the sum over the products, and every live scope is there. */
  ghost predicate MarginsOf(account: Account, unifiedMode: bool, marginAccount: bool, events: seq<Event>) {
    if !marginAccount then account.margins == map[] else
    && (forall s :: s in account.margins <==> exists p :: s in MarginsOr(unifiedMode, events, p))
    && (forall s <- account.margins ::
          account.margins[s] == Margin(InitialOver(unifiedMode, events, s), MaintenanceOver(unifiedMode, events, s)))
  }

  function InitialOver(unifiedMode: bool, events: seq<Event>, s: Scope): int {
    OverProducts(p => InitialIn(MarginsOr(unifiedMode, events, p), s))
  }

  function MaintenanceOver(unifiedMode: bool, events: seq<Event>, s: Scope): int {
    OverProducts(p => MaintenanceIn(MarginsOr(unifiedMode, events, p), s))
  }

  // -- locked margin -----------------------------------------------------

  /** A derivative message of another product, or one whose total covers what is locked in its own currency. */
  predicate Covers(ledger: Ledger, p: Product, e: Event) {
    e.DerivativeStream?
    && (e.product == p ==>
          e.total >= LockedIn(ledger, if e.stated != "" then e.stated else if p == Inverse then "BTC" else "USDT"))
  }

  ghost predicate AllCover(events: seq<Event>, more: seq<Event>, p: Product) {
    forall i :: 0 <= i < |more| ==> CoversAt(events, more, p, i)
  }

  predicate CoversAt(events: seq<Event>, more: seq<Event>, p: Product, i: nat)
    requires i < |more|
  {
    Covers(WalletOr(events + more[..i], p), p, more[i])
  }

  /** Over any run of derivative messages whose totals cover it, what a product has locked never changes. */
  lemma {:induction false} LockedOverRuns(events: seq<Event>, more: seq<Event>, p: Product, currency: string)
    requires AllCover(events, more, p)
    ensures LockedIn(WalletOr(events + more, p), currency) == LockedIn(WalletOr(events, p), currency)
    decreases |more|
  {
    if more == [] {
      assert events + more == events;
    } else {
      var n := |more| - 1;
      var before, e := more[..n], more[n];
      forall i | 0 <= i < n ensures CoversAt(events, before, p, i) {
        assert CoversAt(events, more, p, i) && before[..i] == more[..i];
      }
      LockedOverRuns(events, before, p, currency);
      assert CoversAt(events, more, p, n);
      LockedThroughOne(events + before, e, p, currency);
      assert events + more == events + before + [e];
    }
  }

  lemma LockedThroughOne(before: seq<Event>, e: Event, p: Product, currency: string)
    requires Covers(WalletOr(before, p), p, e)
    ensures LockedIn(WalletOr(before + [e], p), currency) == LockedIn(WalletOr(before, p), currency)
  {
    assert (before + [e])[..|before|] == before;
    if e.product == p {
      var settled := if e.stated != "" then e.stated else if p == Inverse then "BTC" else "USDT";
      LockedStaysLocked(WalletOr(before, p), p, e.stated, e.total, settled);
    }
  }

  // -- sums over a dictionary of distinct products -----------------------

  function LookupOr<K, V>(entries: ByProduct<map<K, V>>, p: Product): map<K, V> {
    var found := Lookup(entries, p);
    if found.Some? then found.value else map[]
  }

  lemma {:induction false} NotListed<T>(entries: ByProduct<T>, p: Product)
    requires forall i :: 0 <= i < |entries| ==> entries[i].0 != p
    ensures Lookup(entries, p) == None
    decreases |entries|
  {
    if entries != [] {
      NotListed(entries[1..], p);
    }
  }

  lemma TailIsDistinct<T>(entries: ByProduct<T>)
    requires DistinctProducts(entries) && entries != []
    ensures DistinctProducts(entries[1..]) && Lookup(entries[1..], entries[0].0) == None
  {
    var rest := entries[1..];
    forall i, j | 0 <= i < j < |rest| ensures rest[i].0 != rest[j].0 {
      assert entries[i + 1].0 != entries[j + 1].0;
    }
    forall i | 0 <= i < |rest| ensures rest[i].0 != entries[0].0 {
      assert entries[0].0 != entries[i + 1].0;
    }
    NotListed(rest, entries[0].0);
  }

  /** Every wallet counts once. */
  lemma {:induction false} SumsCountOnce(wallets: ByProduct<Ledger>, c: string)
    requires DistinctProducts(wallets)
    ensures SumTotal(wallets, c) == OverProducts(p => TotalIn(LookupOr(wallets, p), c))
    ensures SumFree(wallets, c) == OverProducts(p => FreeIn(LookupOr(wallets, p), c))
    decreases |wallets|
  {
    if wallets != [] {
      var first, rest := wallets[0], wallets[1..];
      TailIsDistinct(wallets);
      SumsCountOnce(rest, c);
      assert forall p :: LookupOr(wallets, p) == if p == first.0 then first.1 else LookupOr(rest, p);
      OneMoreProduct(p => TotalIn(LookupOr(wallets, p), c), p => TotalIn(LookupOr(rest, p), c),
                     first.0, TotalIn(first.1, c));
      OneMoreProduct(p => FreeIn(LookupOr(wallets, p), c), p => FreeIn(LookupOr(rest, p), c),
                     first.0, FreeIn(first.1, c));
    }
  }

  lemma OneMoreProduct(f: Product -> int, g: Product -> int, product: Product, x: int)
    requires g(product) == 0 && forall p :: f(p) == if p == product then x else g(p)
    ensures OverProducts(f) == x + OverProducts(g)
  {
  }

  lemma {:induction false} MarginsCountOnce(entries: ByProduct<Margins>, s: Scope)
    requires DistinctProducts(entries)
    ensures SumInitial(entries, s) == OverProducts(p => InitialIn(LookupOr(entries, p), s))
    ensures SumMaintenance(entries, s) == OverProducts(p => MaintenanceIn(LookupOr(entries, p), s))
    decreases |entries|
  {
    if entries != [] {
      var rest := entries[1..];
      TailIsDistinct(entries);
      MarginsCountOnce(rest, s);
      OneMoreMargin(entries, s);
    }
  }

  lemma OneMoreMargin(entries: ByProduct<Margins>, s: Scope)
    requires DistinctProducts(entries) && entries != []
    ensures var rest := entries[1..];
            && OverProducts(p => InitialIn(LookupOr(entries, p), s))
               == InitialIn(entries[0].1, s) + OverProducts(p => InitialIn(LookupOr(rest, p), s))
            && OverProducts(p => MaintenanceIn(LookupOr(entries, p), s))
               == MaintenanceIn(entries[0].1, s) + OverProducts(p => MaintenanceIn(LookupOr(rest, p), s))
  {
    var first, rest := entries[0], entries[1..];
    TailIsDistinct(entries);
    assert forall p :: LookupOr(entries, p) == if p == first.0 then first.1 else LookupOr(rest, p);
    OneMoreProduct(p => InitialIn(LookupOr(entries, p), s), p => InitialIn(LookupOr(rest, p), s),
                   first.0, InitialIn(first.1, s));
    OneMoreProduct(p => MaintenanceIn(LookupOr(entries, p), s), p => MaintenanceIn(LookupOr(rest, p), s),
                   first.0, MaintenanceIn(first.1, s));
  }

  /** A key of some entry is a key of some product's entry. */
  lemma {:induction false} KeysByProduct<K, V>(entries: ByProduct<map<K, V>>, k: K)
    requires DistinctProducts(entries)
    ensures (exists i :: 0 <= i < |entries| && k in entries[i].1) <==> exists p :: k in LookupOr(entries, p)
    decreases |entries|
  {
    if entries != [] {
      var rest := entries[1..];
      TailIsDistinct(entries);
      KeysByProduct(rest, k);
      assert k in entries[0].1 ==> k in LookupOr(entries, entries[0].0);
      if exists i :: 0 <= i < |rest| && k in rest[i].1 {
        var i :| 0 <= i < |rest| && k in rest[i].1;
        assert k in entries[i + 1].1;
        var p :| k in LookupOr(rest, p);
        assert k in LookupOr(entries, p);
      }
      if exists p :: k in LookupOr(entries, p) {
        var p :| k in LookupOr(entries, p);
        assert p != entries[0].0 ==> k in LookupOr(rest, p);
      }
    }
  }

  lemma {:induction false} AnswersAssigned(entries: ByProduct<Margins>, answered: ByProduct<Margins>, p: Product)
    requires DistinctProducts(entries)
    ensures DistinctProducts(AssignAll(entries, answered))
    ensures Lookup(AssignAll(entries, answered), p) == LastAnswer(answered, p, Lookup(entries, p))
    decreases |answered|
  {
    if answered != [] {
      var before, last := answered[..|answered| - 1], answered[|answered| - 1];
      AnswersAssigned(entries, before, p);
      ProductsStayDistinct(AssignAll(entries, before), last.0, last.1);
      LookupAssign(AssignAll(entries, before), last.0, last.1, p);
    }
  }

  // -- the client against its history ------------------------------------

  /** Products are distinct, and every wallet, the unified ledger and the margins are what the history left. */
  ghost predicate Follows(client: AccountClient, events: seq<Event>)
    reads client
  {
    && DistinctProducts(client.wallets) && DistinctProducts(client.margins)
    && (forall p :: Lookup(client.wallets, p) == WalletAfter(events, p))
    && client.unified == UnifiedAfter(events)
    && (forall p :: Lookup(client.margins, p) == MarginsAfter(client.unifiedMode, events, p))
  }

  lemma AggregateIsHistory(client: AccountClient, events: seq<Event>, aggregate: Ledger, account: Account)
    requires Follows(client, events) && (exists c :: Named(events, c))
    requires IsAggregate(aggregate, client.wallets, client.unified) && StatesBalances(account, aggregate)
    ensures BalancesOf(account, events)
  {
    forall c
      ensures c in account.balances <==> Named(events, c)
      ensures c in account.balances ==> Splits(account.balances[c], TotalOver(events, c), FreeOver(events, c))
    {
      CurrencyIsHistory(client, events, c);
    }
  }

  lemma CurrencyIsHistory(client: AccountClient, events: seq<Event>, c: string)
    requires Follows(client, events)
    ensures c in client.unified || HeldSomewhere(client.wallets, c) <==> Named(events, c)
    ensures SumTotal(client.wallets, c) == WalletTotal(events, c) && SumFree(client.wallets, c) == WalletFree(events, c)
  {
    KeysByProduct(client.wallets, c);
    SumsCountOnce(client.wallets, c);
    assert forall p :: LookupOr(client.wallets, p) == WalletOr(events, p);
  }

  lemma MergedIsHistory(client: AccountClient, events: seq<Event>, account: Account)
    requires Follows(client, events)
    requires if client.marginAccount then IsMerged(account.margins, client.margins) else account.margins == map[]
    ensures MarginsOf(account, client.unifiedMode, client.marginAccount, events)
  {
    if client.marginAccount {
      forall s
        ensures s in account.margins <==> exists p :: s in MarginsOr(client.unifiedMode, events, p)
        ensures s in account.margins ==>
          account.margins[s] == Margin(InitialOver(client.unifiedMode, events, s),
                                       MaintenanceOver(client.unifiedMode, events, s))
      {
        ScopeIsHistory(client, events, s);
      }
    }
  }

  lemma ScopeIsHistory(client: AccountClient, events: seq<Event>, s: Scope)
    requires Follows(client, events)
    ensures (exists i :: 0 <= i < |client.margins| && s in client.margins[i].1)
       <==> exists p :: s in MarginsOr(client.unifiedMode, events, p)
    ensures SumInitial(client.margins, s) == InitialOver(client.unifiedMode, events, s)
    ensures SumMaintenance(client.margins, s) == MaintenanceOver(client.unifiedMode, events, s)
  {
    KeysByProduct(client.margins, s);
    MarginsCountOnce(client.margins, s);
    assert forall p :: LookupOr(client.margins, p) == MarginsOr(client.unifiedMode, events, p);
  }

  /** Nothing is named exactly when no wallet and no ledger names anything. */
  lemma NamedIsHeld(client: AccountClient, events: seq<Event>)
    requires Follows(client, events)
    ensures (exists c :: Named(events, c)) <==> client.unified != map[] || exists c :: HeldSomewhere(client.wallets, c)
  {
    forall c ensures c in client.unified || HeldSomewhere(client.wallets, c) <==> Named(events, c) {
      CurrencyIsHistory(client, events, c);
    }
    if client.unified != map[] {
      var c :| c in client.unified;
      assert Named(events, c);
    }
    if exists c :: HeldSomewhere(client.wallets, c) {
      var c :| HeldSomewhere(client.wallets, c);
      assert Named(events, c);
    }
  }

  /** A publication is what the history says at its own step. */
  ghost predicate StatesHistory(client: AccountClient, account: Account, events: seq<Event>) {
    BalancesOf(account, events) && MarginsOf(account, client.unifiedMode, client.marginAccount, events)
  }

  lemma AggregateStatesHistory(client: AccountClient, events: seq<Event>, account: Account)
    requires Follows(client, events) && (exists c :: Named(events, c))
    requires exists aggregate ::
               IsAggregate(aggregate, client.wallets, client.unified) && StatesBalances(account, aggregate)
    requires if client.marginAccount then IsMerged(account.margins, client.margins) else account.margins == map[]
    ensures StatesHistory(client, account, events)
  {
    var aggregate :| IsAggregate(aggregate, client.wallets, client.unified) && StatesBalances(account, aggregate);
    AggregateIsHistory(client, events, aggregate, account);
    MergedIsHistory(client, events, account);
  }

  /** The product whose wallet an event replaces, and what it becomes. */
  function ProductOf(e: Event): Product
    requires !e.SweepEnd?
  {
    if e.SpotStream? then Spot else e.product
  }

  function LedgerAfter(was: ByProduct<Ledger>, e: Event): Ledger
    requires !e.SweepEnd?
  {
    match e
    case SpotStream(currency, total, free) => SpotPatched(Held(was, Spot), currency, total, free)
    case DerivativeStream(product, stated, total) => DerivativePatched(Held(was, product), product, stated, total)
    case SweepRead(_, answer) => answer
  }

  /** The dictionaries follow one more event. */
  lemma FollowsOn(client: AccountClient, was: ByProduct<Ledger>, hadMargins: ByProduct<Margins>, before: seq<Event>,
                  e: Event)
    requires DistinctProducts(was) && DistinctProducts(hadMargins)
    requires forall p :: Lookup(was, p) == WalletAfter(before, p)
    requires forall p :: Lookup(hadMargins, p) == MarginsAfter(client.unifiedMode, before, p)
    requires client.unified == UnifiedAfter(before + [e])
    requires client.wallets == if e.SweepEnd? then was else Assign(was, ProductOf(e), LedgerAfter(was, e))
    requires client.margins == if e.SweepEnd? && SweepStates(client.unifiedMode, before, e)
                               then AssignAll(hadMargins, e.answered) else hadMargins
    ensures Follows(client, before + [e])
  {
    assert (before + [e])[..|before|] == before;
    WalletsFollow(client.wallets, was, before, e);
    forall p ensures Lookup(client.margins, p) == MarginsAfter(client.unifiedMode, before + [e], p) {
      if e.SweepEnd? {
        AnswersAssigned(hadMargins, e.answered, p);
      }
    }
    if e.SweepEnd? {
      AnswersAssigned(hadMargins, e.answered, Spot);
    }
  }

  lemma WalletsFollow(wallets: ByProduct<Ledger>, was: ByProduct<Ledger>, before: seq<Event>, e: Event)
    requires DistinctProducts(was) && forall p :: Lookup(was, p) == WalletAfter(before, p)
    requires wallets == if e.SweepEnd? then was else Assign(was, ProductOf(e), LedgerAfter(was, e))
    ensures DistinctProducts(wallets) && forall p :: Lookup(wallets, p) == WalletAfter(before + [e], p)
  {
    assert (before + [e])[..|before|] == before;
    if !e.SweepEnd? {
      var product, ledger := ProductOf(e), LedgerAfter(was, e);
      ProductsStayDistinct(was, product, ledger);
      forall p ensures Lookup(wallets, p) == WalletAfter(before + [e], p) {
        LookupAssign(was, product, ledger, p);
      }
    }
  }

  /** A message that publishes names its currency. */
  lemma StreamNames(unifiedMode: bool, before: seq<Event>, e: Event)
    requires Publishes(unifiedMode, before, e) && !e.SweepEnd?
    ensures exists c :: Named(before + [e], c)
  {
    assert (before + [e])[..|before|] == before;
    var p := ProductOf(e);
    var c := if e.SpotStream? then e.currency else if e.stated != "" then e.stated else Settle(p);
    assert c in WalletOr(before + [e], p);
    assert Named(before + [e], c);
  }

  /** One event on the mutable client: its dictionaries follow the history, and what it publishes states it. */
  method HandleEvent(client: AccountClient, e: Event, ghost before: seq<Event>)
    requires Possible(e) && Follows(client, before)
    modifies client
    ensures Follows(client, before + [e])
    ensures if Publishes(client.unifiedMode, before, e)
            then |client.published| == |old(client.published)| + 1
                 && client.published[..|old(client.published)|] == old(client.published)
                 && StatesHistory(client, client.published[|old(client.published)|], before + [e])
            else client.published == old(client.published)
  {
    ghost var was, hadMargins, n := client.wallets, client.margins, |client.published|;
    assert (before + [e])[..|before|] == before;
    match e {
      case SpotStream(currency, total, free) =>
        client.HandleSpotBalance(currency, total, free);
      case DerivativeStream(product, stated, total) =>
        client.HandleDerivativeBalance(product, stated, total);
      case SweepRead(product, ledger) =>
        client.SweepRead(product, ledger);
      case SweepEnd(products, unifiedAnswer, answered) =>
        var stated := client.FinishSweep(products, unifiedAnswer, answered);
    }
    FollowsOn(client, was, hadMargins, before, e);
    if Publishes(client.unifiedMode, before, e) {
      if !e.SweepEnd? {
        StreamNames(client.unifiedMode, before, e);
      }
      NamedIsHeld(client, before + [e]);
      if exists c :: Named(before + [e], c) {
        AggregateStatesHistory(client, before + [e], client.published[n]);
      } else {
        MergedIsHistory(client, before + [e], client.published[n]);
      }
    }
  }

  /** Every publication states the history at its own step. */
  ghost predicate PublishedAt(client: AccountClient, published: seq<Account>, events: seq<Event>, at: seq<nat>) {
    |published| == |at|
    && forall k :: 0 <= k < |at| ==> StatedAt(client, published[k], events, at[k])
  }

  ghost predicate StatedAt(client: AccountClient, account: Account, events: seq<Event>, n: nat) {
    n <= |events| && StatesHistory(client, account, events[..n])
  }

  lemma OneMoreStep(client: AccountClient, was: seq<Account>, now: seq<Account>, events: seq<Event>, at: seq<nat>,
                    n: nat, publishes: bool)
    requires PublishedAt(client, was, events, at)
    requires if publishes
             then |now| == |was| + 1 && now[..|was|] == was && StatedAt(client, now[|was|], events, n)
             else now == was
    ensures PublishedAt(client, now, events, at + (if publishes then [n] else []))
  {
    if publishes {
      OneMorePublication(client, was, now[|was|], events, at, n);
      assert now == was + [now[|was|]];
    } else {
      assert at + [] == at;
    }
  }

  lemma PublicationsStep(unifiedMode: bool, events: seq<Event>, i: nat)
    requires i < |events|
    ensures Publications(unifiedMode, events[..i + 1])
         == Publications(unifiedMode, events[..i])
             + (if Publishes(unifiedMode, events[..i], events[i]) then [i + 1] else [])
  {
    assert events[..i + 1][..i] == events[..i];
  }

  lemma OneMorePublication(client: AccountClient, was: seq<Account>, account: Account, events: seq<Event>,
                           at: seq<nat>, n: nat)
    requires PublishedAt(client, was, events, at) && StatedAt(client, account, events, n)
    ensures PublishedAt(client, was + [account], events, at + [n])
  {
  }

  /** The next event of a run: the client follows one event more, and what it published states its own step. */
  method HandleNext(client: AccountClient, events: seq<Event>, i: nat)
    requires i < |events| && Possible(events[i]) && Follows(client, events[..i])
    requires PublishedAt(client, client.published, events, Publications(client.unifiedMode, events[..i]))
    modifies client
    ensures Follows(client, events[..i + 1])
    ensures PublishedAt(client, client.published, events, Publications(client.unifiedMode, events[..i + 1]))
  {
    assert events[..i + 1] == events[..i] + [events[i]];
    ghost var was := client.published;
    HandleEvent(client, events[i], events[..i]);
    PublicationsStep(client.unifiedMode, events, i);
    OneMoreStep(client, was, client.published, events, Publications(client.unifiedMode, events[..i]), i + 1,
                Publishes(client.unifiedMode, events[..i], events[i]));
  }

  /**
    Over every interleaving: the products stay distinct, each wallet is its last answer as patched
    by the messages since, and every publication states, at its own step, exactly what the history
    adds up to, each wallet counted once.
  */
  method RunEvents(unifiedMode: bool, marginAccount: bool, events: seq<Event>) returns (client: AccountClient)
    requires forall e <- events :: Possible(e)
    ensures fresh(client) && client.unifiedMode == unifiedMode && client.marginAccount == marginAccount
    ensures Follows(client, events)
    ensures PublishedAt(client, client.published, events, Publications(unifiedMode, events))
  {
    client := new AccountClient(unifiedMode, marginAccount);
    assert events[..0] == [];
    for i := 0 to |events|
      invariant fresh(client) && client.unifiedMode == unifiedMode && client.marginAccount == marginAccount
      invariant Follows(client, events[..i])
      invariant PublishedAt(client, client.published, events, Publications(unifiedMode, events[..i]))
    {
      assert events[i] in events;
      HandleNext(client, events, i);
    }
    assert events[..|events|] == events;
  }
}
