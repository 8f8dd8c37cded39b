/**
  Account state in gateio_nt/execution.py: per-product wallets and an optional unified ledger,
  folded into one balance per currency, and per-product margins folded into one per scope.
*/
module Wallets {
  import opened Basics

  datatype Balance = Balance(total: int, free: int)

  /** One ledger: a balance per currency. */
  type Ledger = map<string, Balance>

  /** Isolated collateral of one instrument, or shared collateral in one currency. */
  datatype Scope = InstrumentScope(instrument: nat) | CurrencyScope(currency: string)

  datatype Margin = Margin(initial: int, maintenance: int)

  type Margins = map<Scope, Margin>

  /** An insertion-ordered dictionary keyed by product. */
  type ByProduct<T> = seq<(Product, T)>

  function Lookup<T>(entries: ByProduct<T>, product: Product): Option<T> {
    if entries == [] then None
    else if entries[0].0 == product then Some(entries[0].1)
    else Lookup(entries[1..], product)
  }

  /** Assigns in place, or appends. */
  function Assign<T>(entries: ByProduct<T>, product: Product, value: T): ByProduct<T> {
    if entries == [] then [(product, value)]
    else if entries[0].0 == product then [(product, value)] + entries[1..]
    else [entries[0]] + Assign(entries[1..], product, value)
  }

  function NonNegative(x: int): int {
    if x < 0 then 0 else x
  }

  // -- what the totals should be -----------------------------------------

  function TotalIn(ledger: Ledger, currency: string): int {
    if currency in ledger then ledger[currency].total else 0
  }

  function FreeIn(ledger: Ledger, currency: string): int {
    if currency in ledger then NonNegative(ledger[currency].free) else 0
  }

  /** The sum over the product wallets. */
  function SumTotal(wallets: ByProduct<Ledger>, currency: string): int {
    if wallets == [] then 0 else TotalIn(wallets[0].1, currency) + SumTotal(wallets[1..], currency)
  }

  function SumFree(wallets: ByProduct<Ledger>, currency: string): int {
    if wallets == [] then 0 else FreeIn(wallets[0].1, currency) + SumFree(wallets[1..], currency)
  }

  predicate HeldSomewhere(wallets: ByProduct<Ledger>, currency: string) {
    exists i :: 0 <= i < |wallets| && currency in wallets[i].1
  }

  /**
    The aggregate the account should state: the unified ledger's figure where it names the
    currency, otherwise the sum over the product wallets, and nothing else.
  */
  ghost predicate IsAggregate(balances: Ledger, wallets: ByProduct<Ledger>, unified: Ledger) {
    && (forall c :: c in balances <==> c in unified || HeldSomewhere(wallets, c))
    && (forall c <- balances :: balances[c] ==
          if c in unified then Balance(unified[c].total, NonNegative(unified[c].free))
          else Balance(SumTotal(wallets, c), SumFree(wallets, c)))
  }

  // -- margins -----------------------------------------------------------

  function InitialIn(margins: Margins, scope: Scope): int {
    if scope in margins then margins[scope].initial else 0
  }

  function MaintenanceIn(margins: Margins, scope: Scope): int {
    if scope in margins then margins[scope].maintenance else 0
  }

  function SumInitial(entries: ByProduct<Margins>, scope: Scope): int {
    if entries == [] then 0 else InitialIn(entries[0].1, scope) + SumInitial(entries[1..], scope)
  }

  function SumMaintenance(entries: ByProduct<Margins>, scope: Scope): int {
    if entries == [] then 0 else MaintenanceIn(entries[0].1, scope) + SumMaintenance(entries[1..], scope)
  }

  /** Per scope, the sum over the products; no live scope is left out. */
  ghost predicate IsMerged(merged: Margins, entries: ByProduct<Margins>) {
    && (forall s :: s in merged <==> exists i :: 0 <= i < |entries| && s in entries[i].1)
    && (forall s <- merged :: merged[s] == Margin(SumInitial(entries, s), SumMaintenance(entries, s)))
  }

  /** What one published account state says of a currency. */
  datatype Stated = Stated(total: int, locked: int, free: int)

  datatype Account = Account(balances: map<string, Stated>, margins: Margins)

  /** Free is clamped to the total, and the rest is locked. */
  ghost predicate StatesBalances(account: Account, balances: Ledger) {
    && account.balances.Keys == balances.Keys
    && forall c <- balances ::
         var s := account.balances[c];
         && s.total == balances[c].total && s.total == s.locked + s.free
         && s.locked >= 0 && s.free <= balances[c].free
         && (s.free == balances[c].free || s.locked == 0)
  }

  function Settle(product: Product): string {
    if product == Inverse then "BTC" else "USDT"
  }

  ghost predicate StatesZero(account: Account, products: seq<Product>) {
    && (forall c :: c in account.balances <==> exists i :: 0 <= i < |products| && c == Settle(products[i]))
    && forall c <- account.balances :: account.balances[c] == Stated(0, 0, 0)
  }

  /** The ledger behind a spot message: a currency that is not held and reports nothing is ignored. */
  function SpotPatched(ledger: Ledger, currency: string, total: int, free: int): Ledger {
    if SpotIgnored(ledger, currency, total, free) then ledger else ledger[currency := Balance(total, free)]
  }

  predicate SpotIgnored(ledger: Ledger, currency: string, total: int, free: int) {
    currency == "" || (total <= 0 && free <= 0 && currency !in ledger)
  }

  /** The ledger behind a derivative message, which states the total only: what was locked stays locked. */
  function DerivativePatched(ledger: Ledger, product: Product, stated: string, total: int): Ledger {
    var currency := if stated != "" then stated else Settle(product);
    var locked := if currency in ledger then NonNegative(ledger[currency].total - ledger[currency].free) else 0;
    ledger[currency := Balance(total, NonNegative(total - locked))]
  }

  /** What a ledger keeps locked in a currency: its total less its free figure, never negative. */
  function LockedIn(ledger: Ledger, currency: string): int {
    if currency in ledger && ledger[currency].total > ledger[currency].free
    then ledger[currency].total - ledger[currency].free else 0
  }

  /** The same ledger but for one currency. */
  ghost predicate OnlyMoves(was: Ledger, now: Ledger, currency: string) {
    now.Keys == was.Keys + {currency} && forall c <- was :: c != currency ==> now[c] == was[c]
  }

  /** A derivative message settles in bitcoin on inverse contracts and in tether elsewhere unless it says otherwise. */
  ghost predicate SettlesIn(product: Product, stated: string, currency: string) {
    currency == if stated != "" then stated else if product == Inverse then "BTC" else "USDT"
  }

  /**
    A derivative message states a total: the free figure is what is left of it above the locked part,
    so whatever was locked stays locked as long as the total covers it.
  */
  ghost predicate LockedStays(was: Ledger, now: Ledger, currency: string, total: int) {
    && OnlyMoves(was, now, currency)
    && now[currency].total == total
    && now[currency].free == (if total > LockedIn(was, currency) then total - LockedIn(was, currency) else 0)
    && (total >= LockedIn(was, currency) ==> LockedIn(now, currency) == LockedIn(was, currency))
    && (0 <= total < LockedIn(was, currency) ==> LockedIn(now, currency) == total)
  }

  lemma LockedStaysLocked(ledger: Ledger, product: Product, stated: string, total: int, currency: string)
    requires SettlesIn(product, stated, currency)
    ensures LockedStays(ledger, DerivativePatched(ledger, product, stated, total), currency, total)
  {
    var now := DerivativePatched(ledger, product, stated, total);
    assert now.Keys == ledger.Keys + {currency};
  }

  /** A spot message states both figures of its currency; one without a currency, or about nothing held, is ignored. */
  lemma SpotMessageStates(ledger: Ledger, currency: string, total: int, free: int)
    ensures SpotIgnored(ledger, currency, total, free) <==>
            currency == "" || !(total > 0 || free > 0 || currency in ledger)
    ensures var now := SpotPatched(ledger, currency, total, free);
            if currency != "" && (total > 0 || free > 0 || currency in ledger)
            then OnlyMoves(ledger, now, currency) && now[currency] == Balance(total, free)
            else now == ledger
  {
    var now := ledger[currency := Balance(total, free)];
    assert now.Keys == ledger.Keys + {currency};
  }

  lemma SettlementCurrencies(product: Product)
    ensures SettlesIn(product, "", Settle(product))
  {
  }

  /** No aggregate states a negative free figure: an oversold wallet counts as having nothing free. */
  lemma AggregateFreeIsNonNegative(balances: Ledger, wallets: ByProduct<Ledger>, unified: Ledger, c: string)
    requires IsAggregate(balances, wallets, unified) && c in balances
    ensures balances[c].free >= 0
    ensures (forall i :: 0 <= i < |wallets| && c in wallets[i].1 ==> wallets[i].1[c].free >= 0) && c !in unified ==>
              balances[c].free == RawFree(wallets, c)
  {
    FreeIsClamped(wallets, c);
  }

  function RawFree(wallets: ByProduct<Ledger>, c: string): int {
    if wallets == [] then 0
    else (if c in wallets[0].1 then wallets[0].1[c].free else 0) + RawFree(wallets[1..], c)
  }

  lemma {:induction false} FreeIsClamped(wallets: ByProduct<Ledger>, c: string)
    ensures SumFree(wallets, c) >= 0
    ensures (forall i :: 0 <= i < |wallets| && c in wallets[i].1 ==> wallets[i].1[c].free >= 0) ==>
              SumFree(wallets, c) == RawFree(wallets, c)
    decreases |wallets|
  {
    if wallets != [] {
      FreeIsClamped(wallets[1..], c);
      assert forall i :: 0 <= i < |wallets[1..]| ==> wallets[1..][i] == wallets[i + 1];
    }
  }

  function Held(wallets: ByProduct<Ledger>, product: Product): Ledger {
    var was := Lookup(wallets, product);
    if was.Some? then was.value else map[]
  }

  // -- extending the sums by one wallet ----------------------------------

  lemma {:induction false} SumsAppend(wallets: ByProduct<Ledger>, product: Product, ledger: Ledger, c: string)
    ensures SumTotal(wallets + [(product, ledger)], c) == SumTotal(wallets, c) + TotalIn(ledger, c)
    ensures SumFree(wallets + [(product, ledger)], c) == SumFree(wallets, c) + FreeIn(ledger, c)
    decreases |wallets|
  {
    if wallets == [] {
      assert (wallets + [(product, ledger)])[1..] == [];
    } else {
      assert (wallets + [(product, ledger)])[1..] == wallets[1..] + [(product, ledger)];
      SumsAppend(wallets[1..], product, ledger, c);
    }
  }

  lemma {:induction false} MarginsAppend(entries: ByProduct<Margins>, product: Product, margins: Margins, s: Scope)
    ensures SumInitial(entries + [(product, margins)], s) == SumInitial(entries, s) + InitialIn(margins, s)
    ensures SumMaintenance(entries + [(product, margins)], s) == SumMaintenance(entries, s) + MaintenanceIn(margins, s)
    decreases |entries|
  {
    if entries == [] {
      assert (entries + [(product, margins)])[1..] == [];
    } else {
      assert (entries + [(product, margins)])[1..] == entries[1..] + [(product, margins)];
      MarginsAppend(entries[1..], product, margins, s);
    }
  }

  /** The aggregate of the wallets alone, leaving out what the unified ledger names. */
  ghost predicate IsWalletSum(balances: Ledger, wallets: ByProduct<Ledger>, unified: Ledger) {
    && (forall c :: c in balances <==> c !in unified && HeldSomewhere(wallets, c))
    && (forall c <- balances :: balances[c] == Balance(SumTotal(wallets, c), SumFree(wallets, c)))
  }

  lemma {:induction false} NotHeldSumsToZero(wallets: ByProduct<Ledger>, c: string)
    requires !HeldSomewhere(wallets, c)
    ensures SumTotal(wallets, c) == 0 && SumFree(wallets, c) == 0
    decreases |wallets|
  {
    if wallets != [] {
      assert c !in wallets[0].1;
      forall i | 0 <= i < |wallets[1..]| ensures c !in wallets[1..][i].1 {
        assert c !in wallets[i + 1].1;
      }
      NotHeldSumsToZero(wallets[1..], c);
    }
  }

  lemma WalletSumAppend(before: Ledger, after: Ledger, wallets: ByProduct<Ledger>, product: Product, ledger: Ledger,
                        unified: Ledger)
    requires IsWalletSum(before, wallets, unified)
    requires forall c :: c in after <==> c in before || (c in ledger && c !in unified)
    requires forall c <- after :: after[c] ==
               Balance((if c in before then before[c].total else 0) + TotalIn(ledger, c),
                       (if c in before then before[c].free else 0) + FreeIn(ledger, c))
    ensures IsWalletSum(after, wallets + [(product, ledger)], unified)
  {
    var all := wallets + [(product, ledger)];
    forall c ensures HeldSomewhere(all, c) <==> HeldSomewhere(wallets, c) || c in ledger {
      assert all[|wallets|].1 == ledger;
      if HeldSomewhere(wallets, c) {
        var i :| 0 <= i < |wallets| && c in wallets[i].1;
        assert c in all[i].1;
      }
    }
    forall c <- after ensures after[c] == Balance(SumTotal(all, c), SumFree(all, c)) {
      SumsAppend(wallets, product, ledger, c);
      if c !in before {
        NotHeldSumsToZero(wallets, c);
      }
    }
  }

  // -- the client --------------------------------------------------------

  class AccountClient {
    const unifiedMode: bool
    const marginAccount: bool
    var wallets: ByProduct<Ledger>
    var unified: Ledger
    var balances: Ledger
    var margins: ByProduct<Margins>
    var published: seq<Account>

    constructor (unifiedMode: bool, marginAccount: bool)
      ensures wallets == [] && unified == map[] && balances == map[] && margins == [] && published == []
      ensures this.unifiedMode == unifiedMode && this.marginAccount == marginAccount
    {
      this.unifiedMode, this.marginAccount := unifiedMode, marginAccount;
      wallets, unified, balances, margins, published := [], map[], map[], [], [];
    }

    /** Adds one wallet's currencies to the aggregate, except those the unified ledger names. */
    static method AddWallet(into: Ledger, ledger: Ledger, unified: Ledger) returns (sum: Ledger)
      ensures forall c :: c in sum <==> c in into || (c in ledger && c !in unified)
      ensures forall c <- sum :: sum[c] ==
                if c in ledger && c !in unified
                then Balance((if c in into then into[c].total else 0) + ledger[c].total,
                             (if c in into then into[c].free else 0) + NonNegative(ledger[c].free))
                else into[c]
    {
      sum := into;
      var todo := ledger.Keys;
      while todo != {}
        invariant todo <= ledger.Keys
        invariant forall c :: c in sum <==> c in into || (c in ledger && c !in todo && c !in unified)
        invariant forall c <- sum :: sum[c] ==
                    if c in ledger && c !in todo && c !in unified
                    then Balance((if c in into then into[c].total else 0) + ledger[c].total,
                                 (if c in into then into[c].free else 0) + NonNegative(ledger[c].free))
                    else into[c]
        decreases todo
      {
        ghost var w := Pick(todo);
        var c :| c in todo;
        todo := todo - {c};
        if c in unified {
          continue;
        }
        var was := if c in sum then sum[c] else Balance(0, 0);
        sum := sum[c := Balance(was.total + ledger[c].total, was.free + NonNegative(ledger[c].free))];
      }
    }

    /** `_rebuild_aggregate_balances`; an empty aggregate does not replace the last one. */
    method RebuildAggregate() returns (sum: Ledger)
      modifies this`balances
      ensures IsAggregate(sum, wallets, unified)
      ensures balances == if sum != map[] then sum else old(balances)
    {
      sum := map[];
      for i := 0 to |wallets|
        invariant IsWalletSum(sum, wallets[..i], unified) && balances == old(balances)
      {
        var next := AddWallet(sum, wallets[i].1, unified);
        WalletSumAppend(sum, next, wallets[..i], wallets[i].0, wallets[i].1, unified);
        assert wallets[..i + 1] == wallets[..i] + [(wallets[i].0, wallets[i].1)];
        sum := next;
      }
      assert wallets[..|wallets|] == wallets;
      ghost var walletSum := sum;
      var todo := unified.Keys;
      while todo != {}
        invariant todo <= unified.Keys && balances == old(balances)
        invariant forall c :: c in sum <==> c in walletSum || (c in unified && c !in todo)
        invariant forall c <- sum :: sum[c] ==
                    if c in unified then Balance(unified[c].total, NonNegative(unified[c].free)) else walletSum[c]
        decreases todo
      {
        ghost var w := Pick(todo);
        var c :| c in todo;
        todo := todo - {c};
        sum := sum[c := Balance(unified[c].total, NonNegative(unified[c].free))];
      }
      if sum != map[] {
        balances := sum;
      }
    }

    /** One product's margins folded into the merged set. */
    static method MergeProduct(into: Margins, product: Margins) returns (merged: Margins)
      ensures forall s :: s in merged <==> s in into || s in product
      ensures forall s <- merged :: merged[s] == Margin(InitialIn(into, s) + InitialIn(product, s),
                                                        MaintenanceIn(into, s) + MaintenanceIn(product, s))
    {
      merged := into;
      var todo := product.Keys;
      while todo != {}
        invariant todo <= product.Keys
        invariant forall s :: s in merged <==> s in into || (s in product && s !in todo)
        invariant forall s <- merged :: merged[s] ==
                    if s in todo then into[s]
                    else Margin(InitialIn(into, s) + InitialIn(product, s),
                                MaintenanceIn(into, s) + MaintenanceIn(product, s))
        decreases todo
      {
        ghost var w := Pick(todo);
        var s :| s in todo;
        todo := todo - {s};
        if s in merged {
          merged := merged[s := Margin(merged[s].initial + product[s].initial,
                                       merged[s].maintenance + product[s].maintenance)];
        } else {
          merged := merged[s := product[s]];
        }
      }
    }

    method MergeMargins() returns (merged: Margins)
      ensures IsMerged(merged, margins)
    {
      merged := map[];
      for i := 0 to |margins|
        invariant IsMerged(merged, margins[..i])
      {
        var next := MergeProduct(merged, margins[i].1);
        MergedAppend(merged, next, margins[..i], margins[i].0, margins[i].1);
        assert margins[..i + 1] == margins[..i] + [(margins[i].0, margins[i].1)];
        merged := next;
      }
      assert margins[..|margins|] == margins;
    }

    /** One stated balance per currency of the aggregate. */
    static method StateBalances(balances: Ledger) returns (stated: map<string, Stated>)
      ensures StatesBalances(Account(stated, map[]), balances)
    {
      stated := map[];
      var todo := balances.Keys;
      while todo != {}
        invariant todo <= balances.Keys
        invariant stated.Keys == balances.Keys - todo
        invariant StatesBalances(Account(stated, map[]), map c: string | c in balances && c !in todo :: balances[c])
        decreases todo
      {
        ghost var w := Pick(todo);
        var c :| c in todo;
        todo := todo - {c};
        var total := balances[c].total;
        var free := if balances[c].free < total then balances[c].free else total;
        stated := stated[c := Stated(total, total - free, free)];
      }
      assert balances == map c: string | c in balances && c !in todo :: balances[c];
    }

    /** `_publish_account_state`: nothing is published without a balance. */
    method PublishAccountState()
      modifies this`published
      ensures if balances == map[] then published == old(published)
              else |published| == |old(published)| + 1 && published[..|old(published)|] == old(published)
                   && StatesBalances(published[|old(published)|], balances)
                   && (if marginAccount then IsMerged(published[|old(published)|].margins, margins)
                       else published[|old(published)|].margins == map[])
    {
      var stated := StateBalances(balances);
      if stated == map[] {
        return;
      }
      var merged: Margins := map[];
      if marginAccount {
        merged := MergeMargins();
      }
      published := published + [Account(stated, merged)];
    }

    /** What every publication says is true of the wallets and the unified ledger at that moment. */
    twostate predicate PublishesAggregate()
      reads this
    {
      && |published| == |old(published)| + 1 && published[..|old(published)|] == old(published)
      && (exists aggregate ::
            IsAggregate(aggregate, wallets, unified) && StatesBalances(published[|old(published)|], aggregate))
      && (if marginAccount then IsMerged(published[|old(published)|].margins, margins)
          else published[|old(published)|].margins == map[])
    }

    /**
      `_handle_balance_payload` for spot: the stream states both figures. A currency that is not
      held and reports nothing is ignored.
    */
    method HandleSpotBalance(currency: string, total: int, free: int)
      modifies this
      ensures unified == old(unified) && margins == old(margins)
      ensures var ledger := Held(old(wallets), Spot);
              && wallets == Assign(old(wallets), Spot, SpotPatched(ledger, currency, total, free))
              && (if SpotIgnored(ledger, currency, total, free)
                  then published == old(published) && balances == old(balances)
                  else PublishesAggregate())
    {
      var was := Lookup(wallets, Spot);
      var ledger: Ledger := if was.Some? then was.value else map[];
      wallets := Assign(wallets, Spot, ledger);
      if currency == "" || (total <= 0 && free <= 0 && currency !in ledger) {
        return;
      }
      ledger := ledger[currency := Balance(total, free)];
      AssignTwice(old(wallets), Spot, if was.Some? then was.value else map[], ledger);
      wallets := Assign(wallets, Spot, ledger);
      AssignedIsHeld(old(wallets), Spot, ledger, currency);
      var sum := RebuildAggregate();
      assert currency in sum;
      PublishAccountState();
    }

    /**
      The same for a derivative wallet: the stream states the total only, and the part that was
      locked stays locked. An implicit currency is the settlement currency.
    */
    method HandleDerivativeBalance(product: Product, stated: string, total: int)
      requires product != Spot
      modifies this
      ensures unified == old(unified) && margins == old(margins)
      ensures wallets == Assign(old(wallets), product,
                                DerivativePatched(Held(old(wallets), product), product, stated, total))
      ensures forall currency :: SettlesIn(product, stated, currency) ==>
                LockedStays(Held(old(wallets), product), Held(wallets, product), currency, total)
      ensures PublishesAggregate()
    {
      PatchDerivative(product, stated, total);
      var sum := RebuildAggregate();
      PublishAccountState();
    }

    /** The wallet's part of it; the patched wallet holds the currency. */
    method PatchDerivative(product: Product, stated: string, total: int)
      modifies this`wallets
      ensures wallets == Assign(old(wallets), product,
                                DerivativePatched(Held(old(wallets), product), product, stated, total))
      ensures forall currency :: SettlesIn(product, stated, currency) ==>
                LockedStays(Held(old(wallets), product), Held(wallets, product), currency, total)
      ensures exists c :: HeldSomewhere(wallets, c)
    {
      var was := Lookup(wallets, product);
      var ledger: Ledger := if was.Some? then was.value else map[];
      var currency := if stated != "" then stated else if product == Inverse then "BTC" else "USDT";
      var previous := if currency in ledger then ledger[currency] else Balance(0, 0);
      var locked := NonNegative(previous.total - previous.free);
      ledger := ledger[currency := Balance(total, NonNegative(total - locked))];
      wallets := Assign(wallets, product, ledger);
      AssignedIsHeld(old(wallets), product, ledger, currency);
      DerivativeMessageStates(old(wallets), product, stated, total);
    }

    /** One product of a REST sweep answered: its wallet is replaced. An unread product is not touched. */
    method SweepRead(product: Product, ledger: Ledger)
      modifies this`wallets
      ensures wallets == Assign(old(wallets), product, ledger)
    {
      wallets := Assign(wallets, product, ledger);
    }

    /**
      The end of a sweep over `products`. `unifiedAnswer` is the unified ledger if it was read,
      `answered` the margins of the products that answered. Returns whether anything was stated.
    */
    method FinishSweep(products: seq<Product>, unifiedAnswer: Option<Ledger>, answered: ByProduct<Margins>)
      returns (stated: bool)
      requires products != []
      modifies this
      ensures wallets == old(wallets)
      ensures stated == (unifiedAnswer.Some? || !unifiedMode || old(unified) != map[])
      ensures unified == if unifiedAnswer.Some? then unifiedAnswer.value else old(unified)
      ensures margins == if stated then AssignAll(old(margins), answered) else old(margins)
      ensures !stated ==> published == old(published) && balances == old(balances)
      ensures stated ==>
                if unified == map[] && (forall c :: !HeldSomewhere(wallets, c)) then StatesZeros(products)
                else PublishesAggregate()
    {
      if unifiedAnswer.Some? {
        unified := unifiedAnswer.value;
      } else if unifiedMode && unified == map[] {
        return false;
      }
      for i := 0 to |answered|
        invariant margins == AssignAll(old(margins), answered[..i])
        invariant wallets == old(wallets) && published == old(published) && balances == old(balances)
        invariant unified == if unifiedAnswer.Some? then unifiedAnswer.value else old(unified)
      {
        assert answered[..i + 1][..i] == answered[..i];
        margins := Assign(margins, answered[i].0, answered[i].1);
      }
      assert answered[..|answered|] == answered;
      var sum := RebuildAggregate();
      if sum == map[] {
        sum := Zeros(products);
        assert Settle(products[0]) in sum;
      }
      balances := sum;
      PublishAccountState();
      stated := true;
    }

    /** With nothing held anywhere, the account states a zero for every settlement currency. */
    twostate predicate StatesZeros(products: seq<Product>)
      reads this
    {
      && |published| == |old(published)| + 1 && published[..|old(published)|] == old(published)
      && StatesZero(published[|old(published)|], products)
      && (if marginAccount then IsMerged(published[|old(published)|].margins, margins)
          else published[|old(published)|].margins == map[])
    }

    /** A zero for every product's settlement currency. */
    static method Zeros(products: seq<Product>) returns (sum: Ledger)
      ensures forall c :: c in sum <==> exists i :: 0 <= i < |products| && c == Settle(products[i])
      ensures forall c <- sum :: sum[c] == Balance(0, 0)
    {
      sum := map[];
      for i := 0 to |products|
        invariant forall c :: c in sum <==> exists j :: 0 <= j < i && c == Settle(products[j])
        invariant forall c <- sum :: sum[c] == Balance(0, 0)
      {
        if Settle(products[i]) !in sum {
          sum := sum[Settle(products[i]) := Balance(0, 0)];
        }
      }
    }
  }

  function AssignAll<T>(entries: ByProduct<T>, more: ByProduct<T>): ByProduct<T> {
    if more == [] then entries
    else Assign(AssignAll(entries, more[..|more| - 1]), more[|more| - 1].0, more[|more| - 1].1)
  }

  lemma MergedAppend(before: Margins, after: Margins, entries: ByProduct<Margins>, product: Product, margins: Margins)
    requires IsMerged(before, entries)
    requires forall s :: s in after <==> s in before || s in margins
    requires forall s <- after :: after[s] == Margin(InitialIn(before, s) + InitialIn(margins, s),
                                                     MaintenanceIn(before, s) + MaintenanceIn(margins, s))
    ensures IsMerged(after, entries + [(product, margins)])
  {
    var all := entries + [(product, margins)];
    forall s ensures (exists i :: 0 <= i < |all| && s in all[i].1)
                <==> (exists i :: 0 <= i < |entries| && s in entries[i].1) || s in margins
    {
      assert all[|entries|].1 == margins;
      if exists i :: 0 <= i < |entries| && s in entries[i].1 {
        var i :| 0 <= i < |entries| && s in entries[i].1;
        assert s in all[i].1;
      }
    }
    forall s <- after ensures after[s] == Margin(SumInitial(all, s), SumMaintenance(all, s)) {
      MarginsAppend(entries, product, margins, s);
      if s !in before {
        UnmarginedSumsToZero(entries, s);
      }
    }
  }

  lemma {:induction false} UnmarginedSumsToZero(entries: ByProduct<Margins>, s: Scope)
    requires forall i :: 0 <= i < |entries| ==> s !in entries[i].1
    ensures SumInitial(entries, s) == 0 && SumMaintenance(entries, s) == 0
    decreases |entries|
  {
    if entries != [] {
      UnmarginedSumsToZero(entries[1..], s);
    }
  }

  lemma {:induction false} AssignTwice<T>(entries: ByProduct<T>, product: Product, a: T, b: T)
    ensures Assign(Assign(entries, product, a), product, b) == Assign(entries, product, b)
    decreases |entries|
  {
    if entries != [] && entries[0].0 != product {
      AssignTwice(entries[1..], product, a, b);
      assert ([entries[0]] + Assign(entries[1..], product, a))[1..] == Assign(entries[1..], product, a);
    }
  }

  /** The wallet a derivative message leaves behind. */
  lemma DerivativeMessageStates(wallets: ByProduct<Ledger>, product: Product, stated: string, total: int)
    ensures var was := Held(wallets, product);
            var after := Assign(wallets, product, DerivativePatched(was, product, stated, total));
            forall currency :: SettlesIn(product, stated, currency) ==>
              LockedStays(was, Held(after, product), currency, total)
  {
    var was := Held(wallets, product);
    var now := DerivativePatched(was, product, stated, total);
    LookupAssign(wallets, product, now, product);
    forall currency | SettlesIn(product, stated, currency) ensures LockedStays(was, now, currency, total) {
      LockedStaysLocked(was, product, stated, total, currency);
    }
  }

  lemma {:induction false} AssignedIsHeld(wallets: ByProduct<Ledger>, product: Product, ledger: Ledger, c: string)
    requires c in ledger
    ensures HeldSomewhere(Assign(wallets, product, ledger), c)
    decreases |wallets|
  {
    var after := Assign(wallets, product, ledger);
    if wallets == [] || wallets[0].0 == product {
      assert c in after[0].1;
    } else {
      AssignedIsHeld(wallets[1..], product, ledger, c);
      var rest := Assign(wallets[1..], product, ledger);
      var i :| 0 <= i < |rest| && c in rest[i].1;
      assert after[i + 1] == rest[i];
    }
  }

  // -- conservation ------------------------------------------------------

  predicate DistinctProducts<T>(entries: ByProduct<T>) {
    forall i, j :: 0 <= i < j < |entries| ==> entries[i].0 != entries[j].0
  }

  /** What one product's wallet adds to a currency. */
  function Contribution(wallets: ByProduct<Ledger>, product: Product, currency: string): Balance {
    var ledger := Held(wallets, product);
    Balance(TotalIn(ledger, currency), FreeIn(ledger, currency))
  }

  /**
    Replacing one wallet leaves every other product's contribution alone and moves each sum, total
    and free, by exactly the difference this wallet makes.
  */
  lemma {:induction false} OneWalletMovesOnlyItsOwnShare(wallets: ByProduct<Ledger>, product: Product,
                                                         ledger: Ledger, c: string)
    ensures var after := Assign(wallets, product, ledger);
            && (forall p :: p != product ==> Contribution(after, p, c) == Contribution(wallets, p, c))
            && Contribution(after, product, c) == Balance(TotalIn(ledger, c), FreeIn(ledger, c))
            && SumTotal(after, c) == SumTotal(wallets, c) - Contribution(wallets, product, c).total + TotalIn(ledger, c)
            && SumFree(after, c) == SumFree(wallets, c) - Contribution(wallets, product, c).free + FreeIn(ledger, c)
    decreases |wallets|
  {
    var after := Assign(wallets, product, ledger);
    forall p {
      LookupAssign(wallets, product, ledger, p);
    }
    if wallets == [] {
      assert after[1..] == [];
    } else if wallets[0].0 == product {
      assert after[1..] == wallets[1..];
    } else {
      OneWalletMovesOnlyItsOwnShare(wallets[1..], product, ledger, c);
      assert after[0] == wallets[0] && after[1..] == Assign(wallets[1..], product, ledger);
    }
  }

  lemma {:induction false} LookupAssign<T>(entries: ByProduct<T>, product: Product, value: T, p: Product)
    ensures Lookup(Assign(entries, product, value), p) == if p == product then Some(value) else Lookup(entries, p)
    decreases |entries|
  {
    if entries != [] && entries[0].0 != product {
      LookupAssign(entries[1..], product, value, p);
      assert Assign(entries, product, value)[1..] == Assign(entries[1..], product, value);
    } else if entries != [] {
      assert Assign(entries, product, value)[1..] == entries[1..];
    }
  }

  /** The dictionary never lists a product twice, so every wallet counts once. */
  lemma {:induction false} ProductsStayDistinct<T>(entries: ByProduct<T>, product: Product, value: T)
    requires DistinctProducts(entries)
    ensures DistinctProducts(Assign(entries, product, value))
    ensures forall i :: 0 <= i < |Assign(entries, product, value)| ==>
              Assign(entries, product, value)[i].0 == product
              || exists j :: 0 <= j < |entries| && entries[j].0 == Assign(entries, product, value)[i].0
    decreases |entries|
  {
    if entries != [] && entries[0].0 != product {
      var rest := entries[1..];
      ProductsStayDistinct(rest, product, value);
      var after, tail := Assign(entries, product, value), Assign(rest, product, value);
      forall i | 0 <= i < |tail|
        ensures after[i + 1] == tail[i] && after[i + 1].0 != entries[0].0
             && (after[i + 1].0 == product || exists j :: 0 <= j < |entries| && entries[j].0 == after[i + 1].0)
      {
        if tail[i].0 != product {
          var j :| 0 <= j < |rest| && rest[j].0 == tail[i].0;
          assert entries[j + 1] == rest[j];
        }
      }
      forall i, j | 0 <= i < j < |after| ensures after[i].0 != after[j].0 {
        assert after[j] == tail[j - 1];
        if i > 0 {
          assert after[i] == tail[i - 1];
        }
      }
    }
  }
}
