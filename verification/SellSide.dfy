/**
 The sell side of the ledger, which no run upsets. Executing a block where orders end a second time lowers a pool's
 lumped rate below the rates of its live orders; then less is sold than was deposited for, never more.
 */
module SellSide {
  import opened Basics
  import opened FixedPoint
  import opened OrderPools
  import opened OrderPoolLedger
  import opened Pricing
  import opened Execution
  import opened Solvency
  import opened Sums

  // One pool ------------------------------------------------------------------------------------------------

  /** By how much the lumped rate of a pool falls short of the rates of its live orders. */
  ghost function Shortfall(p: PoolState, last: nat, n: nat): int {
    Sum(LiveRates(p, last, n)) - p.currentSalesRate
  }

  /** The lumped rate is not above the live orders' rates, and every rate to come is recorded where it ends. */
  ghost predicate Booked(p: PoolState, last: nat, n: nat) {
    && 0 <= Shortfall(p, last, n)
    && (forall b: nat :: last < b ==> p.Ending(b) == Sum(RatesEndingAt(p, b, n)))
    && (forall id: nat :: n <= id ==> p.Rate(id) == 0 && p.Expiry(id) == 0)
  }

  /** The pool with its shortfall made up. */
  ghost function Restored(p: PoolState, last: nat, n: nat): PoolState
    requires Booked(p, last, n)
  {
    p.(currentSalesRate := p.currentSalesRate + Shortfall(p, last, n))
  }

  /** A pool is booked if adding its shortfall to the lumped rate makes the accounts agree. */
  lemma BookedByAccounts(p: PoolState, last: nat, n: nat, shortfall: nat)
    requires Accounts(p.(currentSalesRate := p.currentSalesRate + shortfall), last, n)
    ensures Booked(p, last, n) && Shortfall(p, last, n) == shortfall
  {
    var full := p.(currentSalesRate := p.currentSalesRate + shortfall);
    SameOrders(p, full, last, n);
    forall b: nat | last < b
      ensures p.Ending(b) == Sum(RatesEndingAt(p, b, n))
    {
      SameOrders(p, full, b, n);
      assert full.Ending(b) == Sum(RatesEndingAt(full, b, n));
    }
    assert forall id: nat :: full.Rate(id) == p.Rate(id) && full.Expiry(id) == p.Expiry(id);
  }

  lemma RestoredAccounts(p: PoolState, last: nat, n: nat)
    requires Booked(p, last, n)
    ensures Accounts(Restored(p, last, n), last, n)
  {
    var full := Restored(p, last, n);
    SameOrders(p, full, last, n);
    forall b: nat | last < b
      ensures full.Ending(b) == Sum(RatesEndingAt(full, b, n))
    {
      SameOrders(p, full, b, n);
    }
    assert forall id: nat :: full.Rate(id) == p.Rate(id) && full.Expiry(id) == p.Expiry(id);
  }

  /** A live order's rate is recorded to end at its expiry, in every run. */
  lemma RateIsRecorded(p: PoolState, last: nat, n: nat, id: nat)
    requires Booked(p, last, n) && last < p.Expiry(id)
    ensures p.Rate(id) <= p.Ending(p.Expiry(id))
  {
    RestoredAccounts(p, last, n);
    NoEndingNoOrder(Restored(p, last, n), last, n, id);
  }

  /** What a repeated retirement takes from the lumped rate. */
  function Repeated(p: PoolState, last: nat, block: nat): nat {
    if block == last then p.Ending(last) else 0
  }

  lemma AdvanceMovesRate(p: PoolState, amount: nat, block: nat)
    requires p.Advance(amount, block).Some?
    ensures var q := p.Advance(amount, block).value;
      && q.currentSalesRate == p.currentSalesRate - p.Ending(block)
      && q.orderExpiry == p.orderExpiry && q.salesRate == p.salesRate
      && q.salesRateEndingPerBlock == p.salesRateEndingPerBlock
  {
    hide RewardPerRate;
  }

  /** An advance widens the shortfall by exactly what it retires a second time. */
  lemma AdvanceKeepsBooked(p: PoolState, last: nat, n: nat, amount: nat, block: nat)
    requires Booked(p, last, n) && last <= block && Quiet(p, last, block) && p.Advance(amount, block).Some?
    ensures var q := p.Advance(amount, block).value;
      && Booked(q, block, n)
      && Shortfall(q, block, n) == Shortfall(p, last, n) + Repeated(p, last, block)
      && Sum(Obligations(q, block, n)) <= Sum(Obligations(p, last, n)) - p.currentSalesRate * (block - last)
  {
    AdvanceMovesRate(p, amount, block);
    var q, full := p.Advance(amount, block).value, Restored(p, last, n);
    RestoredAccounts(p, last, n);
    assert forall b: nat :: full.Ending(b) == p.Ending(b);
    hide PoolState.Advance, Accounts, Booked, Sum, LiveRates, RatesEndingAt, Obligations;
    if last < block {
      LiveRatesAfter(full, last, n, block);
    }
    RateIsLive(full, last, n);
    SameOrders(p, full, block, n);
    SameOrders(p, full, last, n);
    var shortfall := Shortfall(p, last, n) + Repeated(p, last, block);
    var after := q.(currentSalesRate := q.currentSalesRate + shortfall);
    SameAccounts(full, after, last, n, block);
    BookedByAccounts(q, block, n, shortfall);
    ObligationsAfter(full, last, n, block);
    SameOrders(p, q, block, n);
    ProductKeepsOrder(p.currentSalesRate, full.currentSalesRate, block - last);
  }

  lemma RateIsLive(p: PoolState, last: nat, n: nat)
    requires Accounts(p, last, n)
    ensures p.currentSalesRate == Sum(LiveRates(p, last, n))
  {
  }

  lemma DepositKeepsBooked(p: PoolState, last: nat, n: nat, rate: nat, expiry: nat)
    requires Booked(p, last, n) && last < expiry
    ensures Booked(p.Deposit(n, rate, expiry), last, n + 1)
    ensures Shortfall(p.Deposit(n, rate, expiry), last, n + 1) == Shortfall(p, last, n)
  {
    RestoredAccounts(p, last, n);
    var q, shortfall := p.Deposit(n, rate, expiry), Shortfall(p, last, n);
    DepositKeepsAccounts(Restored(p, last, n), last, n, rate, expiry);
    assert Restored(p, last, n).Deposit(n, rate, expiry)
        == q.(currentSalesRate := q.currentSalesRate + shortfall);
    hide Accounts, Booked, Shortfall;
    BookedByAccounts(q, last, n + 1, shortfall);
  }

  lemma ForeignIdKeepsBooked(p: PoolState, last: nat, n: nat)
    requires Booked(p, last, n)
    ensures Booked(p, last, n + 1) && Shortfall(p, last, n + 1) == Shortfall(p, last, n)
    ensures Sum(Obligations(p, last, n + 1)) == Sum(Obligations(p, last, n))
  {
    var full, shortfall := Restored(p, last, n), Shortfall(p, last, n);
    RestoredAccounts(p, last, n);
    assert full == p.(currentSalesRate := p.currentSalesRate + shortfall);
    hide Accounts, Booked, Shortfall, Restored, Sum;
    ForeignIdKeepsAccounts(full, last, n);
    BookedByAccounts(p, last, n + 1, shortfall);
    SameOrders(p, full, last, n);
    SameOrders(p, full, last, n + 1);
  }

  lemma WithdrawKeepsBooked(p: PoolState, last: nat, n: nat, id: nat)
    requires Booked(p, last, n) && p.Withdraw(id, last).Some?
    ensures var q := p.Withdraw(id, last).value.0;
      && Booked(q, last, n) && Shortfall(q, last, n) == Shortfall(p, last, n)
      && q.salesRateEndingPerBlock == p.salesRateEndingPerBlock
  {
    RestoredAccounts(p, last, n);
    var q, shortfall := p.Withdraw(id, last).value.0, Shortfall(p, last, n);
    hide Claim;
    var full := Restored(p, last, n);
    WithdrawKeepsAccounts(full, last, n, id);
    assert full.Withdraw(id, last).value.0 == q.(currentSalesRate := q.currentSalesRate + shortfall);
    hide Accounts, Booked, Shortfall;
    BookedByAccounts(q, last, n, shortfall);
  }

  lemma CancelKeepsBooked(p: PoolState, last: nat, n: nat, id: nat)
    requires Booked(p, last, n) && p.Cancel(id, last).Some?
    ensures id < n
    ensures var q := p.Cancel(id, last).value.0;
      Booked(q, last, n) && Shortfall(q, last, n) == Shortfall(p, last, n)
  {
    RestoredAccounts(p, last, n);
    var q, shortfall := p.Cancel(id, last).value.0, Shortfall(p, last, n);
    hide Claim, Tokens;
    var full := Restored(p, last, n);
    CancelKeepsAccounts(full, last, n, id);
    assert full.Cancel(id, last).value.0 == q.(currentSalesRate := q.currentSalesRate + shortfall);
    hide Accounts, Booked, Shortfall;
    BookedByAccounts(q, last, n, shortfall);
  }

  /** A pool short of its live orders' rates has live orders. */
  lemma ShortPoolIsLive(p: PoolState, last: nat, n: nat)
    requires Booked(p, last, n) && Horizon(p, last, last)
    ensures Shortfall(p, last, n) == 0 && p.currentSalesRate == 0
  {
    assert forall id: nat :: LiveRate(p, last, id) == 0;
    AllZero(LiveRates(p, last, n));
  }

  // Both pools ----------------------------------------------------------------------------------------------

  ghost predicate SellSound(p: PoolState, k: Books, last: nat, n: nat) {
    Booked(p, last, n) && Escrowed(p, k, last, n)
  }

  ghost predicate SellInvariant(c: CoreState, n: nat) {
    SellSound(c.pools.a, c.books.a, c.last, n) && SellSound(c.pools.b, c.books.b, c.last, n)
  }

  ghost function ShortfallOf(c: CoreState, n: nat, side: Side): int {
    Shortfall(c.pools.At(side), c.last, n)
  }

  /** Execution to `block` widens each pool's shortfall by what it retires a second time, and by nothing else. */
  ghost predicate WidensBy(c: CoreState, next: CoreState, n: nat, block: nat) {
    forall side: Side ::
      ShortfallOf(next, n, side) == ShortfallOf(c, n, side) + Repeated(c.pools.At(side), c.last, block)
  }

  lemma AdvanceKeepsSellSound(p: PoolState, k: Books, last: nat, n: nat, amount: nat, block: nat)
    requires SellSound(p, k, last, n) && last <= block && Quiet(p, last, block) && p.Advance(amount, block).Some?
    ensures var q := p.Advance(amount, block).value;
      && SellSound(q, BooksAfter(k, Tokens(p.currentSalesRate, block - last), amount), block, n)
      && Shortfall(q, block, n) == Shortfall(p, last, n) + Repeated(p, last, block)
  {
    AdvanceKeepsBooked(p, last, n, amount, block);
    hide Booked, Shortfall, Repeated, Sum, Obligations, PoolState.Advance;
    SellAmountWithinRate(p.currentSalesRate, block - last);
    hide Tokens;
  }

  /** One execution, whether it advances or repeats, keeps the sell side. */
  lemma ExecuteAtKeepsSellSide(c: CoreState, n: nat, block: nat)
    requires SellInvariant(c, n) && c.last <= block && NothingEndsBefore(c, block) && c.ExecuteAt(block).Some?
    ensures SellInvariant(c.ExecuteAt(block).value, n) && WidensBy(c, c.ExecuteAt(block).value, n, block)
  {
    assert Tradable(c, block);
    ExecuteAtByPools(c, block);
    var out := TradeUpTo(c, block).out;
    hide SellSound, Quiet, Net, TradeUpTo, CoreState.ExecuteAt, PoolState.Advance, Shortfall, Repeated;
    AdvanceKeepsSellSound(c.pools.a, c.books.a, c.last, n, Net(out.b), block);
    AdvanceKeepsSellSound(c.pools.b, c.books.b, c.last, n, Net(out.a), block);
  }

  /** The whole of an execution. */
  lemma {:induction false} ScanKeepsSellSide(c: CoreState, n: nat, b: nat, block: nat)
    requires SellInvariant(c, n) && c.last < b && c.last <= block
    requires forall k: nat :: c.last < k < b ==> !c.EndsAt(k)
    ensures c.Scan(b, block).Some? ==> var next := c.Scan(b, block).value;
      SellInvariant(next, n) && WidensBy(c, next, n, block) && OrdersUntouched(c, next)
    decreases block - b
  {
    hide SellInvariant, WidensBy, OrdersUntouched, CoreState.ExecuteAt, CoreState.EndsAt;
    if c.Scan(b, block).None? {
    } else if block <= b {
      QuietUntil(c, b, block);
      ExecuteAtKeepsSellSide(c, n, block);
      ExecuteAtLeavesOrders(c, block);
    } else if c.EndsAt(b) {
      QuietUntil(c, b, b);
      ExecuteAtKeepsSellSide(c, n, b);
      ExecuteAtLeavesOrders(c, b);
      ExecuteKeepsEndings(c, b);
      var next := c.ExecuteAt(b).value;
      ScanKeepsSellSide(next, n, b + 1, block);
      WidensOnce(c, next, next.Scan(b + 1, block).value, n, b, block);
    } else {
      ScanKeepsSellSide(c, n, b + 1, block);
    }
  }

  /** Going on from a stop ahead of where execution stood repeats nothing. */
  lemma WidensOnce(c: CoreState, next: CoreState, end: CoreState, n: nat, stop: nat, block: nat)
    requires c.last < stop < block && next.last == stop
    requires WidensBy(c, next, n, stop) && WidensBy(next, end, n, block)
    requires OrdersUntouched(c, next) && OrdersUntouched(next, end)
    ensures WidensBy(c, end, n, block) && OrdersUntouched(c, end)
  {
    hide Shortfall;
  }

  // Orders coming and going ---------------------------------------------------------------------------------

  lemma TakeInKeepsSellSide(c: CoreState, n: nat, sell: Side, amount: nat, rate: nat, expiry: nat)
    requires SellInvariant(c, n) && c.last < expiry && rate * (expiry - c.last) <= RATE_SCALE * amount
    ensures var next := c.TakeIn(sell, c.pools.At(sell).Deposit(n, rate, expiry), amount);
      SellInvariant(next, n + 1) && forall side: Side :: ShortfallOf(next, n + 1, side) == ShortfallOf(c, n, side)
  {
    var p, q := c.pools.At(sell), c.pools.At(sell.Other());
    DepositKeepsBooked(p, c.last, n, rate, expiry);
    DepositObliges(p, c.last, n, rate, expiry);
    ForeignIdKeepsBooked(q, c.last, n);
    hide Booked, Shortfall, Sum, Obligations, PoolState.Deposit;
  }

  lemma WithdrawKeepsSellSide(c: CoreState, n: nat, sell: Side, id: nat)
    requires SellInvariant(c, n) && c.pools.At(sell).Withdraw(id, c.last).Some?
    ensures var (pool, proceeds) := c.pools.At(sell).Withdraw(id, c.last).value;
      var next := c.Settle(sell, pool, 0, proceeds);
      SellInvariant(next, n) && forall side: Side :: ShortfallOf(next, n, side) == ShortfallOf(c, n, side)
  {
    WithdrawKeepsBooked(c.pools.At(sell), c.last, n, id);
    WithdrawObliges(c.pools.At(sell), c.last, n, id);
    hide Booked, Shortfall, Sum, Obligations, PoolState.Withdraw;
  }

  lemma CancelKeepsSellSide(c: CoreState, n: nat, sell: Side, id: nat)
    requires SellInvariant(c, n) && c.pools.At(sell).Cancel(id, c.last).Some?
    ensures var (pool, unsold, purchased) := c.pools.At(sell).Cancel(id, c.last).value;
      var next := c.Settle(sell, pool, unsold, purchased);
      SellInvariant(next, n) && forall side: Side :: ShortfallOf(next, n, side) == ShortfallOf(c, n, side)
  {
    CancelKeepsBooked(c.pools.At(sell), c.last, n, id);
    CancelObliges(c.pools.At(sell), c.last, n, id);
    hide Booked, Shortfall, Sum, Obligations, PoolState.Cancel;
  }
}
