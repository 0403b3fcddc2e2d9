/**
 The invariant of virtual execution: the pools' ledgers are sound, no more is sold and refunded than was
 deposited, no more is owed and paid out than came in, and the token balances back all of it.
 */
module Solvency {
  import opened Basics
  import opened FixedPoint
  import opened OrderPools
  import opened OrderPoolLedger
  import opened Pricing
  import opened Execution
  import opened Sums

  /** Deposits cover what was sold, refunded and is still to be sold (scaled by RATE_SCALE). */
  ghost predicate Escrowed(p: PoolState, k: Books, last: nat, n: nat) {
    RATE_SCALE * (k.sold + k.refunded) + Sum(Obligations(p, last, n)) <= RATE_SCALE * k.deposited
  }

  /** Proceeds that came in cover what was paid out and is still unclaimed (scaled by REWARD_SCALE). */
  ghost predicate Covered(p: PoolState, k: Books, last: nat, n: nat) {
    REWARD_SCALE * k.paidOut + Sum(Owed(p, last, n)) <= REWARD_SCALE * k.paidIn
  }

  ghost predicate PoolSound(p: PoolState, k: Books, last: nat, n: nat) {
    Sound(p, last, n) && Escrowed(p, k, last, n) && Covered(p, k, last, n)
  }

  /** The balance of `side` backs its reserve, its own pool's unsold deposits and the other pool's proceeds. */
  ghost predicate Backed(c: CoreState, held: Two<nat>, side: Side) {
    var own, other := c.books.At(side), c.books.At(side.Other());
    c.reserves.At(side) + own.deposited + other.paidIn
      <= held.At(side) + own.sold + own.refunded + other.paidOut
  }

  ghost predicate Invariant(c: CoreState, held: Two<nat>, n: nat) {
    && PoolSound(c.pools.a, c.books.a, c.last, n)
    && PoolSound(c.pools.b, c.books.b, c.last, n)
    && Backed(c, held, A)
    && Backed(c, held, B)
  }

  /** No order ends strictly between `last` and `block`. */
  ghost predicate NothingEndsBefore(c: CoreState, block: nat) {
    Quiet(c.pools.a, c.last, block) && Quiet(c.pools.b, c.last, block)
  }

  /** Execution to `block` does not retire the orders that ended at the block already reached a second time. */
  predicate Clean(c: CoreState, block: nat) {
    c.last != block || !c.EndsAt(block)
  }

  lemma SellAmountWithinRate(rate: nat, blocks: nat)
    ensures RATE_SCALE * Tokens(rate, blocks) <= rate * blocks
  {
  }

  lemma PoolAfter(p: PoolState, k: Books, last: nat, n: nat, amount: nat, block: nat)
    requires PoolSound(p, k, last, n) && last <= block && Quiet(p, last, block)
    requires block == last ==> p.Ending(last) == 0 && amount == 0
    ensures p.Advance(amount, block).Some?
    ensures var sold := Tokens(p.currentSalesRate, block - last);
      var k' := k.(sold := k.sold + sold, paidIn := k.paidIn + amount);
      PoolSound(p.Advance(amount, block).value, k', block, n)
  {
    AdvanceKeepsSound(p, last, n, amount, block);
    hide Sound, Sum, Obligations, Owed;
    SellAmountWithinRate(p.currentSalesRate, block - last);
  }

  /** What a step from `c` to `next` does to the reserves never lets the product fall or a reserve run dry. */
  ghost predicate ProductKept(c: CoreState, next: CoreState) {
    next.Ready() && c.reserves.a * c.reserves.b <= next.reserves.a * next.reserves.b
  }

  lemma ReservesAfter(c: CoreState, block: nat)
    requires c.Ready() && c.last <= block && c.ExecuteAt(block).Some?
    ensures ProductKept(c, c.ExecuteAt(block).value)
  {
    var sold := Two(c.SellAmount(A, block), c.SellAmount(B, block));
    var end := ComputeVirtualBalances(c.reserves, sold).end;
    VirtualTradeKeepsProduct(c.reserves, sold);
    var next := c.ExecuteAt(block).value.reserves;
    assert end.a <= next.a && end.b <= next.b;
    ProductsKeepOrder(end.a, next.a, end.b, next.b);
  }

  /** Tokens sold in equal tokens added to the reserve plus tokens handed to the other pool, up to rounding. */
  lemma TradeConserves(c: CoreState, block: nat, side: Side)
    requires c.Ready() && c.last <= block && c.ExecuteAt(block).Some?
    ensures var next := c.ExecuteAt(block).value;
      var handed := next.books.At(side.Other()).paidIn - c.books.At(side.Other()).paidIn;
      c.reserves.At(side) + c.SellAmount(side, block) - 1
        <= next.reserves.At(side) + handed <= c.reserves.At(side) + c.SellAmount(side, block)
  {
    var sold := Two(c.SellAmount(A, block), c.SellAmount(B, block));
    var trade := ComputeVirtualBalances(c.reserves, sold);
    FeeAndNet(trade.out.a);
    FeeAndNet(trade.out.b);
    hide Fee, Net, VirtualOut;
  }

  /** A trade that sells nothing buys nothing. */
  lemma NothingSold(c: CoreState, block: nat)
    requires c.last == block && Tradable(c, block)
    ensures c.SellAmount(A, block) == 0 && c.SellAmount(B, block) == 0
    ensures ComputeVirtualBalances(c.reserves, Two(0, 0)) == VirtualTrade(Two(0, 0), c.reserves)
  {
  }

  /** Neither division of the trade up to `block` is by zero. */
  predicate Tradable(c: CoreState, block: nat)
    requires c.last <= block
  {
    0 < c.reserves.a + c.SellAmount(A, block) && 0 < c.reserves.b + c.SellAmount(B, block)
  }

  function TradeUpTo(c: CoreState, block: nat): VirtualTrade
    requires c.last <= block && Tradable(c, block)
  {
    ComputeVirtualBalances(c.reserves, Two(c.SellAmount(A, block), c.SellAmount(B, block)))
  }

  function BooksAfter(k: Books, sold: nat, paidIn: nat): Books {
    k.(sold := k.sold + sold, paidIn := k.paidIn + paidIn)
  }

  /** Execution that can trade is the two pools' advances side by side. */
  lemma ExecuteAtByPools(c: CoreState, block: nat)
    requires c.last <= block && Tradable(c, block)
    ensures var out := TradeUpTo(c, block).out;
      var a, b := c.pools.a.Advance(Net(out.b), block), c.pools.b.Advance(Net(out.a), block);
      && (c.ExecuteAt(block).Some? <==> a.Some? && b.Some?)
      && (a.Some? && b.Some? ==>
            && c.ExecuteAt(block).value.pools == Two(a.value, b.value)
            && c.ExecuteAt(block).value.books
            == Two(BooksAfter(c.books.a, c.SellAmount(A, block), Net(out.b)),
                   BooksAfter(c.books.b, c.SellAmount(B, block), Net(out.a))))
  {
    hide VirtualOut, Fee, Net, PoolState.Distribute, PoolState.Expire, CoreState.SellAmount;
  }

  lemma StandingStillPaysNothing(c: CoreState, block: nat)
    requires c.last == block && Tradable(c, block)
    ensures Net(TradeUpTo(c, block).out.a) == 0 && Net(TradeUpTo(c, block).out.b) == 0
  {
    NothingSold(c, block);
  }

  lemma PoolsAfter(c: CoreState, n: nat, block: nat)
    requires PoolSound(c.pools.a, c.books.a, c.last, n) && PoolSound(c.pools.b, c.books.b, c.last, n)
    requires c.Ready() && c.last <= block && NothingEndsBefore(c, block) && Clean(c, block)
    ensures c.ExecuteAt(block).Some?
    ensures var next := c.ExecuteAt(block).value;
      PoolSound(next.pools.a, next.books.a, block, n) && PoolSound(next.pools.b, next.books.b, block, n)
  {
    hide PoolSound, Quiet, Net, TradeUpTo, CoreState.ExecuteAt, PoolState.Advance;
    ExecuteAtByPools(c, block);
    var out := TradeUpTo(c, block).out;
    if block == c.last {
      StandingStillPaysNothing(c, block);
    }
    PoolAfter(c.pools.a, c.books.a, c.last, n, Net(out.b), block);
    PoolAfter(c.pools.b, c.books.b, c.last, n, Net(out.a), block);
  }

  lemma BackedAfter(c: CoreState, held: Two<nat>, block: nat)
    requires Backed(c, held, A) && Backed(c, held, B)
    requires c.Ready() && c.last <= block && c.ExecuteAt(block).Some?
    ensures Backed(c.ExecuteAt(block).value, held, A) && Backed(c.ExecuteAt(block).value, held, B)
  {
    TradeConserves(c, block, A);
    TradeConserves(c, block, B);
    hide VirtualOut, Fee, Net;
  }

  /** One execution keeps the invariant and cannot revert. */
  lemma {:induction false} ExecuteAtKeepsInvariant(c: CoreState, held: Two<nat>, n: nat, block: nat)
    requires Invariant(c, held, n) && c.Ready()
    requires c.last <= block && NothingEndsBefore(c, block) && Clean(c, block)
    ensures c.ExecuteAt(block).Some?
    ensures var next := c.ExecuteAt(block).value;
      Invariant(next, held, n) && ProductKept(c, next)
  {
    PoolsAfter(c, n, block);
    hide PoolSound, Backed, ProductKept, CoreState.ExecuteAt;
    BackedAfter(c, held, block);
    ReservesAfter(c, block);
  }

  /** Execution touches neither the orders nor what they deposited, were refunded or were paid. */
  ghost predicate OrdersUntouched(c: CoreState, next: CoreState) {
    forall side: Side ::
      var p, q, k, l := c.pools.At(side), next.pools.At(side), c.books.At(side), next.books.At(side);
      && q.orderExpiry == p.orderExpiry && q.salesRate == p.salesRate
      && q.rewardFactorAtSubmission == p.rewardFactorAtSubmission
      && q.salesRateEndingPerBlock == p.salesRateEndingPerBlock
      && l.deposited == k.deposited && l.refunded == k.refunded && l.paidOut == k.paidOut
  }

  lemma ExecuteAtLeavesOrders(c: CoreState, block: nat)
    requires c.last <= block && c.ExecuteAt(block).Some?
    ensures OrdersUntouched(c, c.ExecuteAt(block).value)
  {
    hide VirtualOut, Fee, Net, RewardPerRate;
  }

  ghost predicate Progress(c: CoreState, next: CoreState) {
    ProductKept(c, next) && OrdersUntouched(c, next)
  }

  lemma ProgressChains(c: CoreState, d: CoreState, e: CoreState)
    requires Progress(c, d) && Progress(d, e)
    ensures Progress(c, e)
  {
  }

  lemma StepKeepsInvariant(c: CoreState, held: Two<nat>, n: nat, b: nat, block: nat)
    requires Invariant(c, held, n) && c.Ready() && c.last <= block <= b && Clean(c, block)
    requires forall k: nat :: c.last < k < b ==> !c.EndsAt(k)
    ensures c.ExecuteAt(block).Some?
    ensures Invariant(c.ExecuteAt(block).value, held, n) && Progress(c, c.ExecuteAt(block).value)
  {
    QuietUntil(c, b, block);
    ExecuteAtKeepsInvariant(c, held, n, block);
    ExecuteAtLeavesOrders(c, block);
  }

  /** The whole reference execution keeps the invariant, cannot revert, and leaves the orders alone. */
  lemma {:induction false} ScanKeepsInvariant(c: CoreState, held: Two<nat>, n: nat, b: nat, block: nat)
    requires Invariant(c, held, n) && c.Ready()
    requires c.last < b && c.last <= block && Clean(c, block)
    requires forall k: nat :: c.last < k < b ==> !c.EndsAt(k)
    ensures c.Scan(b, block).Some?
    ensures var next := c.Scan(b, block).value;
      next.last == block && Invariant(next, held, n) && Progress(c, next)
    decreases block - b
  {
    hide Invariant, ProductKept, OrdersUntouched, CoreState.ExecuteAt, CoreState.EndsAt;
    if block <= b {
      StepKeepsInvariant(c, held, n, b, block);
    } else if c.EndsAt(b) {
      StepKeepsInvariant(c, held, n, b, b);
      var next := c.ExecuteAt(b).value;
      ProgressIsReady(c, next);
      ScanKeepsInvariant(next, held, n, b + 1, block);
      ProgressChains(c, next, next.Scan(b + 1, block).value);
    } else {
      ScanKeepsInvariant(c, held, n, b + 1, block);
    }
  }

  lemma ProgressIsReady(c: CoreState, next: CoreState)
    requires Progress(c, next)
    ensures next.Ready()
  {
  }

  lemma QuietUntil(c: CoreState, b: nat, block: nat)
    requires block <= b && forall k: nat :: c.last < k < b ==> !c.EndsAt(k)
    ensures NothingEndsBefore(c, block)
  {
    forall k: nat | c.last < k < block
      ensures c.pools.a.Ending(k) == 0 && c.pools.b.Ending(k) == 0
    {
      assert !c.EndsAt(k);
    }
  }

  // Orders coming and going ---------------------------------------------------------------------------------

  lemma PoolAfterDeposit(p: PoolState, k: Books, last: nat, n: nat, amount: nat, rate: nat, expiry: nat)
    requires PoolSound(p, k, last, n) && last < expiry && rate * (expiry - last) <= RATE_SCALE * amount
    ensures PoolSound(p.Deposit(n, rate, expiry), k.(deposited := k.deposited + amount), last, n + 1)
  {
    DepositKeepsSound(p, last, n, rate, expiry);
    hide Sound, Sum, Obligations, Owed;
  }

  lemma PoolAfterForeignId(p: PoolState, k: Books, last: nat, n: nat)
    requires PoolSound(p, k, last, n)
    ensures PoolSound(p, k, last, n + 1)
  {
    ForeignIdKeepsSound(p, last, n);
    hide Sound, Sum, Obligations, Owed;
  }

  lemma PoolAfterWithdraw(p: PoolState, k: Books, last: nat, n: nat, id: nat)
    requires PoolSound(p, k, last, n) && p.Withdraw(id, last).Some?
    ensures var (q, reward) := p.Withdraw(id, last).value;
      PoolSound(q, k.(paidOut := k.paidOut + reward), last, n)
  {
    WithdrawKeepsSound(p, last, n, id);
    hide Sound, Sum, Obligations, Owed, Claim;
  }

  lemma PoolAfterCancel(p: PoolState, k: Books, last: nat, n: nat, id: nat)
    requires PoolSound(p, k, last, n) && p.Cancel(id, last).Some?
    ensures var (q, unsold, purchased) := p.Cancel(id, last).value;
      PoolSound(q, k.(refunded := k.refunded + unsold, paidOut := k.paidOut + purchased), last, n)
  {
    CancelKeepsSound(p, last, n, id);
    hide Sound, Sum, Obligations, Owed, Claim;
  }

  /** The totals of a sound pool never run below zero. */
  lemma TotalsNonNegative(p: PoolState, k: Books, last: nat, n: nat)
    requires PoolSound(p, k, last, n)
    ensures k.sold + k.refunded <= k.deposited && k.paidOut <= k.paidIn
  {
    AmountsNonNegative(p, last, n);
  }

  /** What a sound pool owes can be paid from the balances, and paying it keeps them backing the rest. */
  lemma SettleKeepsInvariant(c: CoreState, held: Two<nat>, n: nat, sell: Side, pool: PoolState, refunded: nat,
                             paidOut: nat)
    requires Invariant(c, held, n)
    requires var k := c.books.At(sell);
      PoolSound(pool, k.(refunded := k.refunded + refunded, paidOut := k.paidOut + paidOut), c.last, n)
    ensures refunded <= held.At(sell) && paidOut <= held.At(sell.Other())
    ensures Invariant(c.Settle(sell, pool, refunded, paidOut),
                      held.With(sell.Other(), held.At(sell.Other()) - paidOut)
                          .With(sell, held.At(sell) - refunded), n)
  {
    var k := c.books.At(sell);
    TotalsNonNegative(pool, k.(refunded := k.refunded + refunded, paidOut := k.paidOut + paidOut), c.last, n);
    TotalsNonNegative(c.pools.a, c.books.a, c.last, n);
    TotalsNonNegative(c.pools.b, c.books.b, c.last, n);
    hide PoolSound;
  }

  /** A deposit whose tokens have arrived. */
  lemma DepositKeepsInvariant(c: CoreState, held: Two<nat>, n: nat, sell: Side, amount: nat, rate: nat, expiry: nat)
    requires Invariant(c, held, n) && c.last < expiry && rate * (expiry - c.last) <= RATE_SCALE * amount
    ensures Invariant(c.TakeIn(sell, c.pools.At(sell).Deposit(n, rate, expiry), amount),
                      held.With(sell, held.At(sell) + amount), n + 1)
  {
    PoolAfterDeposit(c.pools.At(sell), c.books.At(sell), c.last, n, amount, rate, expiry);
    PoolAfterForeignId(c.pools.At(sell.Other()), c.books.At(sell.Other()), c.last, n);
    hide PoolSound;
  }

  // Executing the same block twice --------------------------------------------------------------------------

  /**
   Executing again at the block already reached moves no token: reserves, reward factors, recorded factors and
   totals stay. It succeeds unless a lumped rate is below what ended there, and lowers each lumped rate by
   exactly that.
   */
  lemma RepeatExecution(c: CoreState)
    requires c.Ready()
    requires c.pools.a.Recorded(c.last) == c.pools.a.rewardFactor
    requires c.pools.b.Recorded(c.last) == c.pools.b.rewardFactor
    ensures c.ExecuteAt(c.last).Some? <==>
      forall side: Side :: c.pools.At(side).Ending(c.last) <= c.pools.At(side).currentSalesRate
    ensures c.ExecuteAt(c.last).Some? ==> var next := c.ExecuteAt(c.last).value;
      && next.reserves == c.reserves && next.books == c.books && next.last == c.last
      && OrdersUntouched(c, next)
      && forall side: Side ::
           var p, q := c.pools.At(side), next.pools.At(side);
           && q.rewardFactor == p.rewardFactor
           && (forall b: nat :: q.Recorded(b) == p.Recorded(b))
           && q.currentSalesRate == p.currentSalesRate - p.Ending(c.last)
  {
    hide CoreState.ExecuteAt, PoolState.Advance, TradeUpTo, Net, OrdersUntouched, Tokens;
    ExecuteAtByPools(c, c.last);
    NothingSold(c, c.last);
    StandingStillPaysNothing(c, c.last);
    RepeatAdvance(c.pools.a, c.last);
    RepeatAdvance(c.pools.b, c.last);
    assert c.pools.At(A) == c.pools.a && c.pools.At(B) == c.pools.b;
    if c.ExecuteAt(c.last).Some? {
      RepeatTradesNothing(c);
      ExecuteAtLeavesOrders(c, c.last);
    }
  }

  lemma RepeatTradesNothing(c: CoreState)
    requires c.ExecuteAt(c.last).Some?
    ensures c.ExecuteAt(c.last).value.reserves == c.reserves
  {
    assert Tradable(c, c.last);
    NothingSold(c, c.last);
    hide RewardPerRate;
  }

  lemma RepeatAdvance(p: PoolState, last: nat)
    requires p.Recorded(last) == p.rewardFactor
    ensures p.Advance(0, last).Some? <==> p.Ending(last) <= p.currentSalesRate
    ensures p.Advance(0, last).Some? ==> var q := p.Advance(0, last).value;
      && q.rewardFactor == p.rewardFactor && (forall b: nat :: q.Recorded(b) == p.Recorded(b))
      && q.currentSalesRate == p.currentSalesRate - p.Ending(last)
  {
    assert p.currentSalesRate != 0 ==> RewardPerRate(0, p.currentSalesRate) == 0;
    hide RewardPerRate;
  }

  /**
   A repeat keeps the lumped rates equal to the rates of the live orders exactly when nothing ended at that
   block: otherwise the orders that ended there are subtracted a second time.
   */
  lemma RepeatKeepsAccountsIff(c: CoreState, n: nat)
    requires c.Ready() && Sound(c.pools.a, c.last, n) && Sound(c.pools.b, c.last, n)
    requires c.ExecuteAt(c.last).Some?
    ensures var next := c.ExecuteAt(c.last).value;
      Accounts(next.pools.a, c.last, n) && Accounts(next.pools.b, c.last, n) <==> !c.EndsAt(c.last)
  {
    RepeatExecution(c);
    var next := c.ExecuteAt(c.last).value;
    assert c.pools.At(A) == c.pools.a && c.pools.At(B) == c.pools.b;
    assert next.pools.At(A) == next.pools.a && next.pools.At(B) == next.pools.b;
    hide CoreState.ExecuteAt;
    SameOrders(c.pools.a, next.pools.a, c.last, n);
    SameOrders(c.pools.b, next.pools.b, c.last, n);
    if !c.EndsAt(c.last) {
      SameAccounts(c.pools.a, next.pools.a, c.last, n, c.last);
      SameAccounts(c.pools.b, next.pools.b, c.last, n, c.last);
    }
  }
}
