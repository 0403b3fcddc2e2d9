/**
 What every call does, answer and new state, told without the functions that compute it: amounts by the inequalities
 that single them out, and everything else by what it was before.
 */
module CallEffects {
  import opened Basics
  import opened FixedPoint
  import opened Pricing
  import opened Liquidity
  import opened LiquidityLaws
  import opened OrderPools
  import opened Execution
  import opened Solvency
  import opened ExpiryTree
  import opened ExpiryIndex
  import opened Orders
  import opened IndexRefinement
  import opened OrderInvariants
  import opened PairOperations
  import opened ExecutionLaws
  import opened EveryRun
  import opened SalesLaws

  lemma QuotientIsFloor(n: nat, d: nat)
    requires 0 < d
    ensures IsFloor(n / d, n, d)
  {
  }

  // One execution -------------------------------------------------------------------------------------------

  /** `q` is `p` after a payment of `amount` and the retirement of `block`. */
  ghost predicate PaidAndRetired(p: PoolState, q: PoolState, amount: nat, block: nat) {
    && p.rewardFactor <= q.rewardFactor
    && (p.currentSalesRate == 0 ==> q.rewardFactor == p.rewardFactor)
    && (p.currentSalesRate != 0 ==>
          IsFloor(q.rewardFactor - p.rewardFactor, amount * 10_000_000_000_000_000_000_000, p.currentSalesRate))
    && q.currentSalesRate + p.Ending(block) == p.currentSalesRate
    && q == p.(currentSalesRate := q.currentSalesRate, rewardFactor := q.rewardFactor,
               rewardFactorAtBlock := p.rewardFactorAtBlock[block := q.rewardFactor])
  }

  lemma AdvanceDoes(p: PoolState, amount: nat, block: nat)
    requires p.Advance(amount, block).Some?
    ensures PaidAndRetired(p, p.Advance(amount, block).value, amount, block)
  {
    if p.currentSalesRate != 0 {
      QuotientIsFloor(amount * REWARD_SCALE, p.currentSalesRate);
    }
    hide IsFloor;
  }

  /** What one execution sells, buys, keeps as a fee and hands out, for each token. */
  datatype Trade = Trade(sold: Two<nat>, bought: Two<nat>, fee: Two<nat>, paid: Two<nat>)

  ghost predicate TradeAmounts(c: CoreState, block: nat, t: Trade)
    requires c.last <= block
  {
    && IsFloor(t.sold.a, c.pools.a.currentSalesRate * (block - c.last), 10_000)
    && IsFloor(t.sold.b, c.pools.b.currentSalesRate * (block - c.last), 10_000)
    && (forall x: nat ::
          Affordable(x, c.reserves.a, t.sold.a, c.reserves.b, t.sold.b) <==> x <= t.bought.a)
    && (forall x: nat ::
          Affordable(x, c.reserves.b, t.sold.b, c.reserves.a, t.sold.a) <==> x <= t.bought.b)
    && IsFloor(t.fee.a, 30 * t.bought.a, 10_000) && IsFloor(t.paid.a, 9_970 * t.bought.a, 10_000)
    && IsFloor(t.fee.b, 30 * t.bought.b, 10_000) && IsFloor(t.paid.b, 9_970 * t.bought.b, 10_000)
  }

  ghost predicate TradeBooked(c: CoreState, next: CoreState, block: nat, t: Trade) {
    && next.last == block
    && next.reserves.a == c.reserves.a + t.sold.a - t.bought.a + t.fee.a
    && next.reserves.b == c.reserves.b + t.sold.b - t.bought.b + t.fee.b
    && PaidAndRetired(c.pools.a, next.pools.a, t.paid.b, block)
    && PaidAndRetired(c.pools.b, next.pools.b, t.paid.a, block)
    && next.books.a == c.books.a.(sold := c.books.a.sold + t.sold.a, paidIn := c.books.a.paidIn + t.paid.b)
    && next.books.b == c.books.b.(sold := c.books.b.sold + t.sold.b, paidIn := c.books.b.paidIn + t.paid.a)
  }

  lemma SoldIsFloor(rate: nat, blocks: nat)
    ensures IsFloor(Tokens(rate, blocks), rate * blocks, 10_000)
  {
  }

  /** One execution: what both pools sell, the most each side can buy with it, the fee, the proceeds, the new state. */
  lemma ExecutionTrades(c: CoreState, block: nat) returns (t: Trade)
    requires c.last <= block && c.ExecuteAt(block).Some?
    ensures TradeAmounts(c, block, t) && TradeBooked(c, c.ExecuteAt(block).value, block, t)
  {
    assert Tradable(c, block);
    ExecuteAtByPools(c, block);
    var sold := Two(c.SellAmount(A, block), c.SellAmount(B, block));
    var out := TradeUpTo(c, block).out;
    t := Trade(sold, out, Two(Fee(out.a), Fee(out.b)), Two(Net(out.a), Net(out.b)));
    ReservesTraded(c, block);
    TradeBuysTheMost(c.reserves, sold);
    SoldIsFloor(c.pools.a.currentSalesRate, block - c.last);
    SoldIsFloor(c.pools.b.currentSalesRate, block - c.last);
    FeeSplit(out.a);
    FeeSplit(out.b);
    hide CoreState.ExecuteAt, IsFloor, Affordable, Fee, Net, PoolState.Advance, ComputeVirtualBalances, Tokens;
    hide PaidAndRetired;
    AdvanceDoes(c.pools.a, t.paid.b, block);
    AdvanceDoes(c.pools.b, t.paid.a, block);
  }

  lemma ReservesTraded(c: CoreState, block: nat)
    requires c.last <= block && Tradable(c, block) && c.ExecuteAt(block).Some?
    ensures var trade, next := TradeUpTo(c, block), c.ExecuteAt(block).value;
      && next.reserves == Two(trade.end.a + Fee(trade.out.a), trade.end.b + Fee(trade.out.b))
      && next.last == block
  {
    hide VirtualOut, Fee, Net, RewardPerRate, Tokens;
  }

  // Executing, swapping and donating ------------------------------------------------------------------------

  /** The pair once it has caught up with the current block. */
  function CaughtUp(s: PairState, env: Env): Option<PairState> {
    s.ExecuteVirtualOrders(env.now, env.now)
  }

  /** Execution is the scan of the blocks; it takes what it has passed out of the index and touches nothing else. */
  lemma ExecuteDoes(s: PairState, env: Env, block: nat)
    requires Indexed(s.book) && Step(s, env, Execute(block)).Some?
    ensures var next := Step(s, env, Execute(block)).value;
      && s.book.core.last <= block <= env.now
      && Some(next.book.core) == s.book.core.Scan(s.book.core.last + 1, block)
      && Keys(next.book.index.tree) == KeysPast(Keys(s.book.index.tree), block)
      && next == s.(book := s.book.(core := next.book.core, index := next.book.index))
  {
    hide OrdersState.ExecuteUntil, Indexed, Keys, CoreState.Scan;
    NotBehind(s.book, block, env.now);
    FirstLeg(s.book, block, env.now);
    ExecutionKeepsRecords(s.book, block, env.now);
  }

  /** Before a call does its own part, the pair has executed and everything but core and index is as it was. */
  lemma CatchingUpDoes(s: PairState, env: Env)
    requires CaughtUp(s, env).Some?
    ensures var e := CaughtUp(s, env).value;
      e == s.(book := s.book.(core := e.book.core, index := e.book.index)) && e.book.core.last == env.now
  {
    hide OrdersState.ExecuteUntil;
    ExecutionKeepsRecords(s.book, env.now, env.now);
  }

  lemma DonateDoes(s: PairState, env: Env, token: Side, amount: nat)
    ensures Step(s, env, Donate(token, amount))
         == Some(s.(book := s.book.(held := s.book.held.With(token, s.book.held.At(token) + amount))))
  {
  }

  /** A pair with other reserves and balances. */
  function WithTokens(s: PairState, reserves: Two<nat>, held: Two<nat>): PairState {
    s.(book := s.book.(core := s.book.core.(reserves := reserves), held := held))
  }

  /**
   From `e` to `next`, `amountIn` has been swapped for `paid`: 9970 / 10000 of the most the product allows, out of the
   reserve and out of the balance, while what comes in is added to both.
   */
  ghost predicate Swapped(e: PairState, next: PairState, sell: Side, amountIn: nat, paid: nat) {
    var buy := sell.Other();
    var reserves, held := e.Reserves(), e.book.held;
    && 0 < amountIn && PaysTheMost(paid, reserves.At(sell), reserves.At(buy), amountIn)
    && paid <= reserves.At(buy) && paid <= held.At(buy)
    && next == WithTokens(e, reserves.With(sell, reserves.At(sell) + amountIn).With(buy, reserves.At(buy) - paid),
                          held.With(sell, held.At(sell) + amountIn).With(buy, held.At(buy) - paid))
  }

  lemma SwapExecutedDoes(e: PairState, sell: Side, amountIn: nat)
    requires 0 < amountIn
    ensures e.Receive(sell, amountIn).SwapExecuted(sell, amountIn).Some? ==>
      var (next, paid) := e.Receive(sell, amountIn).SwapExecuted(sell, amountIn).value;
      Swapped(e, next, sell, amountIn, paid)
  {
    var from, other := e.Reserves().At(sell), e.Reserves().At(sell.Other());
    SwapPaysTheMost(from, other, amountIn);
    SwapWithinReserve(from, other, amountIn);
    hide SwapOut, Net, PaysTheMost;
  }

  /** An instant swap, told from the state in which the pair has caught up. */
  lemma SwapDoes(s: PairState, env: Env, sell: Side, amountIn: nat)
    ensures Step(s, env, Swap(sell, amountIn)).Some? ==>
      && CaughtUp(s, env).Some? && s.Receive(sell, amountIn).InstantSwap(sell, amountIn, env).Some?
      && Swapped(CaughtUp(s, env).value, Step(s, env, Swap(sell, amountIn)).value, sell, amountIn,
                 s.Receive(sell, amountIn).InstantSwap(sell, amountIn, env).value.1)
  {
    hide PairState.ExecuteVirtualOrders, PairState.SwapExecuted, Swapped;
    ExecuteIgnoresReceipts(s, sell, amountIn, env.now);
    if CaughtUp(s, env).Some? && 0 < amountIn {
      SwapExecutedDoes(CaughtUp(s, env).value, sell, amountIn);
    }
  }

  // Liquidity -----------------------------------------------------------------------------------------------

  /**
   `minted` shares for the fee recipient: the most within its part of the growth up to `reserves`, and none without a
   recipient, a mark or growth.
   */
  ghost predicate MintsItsPart(s: PairState, reserves: Two<nat>, env: Env, minted: nat) {
    var rootK := RootK(reserves.a, reserves.b);
    if env.feeOn && 0 < s.rootKLast < rootK then
      forall m: nat :: WithinPart(s, rootK, env.feeArg, m) == (m <= minted)
    else minted == 0
  }

  /** The mark after a change of liquidity: the mean of the new reserves while there is a recipient. */
  function MarkOf(reserves: Two<nat>, env: Env): nat {
    if env.feeOn then RootK(reserves.a, reserves.b) else 0
  }

  lemma MintFeeDoes(s: PairState, reserves: Two<nat>, env: Env, last: nat)
    requires last == s.rootKLast
    ensures s.supply <= s.MintFee(reserves, env).supply
    ensures MintsItsPart(s, reserves, env, s.MintFee(reserves, env).supply - s.supply)
    ensures s.MintFee(reserves, env)
         == s.(supply := s.MintFee(reserves, env).supply, rootKLast := if env.feeOn then last else 0)
  {
    MintFeeTakesItsPart(s, reserves, env);
    hide RootK, FeeShares, WithinPart;
    var rootK, next := RootK(reserves.a, reserves.b), s.MintFee(reserves, env);
    if env.feeOn && 0 < s.rootKLast < rootK {
      forall m: nat
        ensures WithinPart(s, rootK, env.feeArg, m) == (m <= next.supply - s.supply)
      {
        assert WithinPart(s, rootK, env.feeArg, m) == (s.supply + m <= next.supply);
      }
    }
  }

  /** The first liquidity becomes the reserves, and the mean of its amounts the shares. */
  lemma InitialDoes(s: PairState, env: Env, amountA: nat, amountB: nat)
    requires Step(s, env, InitialLiquidity(amountA, amountB)).Some?
    ensures var next, shares := Step(s, env, InitialLiquidity(amountA, amountB)).value, RootK(amountA, amountB);
      && s.supply == 0 && 0 < amountA && 0 < amountB
      && next == WithTokens(s, Two(amountA, amountB), Two(s.book.held.a + amountA, s.book.held.b + amountB))
                 .(supply := shares, rootKLast := MarkOf(Two(amountA, amountB), env))
      && s.Receive(A, amountA).Receive(B, amountB).ProvideInitialLiquidity(amountA, amountB, env).value.1 == shares
      && IsMean(shares, amountA, amountB, 1_000_000_000_000_000_000)
  {
    RootKIsMean(amountA, amountB);
    NothingHasNoMean();
    hide RootK, IsMean;
  }

  lemma NothingHasNoMean()
    ensures RootK(0, 0) == 0
  {
    assert Sqrt(FromUint(0)) == 0;
  }

  /**
   From `e` to `next`, `shares` have been added for `paid`: exactly these shares are minted, besides what the fee
   recipient gets for growth up to the reserves before the add, and their part of each reserve, rounded down, comes in.
   */
  ghost predicate Added(e: PairState, next: PairState, shares: nat, env: Env, paid: Two<nat>) {
    var reserves, held := e.Reserves(), e.book.held;
    var after := Two(reserves.a + paid.a, reserves.b + paid.b);
    && 0 < e.supply && 0 < shares
    && IsFloor(paid.a, shares * reserves.a, e.supply) && IsFloor(paid.b, shares * reserves.b, e.supply)
    && e.supply + shares <= next.supply && MintsItsPart(e, reserves, env, next.supply - shares - e.supply)
    && next == WithTokens(e, after, Two(held.a + paid.a, held.b + paid.b))
               .(supply := next.supply, rootKLast := MarkOf(after, env))
  }

  /**
   From `e` to `next`, `shares` have been taken out for `paid`: exactly these shares are burnt, besides what the fee
   recipient gets for growth up to the reserves before the removal, and their part of each reserve, rounded down, is
   paid out of the reserve and the balance.
   */
  ghost predicate Taken(e: PairState, next: PairState, shares: nat, env: Env, paid: Two<nat>) {
    var reserves, held := e.Reserves(), e.book.held;
    && 0 < shares < e.supply
    && IsFloor(paid.a, shares * reserves.a, e.supply) && IsFloor(paid.b, shares * reserves.b, e.supply)
    && paid.a <= reserves.a && paid.b <= reserves.b && paid.a <= held.a && paid.b <= held.b
    && e.supply <= next.supply + shares && MintsItsPart(e, reserves, env, next.supply + shares - e.supply)
    && var after := Two(reserves.a - paid.a, reserves.b - paid.b);
    next == WithTokens(e, after, Two(held.a - paid.a, held.b - paid.b))
            .(supply := next.supply, rootKLast := MarkOf(after, env))
  }

  lemma MintIgnoresReserves(s: PairState, after: Two<nat>, reserves: Two<nat>, env: Env, minted: nat)
    requires MintsItsPart(s.WithReserves(after), reserves, env, minted)
    ensures MintsItsPart(s, reserves, env, minted)
  {
    hide RootK;
    var t := s.WithReserves(after);
    forall m: nat
      ensures WithinPart(s, RootK(reserves.a, reserves.b), env.feeArg, m)
           == WithinPart(t, RootK(reserves.a, reserves.b), env.feeArg, m)
    {
    }
  }

  lemma AddExecutedDoes(e: PairState, env: Env, shares: nat)
    ensures e.ProvideExecuted(shares, env).Some? ==>
      var (next, paid) := e.ProvideExecuted(shares, env).value;
      Added(e, next.Receive(A, paid.a).Receive(B, paid.b), shares, env, paid)
  {
    hide RootK, FeeShares, PairState.MintFee, MintsItsPart;
    if e.ProvideExecuted(shares, env).Some? {
      QuotientIsFloor(shares * e.Reserves().a, e.supply);
      QuotientIsFloor(shares * e.Reserves().b, e.supply);
      hide IsFloor;
      var paid := e.ProvideExecuted(shares, env).value.1;
      var after := Two(e.Reserves().a + paid.a, e.Reserves().b + paid.b);
      var fee := e.WithReserves(after).MintFee(e.Reserves(), env);
      MintFeeDoes(e.WithReserves(after), e.Reserves(), env, e.rootKLast);
      MintIgnoresReserves(e, after, e.Reserves(), env, fee.supply - e.supply);
      hide Share;
    }
  }

  lemma TakeExecutedDoes(e: PairState, env: Env, shares: nat, balance: nat)
    ensures e.RemoveExecuted(shares, balance, env).Some? ==>
      var (next, paid) := e.RemoveExecuted(shares, balance, env).value;
      shares <= balance && Taken(e, next, shares, env, paid)
  {
    hide RootK, FeeShares, PairState.MintFee, MintsItsPart;
    if e.RemoveExecuted(shares, balance, env).Some? {
      QuotientIsFloor(shares * e.Reserves().a, e.supply);
      QuotientIsFloor(shares * e.Reserves().b, e.supply);
      hide IsFloor;
      RemoveKeepsRatioIff(shares, e.Reserves().a, e.supply);
      RemoveKeepsRatioIff(shares, e.Reserves().b, e.supply);
      var paid := e.RemoveExecuted(shares, balance, env).value.1;
      var after := Two(e.Reserves().a - paid.a, e.Reserves().b - paid.b);
      var fee := e.WithReserves(after).MintFee(e.Reserves(), env);
      MintFeeDoes(e.WithReserves(after), e.Reserves(), env, e.rootKLast);
      MintIgnoresReserves(e, after, e.Reserves(), env, fee.supply - e.supply);
      hide Share;
    }
  }

  /** Adding liquidity, told from the state in which the pair has caught up. */
  lemma AddDoes(s: PairState, env: Env, shares: nat)
    ensures Step(s, env, AddLiquidity(shares)).Some? ==>
      && CaughtUp(s, env).Some? && s.ProvideLiquidity(shares, env).Some?
      && Added(CaughtUp(s, env).value, Step(s, env, AddLiquidity(shares)).value, shares, env,
               s.ProvideLiquidity(shares, env).value.1)
  {
    hide PairState.ExecuteVirtualOrders, PairState.ProvideExecuted, Added;
    if CaughtUp(s, env).Some? {
      AddExecutedDoes(CaughtUp(s, env).value, env, shares);
    }
  }

  /** Taking liquidity out, told from the state in which the pair has caught up. */
  lemma TakeDoes(s: PairState, env: Env, shares: nat, balance: nat)
    ensures Step(s, env, TakeLiquidity(shares, balance)).Some? ==>
      && CaughtUp(s, env).Some? && s.RemoveLiquidity(shares, balance, env).Some? && shares <= balance
      && Taken(CaughtUp(s, env).value, Step(s, env, TakeLiquidity(shares, balance)).value, shares, env,
               s.RemoveLiquidity(shares, balance, env).value.1)
  {
    hide PairState.ExecuteVirtualOrders, PairState.RemoveExecuted, Taken;
    if CaughtUp(s, env).Some? {
      TakeExecutedDoes(CaughtUp(s, env).value, env, shares, balance);
    }
  }

  // Orders --------------------------------------------------------------------------------------------------

  /** `expiry` is `intervals + 1` intervals of 5 blocks after the last multiple of 5 at or before `now`. */
  predicate EndsAfter(expiry: nat, intervals: nat, now: nat) {
    var start := expiry - 5 * (intervals + 1);
    start % 5 == 0 && start <= now < start + 5
  }

  /** `rate`, in 1/10000 of a token a block, is `amount` spread over the blocks from `now` to `expiry`, rounded down. */
  predicate SpreadsOver(rate: nat, amount: nat, now: nat, expiry: nat) {
    now < expiry && IsFloor(rate, amount * 10_000, expiry - now)
  }

  lemma PlacementTerms(s: OrdersState, amount: nat, intervals: nat, now: nat)
    ensures EndsAfter(s.OrderExpiry(intervals, now), intervals, now)
    ensures SpreadsOver(s.SellingRate(amount, intervals, now), amount, now, s.OrderExpiry(intervals, now))
  {
    var expiry := s.OrderExpiry(intervals, now);
    QuotientIsFloor(amount * RATE_SCALE, expiry - now);
    hide IsFloor;
  }

  /** `q` is `p` with order `id` added: it counts in the lumped rate until `expiry` and earns from now on. */
  ghost predicate Joined(p: PoolState, q: PoolState, id: nat, rate: nat, expiry: nat) {
    q == PoolState(p.currentSalesRate + rate, p.rewardFactor,
                   p.salesRateEndingPerBlock[expiry := p.Ending(expiry) + rate], p.orderExpiry[id := expiry],
                   p.salesRate[id := rate], p.rewardFactorAtSubmission[id := p.rewardFactor], p.rewardFactorAtBlock)
  }

  /** From `e` to `next`, order `id` has been placed: entered for its sender, counted in its pool, its tokens in. */
  ghost predicate Placed(e: OrdersState, next: OrdersState, sell: Side, sender: nat, amount: nat, intervals: nat,
                         id: nat) {
    var now := e.core.last;
    && id == e.nextId && id in next.orders
    && var o := next.orders[id];
    && EndsAfter(o.expirationBlock, intervals, now) && SpreadsOver(o.saleRate, amount, now, o.expirationBlock)
    && o == Order(id, now, o.expirationBlock, o.saleRate, 0, 0, sender, sell, if sell.A? then B else A)
    && Joined(e.core.pools.At(sell), next.core.pools.At(sell), id, o.saleRate, o.expirationBlock)
    && var k := e.core.books.At(sell);
    && next.core == e.core.(pools := e.core.pools.With(sell, next.core.pools.At(sell)),
                            books := e.core.books.With(sell, k.(deposited := k.deposited + amount)))
    && next == e.(core := next.core, index := next.index, nextId := id + 1, orders := e.orders[id := o],
                  status := e.status[id := true], held := e.held.With(sell, e.held.At(sell) + amount))
    && Keys(next.index.tree) == Keys(e.index.tree) + {o.expirationBlock}
  }

  /** The books as a placement executes them, and as they would have been executed without it. */
  lemma PlacementCatchesUp(s: OrdersState, expiry: nat, amounts: Two<nat>, now: nat)
    requires Indexed(s) && now < expiry && expiry % ORDER_BLOCK_INTERVAL == 0
    ensures var ready := s.(index := s.index.Insert(expiry), held := amounts);
      ready.ExecuteUntil(now, now).Some? ==>
        && s.ExecuteUntil(now, now).Some?
        && var e, done := s.ExecuteUntil(now, now).value, ready.ExecuteUntil(now, now).value;
        && done == e.(index := done.index, held := amounts)
        && Keys(done.index.tree) == Keys(e.index.tree) + {expiry}
  {
    hide OrdersState.ExecuteUntil, IndexState.Insert, Keys, Ordered, Indexed, CoreState.Scan;
    var inserted := s.(index := s.index.Insert(expiry));
    var ready := inserted.(held := amounts);
    if ready.ExecuteUntil(now, now).Some? {
      NotBehind(ready, now, now);
      InsertKeepsIndexed(s, expiry);
      IndexedIgnoresRest(inserted, ready);
      FirstLeg(ready, now, now);
      FirstLeg(s, now, now);
      ExecutionKeepsRecords(ready, now, now);
      ExecutionKeepsRecords(s, now, now);
      KeyAhead(Keys(s.index.tree), expiry, now);
    }
  }

  lemma KeyAhead(keys: set<nat>, expiry: nat, now: nat)
    requires now < expiry && expiry % ORDER_BLOCK_INTERVAL == 0
    ensures KeysPast(keys + {expiry}, now) == KeysPast(keys, now) + {expiry}
  {
  }

  lemma AddOrderDoes(e: OrdersState, done: OrdersState, sell: Side, sender: nat, amount: nat, intervals: nat, now: nat)
    requires now == e.core.last
    requires done == e.(index := done.index, held := e.held.With(sell, e.held.At(sell) + amount))
    requires Keys(done.index.tree) == Keys(e.index.tree) + {done.OrderExpiry(intervals, now)}
    ensures Placed(e, done.AddOrder(sell, sender, amount, done.SellingRate(amount, intervals, now),
                                    done.OrderExpiry(intervals, now), now),
                   sell, sender, amount, intervals, e.nextId)
  {
    PlacementTerms(done, amount, intervals, now);
    hide Keys, EndsAfter, SpreadsOver, OrdersState.SellingRate, OrdersState.OrderExpiry;
  }

  /** Placing an order, told from the state in which the pair has caught up. */
  lemma PlaceDoes(s: PairState, env: Env, sell: Side, sender: nat, amount: nat, intervals: nat)
    requires Indexed(s.book)
    ensures Step(s, env, PlaceOrder(sell, sender, amount, intervals)).Some? ==>
      && s.book.ExecuteUntil(env.now, env.now).Some?
      && var e, next := s.book.ExecuteUntil(env.now, env.now).value,
                        Step(s, env, PlaceOrder(sell, sender, amount, intervals)).value;
      && 0 < amount && next == s.(book := next.book)
      && Placed(e, next.book, sell, sender, amount, intervals, s.book.nextId)
  {
    hide OrdersState.ExecuteUntil, IndexState.Insert, Placed, OrdersState.AddOrder, Indexed, Keys;
    hide OrdersState.SellingRate, OrdersState.OrderExpiry;
    if Step(s, env, PlaceOrder(sell, sender, amount, intervals)).Some? {
      SameTerms(s.book, s.Receive(sell, amount).book, amount, intervals, env.now);
      var expiry := s.book.OrderExpiry(intervals, env.now);
      var amounts := s.book.held.With(sell, s.book.held.At(sell) + amount);
      var ready := s.book.(index := s.book.index.Insert(expiry), held := amounts);
      PlacementCatchesUp(s.book, expiry, amounts, env.now);
      ExecutionKeepsRecords(s.book, env.now, env.now);
      SameTerms(s.book, ready.ExecuteUntil(env.now, env.now).value, amount, intervals, env.now);
      AddOrderDoes(s.book.ExecuteUntil(env.now, env.now).value, ready.ExecuteUntil(env.now, env.now).value, sell,
                   sender, amount, intervals, env.now);
    }
  }

  lemma SameTerms(s: OrdersState, t: OrdersState, amount: nat, intervals: nat, now: nat)
    ensures s.OrderExpiry(intervals, now) == t.OrderExpiry(intervals, now)
    ensures s.SellingRate(amount, intervals, now) == t.SellingRate(amount, intervals, now)
  {
  }

  /** What an order selling at `rate` is due, in whole tokens, for the growth of its reward factor. */
  predicate IsDue(amount: nat, growth: int, rate: nat) {
    0 <= growth && IsFloor(amount, growth * rate, 10_000_000_000_000_000_000_000)
  }

  /** What selling at `rate` over `blocks` comes to in whole tokens. */
  predicate IsSold(amount: nat, rate: nat, blocks: int) {
    0 <= blocks && IsFloor(amount, rate * blocks, 10_000)
  }

  /** Order `o` with what it has sold by block `until`, and another `bought`. */
  ghost predicate Updated(o: Order, o': Order, until: nat, bought: nat) {
    && IsSold(o'.sellAmount, o.saleRate, until - o.submitBlock)
    && o' == o.(sellAmount := o'.sellAmount, buyAmount := o.buyAmount + bought)
  }

  /** `q` is `p` without order `id`. */
  ghost predicate Left(p: PoolState, q: PoolState, id: nat) {
    var rate, expiry := p.Rate(id), p.Expiry(id);
    && rate <= p.currentSalesRate && rate <= p.Ending(expiry)
    && q == p.(currentSalesRate := p.currentSalesRate - rate, salesRate := p.salesRate[id := 0],
               orderExpiry := p.orderExpiry[id := 0],
               salesRateEndingPerBlock := p.salesRateEndingPerBlock[expiry := p.Ending(expiry) - rate])
  }

  /** Totals after a claim: what was refunded and paid out is entered. */
  function Entered(books: Two<Books>, sell: Side, refunded: nat, paidOut: nat): Two<Books> {
    var k := books.At(sell);
    books.With(sell, k.(refunded := k.refunded + refunded, paidOut := k.paidOut + paidOut))
  }

  /** Some order still ends where `o` does. */
  predicate StillEnds(c: CoreState, o: Order) {
    0 < c.pools.At(o.sellToken).Ending(o.expirationBlock) || 0 < c.pools.At(o.buyToken).Ending(o.expirationBlock)
  }

  /**
   From `e` to `next`, `sender` has cancelled order `id`: it leaves its pool and is closed, what it has not sold and
   what it is due are sent, and its expiry leaves the index if nothing ends there any more.
   */
  ghost predicate Stopped(e: OrdersState, next: OrdersState, sender: nat, id: nat, unsold: nat, purchased: nat) {
    && e.Active(id) && id in e.orders && id in next.orders
    && var now, o := e.core.last, e.orders[id];
    && var p, q := e.core.pools.At(o.sellToken), next.core.pools.At(o.sellToken);
    && o.owner == sender && now < p.Expiry(id) && 0 < unsold + purchased
    && IsSold(unsold, p.Rate(id), p.Expiry(id) - now)
    && IsDue(purchased, p.rewardFactor - p.Submitted(id), p.Rate(id))
    && Left(p, q, id) && Updated(o, next.orders[id], now, purchased)
    && next.core == e.core.(pools := e.core.pools.With(o.sellToken, q),
                            books := Entered(e.core.books, o.sellToken, unsold, purchased))
    && PaidTo(e.held, next.held, o.buyToken, purchased, o.sellToken, unsold)
    && next.index == e.index.(tree := next.index.tree)
    && Keys(next.index.tree) == (if StillEnds(next.core, o) then Keys(e.index.tree)
                                 else Keys(e.index.tree) - {o.expirationBlock})
    && next == e.(core := next.core, index := next.index, held := next.held,
                  orders := e.orders[id := next.orders[id]], status := e.status[id := false])
  }

  lemma PoolCancelDoes(p: PoolState, id: nat, now: nat)
    ensures p.Cancel(id, now).Some? ==> var (q, unsold, purchased) := p.Cancel(id, now).value;
      && now < p.Expiry(id) && Left(p, q, id)
      && IsSold(unsold, p.Rate(id), p.Expiry(id) - now)
      && IsDue(purchased, p.rewardFactor - p.Submitted(id), p.Rate(id))
  {
    if p.Cancel(id, now).Some? {
      QuotientIsFloor(p.Rate(id) * (p.Expiry(id) - now), RATE_SCALE);
      QuotientIsFloor((p.rewardFactor - p.Submitted(id)) * p.Rate(id), REWARD_SCALE);
    }
    hide IsFloor;
  }

  lemma CloseDoes(e: OrdersState, id: nat, pool: PoolState, unsold: nat, purchased: nat, now: nat)
    requires id in e.orders && e.orders[id].submitBlock <= now
    ensures var o, closed := e.orders[id], e.CloseCancelled(id, pool, unsold, purchased, now);
      && id in closed.orders && Updated(o, closed.orders[id], now, purchased)
      && closed.core == e.core.(pools := e.core.pools.With(o.sellToken, pool),
                                books := Entered(e.core.books, o.sellToken, unsold, purchased))
      && closed.index == e.index.(tree := closed.index.tree)
      && Keys(closed.index.tree) == (if StillEnds(closed.core, o) then Keys(e.index.tree)
                                     else Keys(e.index.tree) - {o.expirationBlock})
      && closed == e.(core := closed.core, index := closed.index, orders := e.orders[id := closed.orders[id]],
                      status := e.status[id := false])
  {
    var o := e.orders[id];
    SoldIsFloor(o.saleRate, now - o.submitBlock);
    DeleteRemovesKey(e.index.tree, o.expirationBlock);
    hide IsFloor, Tokens, Keys, Ordered;
  }

  /** A cancel after execution. */
  lemma CancelExecutedDoes(e: OrdersState, sender: nat, id: nat)
    ensures e.CancelExecuted(sender, id, e.core.last).Some? ==>
      var (next, unsold, purchased) := e.CancelExecuted(sender, id, e.core.last).value;
      Stopped(e, next, sender, id, unsold, purchased)
  {
    hide PoolState.Cancel, OrdersState.CloseCancelled, Keys, Ordered, IsSold, IsDue, Left, Updated;
    if e.CancelExecuted(sender, id, e.core.last).Some? {
      var o := e.orders[id];
      PoolCancelDoes(e.core.pools.At(o.sellToken), id, e.core.last);
      var (pool, unsold, purchased) := e.core.pools.At(o.sellToken).Cancel(id, e.core.last).value;
      CloseDoes(e, id, pool, unsold, purchased, e.core.last);
    }
  }

  /** A cancel, told from the state in which the pair has caught up. */
  lemma CancelDoes(s: PairState, env: Env, sender: nat, id: nat)
    ensures Step(s, env, CancelOrder(sender, id)).Some? ==>
      && CaughtUp(s, env).Some? && s.CancelLongTermSwap(sender, id, env).Some?
      && var (next, unsold, purchased) := s.CancelLongTermSwap(sender, id, env).value;
      && Step(s, env, CancelOrder(sender, id)) == Some(next) && next == s.(book := next.book)
      && Stopped(CaughtUp(s, env).value.book, next.book, sender, id, unsold, purchased)
  {
    hide OrdersState.ExecuteUntil, OrdersState.CancelExecuted, Stopped;
    if CaughtUp(s, env).Some? {
      CancelExecutedDoes(CaughtUp(s, env).value.book, sender, id);
    }
  }

  /**
   From `e` to `next`, `sender` has claimed what order `id` is due: up to its expiry once that has passed, and then
   the order is closed and holds no rate; up to now before that, and then it earns from now on.
   */
  ghost predicate Claimed(e: OrdersState, next: OrdersState, sender: nat, id: nat, proceeds: nat) {
    && e.Active(id) && id in e.orders && id in next.orders
    && var now, o := e.core.last, e.orders[id];
    && var p, q, sell := e.core.pools.At(o.sellToken), next.core.pools.At(o.sellToken), o.sellToken;
    && o.owner == sender && 0 < proceeds && 0 < p.Rate(id)
    && IsDue(proceeds, (if p.Expiry(id) <= now then p.Recorded(p.Expiry(id)) else p.rewardFactor) - p.Submitted(id),
             p.Rate(id))
    && q == (if p.Expiry(id) <= now then p.(salesRate := p.salesRate[id := 0])
             else p.(rewardFactorAtSubmission := p.rewardFactorAtSubmission[id := p.rewardFactor]))
    && Updated(o, next.orders[id], if o.expirationBlock <= now then o.expirationBlock else now, proceeds)
    && next.core == e.core.(pools := e.core.pools.With(sell, q), books := Entered(e.core.books, sell, 0, proceeds))
    && PaidTo(e.held, next.held, o.buyToken, proceeds, sell, 0)
    && next == e.(core := next.core, held := next.held, orders := e.orders[id := next.orders[id]],
                  status := if o.expirationBlock <= now then e.status[id := false] else e.status)
  }

  lemma PoolWithdrawDoes(p: PoolState, id: nat, now: nat)
    ensures p.Withdraw(id, now).Some? ==> var (q, proceeds) := p.Withdraw(id, now).value;
      && 0 < p.Rate(id)
      && IsDue(proceeds, (if p.Expiry(id) <= now then p.Recorded(p.Expiry(id)) else p.rewardFactor) - p.Submitted(id),
               p.Rate(id))
      && q == (if p.Expiry(id) <= now then p.(salesRate := p.salesRate[id := 0])
               else p.(rewardFactorAtSubmission := p.rewardFactorAtSubmission[id := p.rewardFactor]))
  {
    if p.Withdraw(id, now).Some? {
      QuotientIsFloor((p.Cutoff(id, now) - p.Submitted(id)) * p.Rate(id), REWARD_SCALE);
    }
    hide IsFloor;
  }

  lemma RecordDoes(e: OrdersState, id: nat, pool: PoolState, proceeds: nat, now: nat)
    requires id in e.orders && e.orders[id].submitBlock <= OrdersState.SoldUntil(e.orders[id], now)
    ensures var o, next := e.orders[id], e.RecordWithdrawal(id, pool, proceeds, now);
      && id in next.orders
      && Updated(o, next.orders[id], if o.expirationBlock <= now then o.expirationBlock else now, proceeds)
      && next.core == e.core.(pools := e.core.pools.With(o.sellToken, pool),
                              books := Entered(e.core.books, o.sellToken, 0, proceeds))
      && next == e.(core := next.core, orders := e.orders[id := next.orders[id]],
                    status := if o.expirationBlock <= now then e.status[id := false] else e.status)
  {
    var o := e.orders[id];
    SoldIsFloor(o.saleRate, OrdersState.SoldUntil(o, now) - o.submitBlock);
    hide IsFloor, Tokens;
  }

  /** A claim after execution. */
  lemma WithdrawExecutedDoes(e: OrdersState, sender: nat, id: nat)
    ensures e.WithdrawExecuted(sender, id, e.core.last).Some? ==>
      var (next, proceeds) := e.WithdrawExecuted(sender, id, e.core.last).value;
      Claimed(e, next, sender, id, proceeds)
  {
    hide PoolState.Withdraw, OrdersState.RecordWithdrawal, IsDue, Updated;
    if e.WithdrawExecuted(sender, id, e.core.last).Some? {
      var o := e.orders[id];
      PoolWithdrawDoes(e.core.pools.At(o.sellToken), id, e.core.last);
      var (pool, proceeds) := e.core.pools.At(o.sellToken).Withdraw(id, e.core.last).value;
      RecordDoes(e, id, pool, proceeds, e.core.last);
    }
  }

  /** A claim, told from the state in which the pair has caught up. */
  lemma ClaimDoes(s: PairState, env: Env, sender: nat, id: nat)
    ensures Step(s, env, ClaimProceeds(sender, id)).Some? ==>
      && CaughtUp(s, env).Some? && s.WithdrawProceeds(sender, id, env).Some?
      && var (next, proceeds) := s.WithdrawProceeds(sender, id, env).value;
      && Step(s, env, ClaimProceeds(sender, id)) == Some(next) && next == s.(book := next.book)
      && Claimed(CaughtUp(s, env).value.book, next.book, sender, id, proceeds)
  {
    hide OrdersState.ExecuteUntil, OrdersState.WithdrawExecuted, Claimed;
    if CaughtUp(s, env).Some? {
      WithdrawExecutedDoes(CaughtUp(s, env).value.book, sender, id);
    }
  }
}
