/** What adding and removing liquidity, and the protocol's fee on it, amount to for the pair as a whole. */
module LiquidityLaws {
  import opened Basics
  import opened FixedPoint
  import opened Liquidity
  import opened Pricing
  import opened Execution
  import opened ExpiryIndex
  import opened Orders
  import opened PairOperations

  /** The pair once the tokens for added liquidity have arrived. */
  function Delivered(added: PairState, paid: Two<nat>): PairState {
    added.Receive(A, paid.a).Receive(B, paid.b)
  }

  predicate Idle(c: CoreState) {
    c.pools.a.currentSalesRate == 0 && c.pools.b.currentSalesRate == 0
  }

  /** There is nothing to sell on the way to `block`. */
  predicate SellsNothing(c: CoreState, block: nat) {
    block == c.last || Idle(c)
  }

  lemma TradingNothing(c: CoreState)
    requires c.reserves.a != 0 && c.reserves.b != 0
    ensures var next := c.Traded(Two(0, 0));
      next.reserves == c.reserves && (Idle(c) ==> Idle(next))
  {
    assert ComputeVirtualBalances(c.reserves, Two(0, 0)) == VirtualTrade(Two(0, 0), c.reserves);
    hide RewardPerRate, ComputeVirtualBalances;
  }

  lemma RetiringIdle(c: CoreState, block: nat)
    ensures c.Retired(block).Some? ==> var next := c.Retired(block).value;
      next.reserves == c.reserves && (Idle(c) ==> Idle(next))
  {
  }

  lemma SellingNothing(c: CoreState, block: nat)
    requires c.last <= block && SellsNothing(c, block)
    ensures c.ExecuteAt(block).Some? ==> var next := c.ExecuteAt(block).value;
      next.reserves == c.reserves && (Idle(c) ==> Idle(next))
  {
    assert c.SellAmount(A, block) == 0 && c.SellAmount(B, block) == 0;
    hide CoreState.SellAmount, CoreState.Traded, CoreState.Retired, Idle;
    if c.reserves.a != 0 && c.reserves.b != 0 {
      TradingNothing(c);
      RetiringIdle(c.Traded(Two(0, 0)), block);
    }
  }

  /** Execution that has nothing to sell leaves the reserves alone, whatever the pools and the list hold. */
  lemma {:induction false} DriveSellingNothing(c: CoreState, expiries: seq<nat>, block: nat)
    requires c.last <= block && SellsNothing(c, block)
    ensures c.Drive(expiries, block).Some? ==> c.Drive(expiries, block).value.reserves == c.reserves
    decreases expiries
  {
    hide CoreState.ExecuteAt, CoreState.EndsAt, Idle;
    if expiries == [] {
      SellingNothing(c, block);
    } else if c.EndsAt(expiries[0]) && c.last < expiries[0] < block {
      SellingNothing(c, expiries[0]);
      if c.ExecuteAt(expiries[0]).Some? {
        DriveSellingNothing(c.ExecuteAt(expiries[0]).value, expiries[1..], block);
      }
    } else {
      DriveSellingNothing(c, expiries[1..], block);
    }
  }

  /** Adding liquidity does not run execution, so the pair stays at the block it had reached. */
  lemma SupplyAfterAdding(s: PairState, shares: nat, env: Env)
    requires s.ProvideExecuted(shares, env).Some?
    ensures var (next, paid) := s.ProvideExecuted(shares, env).value;
      && 0 < s.supply && s.supply + shares <= next.supply && next.book.core.last == s.book.core.last
      && paid == Two(Share(shares, s.Reserves().a, s.supply), Share(shares, s.Reserves().b, s.supply))
      && next.Reserves() == Two(s.Reserves().a + paid.a, s.Reserves().b + paid.b)
  {
    hide RootK, FeeShares, Share;
  }

  lemma TakingPaysShares(s: PairState, shares: nat, balance: nat, env: Env)
    requires s.RemoveExecuted(shares, balance, env).Some?
    ensures 0 < s.supply
    ensures s.RemoveExecuted(shares, balance, env).value.1
         == Two(Share(shares, s.Reserves().a, s.supply), Share(shares, s.Reserves().b, s.supply))
  {
    hide RootK, FeeShares, Share, PairState.Burnt, OrdersState.PayBoth;
  }

  lemma ExecutionSellingNothing(s: PairState, now: nat)
    requires SellsNothing(s.book.core, now)
    ensures s.ExecuteVirtualOrders(now, now).Some? ==> var next := s.ExecuteVirtualOrders(now, now).value;
      next.Reserves() == s.Reserves() && next.supply == s.supply
  {
    hide CoreState.Drive, IndexState.Process;
    if s.book.core.last <= now {
      var processed := s.book.index.Process(IntervalStart(s.book.core.last), IntervalStart(now));
      DriveSellingNothing(s.book.core, processed.ExpiriesList(), now);
    }
  }

  /**
   The router quotes an added liquidity after executing to the current block, and the pair executes again before
   it books: the amounts booked are the amounts quoted, and moved, by the router.
   */
  lemma RouterQuoteIsBooked(s: PairState, shares: nat, env: Env)
    requires s.book.core.last == env.now
    ensures s.ProvideLiquidity(shares, env).Some? ==>
      && 0 < s.supply
      && s.ProvideLiquidity(shares, env).value.1
      == Two(Share(shares, s.Reserves().a, s.supply), Share(shares, s.Reserves().b, s.supply))
  {
    hide Share, PairState.ProvideExecuted, OrdersState.ExecuteUntil;
    if s.ProvideLiquidity(shares, env).Some? {
      ExecutionSellingNothing(s, env.now);
      SupplyAfterAdding(s.ExecuteVirtualOrders(env.now, env.now).value, shares, env);
    }
  }

  /**
   Liquidity added to any pair and taken out again in the same block, or in a later one while no order sells, never
   returns more of either token than was put in: with a protocol fee or without, whether or not it is switched in
   between, and even though the pair executes virtual orders once more on the way out.
   */
  lemma AddThenTakeNeverGains(s: PairState, shares: nat, balance: nat, env: Env, later: Env)
    requires s.ProvideLiquidity(shares, env).Some?
    ensures var (added, paid) := s.ProvideLiquidity(shares, env).value;
      var taken := Delivered(added, paid).RemoveLiquidity(shares, balance, later);
      SellsNothing(added.book.core, later.now) && taken.Some? ==>
        added.book.core.last == env.now && taken.value.1.a <= paid.a && taken.value.1.b <= paid.b
  {
    hide RootK, FeeShares, Share, PairState.ProvideExecuted, PairState.RemoveExecuted, SellsNothing;
    hide OrdersState.ExecuteUntil;
    var executed := s.ExecuteVirtualOrders(env.now, env.now).value;
    var (added, paid) := s.ProvideLiquidity(shares, env).value;
    SupplyAfterAdding(executed, shares, env);
    var there := Delivered(added, paid);
    if SellsNothing(added.book.core, later.now) && there.RemoveLiquidity(shares, balance, later).Some? {
      ExecutionSellingNothing(there, later.now);
      TakingPaysShares(there.ExecuteVirtualOrders(later.now, later.now).value, shares, balance, later);
      var minted := added.supply - executed.supply - shares;
      AddThenRemoveNeverGains(shares, executed.Reserves().a, executed.supply, minted);
      AddThenRemoveNeverGains(shares, executed.Reserves().b, executed.supply, minted);
    }
  }

  /** `minted` shares are at most a 1/(feeArg + 1) part of the growth from the mark to `rootK`. */
  predicate WithinPart(s: PairState, rootK: nat, feeArg: nat, minted: nat) {
    minted * rootK * (feeArg + 1) <= (s.supply + minted) * (rootK - s.rootKLast)
  }

  /**
   The protocol's cut: with a recipient, and a mean that has grown past its mark, the shares minted are the most
   that still amount to a 1/(feeArg + 1) part of the growth; in every other case there are none.
   */
  lemma MintFeeTakesItsPart(s: PairState, reserves: Two<nat>, env: Env)
    ensures var rootK, next := RootK(reserves.a, reserves.b), s.MintFee(reserves, env);
      && s.supply <= next.supply && next.book == s.book
      && next.rootKLast == (if env.feeOn then s.rootKLast else 0)
      && (env.feeOn && 0 < s.rootKLast < rootK ==>
            forall minted: nat :: WithinPart(s, rootK, env.feeArg, minted) == (s.supply + minted <= next.supply))
      && (!(env.feeOn && 0 < s.rootKLast < rootK) ==> next.supply == s.supply)
  {
    hide RootK, FeeShares;
    var rootK, next := RootK(reserves.a, reserves.b), s.MintFee(reserves, env);
    if env.feeOn && 0 < s.rootKLast < rootK {
      forall minted: nat
        ensures WithinPart(s, rootK, env.feeArg, minted) == (s.supply + minted <= next.supply)
      {
        FeeSharesAreLargest(s.supply, rootK, s.rootKLast, env.feeArg, minted);
      }
    }
  }

  /** The mark stands at the mean of the reserves, or there is none. */
  predicate MarkedHere(s: PairState) {
    s.rootKLast == 0 || s.rootKLast == RootK(s.Reserves().a, s.Reserves().b)
  }

  /** A fee taken where the mark stands mints nothing. */
  lemma NoGrowthNoFee(s: PairState, env: Env)
    requires MarkedHere(s)
    ensures s.MintFee(s.Reserves(), env).supply == s.supply
  {
    hide RootK, FeeShares;
  }

  /**
   Liquidity is not growth: whatever was minted, added or taken out, and with whichever fee settings before and
   after, the fee on the reserves it leaves is nothing until they have been traded against.
   */
  lemma LiquidityIsNotGrowth(s: PairState, amounts: Two<nat>, shares: nat, balance: nat, env: Env, later: Env)
    ensures var r := s.ProvideInitialLiquidity(amounts.a, amounts.b, env);
      r.Some? ==> r.value.0.MintFee(r.value.0.Reserves(), later).supply == r.value.0.supply
    ensures var r := s.ProvideExecuted(shares, env);
      r.Some? ==> r.value.0.MintFee(r.value.0.Reserves(), later).supply == r.value.0.supply
    ensures var r := s.RemoveExecuted(shares, balance, env);
      r.Some? ==> r.value.0.MintFee(r.value.0.Reserves(), later).supply == r.value.0.supply
  {
    MarkAfterInitial(s, amounts, env);
    MarkAfterAdding(s, shares, env);
    MarkAfterRemoving(s, shares, balance, env);
    hide MarkedHere, PairState.MintFee, PairState.ProvideInitialLiquidity, PairState.ProvideExecuted;
    hide PairState.RemoveExecuted;
    if s.ProvideInitialLiquidity(amounts.a, amounts.b, env).Some? {
      NoGrowthNoFee(s.ProvideInitialLiquidity(amounts.a, amounts.b, env).value.0, later);
    }
    if s.ProvideExecuted(shares, env).Some? {
      NoGrowthNoFee(s.ProvideExecuted(shares, env).value.0, later);
    }
    if s.RemoveExecuted(shares, balance, env).Some? {
      NoGrowthNoFee(s.RemoveExecuted(shares, balance, env).value.0, later);
    }
  }

  lemma MarkAfterInitial(s: PairState, amounts: Two<nat>, env: Env)
    ensures var r := s.ProvideInitialLiquidity(amounts.a, amounts.b, env);
      r.Some? ==> MarkedHere(r.value.0)
  {
    hide RootK, FeeShares;
  }

  lemma MarkAfterAdding(s: PairState, shares: nat, env: Env)
    ensures s.ProvideExecuted(shares, env).Some? ==> MarkedHere(s.ProvideExecuted(shares, env).value.0)
  {
    hide RootK, FeeShares, Share;
  }

  lemma MarkAfterRemoving(s: PairState, shares: nat, balance: nat, env: Env)
    ensures s.RemoveExecuted(shares, balance, env).Some? ==> MarkedHere(s.RemoveExecuted(shares, balance, env).value.0)
  {
    hide RootK, FeeShares, Share;
  }
}
