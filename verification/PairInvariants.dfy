/** The invariant of a pair, and what each change of its reserves does to it. */
module PairInvariants {
  import opened Basics
  import opened FixedPoint
  import opened Pricing
  import opened Liquidity
  import opened OrderPools
  import opened OrderPoolLedger
  import opened Execution
  import opened Solvency
  import opened ExpiryTree
  import opened Orders
  import opened IndexRefinement
  import opened OrderInvariants
  import opened PairOperations
  import opened CallEffects

  /** Reserves and shares exist together; before them there is no order. */
  ghost predicate Funding(s: PairState) {
    if s.supply == 0 then s.Reserves() == Two(0, 0) && s.book.nextId == 0 else s.book.core.Ready()
  }

  ghost predicate PairInvariant(s: PairState) {
    OrdersInvariant(s.book) && Funding(s)
  }

  // Starting, funding and executing -------------------------------------------------------------------------

  /** A pair starts empty, executed to its block, and with the interval of that block as the only key. Key 0 is none. */
  lemma DeployedInvariant(block: nat)
    ensures PairInvariant(Deployed(block))
    ensures var s := Deployed(block);
      && s.book.core.last == block && Keys(s.book.index.tree) == (if block < 5 then {} else {block - block % 5})
      && s.supply == 0 && s.rootKLast == 0 && s.Reserves() == s.book.held == Two(0, 0)
      && s.book.nextId == 0 && s.book.orders == map[] && s.book.status == map[]
      && s.book.core.pools.a == s.book.core.pools.b == PoolState(0, 0, map[], map[], map[], map[], map[])
  {
    var s := Deployed(block);
    var p := EMPTY_POOL;
    assert LiveRates(p, block, 0) == [] && Obligations(p, block, 0) == [] && Owed(p, block, 0) == [];
    assert forall b: nat :: RatesEndingAt(p, b, 0) == [];
    assert Sound(p, block, 0);
    assert PoolSound(p, EMPTY_BOOKS, block, 0);
    assert forall id: nat :: Tabled(s.book, id);
    assert forall id: nat, side: Side :: Owned(s.book, id, side);
    assert Keys(s.book.index.tree) == (if block < 5 then {} else {IntervalStart(block)});
  }

  /** Tokens that arrive only add backing. */
  lemma ReceiveKeepsInvariant(s: PairState, token: Side, amount: nat)
    requires PairInvariant(s)
    ensures PairInvariant(s.Receive(token, amount))
  {
    var held := s.Receive(token, amount).book.held;
    hide PoolSound, Tables, Indexed;
    TablesIgnoreRest(s.book, s.book.(held := held));
    IndexedIgnoresRest(s.book, s.book.(held := held));
  }

  /** Reserves may change as long as the balances back them. */
  lemma ReservesKeepInvariant(s: OrdersState, reserves: Two<nat>, held: Two<nat>)
    requires OrdersInvariant(s)
    requires forall side: Side ::
      held.At(side) >= s.held.At(side) + reserves.At(side) - s.core.reserves.At(side)
    ensures OrdersInvariant(s.(core := s.core.(reserves := reserves), held := held))
  {
    var next := s.(core := s.core.(reserves := reserves), held := held);
    forall side: Side
      ensures Backed(next.core, held, side)
    {
      assert Backed(s.core, s.held, A) && Backed(s.core, s.held, B);
    }
    hide PoolSound;
    assert forall b: nat :: next.core.EndsAt(b) == s.core.EndsAt(b);
    forall id: nat
      ensures Tabled(next, id)
    {
      assert Tabled(s, id);
    }
    forall id: nat, side: Side
      ensures Owned(next, id, side)
    {
      assert Owned(s, id, side);
    }
  }

  /** Before the first liquidity every execution reverts. */
  lemma UnfundedReverts(s: PairState, block: nat, now: nat)
    requires PairInvariant(s) && s.supply == 0
    ensures s.ExecuteVirtualOrders(block, now).None?
  {
    assert Accounts(s.book.core.pools.a, s.book.core.last, 0);
    assert LiveRates(s.book.core.pools.a, s.book.core.last, 0) == [];
    if s.book.core.last <= block <= now {
      UnfundedCannotExecute(s.book.core, A, Processed(s.book, block).ExpiriesList(), block);
    }
  }

  /** Execution of a pair: when it succeeds, and what it keeps. */
  lemma ExecuteKeepsInvariant(s: PairState, block: nat, now: nat)
    requires PairInvariant(s) && Clean(s.book.core, block)
    ensures s.ExecuteVirtualOrders(block, now).Some? <==> 0 < s.supply && s.book.core.last <= block <= now
    ensures s.ExecuteVirtualOrders(block, now).Some? ==>
      var next := s.ExecuteVirtualOrders(block, now).value;
      && PairInvariant(next) && next.supply == s.supply && next.rootKLast == s.rootKLast
      && ProductKept(s.book.core, next.book.core) && next.book.core.last == block
      && next == s.(book := next.book)
      && next.book == s.book.(core := next.book.core, index := Processed(s.book, block))
  {
    if s.supply == 0 {
      UnfundedReverts(s, block, now);
    } else {
      hide OrdersInvariant, OrdersState.ExecuteUntil, Progress, CoreState.Scan, Processed;
      ExecuteUntilKeepsInvariant(s.book, block, now);
      if s.ExecuteVirtualOrders(block, now).Some? {
        ProgressParts(s.book.core, s.ExecuteVirtualOrders(block, now).value.book.core);
      }
    }
  }

  lemma ProgressParts(c: CoreState, next: CoreState)
    requires Progress(c, next)
    ensures ProductKept(c, next) && next.Ready()
  {
  }

  // Liquidity and swaps -------------------------------------------------------------------------------------

  lemma MintFeeAddsShares(s: PairState, reserves: Two<nat>, env: Env)
    ensures s.MintFee(reserves, env).book == s.book && s.supply <= s.MintFee(reserves, env).supply
    ensures !env.feeOn ==> s.MintFee(reserves, env).supply == s.supply
  {
    hide RootK, FeeShares;
  }

  lemma ProvideInitialKeepsInvariant(s: PairState, amountA: nat, amountB: nat, env: Env)
    requires PairInvariant(s)
    ensures var r := s.Receive(A, amountA).Receive(B, amountB).ProvideInitialLiquidity(amountA, amountB, env);
      && (r.Some? <==> s.supply == 0 && 0 < amountA && 0 < amountB)
      && (r.Some? ==>
            && PairInvariant(r.value.0) && r.value.1 == r.value.0.supply == RootK(amountA, amountB)
            && IsMean(r.value.1, amountA, amountB, 1_000_000_000_000_000_000))
  {
    NothingHasNoMean();
    RootKIsMean(amountA, amountB);
    hide IsMean;
    var funded := s.Receive(A, amountA).Receive(B, amountB);
    if s.supply == 0 && 0 < amountA && 0 < amountB {
      RootKPositive(amountA, amountB);
      hide RootK, FeeShares, OrdersInvariant;
      var priced := funded.WithReserves(Two(amountA, amountB));
      MintFeeAddsShares(priced, Two(0, 0), env);
      ReservesKeepInvariant(s.book, Two(amountA, amountB), funded.book.held);
    }
  }

  lemma ProvideKeepsInvariant(s: PairState, shares: nat, env: Env)
    requires PairInvariant(s)
    ensures var r := s.ProvideExecuted(shares, env);
      && (r.Some? <==> 0 < shares && 0 < s.supply)
      && (r.Some? ==> var (next, paid) := r.value;
            && PairInvariant(next.Receive(A, paid.a).Receive(B, paid.b))
            && s.supply + shares <= next.supply
            && paid.a == Share(shares, s.Reserves().a, s.supply) && paid.b == Share(shares, s.Reserves().b, s.supply)
            && next.Reserves() == Two(s.Reserves().a + paid.a, s.Reserves().b + paid.b)
            && Added(s, next.Receive(A, paid.a).Receive(B, paid.b), shares, env, paid))
  {
    AddExecutedDoes(s, env, shares);
    hide Added;
    hide RootK, FeeShares, OrdersInvariant, Share;
    if 0 < shares && 0 < s.supply {
      var (next, paid) := s.ProvideExecuted(shares, env).value;
      var after := Two(s.Reserves().a + paid.a, s.Reserves().b + paid.b);
      MintFeeAddsShares(s.WithReserves(after), s.Reserves(), env);
      var received := next.Receive(A, paid.a).Receive(B, paid.b);
      ReservesKeepInvariant(s.book, after, received.book.held);
    }
  }

  lemma RemoveKeepsInvariant(s: PairState, shares: nat, balance: nat, env: Env)
    requires PairInvariant(s)
    ensures var r := s.RemoveExecuted(shares, balance, env);
      && (r.Some? <==> 0 < shares < s.supply && shares <= balance)
      && (r.Some? ==> var (next, paid) := r.value;
            && PairInvariant(next) && 0 < next.supply && s.supply - shares <= next.supply
            && paid.a == Share(shares, s.Reserves().a, s.supply) && paid.b == Share(shares, s.Reserves().b, s.supply)
            && paid.a < s.Reserves().a && paid.b < s.Reserves().b
            && next.Reserves() == Two(s.Reserves().a - paid.a, s.Reserves().b - paid.b)
            && Taken(s, next, shares, env, paid))
  {
    TakeExecutedDoes(s, env, shares, balance);
    hide Taken;
    hide RootK, FeeShares, OrdersInvariant, Share, OrdersState.PayBoth, PairState.Burnt;
    if 0 < shares < s.supply {
      RemoveLeavesSome(shares, s.Reserves().a, s.supply);
      RemoveLeavesSome(shares, s.Reserves().b, s.supply);
      BurntKeepsInvariant(s, shares, Two(Share(shares, s.Reserves().a, s.supply),
                                         Share(shares, s.Reserves().b, s.supply)), env);
    }
  }

  lemma BurntKeepsInvariant(s: PairState, shares: nat, paid: Two<nat>, env: Env)
    requires PairInvariant(s) && 0 < shares < s.supply && paid.a < s.Reserves().a && paid.b < s.Reserves().b
    ensures var burnt := s.Burnt(shares, paid, env);
      && s.supply - shares <= burnt.supply
      && (!env.feeOn ==> burnt.supply == s.supply - shares)
      && burnt.book.PayBoth(paid).Some?
      && OrdersInvariant(burnt.book.PayBoth(paid).value)
      && burnt.book.PayBoth(paid).value.core.reserves == Two(s.Reserves().a - paid.a, s.Reserves().b - paid.b)
  {
    hide RootK, FeeShares, OrdersInvariant, PairState.MintFee;
    BalancesCoverReserves(s.book);
    var after := Two(s.Reserves().a - paid.a, s.Reserves().b - paid.b);
    MintFeeAddsShares(s.WithReserves(after), s.Reserves(), env);
    ReservesKeepInvariant(s.book, after, Two(s.book.held.a - paid.a, s.book.held.b - paid.b));
  }

  lemma BalancesCoverReserves(s: OrdersState)
    requires OrdersInvariant(s)
    ensures s.core.reserves.a <= s.held.a && s.core.reserves.b <= s.held.b
  {
    TotalsNonNegative(s.core.pools.a, s.core.books.a, s.core.last, s.nextId);
    TotalsNonNegative(s.core.pools.b, s.core.books.b, s.core.last, s.nextId);
    hide PoolSound;
  }

  lemma SwapKeepsInvariant(s: PairState, before: Two<nat>, sell: Side, amountIn: nat)
    requires s.book.held == before.With(sell, before.At(sell) + amountIn) && 0 < amountIn
    requires PairInvariant(s.(book := s.book.(held := before))) && 0 < s.supply
    ensures var r := s.SwapExecuted(sell, amountIn);
      && r.Some? && PairInvariant(r.value.0) && r.value.0.supply == s.supply
      && ProductKept(s.book.core, r.value.0.book.core)
      && r.value.1 == Net(SwapOut(s.Reserves().At(sell), s.Reserves().At(sell.Other()), amountIn))
      && Swapped(s.(book := s.book.(held := before)), r.value.0, sell, amountIn, r.value.1)
  {
    hide Swapped, PaysTheMost, OrdersInvariant, SwapOut, Net;
    SwapExecutedDoes(s.(book := s.book.(held := before)), sell, amountIn);
    assert s.(book := s.book.(held := before)).Receive(sell, amountIn) == s;
    var from, other := s.Reserves().At(sell), s.Reserves().At(sell.Other());
    SwapKeepsProduct(from, other, amountIn);
    BalancesCoverReserves(s.book.(held := before));
    var out := Net(SwapOut(from, other, amountIn));
    var after := s.Reserves().With(sell, from + amountIn).With(sell.Other(), other - out);
    var (next, _) := s.SwapExecuted(sell, amountIn).value;
    ReservesKeepInvariant(s.book.(held := before), after, next.book.held);
    ProductBySides(s.Reserves(), sell);
    ProductBySides(after, sell);
  }

  /** The product of the reserves does not depend on the side it is taken from. */
  lemma ProductBySides(reserves: Two<nat>, side: Side)
    ensures reserves.a * reserves.b == reserves.At(side) * reserves.At(side.Other())
  {
  }
}
