/**
 What holds of a pair after any run of calls whatever, admissible or not: the product of the reserves, the value of
 a share, the funding and the completeness of the index do not depend on how often a block is executed.
 */
module EveryRun {
  import opened Basics
  import opened FixedPoint
  import opened Pricing
  import opened Liquidity
  import opened OrderPools
  import opened Execution
  import opened Solvency
  import opened ExpiryTree
  import opened ExpiryIndex
  import opened Orders
  import opened IndexRefinement
  import opened OrderInvariants
  import opened PairOperations
  import opened ExecutionLaws

  // Product and share value ---------------------------------------------------------------------------------

  /** No shares come or go, positive reserves stay positive, and their product does not fall. */
  ghost predicate KeepsProduct(s: PairState, next: PairState) {
    && next.supply == s.supply && (s.book.core.Ready() ==> next.book.core.Ready())
    && s.Reserves().a * s.Reserves().b <= next.Reserves().a * next.Reserves().b
  }

  /** What one share stands for does not fall: the product of the reserves over the square of the supply. */
  ghost predicate KeepsShareValue(s: PairState, next: PairState) {
    (s.Reserves().a * s.Reserves().b) * (next.supply * next.supply)
      <= (next.Reserves().a * next.Reserves().b) * (s.supply * s.supply)
  }

  predicate ChangesLiquidity(call: Call) {
    call.InitialLiquidity? || call.AddLiquidity? || call.TakeLiquidity?
  }

  lemma SameSupplyKeepsShareValue(s: PairState, next: PairState)
    requires KeepsProduct(s, next)
    ensures KeepsShareValue(s, next)
  {
    var x, y := s.Reserves().a * s.Reserves().b, next.Reserves().a * next.Reserves().b;
    ProductsKeepOrder(x, y, s.supply * s.supply, s.supply * s.supply);
  }

  lemma {:induction false} DriveKeepsProduct(c: CoreState, expiries: seq<nat>, block: nat)
    requires c.Ready() && c.last <= block
    ensures c.Drive(expiries, block).Some? ==> ProductKept(c, c.Drive(expiries, block).value)
    decreases expiries
  {
    hide CoreState.ExecuteAt, CoreState.EndsAt;
    if expiries == [] {
      if c.ExecuteAt(block).Some? {
        ReservesAfter(c, block);
      }
    } else if c.EndsAt(expiries[0]) && c.last < expiries[0] < block {
      if c.ExecuteAt(expiries[0]).Some? {
        ReservesAfter(c, expiries[0]);
        DriveKeepsProduct(c.ExecuteAt(expiries[0]).value, expiries[1..], block);
      }
    } else {
      DriveKeepsProduct(c, expiries[1..], block);
    }
  }

  lemma ExecuteUntilKeepsProduct(s: OrdersState, block: nat, now: nat)
    requires s.core.Ready()
    ensures s.ExecuteUntil(block, now).Some? ==> ProductKept(s.core, s.ExecuteUntil(block, now).value.core)
  {
    hide CoreState.Drive, IndexState.Process;
    if s.core.last <= block <= now {
      DriveKeepsProduct(s.core, Processed(s, block).ExpiriesList(), block);
    }
  }

  /** Tokens that have just arrived do not influence virtual execution. */
  lemma ExecuteIgnoresReceipts(s: PairState, token: Side, amount: nat, now: nat)
    ensures s.ExecuteVirtualOrders(now, now).None? ==> s.Receive(token, amount).ExecuteVirtualOrders(now, now).None?
    ensures s.ExecuteVirtualOrders(now, now).Some? ==>
      var e := s.ExecuteVirtualOrders(now, now).value;
      && e.book.held == s.book.held
      && s.Receive(token, amount).ExecuteVirtualOrders(now, now) == Some(e.Receive(token, amount))
  {
    hide IndexState.Process, CoreState.Drive;
  }

  lemma SwapExecutedKeepsProduct(s: PairState, sell: Side, amountIn: nat)
    requires s.book.core.Ready() && 0 < amountIn
    ensures s.SwapExecuted(sell, amountIn).Some? ==> KeepsProduct(s, s.SwapExecuted(sell, amountIn).value.0)
  {
    hide SwapOut, Net;
    var from, other := s.Reserves().At(sell), s.Reserves().At(sell.Other());
    SwapKeepsProduct(from, other, amountIn);
    var out := Net(SwapOut(from, other, amountIn));
    var after := s.Reserves().With(sell, from + amountIn).With(sell.Other(), other - out);
    assert s.Reserves().a * s.Reserves().b == from * other;
    assert after.a * after.b == (from + amountIn) * (other - out);
  }

  lemma OrderCallKeepsReserves(s: OrdersState, sender: nat, id: nat, now: nat)
    ensures s.CancelExecuted(sender, id, now).Some? ==>
      s.CancelExecuted(sender, id, now).value.0.core.reserves == s.core.reserves
    ensures s.WithdrawExecuted(sender, id, now).Some? ==>
      s.WithdrawExecuted(sender, id, now).value.0.core.reserves == s.core.reserves
  {
    hide Claim, Tokens;
  }

  /** A call that does not change liquidity never lowers the product of the reserves, whatever the fees. */
  lemma StepKeepsProduct(s: PairState, env: Env, call: Call)
    requires !ChangesLiquidity(call)
    ensures Step(s, env, call).Some? ==> KeepsProduct(s, Step(s, env, call).value)
  {
    hide Step;
    if s.book.core.Ready() {
      ReadyStepKeepsProduct(s, env, call);
    } else {
      OtherCallsKeepSupply(s, env, call);
      EmptyReserve(s.Reserves());
    }
  }

  lemma EmptyReserve(reserves: Two<nat>)
    requires reserves.a == 0 || reserves.b == 0
    ensures reserves.a * reserves.b == 0
  {
  }

  lemma ReadyStepKeepsProduct(s: PairState, env: Env, call: Call)
    requires s.book.core.Ready() && !ChangesLiquidity(call)
    ensures Step(s, env, call).Some? ==> KeepsProduct(s, Step(s, env, call).value)
  {
    hide OrdersState.ExecuteUntil, OrdersState.CancelExecuted, OrdersState.WithdrawExecuted, PairState.SwapExecuted;
    hide RateOver, IndexState.Insert;
    ExecuteUntilKeepsProduct(s.book, env.now, env.now);
    match call
    case Swap(sell, amountIn) =>
      var book := s.Receive(sell, amountIn).book;
      ExecuteUntilKeepsProduct(book, env.now, env.now);
      if 0 < amountIn && book.ExecuteUntil(env.now, env.now).Some? {
        SwapExecutedKeepsProduct(s.(book := book.ExecuteUntil(env.now, env.now).value), sell, amountIn);
      }
    case PlaceOrder(sell, sender, amount, intervals) =>
      var book := s.Receive(sell, amount).book;
      var ready := book.(index := book.index.Insert(book.OrderExpiry(intervals, env.now)));
      ExecuteUntilKeepsProduct(ready, env.now, env.now);
    case CancelOrder(sender, id) =>
      if s.book.ExecuteUntil(env.now, env.now).Some? {
        OrderCallKeepsReserves(s.book.ExecuteUntil(env.now, env.now).value, sender, id, env.now);
      }
    case ClaimProceeds(sender, id) =>
      if s.book.ExecuteUntil(env.now, env.now).Some? {
        OrderCallKeepsReserves(s.book.ExecuteUntil(env.now, env.now).value, sender, id, env.now);
      }
    case Execute(block) =>
      ExecuteUntilKeepsProduct(s.book, block, env.now);
    case Donate(_, _) =>
  }

  predicate LiquidityStays(calls: seq<(Env, Call)>) {
    forall i :: 0 <= i < |calls| ==> !ChangesLiquidity(calls[i].1)
  }

  /**
   Constant product: no run of swaps, orders, claims and executions empties a reserve or lowers the product of the
   reserves, whatever the rounding and the fees.
   */
  lemma {:induction false} RunKeepsProduct(s: PairState, calls: seq<(Env, Call)>)
    ensures LiquidityStays(calls) ==> KeepsProduct(s, Run(s, calls))
    decreases |calls|
  {
    if calls != [] && LiquidityStays(calls) {
      var (env, call) := calls[0];
      StepKeepsProduct(s, env, call);
      hide Step;
      RunKeepsProduct(Apply(s, env, call), calls[1..]);
    }
  }

  /** Without a protocol fee, burning rounds in favour of the shares that stay. */
  lemma RemoveKeepsShareValue(s: PairState, shares: nat, balance: nat, env: Env)
    requires !env.feeOn
    ensures s.RemoveExecuted(shares, balance, env).Some? ==>
      KeepsShareValue(s, s.RemoveExecuted(shares, balance, env).value.0)
  {
    if s.RemoveExecuted(shares, balance, env).Some? {
      var a, b := s.Reserves().a, s.Reserves().b;
      RemoveKeepsProductRatio(shares, a, b, s.supply);
      hide Share, RootK, FeeShares;
      var next := s.RemoveExecuted(shares, balance, env).value.0;
      assert next.supply == s.supply - shares;
      assert next.Reserves() == Two(a - Share(shares, a, s.supply), b - Share(shares, b, s.supply));
    }
  }

  /** Keeping the value of a share and then keeping it again keeps it. */
  lemma ShareValueChains(s: PairState, t: PairState, u: PairState)
    requires 0 < t.supply && KeepsShareValue(s, t) && KeepsShareValue(t, u)
    ensures KeepsShareValue(s, u)
  {
    var x, y, z := s.Reserves().a * s.Reserves().b, t.Reserves().a * t.Reserves().b, u.Reserves().a * u.Reserves().b;
    var p, q, r := s.supply * s.supply, t.supply * t.supply, u.supply * u.supply;
    CrossChain(x, p, y, q, z, r);
  }

  lemma CrossChain(x: nat, p: nat, y: nat, q: nat, z: nat, r: nat)
    requires 0 < q && x * q <= y * p && y * r <= z * q
    ensures x * r <= z * p
  {
    assert (x * q) * r <= (y * p) * r;
    assert (y * r) * p <= (z * q) * p;
    assert (x * q) * r == q * (x * r) && (y * p) * r == (y * r) * p && (z * q) * p == q * (z * p);
    Pricing.CancelFactor(q, x * r, z * p);
  }

  lemma TakeKeepsShareValue(s: PairState, env: Env, shares: nat, balance: nat)
    requires s.book.core.Ready() && 0 < s.supply && !env.feeOn
    ensures s.RemoveLiquidity(shares, balance, env).Some? ==>
      KeepsShareValue(s, s.RemoveLiquidity(shares, balance, env).value.0)
  {
    hide OrdersState.ExecuteUntil, PairState.RemoveExecuted, KeepsShareValue;
    ExecuteUntilKeepsProduct(s.book, env.now, env.now);
    var e := s.ExecuteVirtualOrders(env.now, env.now);
    if s.RemoveLiquidity(shares, balance, env).Some? {
      SameSupplyKeepsShareValue(s, e.value);
      RemoveKeepsShareValue(e.value, shares, balance, env);
      ShareValueChains(s, e.value, s.RemoveLiquidity(shares, balance, env).value.0);
    }
  }

  lemma NothingToLose(s: PairState, next: PairState)
    requires !s.book.core.Ready()
    ensures KeepsShareValue(s, next)
  {
    EmptyReserve(s.Reserves());
    assert 0 <= (next.Reserves().a * next.Reserves().b) * (s.supply * s.supply);
  }

  /** While no fee is taken, a call that mints no shares does not lower what a share stands for. */
  lemma StepKeepsShareValue(s: PairState, env: Env, call: Call)
    requires 0 < s.supply && !env.feeOn && !call.AddLiquidity?
    ensures Step(s, env, call).Some? ==> KeepsShareValue(s, Step(s, env, call).value)
  {
    hide PairState.RemoveLiquidity, KeepsShareValue;
    if !s.book.core.Ready() {
      hide Step;
      if Step(s, env, call).Some? {
        NothingToLose(s, Step(s, env, call).value);
      }
    } else if call.TakeLiquidity? {
      TakeKeepsShareValue(s, env, call.shares, call.balance);
    } else if !call.InitialLiquidity? {
      StepKeepsProduct(s, env, call);
      hide Step;
      if Step(s, env, call).Some? {
        SameSupplyKeepsShareValue(s, Step(s, env, call).value);
      }
    }
  }

  predicate FeeFree(calls: seq<(Env, Call)>) {
    forall i :: 0 <= i < |calls| ==> !calls[i].0.feeOn && !calls[i].1.AddLiquidity?
  }

  /** While no fee is taken and no shares are minted, no run lowers what a share stands for. */
  lemma {:induction false} RunKeepsShareValue(s: PairState, calls: seq<(Env, Call)>)
    requires 0 < s.supply
    ensures FeeFree(calls) ==> KeepsShareValue(s, Run(s, calls))
    decreases |calls|
  {
    hide Step, KeepsShareValue;
    if !s.book.core.Ready() {
      NothingToLose(s, Run(s, calls));
    } else if calls == [] {
      SameSupplyKeepsShareValue(s, s);
    } else if FeeFree(calls) {
      var (env, call) := calls[0];
      StepKeepsShareValue(s, env, call);
      StepStaysFunded(s, env, call);
      var next := Apply(s, env, call);
      SameSupplyKeepsShareValue(s, s);
      RunKeepsShareValue(next, calls[1..]);
      ShareValueChains(s, next, Run(s, calls));
    }
  }

  // Funding -------------------------------------------------------------------------------------------------

  /** As soon as there are shares, there are reserves of both tokens. */
  predicate Funded(s: PairState) {
    0 < s.supply ==> s.book.core.Ready()
  }

  lemma InitialFunds(s: PairState, amounts: Two<nat>, env: Env)
    ensures var r := s.ProvideInitialLiquidity(amounts.a, amounts.b, env);
      r.Some? ==> Funded(r.value.0) && 0 < r.value.0.supply
  {
    if 0 < amounts.a && 0 < amounts.b {
      RootKPositive(amounts.a, amounts.b);
    }
    hide RootK, FeeShares;
  }

  lemma AddingKeepsFunded(s: PairState, shares: nat, env: Env)
    requires Funded(s)
    ensures var r := s.ProvideExecuted(shares, env); r.Some? ==> Funded(r.value.0) && 0 < r.value.0.supply
  {
    hide RootK, FeeShares, Share;
  }

  lemma RemovingKeepsFunded(s: PairState, shares: nat, balance: nat, env: Env)
    requires Funded(s)
    ensures var r := s.RemoveExecuted(shares, balance, env); r.Some? ==> Funded(r.value.0) && 0 < r.value.0.supply
  {
    if 0 < shares < s.supply {
      RemoveLeavesSome(shares, s.Reserves().a, s.supply);
      RemoveLeavesSome(shares, s.Reserves().b, s.supply);
    }
    hide RootK, FeeShares, Share;
  }

  lemma LiquidityStepStaysFunded(s: PairState, env: Env, call: Call)
    requires Funded(s) && ChangesLiquidity(call)
    ensures var r := Step(s, env, call); r.Some? ==> Funded(r.value) && 0 < r.value.supply
  {
    hide OrdersState.ExecuteUntil, PairState.ProvideInitialLiquidity, PairState.ProvideExecuted;
    hide PairState.RemoveExecuted;
    if 0 < s.supply {
      ExecuteUntilKeepsProduct(s.book, env.now, env.now);
    }
    match call
    case InitialLiquidity(amountA, amountB) =>
      InitialFunds(s.Receive(A, amountA).Receive(B, amountB), Two(amountA, amountB), env);
    case AddLiquidity(shares) =>
      var e := s.ExecuteVirtualOrders(env.now, env.now);
      if e.Some? {
        AddingKeepsFunded(e.value, shares, env);
      }
    case TakeLiquidity(shares, balance) =>
      var e := s.ExecuteVirtualOrders(env.now, env.now);
      if e.Some? {
        RemovingKeepsFunded(e.value, shares, balance, env);
      }
    case _ =>
  }

  lemma OtherCallsKeepSupply(s: PairState, env: Env, call: Call)
    requires !ChangesLiquidity(call)
    ensures Step(s, env, call).Some? ==> Step(s, env, call).value.supply == s.supply
  {
    hide OrdersState.ExecuteUntil, OrdersState.PerformLongTermSwap, OrdersState.CancelLongTermSwap;
    hide OrdersState.WithdrawProceeds, SwapOut, Net;
  }

  lemma StepStaysFunded(s: PairState, env: Env, call: Call)
    requires Funded(s)
    ensures Funded(Apply(s, env, call)) && (0 < s.supply ==> 0 < Apply(s, env, call).supply)
  {
    hide Step;
    if ChangesLiquidity(call) {
      LiquidityStepStaysFunded(s, env, call);
    } else {
      OtherCallsKeepSupply(s, env, call);
      if 0 < s.supply {
        StepKeepsProduct(s, env, call);
      }
    }
  }

  /** Once initialised, a pair has shares and reserves of both tokens for ever. */
  lemma {:induction false} RunStaysFunded(s: PairState, calls: seq<(Env, Call)>)
    requires Funded(s)
    ensures Funded(Run(s, calls)) && (0 < s.supply ==> 0 < Run(s, calls).supply)
    decreases |calls|
  {
    if calls != [] {
      var (env, call) := calls[0];
      StepStaysFunded(s, env, call);
      hide Apply;
      RunStaysFunded(Apply(s, env, call), calls[1..]);
    }
  }

  // The index -----------------------------------------------------------------------------------------------

  /** The index is complete, and every order buys the token it does not sell. */
  ghost predicate IndexInOrder(s: OrdersState) {
    Indexed(s) && forall id :: id in s.orders ==> s.orders[id].buyToken == s.orders[id].sellToken.Other()
  }

  lemma ExecutionKeepsOrders(s: OrdersState, block: nat, now: nat)
    ensures s.ExecuteUntil(block, now).Some? ==> var next := s.ExecuteUntil(block, now).value;
      next.orders == s.orders && next.nextId == s.nextId && next.held == s.held
  {
    hide CoreState.Drive, IndexState.Process;
  }

  lemma ExecutionKeepsIndexInOrder(s: OrdersState, block: nat, now: nat)
    requires IndexInOrder(s)
    ensures s.ExecuteUntil(block, now).Some? ==> IndexInOrder(s.ExecuteUntil(block, now).value)
  {
    ExecutionKeepsOrders(s, block, now);
    if s.core.last <= block <= now {
      hide Indexed;
      FirstLeg(s, block, now);
    }
    hide CoreState.Drive, IndexState.Process;
  }

  /** Only reserves and balances differ. */
  ghost predicate TokensMoved(s: OrdersState, next: OrdersState) {
    next == s.(core := s.core.(reserves := next.core.reserves), held := next.held)
  }

  lemma IndexIgnoresTokens(s: OrdersState, next: OrdersState)
    requires IndexInOrder(s) && TokensMoved(s, next)
    ensures IndexInOrder(next)
  {
    assert forall b: nat :: next.core.EndsAt(b) == s.core.EndsAt(b);
    SettleKeepsIndexed(s, next);
  }

  lemma PlacingKeepsIndex(s: OrdersState, sell: Side, sender: nat, amount: nat, intervals: nat, now: nat)
    requires IndexInOrder(s)
    ensures var r := s.PerformLongTermSwap(sell, sender, amount, intervals, now);
      r.Some? ==> IndexInOrder(r.value.0)
  {
    var expiry := s.OrderExpiry(intervals, now);
    var ready := s.(index := s.index.Insert(expiry));
    hide OrdersState.ExecuteUntil, IndexState.Insert, RateOver, Indexed;
    if ready.ExecuteUntil(now, now).Some? {
      NotBehind(ready, now, now);
      InsertKeepsIndexed(s, expiry);
      FirstLeg(ready, now, now);
      ExecutionKeepsOrders(ready, now, now);
      var done := ready.ExecuteUntil(now, now).value;
      assert expiry in Keys(done.index.tree);
      AddOrderKeepsIndexed(done, sell, sender, amount, s.SellingRate(amount, intervals, now), expiry);
    }
  }

  lemma NotBehind(s: OrdersState, block: nat, now: nat)
    requires s.ExecuteUntil(block, now).Some?
    ensures s.core.last <= block <= now && s.ExecuteUntil(block, now).value.core.last == block
  {
  }

  lemma CancellingKeepsIndex(s: OrdersState, sender: nat, id: nat)
    requires IndexInOrder(s)
    ensures var r := s.CancelExecuted(sender, id, s.core.last); r.Some? ==> IndexInOrder(r.value.0)
  {
    hide Indexed, PoolState.Cancel, Tokens, IndexState.Delete;
    if s.CancelExecuted(sender, id, s.core.last).Some? {
      var (next, _, _) := s.CancelExecuted(sender, id, s.core.last).value;
      var (pool, unsold, purchased) := s.core.pools.At(s.orders[id].sellToken).Cancel(id, s.core.last).value;
      CloseKeepsIndexed(s, id, pool, unsold, purchased);
      IndexedIgnoresRest(s.CloseCancelled(id, pool, unsold, purchased, s.core.last), next);
    }
  }

  lemma ClaimingKeepsIndex(s: OrdersState, sender: nat, id: nat)
    requires IndexInOrder(s)
    ensures var r := s.WithdrawExecuted(sender, id, s.core.last); r.Some? ==> IndexInOrder(r.value.0)
  {
    hide Indexed, Claim, Tokens;
    if s.WithdrawExecuted(sender, id, s.core.last).Some? {
      var (next, _) := s.WithdrawExecuted(sender, id, s.core.last).value;
      assert forall b: nat :: next.core.EndsAt(b) ==> s.core.EndsAt(b);
      SettleKeepsIndexed(s, next);
    }
  }

  lemma LiquidityOnlyMovesTokens(s: PairState, amounts: Two<nat>, shares: nat, balance: nat, env: Env)
    ensures var r := s.ProvideInitialLiquidity(amounts.a, amounts.b, env);
      r.Some? ==> TokensMoved(s.book, r.value.0.book)
    ensures var r := s.ProvideExecuted(shares, env); r.Some? ==> TokensMoved(s.book, r.value.0.book)
    ensures var r := s.RemoveExecuted(shares, balance, env); r.Some? ==> TokensMoved(s.book, r.value.0.book)
  {
    hide RootK, FeeShares, Share;
  }

  lemma SwapOnlyMovesTokens(s: PairState, sell: Side, amountIn: nat)
    requires 0 < amountIn
    ensures var r := s.SwapExecuted(sell, amountIn); r.Some? ==> TokensMoved(s.book, r.value.0.book)
  {
    hide SwapOut, Net;
  }

  lemma OrderStepKeepsIndex(s: PairState, env: Env, call: Call)
    requires IndexInOrder(s.book) && (call.PlaceOrder? || call.CancelOrder? || call.ClaimProceeds?)
    ensures IndexInOrder(Apply(s, env, call).book)
  {
    hide IndexInOrder, OrdersState.ExecuteUntil, OrdersState.PerformLongTermSwap;
    hide OrdersState.CancelExecuted, OrdersState.WithdrawExecuted;
    ExecutionKeepsIndexInOrder(s.book, env.now, env.now);
    var e := s.book.ExecuteUntil(env.now, env.now);
    match call
    case PlaceOrder(sell, sender, amount, intervals) =>
      var book := s.Receive(sell, amount).book;
      IndexIgnoresTokens(s.book, book);
      PlacingKeepsIndex(book, sell, sender, amount, intervals, env.now);
    case CancelOrder(sender, id) =>
      if e.Some? {
        CancellingKeepsIndex(e.value, sender, id);
      }
    case ClaimProceeds(sender, id) =>
      if e.Some? {
        ClaimingKeepsIndex(e.value, sender, id);
      }
  }

  lemma OtherStepKeepsIndex(s: PairState, env: Env, call: Call)
    requires IndexInOrder(s.book) && !call.PlaceOrder? && !call.CancelOrder? && !call.ClaimProceeds?
    ensures IndexInOrder(Apply(s, env, call).book)
  {
    hide IndexInOrder, OrdersState.ExecuteUntil, PairState.SwapExecuted;
    hide PairState.ProvideInitialLiquidity, PairState.ProvideExecuted, PairState.RemoveExecuted;
    ExecutionKeepsIndexInOrder(s.book, env.now, env.now);
    var next := Apply(s, env, call);
    match call
    case InitialLiquidity(amountA, amountB) =>
      var funded := s.Receive(A, amountA).Receive(B, amountB);
      LiquidityOnlyMovesTokens(funded, Two(amountA, amountB), 0, 0, env);
      IndexIgnoresTokens(s.book, next.book);
    case AddLiquidity(shares) =>
      var e := s.ExecuteVirtualOrders(env.now, env.now);
      if Step(s, env, call).Some? {
        LiquidityOnlyMovesTokens(e.value, Two(0, 0), shares, 0, env);
        IndexIgnoresTokens(e.value.book, next.book);
      }
    case TakeLiquidity(shares, balance) =>
      var e := s.ExecuteVirtualOrders(env.now, env.now);
      if Step(s, env, call).Some? {
        LiquidityOnlyMovesTokens(e.value, Two(0, 0), shares, balance, env);
        IndexIgnoresTokens(e.value.book, next.book);
      }
    case Swap(sell, amountIn) =>
      var book := s.Receive(sell, amountIn).book;
      IndexIgnoresTokens(s.book, book);
      ExecutionKeepsIndexInOrder(book, env.now, env.now);
      if Step(s, env, call).Some? {
        var e := s.Receive(sell, amountIn).ExecuteVirtualOrders(env.now, env.now).value;
        SwapOnlyMovesTokens(e, sell, amountIn);
        IndexIgnoresTokens(e.book, next.book);
      }
    case Execute(block) =>
      ExecutionKeepsIndexInOrder(s.book, block, env.now);
    case Donate(token, amount) =>
      IndexIgnoresTokens(s.book, next.book);
  }

  /**
   The index over whole runs: every block to come at which an order ends is a key, no key lies before the interval
   reached, and no list a report left behind names a block to come.
   */
  lemma {:induction false} RunsKeepIndexComplete(s: PairState, calls: seq<(Env, Call)>)
    requires IndexInOrder(s.book)
    ensures IndexInOrder(Run(s, calls).book)
    decreases |calls|
  {
    if calls != [] {
      var (env, call) := calls[0];
      if call.PlaceOrder? || call.CancelOrder? || call.ClaimProceeds? {
        OrderStepKeepsIndex(s, env, call);
      } else {
        OtherStepKeepsIndex(s, env, call);
      }
      hide Apply, IndexInOrder;
      RunsKeepIndexComplete(Apply(s, env, call), calls[1..]);
    }
  }
}
