/**
 Whose the tokens are, over whole runs: every token in and out is accounted for, and orders belong to their senders.
 */
module Custody {
  import opened Basics
  import ExpiryTree
  import FixedPoint
  import Pricing
  import opened OrderPools
  import opened ExpiryIndex
  import opened Orders
  import opened OrderInvariants
  import opened PairOperations
  import opened EveryRun
  import opened CallEffects

  // Tokens --------------------------------------------------------------------------------------------------

  function Only(token: Side, amount: nat): Two<nat> {
    Two(0, 0).With(token, amount)
  }

  function Plus(x: Two<nat>, y: Two<nat>): Two<nat> {
    Two(x.a + y.a, x.b + y.b)
  }

  /** What reaches the pair with a call that succeeds. */
  function Receipts(s: PairState, env: Env, call: Call): Two<nat> {
    if Step(s, env, call).None? then Two(0, 0)
    else
      match call
      case InitialLiquidity(amountA, amountB) => Two(amountA, amountB)
      case AddLiquidity(shares) =>
        var r := s.ProvideLiquidity(shares, env);
        if r.None? then Two(0, 0) else r.value.1
      case Swap(sell, amountIn) => Only(sell, amountIn)
      case PlaceOrder(sell, _, amount, _) => Only(sell, amount)
      case Donate(token, amount) => Only(token, amount)
      case _ => Two(0, 0)
  }

  /** What a call that succeeds answers that it has paid. */
  function Payouts(s: PairState, env: Env, call: Call): Two<nat> {
    if Step(s, env, call).None? then Two(0, 0)
    else
      match call
      case TakeLiquidity(shares, balance) =>
        var r := s.RemoveLiquidity(shares, balance, env);
        if r.None? then Two(0, 0) else r.value.1
      case Swap(sell, amountIn) =>
        var r := s.Receive(sell, amountIn).InstantSwap(sell, amountIn, env);
        if r.None? then Two(0, 0) else Only(sell.Other(), r.value.1)
      case CancelOrder(sender, id) =>
        var r := s.CancelLongTermSwap(sender, id, env);
        if r.None? || id !in s.book.orders then Two(0, 0)
        else Plus(Only(s.book.orders[id].sellToken, r.value.1), Only(s.book.orders[id].buyToken, r.value.2))
      case ClaimProceeds(sender, id) =>
        var r := s.WithdrawProceeds(sender, id, env);
        if r.None? || id !in s.book.orders then Two(0, 0) else Only(s.book.orders[id].buyToken, r.value.1)
      case _ => Two(0, 0)
  }

  /** The balances moved by exactly what came in and what went out. */
  ghost predicate Balances(held: Two<nat>, held': Two<nat>, came: Two<nat>, went: Two<nat>) {
    held'.a + went.a == held.a + came.a && held'.b + went.b == held.b + came.b
  }

  lemma PaidToBalances(held: Two<nat>, held': Two<nat>, buy: Side, paid: nat, sell: Side, refunded: nat)
    requires PaidTo(held, held', buy, paid, sell, refunded)
    ensures Balances(held, held', Two(0, 0), Plus(Only(sell, refunded), Only(buy, paid)))
  {
    assert held.At(A) == held.a && held.At(B) == held.b && held'.At(A) == held'.a && held'.At(B) == held'.b;
  }

  lemma OrderStepAccounts(s: PairState, env: Env, call: Call)
    requires (call.CancelOrder? || call.ClaimProceeds?) && Step(s, env, call).Some?
    ensures Balances(s.book.held, Step(s, env, call).value.book.held, Receipts(s, env, call), Payouts(s, env, call))
  {
    hide Step, PairState.ExecuteVirtualOrders, PairState.CancelLongTermSwap, PairState.WithdrawProceeds, PaidTo;
    hide IsSold, IsDue, Left, Updated, StillEnds, ExpiryTree.Keys;
    var next := Step(s, env, call).value.book;
    match call {
      case CancelOrder(sender, id) =>
        CancelDoes(s, env, sender, id);
        CatchingUpDoes(s, env);
        var (_, unsold, purchased) := s.CancelLongTermSwap(sender, id, env).value;
        var o := s.book.orders[id];
        PaidToBalances(s.book.held, next.held, o.buyToken, purchased, o.sellToken, unsold);
      case ClaimProceeds(sender, id) =>
        ClaimDoes(s, env, sender, id);
        CatchingUpDoes(s, env);
        var (_, proceeds) := s.WithdrawProceeds(sender, id, env).value;
        var o := s.book.orders[id];
        PaidToBalances(s.book.held, next.held, o.buyToken, proceeds, o.sellToken, 0);
    }
  }

  lemma SwapStepAccounts(s: PairState, env: Env, sell: Side, amountIn: nat)
    requires Step(s, env, Swap(sell, amountIn)).Some?
    ensures Balances(s.book.held, Step(s, env, Swap(sell, amountIn)).value.book.held,
                     Receipts(s, env, Swap(sell, amountIn)), Payouts(s, env, Swap(sell, amountIn)))
  {
    hide Step, PairState.ExecuteVirtualOrders, PairState.InstantSwap, Pricing.PaysTheMost;
    SwapDoes(s, env, sell, amountIn);
    CatchingUpDoes(s, env);
  }

  lemma LiquidityStepAccounts(s: PairState, env: Env, call: Call)
    requires (call.InitialLiquidity? || call.AddLiquidity? || call.TakeLiquidity?) && Step(s, env, call).Some?
    ensures Balances(s.book.held, Step(s, env, call).value.book.held, Receipts(s, env, call), Payouts(s, env, call))
  {
    hide Step, PairState.ExecuteVirtualOrders, PairState.ProvideLiquidity, PairState.RemoveLiquidity;
    hide MintsItsPart, IsFloor, MarkOf, FixedPoint.IsMean, FixedPoint.RootK;
    match call {
      case InitialLiquidity(amountA, amountB) =>
        InitialDoes(s, env, amountA, amountB);
      case AddLiquidity(shares) =>
        AddDoes(s, env, shares);
        CatchingUpDoes(s, env);
      case TakeLiquidity(shares, balance) =>
        TakeDoes(s, env, shares, balance);
        CatchingUpDoes(s, env);
    }
  }

  lemma PlainStepAccounts(s: PairState, env: Env, call: Call)
    requires (call.PlaceOrder? || call.Execute? || call.Donate?) && Step(s, env, call).Some?
    ensures Balances(s.book.held, Step(s, env, call).value.book.held, Receipts(s, env, call), Payouts(s, env, call))
  {
    hide OrdersState.ExecuteUntil, IndexState.Insert, RateOver, PoolState.Deposit;
    match call {
      case PlaceOrder(sell, _, amount, intervals) =>
        var book := s.Receive(sell, amount).book;
        ExecutionKeepsOrders(book.(index := book.index.Insert(book.OrderExpiry(intervals, env.now))), env.now, env.now);
      case Execute(block) =>
        ExecutionKeepsOrders(s.book, block, env.now);
      case Donate(_, _) =>
    }
  }

  /** Every call moves the balances by what reached the pair and by what the call answers, and by nothing else. */
  lemma StepAccounts(s: PairState, env: Env, call: Call)
    ensures Balances(s.book.held, Apply(s, env, call).book.held, Receipts(s, env, call), Payouts(s, env, call))
  {
    hide Step;
    if Step(s, env, call).Some? {
      hide Receipts, Payouts, Balances;
      match call
      case Swap(sell, amountIn) => SwapStepAccounts(s, env, sell, amountIn);
      case CancelOrder(_, _) => OrderStepAccounts(s, env, call);
      case ClaimProceeds(_, _) => OrderStepAccounts(s, env, call);
      case InitialLiquidity(_, _) => LiquidityStepAccounts(s, env, call);
      case AddLiquidity(_) => LiquidityStepAccounts(s, env, call);
      case TakeLiquidity(_, _) => LiquidityStepAccounts(s, env, call);
      case _ => PlainStepAccounts(s, env, call);
    }
  }

  function AllReceipts(s: PairState, calls: seq<(Env, Call)>): Two<nat>
    decreases |calls|
  {
    if calls == [] then Two(0, 0)
    else Plus(Receipts(s, calls[0].0, calls[0].1), AllReceipts(Apply(s, calls[0].0, calls[0].1), calls[1..]))
  }

  function AllPayouts(s: PairState, calls: seq<(Env, Call)>): Two<nat>
    decreases |calls|
  {
    if calls == [] then Two(0, 0)
    else Plus(Payouts(s, calls[0].0, calls[0].1), AllPayouts(Apply(s, calls[0].0, calls[0].1), calls[1..]))
  }

  /** Custody: over any run, what the pair has received less what it has paid out is what it holds. */
  lemma {:induction false} RunsAccountForEveryToken(s: PairState, calls: seq<(Env, Call)>)
    ensures Balances(s.book.held, Run(s, calls).book.held, AllReceipts(s, calls), AllPayouts(s, calls))
    decreases |calls|
  {
    if calls != [] {
      var (env, call) := calls[0];
      StepAccounts(s, env, call);
      hide Apply, Receipts, Payouts;
      RunsAccountForEveryToken(Apply(s, env, call), calls[1..]);
    }
  }

  // Owners --------------------------------------------------------------------------------------------------

  /** The terms on which an order was placed, which nothing changes. */
  ghost predicate SameTermsOf(o: Order, o': Order) {
    o' == o.(sellAmount := o'.sellAmount, buyAmount := o'.buyAmount)
  }

  /** No order is lost, and none changes hands or terms. */
  ghost predicate OrdersKept(s: OrdersState, next: OrdersState) {
    && s.nextId <= next.nextId
    && forall id :: id in s.orders && id < s.nextId ==> id in next.orders && SameTermsOf(s.orders[id], next.orders[id])
  }

  lemma OrdersKeptChains(s: OrdersState, t: OrdersState, u: OrdersState)
    requires OrdersKept(s, t) && OrdersKept(t, u)
    ensures OrdersKept(s, u)
  {
  }

  lemma OrderStepKeepsOrders(s: PairState, env: Env, call: Call)
    requires (call.CancelOrder? || call.ClaimProceeds?) && Step(s, env, call).Some?
    ensures OrdersKept(s.book, Step(s, env, call).value.book)
  {
    hide Step, PairState.ExecuteVirtualOrders, PairState.CancelLongTermSwap, PairState.WithdrawProceeds;
    hide IsSold, IsDue, Left, StillEnds, ExpiryTree.Keys, PaidTo;
    match call
    case CancelOrder(sender, id) => CancelDoes(s, env, sender, id);
      CatchingUpDoes(s, env);
    case ClaimProceeds(sender, id) => ClaimDoes(s, env, sender, id);
      CatchingUpDoes(s, env);
  }

  lemma PlaceStepKeepsOrders(s: PairState, env: Env, call: Call)
    requires call.PlaceOrder? && Step(s, env, call).Some?
    ensures OrdersKept(s.book, Step(s, env, call).value.book)
  {
    hide OrdersState.ExecuteUntil, IndexState.Insert, RateOver, PoolState.Deposit;
    var book := s.Receive(call.sell, call.amount).book;
    ExecutionKeepsOrders(book.(index := book.index.Insert(book.OrderExpiry(call.intervals, env.now))), env.now,
                         env.now);
  }

  lemma OtherStepKeepsOrders(s: PairState, env: Env, call: Call)
    requires !call.PlaceOrder? && !call.CancelOrder? && !call.ClaimProceeds? && Step(s, env, call).Some?
    ensures Step(s, env, call).value.book.orders == s.book.orders
    ensures Step(s, env, call).value.book.nextId == s.book.nextId
  {
    hide OrdersState.ExecuteUntil, PairState.SwapExecuted, PairState.ProvideExecuted, PairState.RemoveExecuted;
    hide PairState.ProvideInitialLiquidity;
    match call {
      case InitialLiquidity(amountA, amountB) =>
        LiquidityOnlyMovesTokens(s.Receive(A, amountA).Receive(B, amountB), Two(amountA, amountB), 0, 0, env);
      case AddLiquidity(shares) =>
        ExecutionKeepsOrders(s.book, env.now, env.now);
        LiquidityOnlyMovesTokens(s.ExecuteVirtualOrders(env.now, env.now).value, Two(0, 0), shares, 0, env);
      case TakeLiquidity(shares, balance) =>
        ExecutionKeepsOrders(s.book, env.now, env.now);
        LiquidityOnlyMovesTokens(s.ExecuteVirtualOrders(env.now, env.now).value, Two(0, 0), shares, balance, env);
      case Swap(sell, amountIn) =>
        var funded := s.Receive(sell, amountIn);
        ExecutionKeepsOrders(funded.book, env.now, env.now);
        SwapOnlyMovesTokens(funded.ExecuteVirtualOrders(env.now, env.now).value, sell, amountIn);
      case Execute(block) =>
        ExecutionKeepsOrders(s.book, block, env.now);
      case Donate(_, _) =>
    }
  }

  lemma StepKeepsOrders(s: PairState, env: Env, call: Call)
    ensures OrdersKept(s.book, Apply(s, env, call).book)
  {
    hide Step;
    if Step(s, env, call).Some? {
      if call.CancelOrder? || call.ClaimProceeds? {
        OrderStepKeepsOrders(s, env, call);
      } else if call.PlaceOrder? {
        PlaceStepKeepsOrders(s, env, call);
      } else {
        OtherStepKeepsOrders(s, env, call);
      }
    }
  }

  /** Over any run no order is lost, and none changes its owner, its tokens, its blocks or its rate. */
  lemma {:induction false} RunKeepsOrders(s: PairState, calls: seq<(Env, Call)>)
    ensures OrdersKept(s.book, Run(s, calls).book)
    decreases |calls|
  {
    if calls != [] {
      var (env, call) := calls[0];
      StepKeepsOrders(s, env, call);
      hide Apply;
      RunKeepsOrders(Apply(s, env, call), calls[1..]);
      OrdersKeptChains(s.book, Apply(s, env, call).book, Run(s, calls).book);
    }
  }

  /** A cancel or a claim succeeds for the owner entered for the order alone. */
  lemma OnlyTheOwnerIsPaid(s: PairState, env: Env, id: nat, sender: nat)
    requires id in s.book.orders && s.book.orders[id].owner != sender
    ensures Step(s, env, CancelOrder(sender, id)).None? && Step(s, env, ClaimProceeds(sender, id)).None?
  {
    hide Step, PairState.ExecuteVirtualOrders, PairState.CancelLongTermSwap, PairState.WithdrawProceeds;
    hide IsSold, IsDue, Left, Updated, StillEnds, ExpiryTree.Keys, PaidTo;
    CancelDoes(s, env, sender, id);
    ClaimDoes(s, env, sender, id);
    if CaughtUp(s, env).Some? {
      CatchingUpDoes(s, env);
    }
  }

  /** Whoever placed an order is the only one who can ever cancel or claim it, whatever calls follow. */
  lemma OrdersBelongToTheirSenders(s: PairState, env: Env, call: Call, calls: seq<(Env, Call)>, later: Env, other: nat)
    requires call.PlaceOrder? && Step(s, env, call).Some? && other != call.sender
    ensures var end := Run(Step(s, env, call).value, calls);
      && s.book.nextId in end.book.orders && end.book.orders[s.book.nextId].owner == call.sender
      && Step(end, later, CancelOrder(other, s.book.nextId)).None?
      && Step(end, later, ClaimProceeds(other, s.book.nextId)).None?
  {
    PlacedForSender(s, env, call);
    hide Step, Run;
    var placed := Step(s, env, call).value;
    RunKeepsOrders(placed, calls);
    OnlyTheOwnerIsPaid(Run(placed, calls), later, s.book.nextId, other);
  }

  lemma PlacedForSender(s: PairState, env: Env, call: Call)
    requires call.PlaceOrder? && Step(s, env, call).Some?
    ensures var next, id := Step(s, env, call).value.book, s.book.nextId;
      && next.nextId == id + 1 && id in next.orders
      && next.orders[id].owner == call.sender && next.orders[id].submitBlock == env.now
      && next.orders[id].sellToken == call.sell && next.orders[id].buyToken == call.sell.Other()
  {
    hide OrdersState.ExecuteUntil, IndexState.Insert, RateOver, PoolState.Deposit;
    var book := s.Receive(call.sell, call.amount).book;
    ExecutionKeepsOrders(book.(index := book.index.Insert(book.OrderExpiry(call.intervals, env.now))), env.now,
                         env.now);
  }
}
