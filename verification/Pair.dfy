/** The pair contract: reserves, LP shares and long term orders, updated in place by its entry points. */
module PairContract {
  import opened Basics
  import opened FixedPoint
  import opened Pricing
  import opened Liquidity
  import opened Orders
  import opened LongTermOrdersLib
  import opened PairOperations

  class Pair {
    const reserveMap: ReserveMap
    const longTermOrders: LongTermOrders
    const tokens: TokenBalances
    var totalSupply: nat
    var rootKLast: nat

    ghost predicate Valid()
      reads this, longTermOrders, longTermOrders.expiryTree
    {
      longTermOrders.Valid()
    }

    /** The objects a pair consists of, besides itself. */
    ghost function Parts(): set<object>
    {
      {reserveMap, tokens, longTermOrders, longTermOrders.poolA, longTermOrders.poolB, longTermOrders.expiryTree}
    }

    ghost function View(): PairState
      reads this, Parts()
    {
      PairState(longTermOrders.View(reserveMap, tokens), totalSupply, rootKLast)
    }

    constructor (block: nat)
      ensures Valid() && fresh(Parts()) && View() == Deployed(block)
    {
      reserveMap := new ReserveMap();
      tokens := new TokenBalances();
      longTermOrders := new LongTermOrders(block);
      totalSupply, rootKLast := 0, 0;
    }

    /** Mint the fee recipient's part of the growth of the mean of the reserves since it was last marked. */
    method MintFee(reserveA: nat, reserveB: nat, env: Env) returns (feeOn: bool)
      modifies this
      ensures View() == old(View()).MintFee(Two(reserveA, reserveB), env) && feeOn == env.feeOn
    {
      hide RootK, FeeShares;
      feeOn := env.feeOn;
      if feeOn {
        if rootKLast != 0 {
          var rootK := RootK(reserveA, reserveB);
          if rootK > rootKLast {
            var liquidity := FeeShares(totalSupply, rootK, rootKLast, env.feeArg);
            totalSupply := totalSupply + liquidity;
          }
        }
      } else if rootKLast != 0 {
        rootKLast := 0;
      }
    }

    method ProvideInitialLiquidity(amountA: nat, amountB: nat, env: Env) returns (ok: bool, lpTokenAmount: nat)
      requires Valid()
      modifies this, reserveMap
      ensures Valid()
      ensures var r := old(View()).ProvideInitialLiquidity(amountA, amountB, env);
        ok == r.Some? && (ok ==> (View(), lpTokenAmount) == r.value)
    {
      hide RootK, FeeShares;
      lpTokenAmount := 0;
      ok := amountA > 0 && amountB > 0 && totalSupply == 0;
      if !ok {
        return;
      }
      reserveMap.amount := Two(amountA, amountB);
      lpTokenAmount := RootK(amountA, amountB);
      var feeOn := MintFee(0, 0, env);
      totalSupply := totalSupply + lpTokenAmount;
      if feeOn {
        rootKLast := lpTokenAmount;
      }
    }

    method ExecuteVirtualOrders(blockNumber: nat, now: nat) returns (ok: bool)
      requires Valid()
      modifies Parts()
      ensures ok ==> Valid()
      ensures var r := old(View()).ExecuteVirtualOrders(blockNumber, now);
        ok == r.Some? && (ok ==> View() == r.value)
    {
      hide OrdersState.ExecuteUntil;
      ok := longTermOrders.ExecuteVirtualOrdersUntilSpecifiedBlock(reserveMap, blockNumber, now, tokens);
    }

    method ProvideLiquidity(lpTokenAmount: nat, env: Env) returns (ok: bool, amountsIn: Two<nat>)
      requires Valid()
      modifies this, Parts()
      ensures ok ==> Valid()
      ensures var r := old(View()).ProvideLiquidity(lpTokenAmount, env);
        ok == r.Some? && (ok ==> (View(), amountsIn) == r.value)
    {
      hide RootK, FeeShares, Share, PairState.ExecuteVirtualOrders, PairState.MintFee;
      amountsIn := Two(0, 0);
      ok := ExecuteVirtualOrders(env.now, env.now);
      if !ok || lpTokenAmount == 0 || totalSupply == 0 {
        return false, amountsIn;
      }
      var reserves := reserveMap.amount;
      amountsIn := Two(Share(lpTokenAmount, reserves.a, totalSupply), Share(lpTokenAmount, reserves.b, totalSupply));
      reserveMap.amount := Two(reserves.a + amountsIn.a, reserves.b + amountsIn.b);
      var feeOn := MintFee(reserves.a, reserves.b, env);
      totalSupply := totalSupply + lpTokenAmount;
      if feeOn {
        rootKLast := RootK(reserveMap.amount.a, reserveMap.amount.b);
      }
    }

    /** `balance` is the caller's balance of LP shares, which the share token checks when burning. */
    method RemoveLiquidity(lpTokenAmount: nat, balance: nat, env: Env) returns (ok: bool, amountsOut: Two<nat>)
      requires Valid()
      modifies this, Parts()
      ensures ok ==> Valid()
      ensures var r := old(View()).RemoveLiquidity(lpTokenAmount, balance, env);
        ok == r.Some? && (ok ==> (View(), amountsOut) == r.value)
    {
      hide PairState.ExecuteVirtualOrders, PairState.RemoveExecuted;
      amountsOut := Two(0, 0);
      ok := ExecuteVirtualOrders(env.now, env.now);
      if ok {
        ok, amountsOut := RemoveExecuted(lpTokenAmount, balance, env);
      }
    }

    /** The part of a removal that follows virtual execution. */
    method RemoveExecuted(lpTokenAmount: nat, balance: nat, env: Env) returns (ok: bool, amountsOut: Two<nat>)
      requires Valid()
      modifies this, reserveMap, tokens
      ensures Valid()
      ensures var r := old(View()).RemoveExecuted(lpTokenAmount, balance, env);
        ok == r.Some? && (ok ==> (View(), amountsOut) == r.value)
    {
      amountsOut := Two(0, 0);
      ok := lpTokenAmount > 0 && lpTokenAmount < totalSupply;
      if !ok {
        return;
      }
      var reserves := reserveMap.amount;
      RemoveKeepsRatioIff(lpTokenAmount, reserves.a, totalSupply);
      RemoveKeepsRatioIff(lpTokenAmount, reserves.b, totalSupply);
      hide RootK, FeeShares, Share, OrdersState.PayBoth, PairState.Burnt;
      amountsOut := Two(Share(lpTokenAmount, reserves.a, totalSupply), Share(lpTokenAmount, reserves.b, totalSupply));
      if balance < lpTokenAmount {
        return false, Two(0, 0);
      }
      var feeOn := Burn(lpTokenAmount, amountsOut, env);
      ok := TransferBoth(amountsOut);
      if ok && feeOn {
        rootKLast := RootK(reserveMap.amount.a, reserveMap.amount.b);
      }
    }

    method Burn(lpTokenAmount: nat, amountsOut: Two<nat>, env: Env) returns (feeOn: bool)
      requires Valid() && lpTokenAmount <= totalSupply
      requires amountsOut.a <= reserveMap.amount.a && amountsOut.b <= reserveMap.amount.b
      modifies this, reserveMap
      ensures Valid() && feeOn == env.feeOn
      ensures View() == old(View()).Burnt(lpTokenAmount, amountsOut, env)
    {
      hide RootK, FeeShares;
      var reserves := reserveMap.amount;
      reserveMap.amount := Two(reserves.a - amountsOut.a, reserves.b - amountsOut.b);
      feeOn := MintFee(reserves.a, reserves.b, env);
      totalSupply := totalSupply - lpTokenAmount;
    }

    method TransferBoth(amounts: Two<nat>) returns (ok: bool)
      modifies tokens
      ensures var r := old(View()).book.PayBoth(amounts);
        ok == r.Some? && (ok ==> View() == old(View()).(book := r.value))
    {
      ok := tokens.SafeTransfer(A, amounts.a);
      if ok {
        ok := tokens.SafeTransfer(B, amounts.b);
      }
    }

    /** The instant swap behind `instantSwapFromAToB` and `instantSwapFromBToA`. */
    method InstantSwap(from: Side, amountIn: nat, env: Env) returns (ok: bool, amountOutMinusFee: nat)
      requires Valid()
      modifies this, Parts()
      ensures ok ==> Valid()
      ensures var r := old(View()).InstantSwap(from, amountIn, env);
        ok == r.Some? && (ok ==> (View(), amountOutMinusFee) == r.value)
    {
      hide PairState.ExecuteVirtualOrders, PairState.SwapExecuted;
      amountOutMinusFee := 0;
      ok := reserveMap.amount.a > 0 && reserveMap.amount.b > 0 && amountIn > 0;
      if !ok {
        return;
      }
      ok := ExecuteVirtualOrders(env.now, env.now);
      if ok {
        ok, amountOutMinusFee := PerformInstantSwap(from, amountIn);
      }
    }

    method PerformInstantSwap(from: Side, amountIn: nat) returns (ok: bool, amountOutMinusFee: nat)
      requires Valid() && 0 < amountIn
      modifies this, reserveMap, tokens
      ensures Valid()
      ensures var r := old(View()).SwapExecuted(from, amountIn);
        ok == r.Some? && (ok ==> (View(), amountOutMinusFee) == r.value)
    {
      var reserveFrom, reserveTo := reserveMap.amount.At(from), reserveMap.amount.At(from.Other());
      var amountOut := SwapOut(reserveFrom, reserveTo, amountIn);
      SwapWithinReserve(reserveFrom, reserveTo, amountIn);
      amountOutMinusFee := Net(amountOut);
      hide SwapOut, Net;
      reserveMap.amount := reserveMap.amount.With(from, reserveFrom + amountIn);
      reserveMap.amount := reserveMap.amount.With(from.Other(), reserveTo - amountOutMinusFee);
      ok := tokens.SafeTransfer(from.Other(), amountOutMinusFee);
    }

    /** The order placement behind `longTermSwapFromAToB` and `longTermSwapFromBToA`. */
    method LongTermSwap(from: Side, sender: nat, amountIn: nat, numberOfBlockIntervals: nat, env: Env)
      returns (ok: bool, orderId: nat)
      requires Valid()
      modifies this, Parts()
      ensures ok ==> Valid()
      ensures var r := old(View()).LongTermSwap(from, sender, amountIn, numberOfBlockIntervals, env);
        ok == r.Some? && (ok ==> (View(), orderId) == r.value)
    {
      hide OrdersState.PerformLongTermSwap;
      orderId := 0;
      ok := reserveMap.amount.a > 0 && reserveMap.amount.b > 0 && amountIn > 0;
      if ok {
        ok, orderId := longTermOrders.PerformLongTermSwap(from, sender, amountIn, numberOfBlockIntervals, reserveMap,
                                                          env.now, tokens);
      }
    }

    method CancelLongTermSwap(sender: nat, orderId: nat, env: Env)
      returns (ok: bool, unsoldAmount: nat, purchasedAmount: nat)
      requires Valid()
      modifies this, Parts()
      ensures ok ==> Valid()
      ensures var r := old(View()).CancelLongTermSwap(sender, orderId, env);
        ok == r.Some? && (ok ==> (View(), unsoldAmount, purchasedAmount) == r.value)
    {
      hide OrdersState.CancelLongTermSwap;
      ok, unsoldAmount, purchasedAmount :=
        longTermOrders.CancelLongTermSwap(sender, orderId, reserveMap, tokens, env.now);
    }

    method WithdrawProceedsFromLongTermSwap(sender: nat, orderId: nat, env: Env) returns (ok: bool, proceeds: nat)
      requires Valid()
      modifies this, Parts()
      ensures ok ==> Valid()
      ensures var r := old(View()).WithdrawProceeds(sender, orderId, env);
        ok == r.Some? && (ok ==> (View(), proceeds) == r.value)
    {
      hide OrdersState.WithdrawProceeds;
      ok, proceeds := longTermOrders.WithdrawProceedsFromLongTermSwap(sender, orderId, reserveMap, tokens, env.now);
    }

    /** Tokens that the router moves to the pair. */
    method Receive(token: Side, amount: nat)
      requires Valid()
      modifies tokens
      ensures Valid() && View() == old(View()).Receive(token, amount)
    {
      tokens.Receive(token, amount);
    }

    /** A transaction in storage: the inputs arrive, the entry point runs. A failed one is undone with the state. */
    method Perform(env: Env, call: Call) returns (ok: bool)
      requires Valid()
      modifies this, Parts()
      ensures ok ==> Valid()
      ensures var r := Step(old(View()), env, call);
        ok == r.Some? && (ok ==> View() == r.value)
    {
      hide PairState.ProvideInitialLiquidity, PairState.ProvideLiquidity, PairState.RemoveLiquidity;
      hide PairState.InstantSwap, PairState.LongTermSwap, PairState.CancelLongTermSwap, PairState.WithdrawProceeds;
      hide PairState.ExecuteVirtualOrders, PairState.Receive, Valid;
      match call {
        case InitialLiquidity(amountA, amountB) =>
          Receive(A, amountA);
          Receive(B, amountB);
          var shares;
          ok, shares := ProvideInitialLiquidity(amountA, amountB, env);
        case AddLiquidity(shares) =>
          var paid;
          ok, paid := ProvideLiquidity(shares, env);
          if ok {
            Receive(A, paid.a);
            Receive(B, paid.b);
          }
        case TakeLiquidity(shares, balance) =>
          var paid;
          ok, paid := RemoveLiquidity(shares, balance, env);
        case Swap(sell, amountIn) =>
          Receive(sell, amountIn);
          var out;
          ok, out := InstantSwap(sell, amountIn, env);
        case PlaceOrder(sell, sender, amount, intervals) =>
          Receive(sell, amount);
          var id;
          ok, id := LongTermSwap(sell, sender, amount, intervals, env);
        case CancelOrder(sender, id) =>
          var unsold, purchased;
          ok, unsold, purchased := CancelLongTermSwap(sender, id, env);
        case ClaimProceeds(sender, id) =>
          var proceeds;
          ok, proceeds := WithdrawProceedsFromLongTermSwap(sender, id, env);
        case Execute(block) =>
          ok := ExecuteVirtualOrders(block, env.now);
        case Donate(token, amount) =>
          Receive(token, amount);
          ok := true;
      }
    }
  }
}
