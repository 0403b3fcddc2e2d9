/**
 Long term orders as the contract keeps them: two order pools, the expiry tree and the order tables, updated in
 place. A method that returns `ok == false` has reverted; what it did until then is undone with the transaction,
 so nothing is said about the state it leaves.
 */
module LongTermOrdersLib {
  import opened Basics
  import opened FixedPoint
  import opened Pricing
  import opened OrderPools
  import opened Execution
  import opened ExpiryIndex
  import opened BinarySearchTrees
  import opened Orders

  /** The pair's `reserveMap`, handed to every operation by reference. */
  class ReserveMap {
    var amount: Two<nat>

    constructor ()
      ensures amount == Two(0, 0)
    {
      amount := Two(0, 0);
    }
  }

  /** What the two token contracts say the pair holds. */
  class TokenBalances {
    var held: Two<nat>

    constructor ()
      ensures held == Two(0, 0)
    {
      held := Two(0, 0);
    }

    method Receive(token: Side, amount: nat)
      modifies this
      ensures held == old(held).With(token, old(held).At(token) + amount)
    {
      held := held.With(token, held.At(token) + amount);
    }

    method SafeTransfer(token: Side, amount: nat) returns (ok: bool)
      modifies this
      ensures ok == (amount <= old(held).At(token))
      ensures ok ==> held == old(held).With(token, old(held).At(token) - amount)
    {
      if held.At(token) < amount {
        return false;
      }
      held := held.With(token, held.At(token) - amount);
      ok := true;
    }
  }

  class LongTermOrders {
    var lastVirtualOrderBlock: nat
    const poolA: OrderPool
    const poolB: OrderPool
    const expiryTree: BinarySearchTree
    var orderId: nat
    var orderMap: map<nat, Order>
    var orderIdStatusMap: map<nat, bool>
    ghost var books: Two<Books>

    ghost predicate Valid()
      reads this, expiryTree
    {
      poolA != poolB && expiryTree.Valid()
    }

    ghost function Core(reserveMap: ReserveMap): CoreState
      reads this, poolA, poolB, reserveMap
    {
      CoreState(lastVirtualOrderBlock, reserveMap.amount, Two(poolA.View(), poolB.View()), books)
    }

    ghost function View(reserveMap: ReserveMap, tokens: TokenBalances): OrdersState
      reads this, poolA, poolB, expiryTree, reserveMap, tokens
    {
      OrdersState(Core(reserveMap), expiryTree.View(), orderId, orderMap, orderIdStatusMap, tokens.held)
    }

    constructor (block: nat)
      ensures Valid() && fresh(poolA) && fresh(poolB) && fresh(expiryTree)
      ensures lastVirtualOrderBlock == block && poolA.View() == EMPTY_POOL && poolB.View() == EMPTY_POOL
      ensures books == Two(EMPTY_BOOKS, EMPTY_BOOKS)
      ensures expiryTree.View() == EMPTY_INDEX.Insert(IntervalStart(block))
      ensures orderId == 0 && orderMap == map[] && orderIdStatusMap == map[]
    {
      lastVirtualOrderBlock := block;
      poolA := new OrderPool();
      poolB := new OrderPool();
      expiryTree := new BinarySearchTree();
      orderId, orderMap, orderIdStatusMap := 0, map[], map[];
      books := Two(EMPTY_BOOKS, EMPTY_BOOKS);
      new;
      expiryTree.Insert(block - block % ORDER_BLOCK_INTERVAL);
    }

    function PoolSelling(token: Side): OrderPool {
      if token.A? then poolA else poolB
    }

    /** Trade, pay and retire up to `blockNumber`, on the assumption that no order ends in between. */
    method ExecuteVirtualTradesAndOrderExpiries(reserveMap: ReserveMap, blockNumber: nat) returns (ok: bool)
      requires Valid() && lastVirtualOrderBlock <= blockNumber
      modifies this`lastVirtualOrderBlock, this`books, poolA, poolB, reserveMap
      ensures Valid() && ok == old(Core(reserveMap)).ExecuteAt(blockNumber).Some?
      ensures ok ==> Core(reserveMap) == old(Core(reserveMap)).ExecuteAt(blockNumber).value
    {
      hide Tokens, CoreState.Traded, CoreState.Retired, BinarySearchTree.Valid;
      var blockNumberIncrement := blockNumber - lastVirtualOrderBlock;
      var tokenASellAmount := Tokens(poolA.currentSalesRate, blockNumberIncrement);
      var tokenBSellAmount := Tokens(poolB.currentSalesRate, blockNumberIncrement);
      if reserveMap.amount.a + tokenASellAmount == 0 || reserveMap.amount.b + tokenBSellAmount == 0 {
        return false;
      }
      TradeAndDistribute(reserveMap, tokenASellAmount, tokenBSellAmount);
      ok := RetireExpiring(blockNumber, reserveMap);
    }

    /** Sell both amounts to the reserves, charge the fee, and hand the proceeds to the pools. */
    method TradeAndDistribute(reserveMap: ReserveMap, tokenASellAmount: nat, tokenBSellAmount: nat)
      requires Valid()
      requires reserveMap.amount.a + tokenASellAmount != 0 && reserveMap.amount.b + tokenBSellAmount != 0
      modifies this`books, poolA, poolB, reserveMap
      ensures Core(reserveMap) == old(Core(reserveMap)).Traded(Two(tokenASellAmount, tokenBSellAmount))
    {
      var trade := ComputeVirtualBalances(reserveMap.amount, Two(tokenASellAmount, tokenBSellAmount));
      hide ComputeVirtualBalances, Fee, Net, PoolState.Distribute, BinarySearchTree.Valid;

      var ammEndTokenA := trade.end.a + Fee(trade.out.a);
      var ammEndTokenB := trade.end.b + Fee(trade.out.b);
      var tokenAOut := Net(trade.out.a);
      var tokenBOut := Net(trade.out.b);
      reserveMap.amount := Two(ammEndTokenA, ammEndTokenB);

      poolA.DistributePayment(tokenBOut);
      poolB.DistributePayment(tokenAOut);
      books := Two(books.a.(sold := books.a.sold + tokenASellAmount, paidIn := books.a.paidIn + tokenBOut),
                   books.b.(sold := books.b.sold + tokenBSellAmount, paidIn := books.b.paidIn + tokenAOut));
    }

    /** Both pools let go of the orders that end at `blockNumber`, which becomes the last one executed. */
    method RetireExpiring(blockNumber: nat, ghost reserveMap: ReserveMap) returns (ok: bool)
      requires poolA != poolB
      modifies this`lastVirtualOrderBlock, poolA, poolB
      ensures ok == old(Core(reserveMap)).Retired(blockNumber).Some?
      ensures ok ==> Core(reserveMap) == old(Core(reserveMap)).Retired(blockNumber).value
    {
      hide PoolState.Expire;
      ok := poolA.UpdateStateFromBlockExpiry(blockNumber);
      if ok {
        ok := poolB.UpdateStateFromBlockExpiry(blockNumber);
      }
      lastVirtualOrderBlock := blockNumber;
    }

    /** Follow the expiries the tree reports, then trade up to `blockNumber` itself. */
    method ExecuteVirtualOrdersUntilSpecifiedBlock(reserveMap: ReserveMap, blockNumber: nat, now: nat,
                                                   ghost tokens: TokenBalances)
      returns (ok: bool)
      requires Valid()
      modifies this`lastVirtualOrderBlock, this`books, poolA, poolB, expiryTree, reserveMap
      ensures ok ==> Valid()
      ensures ok == old(View(reserveMap, tokens)).ExecuteUntil(blockNumber, now).Some?
      ensures ok ==> View(reserveMap, tokens) == old(View(reserveMap, tokens)).ExecuteUntil(blockNumber, now).value
    {
      hide CoreState.ExecuteAt, IndexState.Process, BinarySearchTree.Valid;
      if !(blockNumber <= now && blockNumber >= lastVirtualOrderBlock) {
        return false;
      }
      expiryTree.ProcessExpiriesListNTrimTree(
        lastVirtualOrderBlock - lastVirtualOrderBlock % ORDER_BLOCK_INTERVAL,
        blockNumber - blockNumber % ORDER_BLOCK_INTERVAL);
      var expiriesList := expiryTree.GetExpiriesList();
      ghost var core, index := Core(reserveMap), expiryTree.View();
      var i := 0;
      while i < |expiriesList|
        invariant Valid() && i <= |expiriesList| && lastVirtualOrderBlock <= blockNumber
        invariant core.Drive(expiriesList, blockNumber) == Core(reserveMap).Drive(expiriesList[i..], blockNumber)
        invariant expiryTree.View() == index
      {
        var expiry := expiriesList[i];
        assert expiriesList[i..][0] == expiry && expiriesList[i..][1..] == expiriesList[i + 1..];
        if (Get(poolA.salesRateEndingPerBlock, expiry) > 0 || Get(poolB.salesRateEndingPerBlock, expiry) > 0)
           && (expiry > lastVirtualOrderBlock && expiry < blockNumber)
        {
          var executed := ExecuteVirtualTradesAndOrderExpiries(reserveMap, expiry);
          if !executed {
            return false;
          }
        }
        i := i + 1;
      }
      ok := ExecuteVirtualTradesAndOrderExpiries(reserveMap, blockNumber);
    }

    /** Enter an order into its pool and into the order tables. */
    method AddOrder(from: Side, sender: nat, amount: nat, sellingRate: nat, orderExpiry: nat, currentBlock: nat,
                    ghost reserveMap: ReserveMap, ghost tokens: TokenBalances)
      requires Valid()
      modifies this`books, this`orderMap, this`orderIdStatusMap, this`orderId, poolA, poolB
      ensures Valid()
      ensures View(reserveMap, tokens) ==
              old(View(reserveMap, tokens)).AddOrder(from, sender, amount, sellingRate, orderExpiry, currentBlock)
    {
      hide PoolState.Deposit, BinarySearchTree.Valid;
      PoolSelling(from).DepositOrder(orderId, sellingRate, orderExpiry);
      books := books.With(from, books.At(from).(deposited := books.At(from).deposited + amount));
      orderMap := orderMap[orderId :=
        Order(orderId, currentBlock, orderExpiry, sellingRate, 0, 0, sender, from, from.Other())];
      orderIdStatusMap := orderIdStatusMap[orderId := true];
      orderId := orderId + 1;
    }

    /** Place an order selling `amount` of `from` until the end of the interval `numberOfBlockIntervals` on. */
    method PerformLongTermSwap(from: Side, sender: nat, amount: nat, numberOfBlockIntervals: nat,
                               reserveMap: ReserveMap, currentBlock: nat, ghost tokens: TokenBalances)
      returns (ok: bool, id: nat)
      requires Valid()
      modifies this, poolA, poolB, expiryTree, reserveMap
      ensures ok ==> Valid()
      ensures var r := old(View(reserveMap, tokens))
        .PerformLongTermSwap(from, sender, amount, numberOfBlockIntervals, currentBlock);
        && ok == r.Some?
        && (ok ==> (View(reserveMap, tokens), id) == r.value)
    {
      hide OrdersState.ExecuteUntil, IndexState.Insert, BinarySearchTree.Valid, OrdersState.AddOrder;
      id := 0;
      var lastExpiryBlock := currentBlock - currentBlock % ORDER_BLOCK_INTERVAL;
      var orderExpiry := ORDER_BLOCK_INTERVAL * (numberOfBlockIntervals + 1) + lastExpiryBlock;
      var sellingRate := RateOver(amount, orderExpiry - currentBlock);
      hide RateOver;

      expiryTree.Insert(orderExpiry);
      ok := ExecuteVirtualOrdersUntilSpecifiedBlock(reserveMap, currentBlock, currentBlock, tokens);
      if !ok {
        return;
      }
      id := orderId;
      AddOrder(from, sender, amount, sellingRate, orderExpiry, currentBlock, reserveMap, tokens);
    }

    /** Stop an order: refund what it has not sold, pay what it has earned. */
    method CancelLongTermSwap(sender: nat, id: nat, reserveMap: ReserveMap, tokens: TokenBalances, now: nat)
      returns (ok: bool, unsoldAmount: nat, purchasedAmount: nat)
      requires Valid()
      modifies this, poolA, poolB, expiryTree, reserveMap, tokens
      ensures ok ==> Valid()
      ensures var r := old(View(reserveMap, tokens)).CancelLongTermSwap(sender, id, now);
        && ok == r.Some?
        && (ok ==> (View(reserveMap, tokens), unsoldAmount, purchasedAmount) == r.value)
    {
      hide OrdersState.ExecuteUntil, OrdersState.CancelExecuted, BinarySearchTree.Valid;
      unsoldAmount, purchasedAmount := 0, 0;
      ok := ExecuteVirtualOrdersUntilSpecifiedBlock(reserveMap, now, now, tokens);
      if ok {
        ok, unsoldAmount, purchasedAmount := CancelExecuted(sender, id, reserveMap, tokens, now);
      }
    }

    method CancelExecuted(sender: nat, id: nat, ghost reserveMap: ReserveMap, tokens: TokenBalances, now: nat)
      returns (ok: bool, unsoldAmount: nat, purchasedAmount: nat)
      requires Valid()
      modifies this`books, this`orderMap, this`orderIdStatusMap, poolA, poolB, expiryTree, tokens
      ensures ok ==> Valid()
      ensures var r := old(View(reserveMap, tokens)).CancelExecuted(sender, id, now);
        && ok == r.Some?
        && (ok ==> (View(reserveMap, tokens), unsoldAmount, purchasedAmount) == r.value)
    {
      hide PoolState.Cancel, OrdersState.CloseCancelled, OrdersState.Pay, BinarySearchTree.Valid;
      unsoldAmount, purchasedAmount := 0, 0;
      ok := id in orderIdStatusMap && orderIdStatusMap[id] && id in orderMap && orderMap[id].owner == sender;
      if !ok {
        return;
      }
      var order := orderMap[id];
      ok, unsoldAmount, purchasedAmount := PoolSelling(order.sellToken).CancelOrder(id, now);
      if !ok || !(unsoldAmount > 0 || purchasedAmount > 0) || now < order.submitBlock {
        return false, 0, 0;
      }
      assert View(reserveMap, tokens)
        == WithPool(old(View(reserveMap, tokens)), order.sellToken, PoolSelling(order.sellToken).View());
      CloseIgnoresOldPool(old(View(reserveMap, tokens)), id, PoolSelling(order.sellToken).View(), unsoldAmount,
                          purchasedAmount, now);
      CloseCancelled(id, unsoldAmount, purchasedAmount, now, reserveMap, tokens);
      ok := PayOut(order, unsoldAmount, purchasedAmount, reserveMap, tokens);
    }

    /** Send the proceeds first, then the refund. */
    method PayOut(order: Order, unsoldAmount: nat, purchasedAmount: nat, ghost reserveMap: ReserveMap,
                  tokens: TokenBalances)
      returns (ok: bool)
      modifies tokens
      ensures var paid := old(View(reserveMap, tokens)).Pay(order.buyToken, purchasedAmount);
        && ok == (paid.Some? && paid.value.Pay(order.sellToken, unsoldAmount).Some?)
        && (ok ==> Some(View(reserveMap, tokens)) == paid.value.Pay(order.sellToken, unsoldAmount))
    {
      hide OrdersState.Pay;
      ok := Send(order.buyToken, purchasedAmount, reserveMap, tokens);
      if ok {
        ok := Send(order.sellToken, unsoldAmount, reserveMap, tokens);
      }
    }

    /** Enter a cancel into the totals, the order table and the index; the sell pool has already let it go. */
    method CloseCancelled(id: nat, unsoldAmount: nat, purchasedAmount: nat, now: nat, ghost reserveMap: ReserveMap,
                          ghost tokens: TokenBalances)
      requires Valid() && id in orderMap && orderMap[id].submitBlock <= now
      modifies this`books, this`orderMap, this`orderIdStatusMap, expiryTree
      ensures Valid()
      ensures View(reserveMap, tokens) == old(View(reserveMap, tokens))
        .CloseCancelled(id, old(PoolSelling(orderMap[id].sellToken).View()), unsoldAmount, purchasedAmount, now)
    {
      hide Tokens, IndexState.Delete, BinarySearchTree.Valid;
      var order := orderMap[id];
      ghost var k := books.At(order.sellToken);
      books := books.With(order.sellToken, k.(refunded := k.refunded + unsoldAmount,
                                              paidOut := k.paidOut + purchasedAmount));
      orderMap := orderMap[id := order.(sellAmount := Tokens(order.saleRate, now - order.submitBlock),
                                        buyAmount := order.buyAmount + purchasedAmount)];
      hide OrdersState.DropExpiry;
      DropExpiry(order, reserveMap, tokens);
      orderIdStatusMap := orderIdStatusMap[id := false];
    }

    /** An expiry at which neither pool records a rate leaves the tree. */
    method DropExpiry(order: Order, ghost reserveMap: ReserveMap, ghost tokens: TokenBalances)
      requires Valid()
      modifies expiryTree
      ensures Valid() && View(reserveMap, tokens) == old(View(reserveMap, tokens)).DropExpiry(order)
    {
      hide IndexState.Delete, BinarySearchTree.Valid;
      if Get(PoolSelling(order.sellToken).salesRateEndingPerBlock, order.expirationBlock) == 0
         && Get(PoolSelling(order.buyToken).salesRateEndingPerBlock, order.expirationBlock) == 0
      {
        var _ := expiryTree.DeleteNode(order.expirationBlock);
      }
    }

    /** Pay what an order has earned so far, and close it once it has expired. */
    method WithdrawProceedsFromLongTermSwap(sender: nat, id: nat, reserveMap: ReserveMap, tokens: TokenBalances,
                                            now: nat)
      returns (ok: bool, proceeds: nat)
      requires Valid()
      modifies this, poolA, poolB, expiryTree, reserveMap, tokens
      ensures ok ==> Valid()
      ensures var r := old(View(reserveMap, tokens)).WithdrawProceeds(sender, id, now);
        && ok == r.Some?
        && (ok ==> (View(reserveMap, tokens), proceeds) == r.value)
    {
      hide OrdersState.ExecuteUntil, OrdersState.WithdrawExecuted, BinarySearchTree.Valid;
      proceeds := 0;
      ok := ExecuteVirtualOrdersUntilSpecifiedBlock(reserveMap, now, now, tokens);
      if ok {
        ok, proceeds := WithdrawExecuted(sender, id, reserveMap, tokens, now);
      }
    }

    method WithdrawExecuted(sender: nat, id: nat, ghost reserveMap: ReserveMap, tokens: TokenBalances, now: nat)
      returns (ok: bool, proceeds: nat)
      requires Valid()
      modifies this`books, this`orderMap, this`orderIdStatusMap, poolA, poolB, tokens
      ensures ok ==> Valid()
      ensures var r := old(View(reserveMap, tokens)).WithdrawExecuted(sender, id, now);
        && ok == r.Some?
        && (ok ==> (View(reserveMap, tokens), proceeds) == r.value)
    {
      hide PoolState.Withdraw, OrdersState.RecordWithdrawal, OrdersState.Pay, BinarySearchTree.Valid;
      proceeds := 0;
      ok := id in orderIdStatusMap && orderIdStatusMap[id] && id in orderMap && orderMap[id].owner == sender;
      if !ok {
        return;
      }
      var order := orderMap[id];
      ok, proceeds := PoolSelling(order.sellToken).WithdrawProceeds(id, now);
      if !ok || proceeds == 0 {
        return false, 0;
      }
      var soldUntil := if order.expirationBlock <= now then order.expirationBlock else now;
      if soldUntil < order.submitBlock {
        return false, 0;
      }
      assert View(reserveMap, tokens)
        == WithPool(old(View(reserveMap, tokens)), order.sellToken, PoolSelling(order.sellToken).View());
      RecordIgnoresOldPool(old(View(reserveMap, tokens)), id, PoolSelling(order.sellToken).View(), proceeds, now);
      RecordWithdrawal(id, proceeds, now, reserveMap, tokens);
      ok := Send(order.buyToken, proceeds, reserveMap, tokens);
    }

    method Send(token: Side, amount: nat, ghost reserveMap: ReserveMap, tokens: TokenBalances) returns (ok: bool)
      modifies tokens
      ensures var paid := old(View(reserveMap, tokens)).Pay(token, amount);
        ok == paid.Some? && (ok ==> Some(View(reserveMap, tokens)) == paid)
    {
      ok := tokens.SafeTransfer(token, amount);
    }

    /** Enter a withdrawal into the totals and the order table; the sell pool has already paid it. */
    method RecordWithdrawal(id: nat, proceeds: nat, now: nat, ghost reserveMap: ReserveMap,
                            ghost tokens: TokenBalances)
      requires Valid() && id in orderMap && orderMap[id].submitBlock <= OrdersState.SoldUntil(orderMap[id], now)
      modifies this`books, this`orderMap, this`orderIdStatusMap
      ensures Valid()
      ensures View(reserveMap, tokens) == old(View(reserveMap, tokens))
        .RecordWithdrawal(id, old(PoolSelling(orderMap[id].sellToken).View()), proceeds, now)
    {
      hide Tokens, BinarySearchTree.Valid;
      var order := orderMap[id];
      ghost var k := books.At(order.sellToken);
      books := books.With(order.sellToken, k.(paidOut := k.paidOut + proceeds));
      order := order.(buyAmount := order.buyAmount + proceeds);
      if order.expirationBlock <= now {
        orderIdStatusMap := orderIdStatusMap[id := false];
        order := order.(sellAmount := Tokens(order.saleRate, order.expirationBlock - order.submitBlock));
      } else {
        order := order.(sellAmount := Tokens(order.saleRate, now - order.submitBlock));
      }
      orderMap := orderMap[id := order];
    }
  }

  /** The records of a claim replace the sell pool, so it does not matter what was stored there. */
  ghost function WithPool(s: OrdersState, sell: Side, pool: PoolState): OrdersState {
    s.(core := s.core.(pools := s.core.pools.With(sell, pool)))
  }

  lemma CloseIgnoresOldPool(s: OrdersState, id: nat, pool: PoolState, unsold: nat, purchased: nat, now: nat)
    requires id in s.orders && s.orders[id].submitBlock <= now
    ensures WithPool(s, s.orders[id].sellToken, pool).CloseCancelled(id, pool, unsold, purchased, now)
         == s.CloseCancelled(id, pool, unsold, purchased, now)
  {
    hide Tokens, IndexState.Delete;
  }

  lemma RecordIgnoresOldPool(s: OrdersState, id: nat, pool: PoolState, proceeds: nat, now: nat)
    requires id in s.orders && s.orders[id].submitBlock <= OrdersState.SoldUntil(s.orders[id], now)
    ensures WithPool(s, s.orders[id].sellToken, pool).RecordWithdrawal(id, pool, proceeds, now)
         == s.RecordWithdrawal(id, pool, proceeds, now)
  {
    hide Tokens;
  }
}
