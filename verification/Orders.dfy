/**
 Long term orders as values: the order table, the expiry index and the virtual execution state of one pair, and
 what each order operation does to them. `None` is a revert.
 */
module Orders {
  import opened Basics
  import opened FixedPoint
  import opened OrderPools
  import opened Execution
  import opened ExpiryIndex

  datatype Order = Order(
    id: nat,
    submitBlock: nat,
    expirationBlock: nat,
    saleRate: nat,
    sellAmount: nat,
    buyAmount: nat,
    owner: nat,
    sellToken: Side,
    buyToken: Side
  )

  /** The rate that sells `amount` over `blocks` blocks, with RATE_SCALE decimals. */
  function RateOver(amount: nat, blocks: nat): nat
    requires 0 < blocks
  {
    amount * RATE_SCALE / blocks
  }

  /** `held` is the pair's balance of each token, which lives in the token contracts. */
  datatype OrdersState = OrdersState(
    core: CoreState,
    index: IndexState,
    nextId: nat,
    orders: map<nat, Order>,
    status: map<nat, bool>,
    held: Two<nat>
  ) {

    predicate Active(id: nat) {
      id in status && status[id]
    }

    /** The proceeds order `id` can claim at the block execution has reached. */
    function Claimable(id: nat): nat {
      if id !in orders then 0
      else
        var p := core.pools.At(orders[id].sellToken);
        if p.Cutoff(id, core.last) < p.Submitted(id) then 0
        else Claim(p.Cutoff(id, core.last) - p.Submitted(id), p.Rate(id))
    }

    /** What order `id` has not yet sold at the block execution has reached. */
    function Unsold(id: nat): nat {
      if id !in orders || orders[id].expirationBlock <= core.last then 0
      else Tokens(orders[id].saleRate, orders[id].expirationBlock - core.last)
    }

    /** Reverts unless the block is neither in the future nor behind the last execution. */
    function ExecuteUntil(block: nat, now: nat): (r: Option<OrdersState>)
      ensures r.Some? ==> r.value.core.last == block
    {
      if now < block || block < core.last then None
      else
        var processed := index.Process(IntervalStart(core.last), IntervalStart(block));
        var executed :- core.Drive(processed.ExpiriesList(), block);
        Some(this.(core := executed, index := processed))
    }

    function OrderExpiry(intervals: nat, now: nat): (expiry: nat)
      ensures now < expiry && expiry % ORDER_BLOCK_INTERVAL == 0
    {
      ORDER_BLOCK_INTERVAL * (intervals + 1) + IntervalStart(now)
    }

    function SellingRate(amount: nat, intervals: nat, now: nat): nat {
      RateOver(amount, OrderExpiry(intervals, now) - now)
    }

    function PerformLongTermSwap(sell: Side, sender: nat, amount: nat, intervals: nat, now: nat)
      : Option<(OrdersState, nat)>
    {
      var expiry := OrderExpiry(intervals, now);
      var rate := SellingRate(amount, intervals, now);
      var s :- this.(index := index.Insert(expiry)).ExecuteUntil(now, now);
      Some((s.AddOrder(sell, sender, amount, rate, expiry, now), s.nextId))
    }

    function AddOrder(sell: Side, sender: nat, amount: nat, rate: nat, expiry: nat, now: nat): OrdersState {
      this.(core := core.TakeIn(sell, core.pools.At(sell).Deposit(nextId, rate, expiry), amount),
            orders := orders[nextId := Order(nextId, now, expiry, rate, 0, 0, sender, sell, sell.Other())],
            status := status[nextId := true],
            nextId := nextId + 1)
    }

    /** Reverts if the pair does not hold enough. */
    function Pay(token: Side, amount: nat): Option<OrdersState> {
      if held.At(token) < amount then None
      else Some(this.(held := held.With(token, held.At(token) - amount)))
    }

    function PayBoth(amounts: Two<nat>): Option<OrdersState> {
      var paid :- Pay(A, amounts.a);
      paid.Pay(B, amounts.b)
    }

    function CancelLongTermSwap(sender: nat, id: nat, now: nat): Option<(OrdersState, nat, nat)> {
      var s :- ExecuteUntil(now, now);
      s.CancelExecuted(sender, id, now)
    }

    predicate OpenFor(id: nat, sender: nat) {
      Active(id) && id in orders && orders[id].owner == sender
    }

    /** The part of a cancel that follows virtual execution. */
    function CancelExecuted(sender: nat, id: nat, now: nat): Option<(OrdersState, nat, nat)> {
      if !OpenFor(id, sender) then None
      else
        var order := orders[id];
        var (pool, unsold, purchased) :- core.pools.At(order.sellToken).Cancel(id, now);
        if (unsold == 0 && purchased == 0) || now < order.submitBlock then None
        else
          var paid :- CloseCancelled(id, pool, unsold, purchased, now).Pay(order.buyToken, purchased);
          var refunded :- paid.Pay(order.sellToken, unsold);
          Some((refunded, unsold, purchased))
    }

    function CloseCancelled(id: nat, pool: PoolState, unsold: nat, purchased: nat, now: nat): OrdersState
      requires id in orders && orders[id].submitBlock <= now
    {
      var order := orders[id];
      this.(core := core.Settle(order.sellToken, pool, unsold, purchased))
      .RecordOrder(id, order.(sellAmount := Tokens(order.saleRate, now - order.submitBlock),
                              buyAmount := order.buyAmount + purchased))
      .DropExpiry(order)
      .(status := status[id := false])
    }

    function RecordOrder(id: nat, order: Order): OrdersState {
      this.(orders := orders[id := order])
    }

    /** An expiry at which nothing ends any more, in the pool of either token, leaves the index. */
    function DropExpiry(order: Order): OrdersState {
      var block := order.expirationBlock;
      if core.pools.At(order.sellToken).Ending(block) == 0 && core.pools.At(order.buyToken).Ending(block) == 0 then
        this.(index := index.Delete(block))
      else this
    }

    function WithdrawProceeds(sender: nat, id: nat, now: nat): Option<(OrdersState, nat)> {
      var s :- ExecuteUntil(now, now);
      s.WithdrawExecuted(sender, id, now)
    }

    /** The part of a withdrawal that follows virtual execution. */
    function WithdrawExecuted(sender: nat, id: nat, now: nat): Option<(OrdersState, nat)> {
      if !OpenFor(id, sender) then None
      else
        var order := orders[id];
        var (pool, proceeds) :- core.pools.At(order.sellToken).Withdraw(id, now);
        if proceeds == 0 || SoldUntil(order, now) < order.submitBlock then None
        else
          var paid :- RecordWithdrawal(id, pool, proceeds, now).Pay(order.buyToken, proceeds);
          Some((paid, proceeds))
    }

    static function SoldUntil(order: Order, now: nat): nat {
      if order.expirationBlock <= now then order.expirationBlock else now
    }

    /** An order past its expiry is closed by the withdrawal. */
    function RecordWithdrawal(id: nat, pool: PoolState, proceeds: nat, now: nat): OrdersState
      requires id in orders && orders[id].submitBlock <= SoldUntil(orders[id], now)
    {
      var order := orders[id];
      this.(core := core.Settle(order.sellToken, pool, 0, proceeds))
      .RecordOrder(id, order.(sellAmount := Tokens(order.saleRate, SoldUntil(order, now) - order.submitBlock),
                              buyAmount := order.buyAmount + proceeds))
      .(status := if order.expirationBlock <= now then status[id := false] else status)
    }
  }
}
