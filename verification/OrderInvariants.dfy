/** The invariant of a pair's long term orders, kept by every order operation. */
module OrderInvariants {
  import opened Basics
  import opened FixedPoint
  import opened OrderPools
  import opened OrderPoolLedger
  import opened Execution
  import opened Solvency
  import opened ExpiryTree
  import opened ExpiryIndex
  import opened Orders
  import opened IndexRefinement
  import opened Sums

  /** An open order is what its pool holds under its id. */
  ghost predicate Tabled(s: OrdersState, id: nat) {
    s.Active(id) ==>
      && id < s.nextId && id in s.orders
      && var o := s.orders[id];
      && o.submitBlock <= s.core.last && o.submitBlock < o.expirationBlock
      && o.buyToken == o.sellToken.Other()
      && s.core.pools.At(o.sellToken).Expiry(id) == o.expirationBlock
      && s.core.pools.At(o.sellToken).Rate(id) == o.saleRate
  }

  /** A pool sells only for open orders of its own token: a closed order holds nothing. */
  ghost predicate Owned(s: OrdersState, id: nat, side: Side) {
    0 < s.core.pools.At(side).Rate(id) ==> s.Active(id) && id in s.orders && s.orders[id].sellToken == side
  }

  ghost predicate Tables(s: OrdersState) {
    && (forall id: nat :: Tabled(s, id))
    && (forall id: nat, side: Side :: Owned(s, id, side))
  }

  /** Everything but the funding: `held` is what the balances are compared with. */
  ghost predicate OrdersInvariant(s: OrdersState) {
    Invariant(s.core, s.held, s.nextId) && Indexed(s) && Tables(s)
  }

  // Virtual execution ---------------------------------------------------------------------------------------

  lemma ProgressKeepsTables(s: OrdersState, next: CoreState)
    requires Tables(s) && OrdersUntouched(s.core, next) && s.core.last <= next.last
    ensures Tables(s.(core := next))
    ensures forall b: nat :: next.EndsAt(b) == s.core.EndsAt(b)
  {
    assert next.pools.At(A) == next.pools.a && next.pools.At(B) == next.pools.b;
    assert s.core.pools.At(A) == s.core.pools.a && s.core.pools.At(B) == s.core.pools.b;
    forall id: nat
      ensures Tabled(s.(core := next), id)
    {
      assert Tabled(s, id);
    }
    forall id: nat, side: Side
      ensures Owned(s.(core := next), id, side)
    {
      assert Owned(s, id, side);
    }
  }

  /**
   Execution in a funded pair to any block from the last one up to now succeeds and keeps the invariant, provided
   it advances or nothing ends at the block it has already reached.
   */
  lemma ExecuteUntilKeepsInvariant(s: OrdersState, block: nat, now: nat)
    requires OrdersInvariant(s) && s.core.Ready() && Clean(s.core, block)
    ensures s.ExecuteUntil(block, now).Some? <==> s.core.last <= block <= now
    ensures s.ExecuteUntil(block, now).Some? ==> var next := s.ExecuteUntil(block, now).value;
      && OrdersInvariant(next) && Progress(s.core, next.core) && next.core.last == block
      && next == s.(core := next.core, index := Processed(s, block))
      && Some(next.core) == s.core.Scan(s.core.last + 1, block)
  {
    if s.core.last <= block <= now {
      IndexRefinesScan(s, block);
      ScanKeepsInvariant(s.core, s.held, s.nextId, s.core.last + 1, block);
      hide Invariant, CoreState.Drive, CoreState.Scan, IndexState.Process, Tables, Indexed;
      var next := s.ExecuteUntil(block, now).value;
      ProgressKeepsTables(s, next.core);
      ExecutionKeepsIndexed(s, block, next.core);
      TablesIgnoreRest(s.(core := next.core), next);
    }
  }

  /** The tables do not depend on the index and the balances. */
  lemma TablesIgnoreRest(s: OrdersState, next: OrdersState)
    requires Tables(s) && next == s.(index := next.index, held := next.held)
    ensures Tables(next)
  {
    forall id: nat
      ensures Tabled(next, id)
    {
      assert Tabled(s, id);
    }
    forall id: nat, side: Side
      ensures Owned(next, id, side)
    {
      assert Owned(s, id, side);
    }
  }

  /** A pair that has nothing of one token, and sells none, cannot execute: the trade divides by zero. */
  lemma {:induction false} UnfundedCannotExecute(c: CoreState, side: Side, expiries: seq<nat>, block: nat)
    requires c.reserves.At(side) == 0 && c.pools.At(side).currentSalesRate == 0 && c.last <= block
    ensures c.Drive(expiries, block).None?
    decreases expiries
  {
    hide CoreState.Traded, CoreState.Retired;
    if expiries != [] {
      UnfundedCannotExecute(c, side, expiries[1..], block);
    }
  }

  // New orders ----------------------------------------------------------------------------------------------

  lemma RateWithinAmount(amount: nat, blocks: nat)
    requires 0 < blocks
    ensures RateOver(amount, blocks) * blocks <= RATE_SCALE * amount
  {
    var scaled := amount * RATE_SCALE;
    assert scaled == blocks * (scaled / blocks) + scaled % blocks;
  }

  /**
   What an order is entered to have sold by a block and what a cancel then refunds never exceed its deposit
   together, and fall short of it by less than two tokens and 1/RATE_SCALE of a token a block.
   */
  lemma SoldAndRefundedWithinDeposit(amount: nat, blocks: nat, sold: nat)
    requires 0 < blocks && sold <= blocks
    ensures var rate := RateOver(amount, blocks);
      var total := Tokens(rate, sold) + Tokens(rate, blocks - sold);
      total <= amount && RATE_SCALE * amount < RATE_SCALE * (total + 2) + blocks
  {
    var rate, scaled := RateOver(amount, blocks), amount * RATE_SCALE;
    assert scaled == blocks * rate + scaled % blocks;
    assert rate * sold + rate * (blocks - sold) == blocks * rate;
  }

  lemma AddOrderKeepsTables(s: OrdersState, sell: Side, sender: nat, amount: nat, rate: nat, expiry: nat)
    requires Tables(s) && s.core.last < expiry
    ensures Tables(s.AddOrder(sell, sender, amount, rate, expiry, s.core.last))
  {
    var next := s.AddOrder(sell, sender, amount, rate, expiry, s.core.last);
    forall id: nat
      ensures Tabled(next, id)
    {
      assert Tabled(s, id);
    }
    forall id: nat, side: Side
      ensures Owned(next, id, side)
    {
      assert Owned(s, id, side) && Tabled(s, id);
    }
  }

  lemma AddOrderKeepsIndexed(s: OrdersState, sell: Side, sender: nat, amount: nat, rate: nat, expiry: nat)
    requires Indexed(s) && expiry in Keys(s.index.tree)
    ensures Indexed(s.AddOrder(sell, sender, amount, rate, expiry, s.core.last))
  {
    var next := s.AddOrder(sell, sender, amount, rate, expiry, s.core.last);
    assert forall b: nat :: next.core.EndsAt(b) ==> s.core.EndsAt(b) || b == expiry;
  }

  /** The expiry inserted for a new order survives the execution that follows. */
  lemma InsertThenExecute(s: OrdersState, expiry: nat, now: nat)
    requires OrdersInvariant(s) && s.core.Ready() && Clean(s.core, now)
    requires now < expiry && expiry % ORDER_BLOCK_INTERVAL == 0
    ensures s.(index := s.index.Insert(expiry)).ExecuteUntil(now, now).Some? <==> s.core.last <= now
    ensures s.core.last <= now ==> var done := s.(index := s.index.Insert(expiry)).ExecuteUntil(now, now).value;
      && OrdersInvariant(done) && ProductKept(s.core, done.core) && done.core.last == now
      && expiry in Keys(done.index.tree) && done.nextId == s.nextId
  {
    if s.core.last <= now {
      InsertKeepsIndexed(s, expiry);
      var ready := s.(index := s.index.Insert(expiry));
      TablesIgnoreRest(s, ready);
      assert KeysAligned(ready) && expiry in Keys(ready.index.tree);
      assert Invariant(ready.core, ready.held, ready.nextId) && Indexed(ready) && Tables(ready);
      hide Keys, Ordered, Invariant, Indexed, KeysAligned, Tables, IndexState.Process, IndexState.Insert;
      hide OrdersState.ExecuteUntil;
      ExecuteUntilKeepsInvariant(ready, now, now);
      ProcessedKeysAhead(ready, now);
    }
  }

  /** A long term swap whose tokens have arrived is accepted, and what it deposits covers what it is to sell. */
  lemma LongTermSwapKeepsInvariant(s: OrdersState, before: Two<nat>, sell: Side, sender: nat, amount: nat,
                                   intervals: nat, now: nat)
    requires s.held == before.With(sell, before.At(sell) + amount)
    requires OrdersInvariant(s.(held := before)) && s.core.Ready() && Clean(s.core, now)
    ensures s.PerformLongTermSwap(sell, sender, amount, intervals, now).Some? <==> s.core.last <= now
    ensures s.core.last <= now ==>
      var (next, id) := s.PerformLongTermSwap(sell, sender, amount, intervals, now).value;
      && OrdersInvariant(next) && id == s.nextId && next.Active(id)
      && ProductKept(s.core, next.core) && next.core.last == now
      && next.held == s.held && EnteredFor(next, id, sender, sell, now) && next.orders - {id} == s.orders - {id}
  {
    PlacedOrderIsEntered(s, sell, sender, amount, intervals, now);
    hide EnteredFor;
    hide OrdersState.ExecuteUntil, Keys, Ordered, OrdersInvariant, IndexState.Insert, RateOver, Clean;
    var expiry := s.OrderExpiry(intervals, now);
    var rate := s.SellingRate(amount, intervals, now);
    var unfunded := s.(held := before);
    var ready := unfunded.(index := s.index.Insert(expiry));
    InsertThenExecute(unfunded, expiry, now);
    ExecuteIgnoresBalances(ready, s.held, now);
    assert ready.(held := s.held) == s.(index := s.index.Insert(expiry));
    if s.core.last <= now {
      var done := ready.ExecuteUntil(now, now).value;
      ExecuteKeepsBalances(ready, now);
      RateWithinAmount(amount, expiry - now);
      FundedDeposit(done, s.held, sell, sender, amount, rate, expiry);
    }
  }

  /** Order `id` is entered as one of `sender`, selling `sell` for the other token from block `now` on. */
  ghost predicate EnteredFor(s: OrdersState, id: nat, sender: nat, sell: Side, now: nat) {
    && id in s.orders
    && var o := s.orders[id];
    && o.id == id && o.owner == sender && o.submitBlock == now && o.sellAmount == 0 && o.buyAmount == 0
    && o.sellToken == sell && o.buyToken == (if sell.A? then B else A)
  }

  lemma PlacedOrderIsEntered(s: OrdersState, sell: Side, sender: nat, amount: nat, intervals: nat, now: nat)
    ensures s.PerformLongTermSwap(sell, sender, amount, intervals, now).Some? ==>
      var (next, id) := s.PerformLongTermSwap(sell, sender, amount, intervals, now).value;
      && next.held == s.held && EnteredFor(next, id, sender, sell, now) && next.orders - {id} == s.orders - {id}
  {
    hide RateOver, IndexState.Insert, IndexState.Process, CoreState.Drive, PoolState.Deposit;
  }

  lemma ExecuteKeepsBalances(s: OrdersState, now: nat)
    requires s.ExecuteUntil(now, now).Some?
    ensures s.ExecuteUntil(now, now).value.held == s.held
  {
  }

  lemma ExecuteIgnoresBalances(s: OrdersState, held: Two<nat>, now: nat)
    ensures s.ExecuteUntil(now, now).None? ==> s.(held := held).ExecuteUntil(now, now).None?
    ensures s.ExecuteUntil(now, now).Some? ==>
      s.(held := held).ExecuteUntil(now, now) == Some(s.ExecuteUntil(now, now).value.(held := held))
  {
  }

  lemma FundedDeposit(s: OrdersState, held: Two<nat>, sell: Side, sender: nat, amount: nat, rate: nat, expiry: nat)
    requires OrdersInvariant(s) && held == s.held.With(sell, s.held.At(sell) + amount)
    requires s.core.last < expiry && rate * (expiry - s.core.last) <= RATE_SCALE * amount
    requires expiry in Keys(s.index.tree)
    ensures OrdersInvariant(s.(held := held).AddOrder(sell, sender, amount, rate, expiry, s.core.last))
  {
    hide Invariant, Tables, Indexed, Keys, Ordered;
    DepositKeepsInvariant(s.core, s.held, s.nextId, sell, amount, rate, expiry);
    AddOrderKeepsTables(s, sell, sender, amount, rate, expiry);
    AddOrderKeepsIndexed(s, sell, sender, amount, rate, expiry);
    var added := s.AddOrder(sell, sender, amount, rate, expiry, s.core.last);
    IndexedIgnoresRest(added, added.(held := held));
    TablesIgnoreRest(added, added.(held := held));
  }

  // Closing orders ------------------------------------------------------------------------------------------

  /** What closing or drawing on order `id` leaves behind besides the amounts moved. */
  ghost predicate OnlyTouches(s: OrdersState, next: OrdersState, id: nat) {
    && next.nextId == s.nextId && next.core.last == s.core.last && next.core.reserves == s.core.reserves
    && (forall o: nat :: o != id ==> (next.Active(o) <==> s.Active(o)))
  }

  /** `pool` is the sell pool of order `id` with that order closed, or merely drawn upon. */
  ghost predicate PoolDiffersAt(p: PoolState, pool: PoolState, id: nat) {
    forall o: nat :: o != id ==> pool.Rate(o) == p.Rate(o) && pool.Expiry(o) == p.Expiry(o)
  }

  lemma ClaimKeepsTables(s: OrdersState, next: OrdersState, id: nat, pool: PoolState)
    requires Tables(s) && s.Active(id) && id in s.orders && id in next.orders && next.nextId == s.nextId
    requires var o, o' := s.orders[id], next.orders[id];
      && next.core.pools == s.core.pools.With(o.sellToken, pool) && next.core.last == s.core.last
      && PoolDiffersAt(s.core.pools.At(o.sellToken), pool, id)
      && next.orders == s.orders[id := o.(sellAmount := o'.sellAmount, buyAmount := o'.buyAmount)]
    requires
      || (next.status == s.status[id := false] && pool.Rate(id) == 0)
      || (next.status == s.status && pool.Rate(id) == s.core.pools.At(s.orders[id].sellToken).Rate(id)
          && pool.Expiry(id) == s.core.pools.At(s.orders[id].sellToken).Expiry(id))
    ensures Tables(next)
  {
    forall o: nat
      ensures Tabled(next, o)
    {
      assert Tabled(s, o);
    }
    forall o: nat, side: Side
      ensures Owned(next, o, side)
    {
      assert Owned(s, o, side) && Tabled(s, o) && Owned(s, id, side);
    }
  }

  /** A settled pool whose endings only fell leaves the index complete. */
  lemma SettleKeepsIndexed(s: OrdersState, next: OrdersState)
    requires Indexed(s) && next.core.last == s.core.last && next.index == s.index
    requires forall b: nat :: next.core.EndsAt(b) ==> s.core.EndsAt(b)
    ensures Indexed(next)
  {
  }

  lemma CloseKeepsTables(s: OrdersState, id: nat, pool: PoolState, unsold: nat, purchased: nat)
    requires Tables(s) && Indexed(s) && s.Active(id) && id in s.orders
    requires s.core.pools.At(s.orders[id].sellToken).Cancel(id, s.core.last) == Some((pool, unsold, purchased))
    requires s.orders[id].submitBlock <= s.core.last
    ensures var closed := s.CloseCancelled(id, pool, unsold, purchased, s.core.last);
      Tables(closed) && Indexed(closed) && OnlyTouches(s, closed, id) && !closed.Active(id)
  {
    hide Claim, Tokens, Keys, Ordered, Indexed;
    assert Tabled(s, id);
    CloseKeepsIndexed(s, id, pool, unsold, purchased);
    var closed := s.CloseCancelled(id, pool, unsold, purchased, s.core.last);
    hide IndexState.Delete;
    ClaimKeepsTables(s, closed, id, pool);
  }

  lemma CloseKeepsIndexed(s: OrdersState, id: nat, pool: PoolState, unsold: nat, purchased: nat)
    requires Indexed(s) && id in s.orders && s.orders[id].buyToken == s.orders[id].sellToken.Other()
    requires s.core.pools.At(s.orders[id].sellToken).Cancel(id, s.core.last) == Some((pool, unsold, purchased))
    requires s.orders[id].submitBlock <= s.core.last
    ensures Indexed(s.CloseCancelled(id, pool, unsold, purchased, s.core.last))
  {
    hide Claim, Tokens, Keys, Ordered;
    var o := s.orders[id];
    var settled := s.(core := s.core.Settle(o.sellToken, pool, unsold, purchased));
    assert forall b: nat :: settled.core.EndsAt(b) ==> s.core.EndsAt(b);
    hide Indexed;
    SettleKeepsIndexed(s, settled);
    DropKeepsIndexed(settled, o);
    IndexedIgnoresRest(settled.DropExpiry(o), s.CloseCancelled(id, pool, unsold, purchased, s.core.last));
  }

  lemma IndexedIgnoresRest(s: OrdersState, next: OrdersState)
    requires Indexed(s) && next.core == s.core && next.index == s.index
    ensures Indexed(next)
  {
  }

  lemma CancelledAmounts(s: OrdersState, id: nat)
    requires s.Active(id) && id in s.orders && Tabled(s, id) && s.core.last < s.orders[id].expirationBlock
    requires Sound(s.core.pools.At(s.orders[id].sellToken), s.core.last, s.nextId)
    ensures var r := s.core.pools.At(s.orders[id].sellToken).Cancel(id, s.core.last);
      r.Some? && r.value.1 == s.Unsold(id) && r.value.2 == s.Claimable(id)
  {
    CancelSucceeds(s.core.pools.At(s.orders[id].sellToken), s.core.last, s.nextId, id);
    hide Claim, Tokens, Sum, LiveRates, RatesEndingAt;
  }

  /** Paying out of a settled state what its totals already count as gone. */
  lemma PayoutsCovered(s: OrdersState, closed: OrdersState, sell: Side, pool: PoolState, unsold: nat, purchased: nat)
    requires Invariant(s.core, s.held, s.nextId)
    requires var k := s.core.books.At(sell);
      PoolSound(pool, k.(refunded := k.refunded + unsold, paidOut := k.paidOut + purchased), s.core.last, s.nextId)
    requires closed.core == s.core.Settle(sell, pool, unsold, purchased)
    requires closed.held == s.held && closed.nextId == s.nextId && Tables(closed) && Indexed(closed)
    ensures closed.Pay(sell.Other(), purchased).Some?
    ensures var paid := closed.Pay(sell.Other(), purchased).value;
      && paid.Pay(sell, unsold).Some?
      && OrdersInvariant(paid.Pay(sell, unsold).value)
      && (unsold == 0 ==> paid.Pay(sell, unsold).value == paid)
  {
    SettleKeepsInvariant(s.core, s.held, s.nextId, sell, pool, unsold, purchased);
    hide Invariant, Tables, Indexed, PoolSound;
    var held := closed.Pay(sell.Other(), purchased).value.Pay(sell, unsold).value.held;
    TablesIgnoreRest(closed, closed.(held := held));
    IndexedIgnoresRest(closed, closed.(held := held));
  }

  /** What the invariant says of an open order. */
  lemma OpenOrder(s: OrdersState, id: nat)
    requires OrdersInvariant(s) && s.Active(id) && id in s.orders
    ensures var o := s.orders[id];
      && Tabled(s, id) && o.submitBlock <= s.core.last && o.buyToken == o.sellToken.Other()
      && PoolSound(s.core.pools.At(o.sellToken), s.core.books.At(o.sellToken), s.core.last, s.nextId)
      && Sound(s.core.pools.At(o.sellToken), s.core.last, s.nextId)
  {
    assert Tabled(s, id);
    assert PoolSound(s.core.pools.a, s.core.books.a, s.core.last, s.nextId);
    assert PoolSound(s.core.pools.b, s.core.books.b, s.core.last, s.nextId);
    hide Sum, Accounts, Marked;
  }

  lemma OnlyBalances(s: OrdersState, closed: OrdersState, final: OrdersState, id: nat)
    requires OnlyTouches(s, closed, id) && final == closed.(held := final.held)
    ensures OnlyTouches(s, final, id) && (final.Active(id) <==> closed.Active(id))
  {
  }

  lemma CancelEffect(s: OrdersState, id: nat) returns (pool: PoolState, final: OrdersState)
    requires OrdersInvariant(s) && s.Active(id) && id in s.orders && s.core.last < s.orders[id].expirationBlock
    ensures s.orders[id].submitBlock <= s.core.last
    ensures var o, unsold, purchased := s.orders[id], s.Unsold(id), s.Claimable(id);
      && s.core.pools.At(o.sellToken).Cancel(id, s.core.last) == Some((pool, unsold, purchased))
      && var paid := s.CloseCancelled(id, pool, unsold, purchased, s.core.last).Pay(o.buyToken, purchased);
      && paid.Some? && paid.value.Pay(o.sellToken, unsold) == Some(final)
    ensures OrdersInvariant(final) && OnlyTouches(s, final, id) && !final.Active(id)
  {
    hide PoolState.Cancel, OrdersState.CloseCancelled, OrdersState.Unsold, OrdersState.Claimable;
    hide Invariant, Tables, Indexed, PoolSound, Sound, Tabled, OrdersState.Pay, OnlyTouches;
    var o := s.orders[id];
    OpenOrder(s, id);
    var p, k := s.core.pools.At(o.sellToken), s.core.books.At(o.sellToken);
    CancelledAmounts(s, id);
    var (q, unsold, purchased) := p.Cancel(id, s.core.last).value;
    pool := q;
    PoolAfterCancel(p, k, s.core.last, s.nextId, id);
    CloseKeepsTables(s, id, pool, unsold, purchased);
    var closed := s.CloseCancelled(id, pool, unsold, purchased, s.core.last);
    ClosingSettles(s, id, pool, unsold, purchased);
    PayoutsCovered(s, closed, o.sellToken, pool, unsold, purchased);
    var paid := closed.Pay(o.buyToken, purchased).value;
    final := paid.Pay(o.sellToken, unsold).value;
    PayTouchesBalances(closed, o.buyToken, purchased);
    PayTouchesBalances(paid, o.sellToken, unsold);
    OnlyBalances(s, closed, final, id);
  }

  /** `paid` of `buy` and then `refunded` of `sell` have left the balances. */
  ghost predicate PaidTo(held: Two<nat>, held': Two<nat>, buy: Side, paid: nat, sell: Side, refunded: nat) {
    forall token: Side ::
      held'.At(token) + (if token == buy then paid else 0) + (if token == sell then refunded else 0) == held.At(token)
  }

  lemma CancelPays(s: OrdersState, sender: nat, id: nat)
    ensures s.CancelExecuted(sender, id, s.core.last).Some? ==>
      var (next, unsold, purchased) := s.CancelExecuted(sender, id, s.core.last).value;
      id in s.orders && PaidTo(s.held, next.held, s.orders[id].buyToken, purchased, s.orders[id].sellToken, unsold)
  {
    hide PoolState.Cancel, Tokens, IndexState.Delete;
  }

  lemma WithdrawalPays(s: OrdersState, sender: nat, id: nat)
    ensures s.WithdrawExecuted(sender, id, s.core.last).Some? ==>
      var (next, proceeds) := s.WithdrawExecuted(sender, id, s.core.last).value;
      id in s.orders && PaidTo(s.held, next.held, s.orders[id].buyToken, proceeds, s.orders[id].sellToken, 0)
  {
    hide PoolState.Withdraw, Tokens;
  }

  /**
   A cancel after execution succeeds exactly for the owner of an open order that has not expired and has something
   to return: no subtraction underflows and both payouts are covered. It pays what the order has not sold and
   what it can claim, out of the balances, and closes the order.
   */
  lemma CancelExecutedKeepsInvariant(s: OrdersState, sender: nat, id: nat)
    requires OrdersInvariant(s)
    ensures var r := s.CancelExecuted(sender, id, s.core.last);
      && (r.Some? <==> s.OpenFor(id, sender) && s.core.last < s.orders[id].expirationBlock
                       && 0 < s.Unsold(id) + s.Claimable(id))
      && (r.Some? ==> var (next, unsold, purchased) := r.value;
            && unsold == s.Unsold(id) && purchased == s.Claimable(id)
            && PaidTo(s.held, next.held, s.orders[id].buyToken, purchased, s.orders[id].sellToken, unsold)
            && OrdersInvariant(next) && OnlyTouches(s, next, id) && !next.Active(id))
  {
    CancelPays(s, sender, id);
    hide PaidTo;
    hide OrdersInvariant, OnlyTouches, PoolState.Cancel, OrdersState.CloseCancelled, OrdersState.Unsold;
    hide OrdersState.Claimable, OrdersState.Pay;
    if s.OpenFor(id, sender) {
      if s.core.last < s.orders[id].expirationBlock {
        var pool, final := CancelEffect(s, id);
      } else {
        ExpiredCannotCancel(s, id);
      }
    }
  }

  lemma ExpiredCannotCancel(s: OrdersState, id: nat)
    requires OrdersInvariant(s) && s.Active(id) && id in s.orders && s.orders[id].expirationBlock <= s.core.last
    ensures s.core.pools.At(s.orders[id].sellToken).Cancel(id, s.core.last).None?
  {
    assert Tabled(s, id);
    hide Claim, Tokens;
  }

  lemma ClosingSettles(s: OrdersState, id: nat, pool: PoolState, unsold: nat, purchased: nat)
    requires id in s.orders && s.orders[id].submitBlock <= s.core.last
    ensures var closed := s.CloseCancelled(id, pool, unsold, purchased, s.core.last);
      && closed.core == s.core.Settle(s.orders[id].sellToken, pool, unsold, purchased)
      && closed.held == s.held && closed.nextId == s.nextId
  {
    hide Tokens;
  }

  lemma PayTouchesBalances(s: OrdersState, token: Side, amount: nat)
    requires s.Pay(token, amount).Some?
    ensures s.Pay(token, amount).value == s.(held := s.Pay(token, amount).value.held)
  {
  }

  // Withdrawing ---------------------------------------------------------------------------------------------

  lemma WithdrawalKeepsTables(s: OrdersState, id: nat, pool: PoolState, proceeds: nat)
    requires Tables(s) && Indexed(s) && s.Active(id) && id in s.orders
    requires s.core.pools.At(s.orders[id].sellToken).Withdraw(id, s.core.last) == Some((pool, proceeds))
    ensures s.orders[id].submitBlock <= OrdersState.SoldUntil(s.orders[id], s.core.last)
    ensures var next := s.RecordWithdrawal(id, pool, proceeds, s.core.last);
      && Tables(next) && Indexed(next) && OnlyTouches(s, next, id)
      && (next.Active(id) <==> s.core.last < s.orders[id].expirationBlock)
      && next.core == s.core.Settle(s.orders[id].sellToken, pool, 0, proceeds)
      && next.held == s.held && next.nextId == s.nextId
  {
    hide Claim, Tokens, Keys, Ordered;
    assert Tabled(s, id);
    var next := s.RecordWithdrawal(id, pool, proceeds, s.core.last);
    assert forall b: nat :: next.core.EndsAt(b) ==> s.core.EndsAt(b);
    SettleKeepsIndexed(s, next);
    ClaimKeepsTables(s, next, id, pool);
  }

  lemma WithdrawnAmount(s: OrdersState, id: nat)
    requires s.Active(id) && id in s.orders && Tabled(s, id)
    requires Sound(s.core.pools.At(s.orders[id].sellToken), s.core.last, s.nextId)
    ensures var r := s.core.pools.At(s.orders[id].sellToken).Withdraw(id, s.core.last);
      && (0 < s.Claimable(id) ==> r.Some?)
      && (r.Some? ==> r.value.1 == s.Claimable(id))
  {
    var p := s.core.pools.At(s.orders[id].sellToken);
    assert p.Rate(id) == 0 ==> forall growth: nat :: Claim(growth, p.Rate(id)) == 0;
    hide Claim, Sum, LiveRates, RatesEndingAt;
  }

  lemma WithdrawEffect(s: OrdersState, id: nat) returns (pool: PoolState, final: OrdersState)
    requires OrdersInvariant(s) && s.Active(id) && id in s.orders && 0 < s.Claimable(id)
    ensures var o, proceeds := s.orders[id], s.Claimable(id);
      && o.submitBlock <= OrdersState.SoldUntil(o, s.core.last)
      && s.core.pools.At(o.sellToken).Withdraw(id, s.core.last) == Some((pool, proceeds))
      && s.RecordWithdrawal(id, pool, proceeds, s.core.last).Pay(o.buyToken, proceeds) == Some(final)
    ensures OrdersInvariant(final) && OnlyTouches(s, final, id)
    ensures final.Active(id) <==> s.core.last < s.orders[id].expirationBlock
  {
    hide PoolState.Withdraw, OrdersState.RecordWithdrawal, OrdersState.Claimable;
    hide Invariant, Tables, Indexed, PoolSound, Sound, Tabled, OrdersState.Pay, OnlyTouches;
    var o := s.orders[id];
    OpenOrder(s, id);
    var p, k := s.core.pools.At(o.sellToken), s.core.books.At(o.sellToken);
    WithdrawnAmount(s, id);
    var (q, proceeds) := p.Withdraw(id, s.core.last).value;
    pool := q;
    PoolAfterWithdraw(p, k, s.core.last, s.nextId, id);
    WithdrawalKeepsTables(s, id, pool, proceeds);
    var next := s.RecordWithdrawal(id, pool, proceeds, s.core.last);
    assert k.(refunded := k.refunded + 0, paidOut := k.paidOut + proceeds) == k.(paidOut := k.paidOut + proceeds);
    PayoutsCovered(s, next, o.sellToken, pool, 0, proceeds);
    final := next.Pay(o.buyToken, proceeds).value;
    PayTouchesBalances(next, o.buyToken, proceeds);
    OnlyBalances(s, next, final, id);
  }

  /**
   A withdrawal after execution succeeds exactly for the owner of an open order with something to claim, and pays
   it out of the balance. The order stays open exactly until its expiry.
   */
  lemma WithdrawExecutedKeepsInvariant(s: OrdersState, sender: nat, id: nat)
    requires OrdersInvariant(s)
    ensures var r := s.WithdrawExecuted(sender, id, s.core.last);
      && (r.Some? <==> s.OpenFor(id, sender) && 0 < s.Claimable(id))
      && (r.Some? ==> var (next, proceeds) := r.value;
            && proceeds == s.Claimable(id) && OrdersInvariant(next) && OnlyTouches(s, next, id)
            && PaidTo(s.held, next.held, s.orders[id].buyToken, proceeds, s.orders[id].sellToken, 0)
            && (next.Active(id) <==> s.core.last < s.orders[id].expirationBlock))
  {
    WithdrawalPays(s, sender, id);
    hide PaidTo;
    hide OrdersInvariant, OnlyTouches, PoolState.Withdraw, OrdersState.RecordWithdrawal, OrdersState.Claimable;
    hide OrdersState.Pay, Tabled, PoolSound, Sound;
    if s.OpenFor(id, sender) {
      OpenOrder(s, id);
      WithdrawnAmount(s, id);
      if 0 < s.Claimable(id) {
        var pool, final := WithdrawEffect(s, id);
      }
    }
  }
}
