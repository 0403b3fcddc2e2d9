/**
 What every run of calls keeps of the orders, admissible or not: the order tables, the sell side of both ledgers, and
 the shortfall of the lumped rates, which only a repeated retirement widens.
 */
module SalesLaws {
  import opened Basics
  import opened FixedPoint
  import opened Liquidity
  import opened OrderPools
  import opened OrderPoolLedger
  import opened Execution
  import opened Solvency
  import opened SellSide
  import opened ExpiryTree
  import opened ExpiryIndex
  import opened Orders
  import opened IndexRefinement
  import opened OrderInvariants
  import opened PairOperations
  import opened ExecutionLaws
  import opened EveryRun
  import opened Sums

  /** The block to which a call executes virtual orders, if it does. */
  function Target(env: Env, call: Call): Option<nat> {
    match call
    case InitialLiquidity(_, _) => None
    case Donate(_, _) => None
    case Execute(block) => Some(block)
    case _ => Some(env.now)
  }

  /**
   The assumption on runs. The contract accepts an execution at the block it has already reached and then retires
   the orders that ended there a second time; a run is admissible if no call that succeeds does that.
   */
  predicate Admissible(s: PairState, env: Env, call: Call) {
    Target(env, call).Some? ==> Clean(s.book.core, Target(env, call).value)
  }

  predicate AdmissibleRun(s: PairState, calls: seq<(Env, Call)>)
    decreases |calls|
  {
    calls == [] ||
    var (env, call) := calls[0];
    && (Step(s, env, call).None? || Admissible(s, env, call))
    && AdmissibleRun(Apply(s, env, call), calls[1..])
  }

  // The books in every run ----------------------------------------------------------------------------------

  /** The order tables, the index and the sell side of both pools agree. */
  ghost predicate BooksInOrder(s: OrdersState) {
    SellInvariant(s.core, s.nextId) && Indexed(s) && Tables(s)
  }

  /** The shortfall of each pool, before and after an execution to `block`, if there was one. */
  ghost predicate Widens(s: OrdersState, next: OrdersState, block: Option<nat>) {
    forall side: Side ::
      ShortfallOf(next.core, next.nextId, side) == ShortfallOf(s.core, s.nextId, side)
        + if block.None? then 0 else Repeated(s.core.pools.At(side), s.core.last, block.value)
  }

  /** A step of the books that executes to `block`, or does not execute. */
  ghost predicate KeepsBooks(s: OrdersState, next: OrdersState, block: Option<nat>) {
    BooksInOrder(next) && Widens(s, next, block)
  }

  /** What follows an execution, or comes before one, neither widens nor narrows a shortfall. */
  lemma BooksChain(s: OrdersState, e: OrdersState, next: OrdersState, first: Option<nat>, second: Option<nat>)
    requires KeepsBooks(s, e, first) && KeepsBooks(e, next, second) && (first.None? || second.None?)
    requires first.None? ==> e.core == s.core
    ensures KeepsBooks(s, next, if first.None? then second else first)
  {
    hide BooksInOrder, Shortfall, Repeated;
  }

  lemma ExecutingKeepsBooks(s: OrdersState, block: nat, now: nat)
    requires BooksInOrder(s)
    ensures s.ExecuteUntil(block, now).Some? ==>
      KeepsBooks(s, s.ExecuteUntil(block, now).value, Some(block)) && s.core.last <= block
  {
    hide OrdersState.ExecuteUntil, Indexed, Tables, SellInvariant, CoreState.Scan, CoreState.EndsAt;
    hide Shortfall, Repeated;
    if s.ExecuteUntil(block, now).Some? {
      NotBehind(s, block, now);
      FirstLeg(s, block, now);
      ScanKeepsSellSide(s.core, s.nextId, s.core.last + 1, block);
      var next := s.ExecuteUntil(block, now).value;
      ExecutionKeepsRecords(s, block, now);
      hide OrdersUntouched;
      ProgressKeepsTables(s, next.core);
      TablesIgnoreRest(s.(core := next.core), next);
    }
  }

  lemma ExecutionKeepsRecords(s: OrdersState, block: nat, now: nat)
    requires s.ExecuteUntil(block, now).Some?
    ensures var next := s.ExecuteUntil(block, now).value;
      next == s.(core := next.core, index := next.index)
  {
    hide CoreState.Drive, IndexState.Process;
  }

  lemma TokensKeepBooks(s: OrdersState, next: OrdersState)
    requires BooksInOrder(s) && TokensMoved(s, next)
    ensures KeepsBooks(s, next, None)
  {
    assert forall b: nat :: next.core.EndsAt(b) == s.core.EndsAt(b);
    SettleKeepsIndexed(s, next);
    forall id: nat
      ensures Tabled(next, id)
    {
      assert Tabled(s, id);
    }
    forall id: nat, side: Side
      ensures Owned(next, id, side)
    {
      assert Owned(s, id, side);
    }
    hide SellSound, Indexed, Shortfall;
  }

  // Orders --------------------------------------------------------------------------------------------------

  /** A new expiry in the index, before the execution that precedes the order. */
  lemma InsertKeepsBooks(s: OrdersState, expiry: nat)
    requires BooksInOrder(s) && s.core.last < expiry && expiry % ORDER_BLOCK_INTERVAL == 0
    ensures KeepsBooks(s, s.(index := s.index.Insert(expiry)), None)
    ensures expiry in Keys(s.index.Insert(expiry).tree)
  {
    hide Tables, SellInvariant, Indexed, Shortfall, IndexState.Insert, Keys, Ordered;
    InsertKeepsIndexed(s, expiry);
    TablesIgnoreRest(s, s.(index := s.index.Insert(expiry)));
  }

  lemma AddOrderKeepsBooks(s: OrdersState, sell: Side, sender: nat, amount: nat, rate: nat, expiry: nat)
    requires BooksInOrder(s) && s.core.last < expiry && rate * (expiry - s.core.last) <= RATE_SCALE * amount
    requires expiry in Keys(s.index.tree)
    ensures KeepsBooks(s, s.AddOrder(sell, sender, amount, rate, expiry, s.core.last), None)
  {
    hide Tables, SellInvariant, Indexed, Shortfall, Keys, Ordered;
    TakeInKeepsSellSide(s.core, s.nextId, sell, amount, rate, expiry);
    AddOrderKeepsTables(s, sell, sender, amount, rate, expiry);
    AddOrderKeepsIndexed(s, sell, sender, amount, rate, expiry);
    hide PoolState.Deposit;
  }

  lemma ExecutionKeepsExpiry(s: OrdersState, expiry: nat, now: nat)
    requires Indexed(s) && expiry in Keys(s.index.tree) && now < expiry && expiry % ORDER_BLOCK_INTERVAL == 0
    requires s.ExecuteUntil(now, now).Some?
    ensures expiry in Keys(s.ExecuteUntil(now, now).value.index.tree)
  {
    hide OrdersState.ExecuteUntil, Indexed, Keys;
    NotBehind(s, now, now);
    FirstLeg(s, now, now);
  }

  lemma PlacingKeepsBooks(s: OrdersState, sell: Side, sender: nat, amount: nat, intervals: nat, now: nat)
    requires BooksInOrder(s)
    ensures var r := s.PerformLongTermSwap(sell, sender, amount, intervals, now);
      r.Some? ==> KeepsBooks(s, r.value.0, Some(now)) && s.core.last <= now
  {
    hide OrdersState.ExecuteUntil, IndexState.Insert, BooksInOrder, Widens, RateOver, Keys, Ordered;
    hide OrdersState.AddOrder, OrdersState.SellingRate;
    var expiry := s.OrderExpiry(intervals, now);
    var ready := s.(index := s.index.Insert(expiry));
    if ready.ExecuteUntil(now, now).Some? {
      NotBehind(ready, now, now);
      InsertKeepsBooks(s, expiry);
      ExecutingKeepsBooks(ready, now, now);
      BooksAreIndexed(ready);
      ExecutionKeepsExpiry(ready, expiry, now);
      var done := ready.ExecuteUntil(now, now).value;
      ExecutionKeepsRecords(ready, now, now);
      SellingRateWithinAmount(s, amount, intervals, now);
      AddOrderKeepsBooks(done, sell, sender, amount, s.SellingRate(amount, intervals, now), expiry);
      BooksChain(s, ready, done, None, Some(now));
      BooksChain(s, done, done.AddOrder(sell, sender, amount, s.SellingRate(amount, intervals, now), expiry, now),
                 Some(now), None);
    }
  }

  lemma SellingRateWithinAmount(s: OrdersState, amount: nat, intervals: nat, now: nat)
    ensures s.SellingRate(amount, intervals, now) * (s.OrderExpiry(intervals, now) - now) <= RATE_SCALE * amount
  {
    RateWithinAmount(amount, s.OrderExpiry(intervals, now) - now);
    hide RateOver;
  }

  lemma BooksAreIndexed(s: OrdersState)
    requires BooksInOrder(s)
    ensures Indexed(s)
  {
  }

  /** Payouts touch the balances only. */
  lemma PayKeepsBooks(s: OrdersState, next: OrdersState, paid: OrdersState)
    requires KeepsBooks(s, next, None) && paid == next.(held := paid.held)
    ensures KeepsBooks(s, paid, None)
  {
    hide Tables, SellInvariant, Indexed, Shortfall;
    TablesIgnoreRest(next, paid);
    IndexedIgnoresRest(next, paid);
  }

  lemma CancellingKeepsBooks(s: OrdersState, sender: nat, id: nat)
    requires BooksInOrder(s)
    ensures var r := s.CancelExecuted(sender, id, s.core.last); r.Some? ==> KeepsBooks(s, r.value.0, None)
  {
    hide PoolState.Cancel, OrdersState.CloseCancelled, SellInvariant, Tables, Indexed, Shortfall, OnlyTouches;
    if s.CancelExecuted(sender, id, s.core.last).Some? {
      var (next, _, _) := s.CancelExecuted(sender, id, s.core.last).value;
      var o := s.orders[id];
      var (pool, unsold, purchased) := s.core.pools.At(o.sellToken).Cancel(id, s.core.last).value;
      CloseKeepsTables(s, id, pool, unsold, purchased);
      CancelKeepsSellSide(s.core, s.nextId, o.sellToken, id);
      ClosingSettles(s, id, pool, unsold, purchased);
      PayKeepsBooks(s, s.CloseCancelled(id, pool, unsold, purchased, s.core.last), next);
    }
  }

  lemma ClaimingKeepsBooks(s: OrdersState, sender: nat, id: nat)
    requires BooksInOrder(s)
    ensures var r := s.WithdrawExecuted(sender, id, s.core.last); r.Some? ==> KeepsBooks(s, r.value.0, None)
  {
    hide PoolState.Withdraw, OrdersState.RecordWithdrawal, SellInvariant, Tables, Indexed, Shortfall, OnlyTouches;
    if s.WithdrawExecuted(sender, id, s.core.last).Some? {
      var (next, _) := s.WithdrawExecuted(sender, id, s.core.last).value;
      var o := s.orders[id];
      var (pool, proceeds) := s.core.pools.At(o.sellToken).Withdraw(id, s.core.last).value;
      WithdrawalKeepsTables(s, id, pool, proceeds);
      WithdrawKeepsSellSide(s.core, s.nextId, o.sellToken, id);
      PayKeepsBooks(s, s.RecordWithdrawal(id, pool, proceeds, s.core.last), next);
    }
  }

  // Steps and runs ------------------------------------------------------------------------------------------

  lemma OrderStepKeepsBooks(s: PairState, env: Env, call: Call)
    requires BooksInOrder(s.book) && (call.PlaceOrder? || call.CancelOrder? || call.ClaimProceeds?)
    ensures Step(s, env, call).Some? ==>
      KeepsBooks(s.book, Step(s, env, call).value.book, Some(env.now)) && s.book.core.last <= env.now
  {
    hide BooksInOrder, Widens, OrdersState.ExecuteUntil, OrdersState.PerformLongTermSwap;
    hide OrdersState.CancelExecuted, OrdersState.WithdrawExecuted;
    ExecutingKeepsBooks(s.book, env.now, env.now);
    var e := s.book.ExecuteUntil(env.now, env.now);
    match call
    case PlaceOrder(sell, sender, amount, intervals) =>
      var book := s.Receive(sell, amount).book;
      TokensKeepBooks(s.book, book);
      PlacingKeepsBooks(book, sell, sender, amount, intervals, env.now);
      if Step(s, env, call).Some? {
        BooksChain(s.book, book, Step(s, env, call).value.book, None, Some(env.now));
      }
    case CancelOrder(sender, id) =>
      if Step(s, env, call).Some? {
        CancellingKeepsBooks(e.value, sender, id);
        BooksChain(s.book, e.value, Step(s, env, call).value.book, Some(env.now), None);
      }
    case ClaimProceeds(sender, id) =>
      if Step(s, env, call).Some? {
        ClaimingKeepsBooks(e.value, sender, id);
        BooksChain(s.book, e.value, Step(s, env, call).value.book, Some(env.now), None);
      }
  }

  lemma OtherStepKeepsBooks(s: PairState, env: Env, call: Call)
    requires BooksInOrder(s.book) && !call.PlaceOrder? && !call.CancelOrder? && !call.ClaimProceeds?
    ensures Step(s, env, call).Some? ==> KeepsBooks(s.book, Step(s, env, call).value.book, Target(env, call))
    ensures Step(s, env, call).Some? && Target(env, call).Some? ==> s.book.core.last <= Target(env, call).value
  {
    hide BooksInOrder, Widens, OrdersState.ExecuteUntil, PairState.SwapExecuted;
    hide PairState.ProvideInitialLiquidity, PairState.ProvideExecuted, PairState.RemoveExecuted;
    ExecutingKeepsBooks(s.book, env.now, env.now);
    if Step(s, env, call).Some? {
      var next := Step(s, env, call).value.book;
      match call
      case InitialLiquidity(amountA, amountB) =>
        LiquidityOnlyMovesTokens(s.Receive(A, amountA).Receive(B, amountB), Two(amountA, amountB), 0, 0, env);
        TokensKeepBooks(s.book, next);
      case AddLiquidity(shares) =>
        var e := s.ExecuteVirtualOrders(env.now, env.now).value;
        LiquidityOnlyMovesTokens(e, Two(0, 0), shares, 0, env);
        TokensKeepBooks(e.book, next);
        BooksChain(s.book, e.book, next, Some(env.now), None);
      case TakeLiquidity(shares, balance) =>
        var e := s.ExecuteVirtualOrders(env.now, env.now).value;
        LiquidityOnlyMovesTokens(e, Two(0, 0), shares, balance, env);
        TokensKeepBooks(e.book, next);
        BooksChain(s.book, e.book, next, Some(env.now), None);
      case Swap(sell, amountIn) =>
        var book := s.Receive(sell, amountIn).book;
        TokensKeepBooks(s.book, book);
        ExecutingKeepsBooks(book, env.now, env.now);
        var e := s.Receive(sell, amountIn).ExecuteVirtualOrders(env.now, env.now).value;
        BooksChain(s.book, book, e.book, None, Some(env.now));
        SwapOnlyMovesTokens(e, sell, amountIn);
        TokensKeepBooks(e.book, next);
        BooksChain(s.book, e.book, next, Some(env.now), None);
      case Execute(block) =>
        ExecutingKeepsBooks(s.book, block, env.now);
      case Donate(token, amount) =>
        TokensKeepBooks(s.book, next);
    }
  }

  /** Every call keeps the books, and widens a shortfall by exactly what it retires a second time. */
  lemma StepKeepsBooks(s: PairState, env: Env, call: Call)
    requires BooksInOrder(s.book)
    ensures Step(s, env, call).Some? ==> KeepsBooks(s.book, Step(s, env, call).value.book, Target(env, call))
    ensures Step(s, env, call).Some? && Target(env, call).Some? ==> s.book.core.last <= Target(env, call).value
  {
    hide BooksInOrder, KeepsBooks, Step;
    if call.PlaceOrder? || call.CancelOrder? || call.ClaimProceeds? {
      OrderStepKeepsBooks(s, env, call);
    } else {
      OtherStepKeepsBooks(s, env, call);
    }
  }

  lemma {:induction false} RunKeepsBooks(s: PairState, calls: seq<(Env, Call)>)
    requires BooksInOrder(s.book)
    ensures BooksInOrder(Run(s, calls).book)
    decreases |calls|
  {
    if calls != [] {
      var (env, call) := calls[0];
      StepKeepsBooks(s, env, call);
      hide Step, BooksInOrder, Widens;
      RunKeepsBooks(Apply(s, env, call), calls[1..]);
    }
  }

  // What the books say --------------------------------------------------------------------------------------

  /** The lumped rate of each pool is the sum of its live orders' rates. */
  ghost predicate RatesAgree(s: OrdersState) {
    forall side: Side ::
      s.core.pools.At(side).currentSalesRate == Sum(LiveRates(s.core.pools.At(side), s.core.last, s.nextId))
  }

  /**
   The sell side of either ledger, after any run whatever. What was sold, refunded and is still to be sold stays within
   what was deposited; the lumped rate never exceeds the live orders' rates, and at every block to come exactly the
   rates of the orders that end there are recorded.
   */
  lemma RunsConserveSales(s: PairState, calls: seq<(Env, Call)>, side: Side)
    requires BooksInOrder(s.book)
    ensures var end := Run(s, calls).book;
      var p, k := end.core.pools.At(side), end.core.books.At(side);
      && RATE_SCALE * (k.sold + k.refunded) + Sum(Obligations(p, end.core.last, end.nextId))
         <= RATE_SCALE * k.deposited
      && p.currentSalesRate <= Sum(LiveRates(p, end.core.last, end.nextId))
      && forall b: nat :: end.core.last < b ==> p.Ending(b) == Sum(RatesEndingAt(p, b, end.nextId))
  {
    RunKeepsBooks(s, calls);
    hide Run, Indexed, Tables, Sum, LiveRates, RatesEndingAt, Obligations;
  }

  // The assumption on runs, exactly -------------------------------------------------------------------------

  ghost function TotalShortfall(s: OrdersState): int {
    ShortfallOf(s.core, s.nextId, A) + ShortfallOf(s.core, s.nextId, B)
  }

  lemma BookedRates(s: OrdersState)
    requires BooksInOrder(s)
    ensures 0 <= ShortfallOf(s.core, s.nextId, A) && 0 <= ShortfallOf(s.core, s.nextId, B)
    ensures RatesAgree(s) <==> TotalShortfall(s) == 0
  {
    hide Sum, LiveRates, RatesEndingAt, Escrowed, Indexed, Tables;
    var c := s.core;
    assert c.pools.At(A) == c.pools.a && c.pools.At(B) == c.pools.b;
  }

  /** A call that succeeds leaves the shortfalls as they are exactly when it is admissible. */
  lemma StepWidensIff(s: PairState, env: Env, call: Call)
    requires BooksInOrder(s.book) && Step(s, env, call).Some?
    ensures var next := Step(s, env, call).value.book;
      && TotalShortfall(s.book) <= TotalShortfall(next)
      && (TotalShortfall(s.book) == TotalShortfall(next) <==> Admissible(s, env, call))
  {
    StepKeepsBooks(s, env, call);
    hide Step, BooksInOrder, Shortfall;
    var c := s.book.core;
    assert c.pools.At(A) == c.pools.a && c.pools.At(B) == c.pools.b;
  }

  lemma {:induction false} RunWidensIff(s: PairState, calls: seq<(Env, Call)>)
    requires BooksInOrder(s.book)
    ensures var end := Run(s, calls).book;
      && TotalShortfall(s.book) <= TotalShortfall(end)
      && (TotalShortfall(s.book) == TotalShortfall(end) <==> AdmissibleRun(s, calls))
    decreases |calls|
  {
    if calls != [] {
      var (env, call) := calls[0];
      StepKeepsBooks(s, env, call);
      if Step(s, env, call).Some? {
        StepWidensIff(s, env, call);
      }
      hide Step, BooksInOrder, Widens, TotalShortfall, Admissible;
      RunWidensIff(Apply(s, env, call), calls[1..]);
    }
  }

  /**
   The assumption on runs is exactly what the lumped rates need: from a state in which they agree with the live orders,
   they agree again at the end of a run if and only if the run is admissible.
   */
  lemma RunKeepsRatesIff(s: PairState, calls: seq<(Env, Call)>)
    requires BooksInOrder(s.book) && RatesAgree(s.book)
    ensures RatesAgree(Run(s, calls).book) <==> AdmissibleRun(s, calls)
  {
    hide Run, AdmissibleRun, BooksInOrder, RatesAgree, TotalShortfall;
    RunKeepsBooks(s, calls);
    RunWidensIff(s, calls);
    BookedRates(s.book);
    BookedRates(Run(s, calls).book);
  }

  // Once a lumped rate falls short --------------------------------------------------------------------------

  /** Pool `side` sells less than its live orders' rates, and no order of it ends after `horizon`. */
  ghost predicate Short(s: OrdersState, side: Side, horizon: nat) {
    && BooksInOrder(s) && 0 < ShortfallOf(s.core, s.nextId, side)
    && forall id: nat :: s.core.pools.At(side).Expiry(id) <= horizon
  }

  lemma ExecutionKeepsExpiries(s: OrdersState, block: nat, now: nat, side: Side)
    requires BooksInOrder(s) && s.ExecuteUntil(block, now).Some?
    ensures forall id: nat ::
      s.ExecuteUntil(block, now).value.core.pools.At(side).Expiry(id) == s.core.pools.At(side).Expiry(id)
  {
    hide OrdersState.ExecuteUntil, SellInvariant, Tables, Indexed, OrdersUntouched, WidensBy, CoreState.Scan;
    hide CoreState.EndsAt;
    NotBehind(s, block, now);
    FirstLeg(s, block, now);
    ScanKeepsSellSide(s.core, s.nextId, s.core.last + 1, block);
    SameExpiries(s.core, s.ExecuteUntil(block, now).value.core, side);
  }

  lemma SameExpiries(c: CoreState, next: CoreState, side: Side)
    requires OrdersUntouched(c, next)
    ensures forall id: nat :: next.pools.At(side).Expiry(id) == c.pools.At(side).Expiry(id)
  {
    assert next.pools.At(side).orderExpiry == c.pools.At(side).orderExpiry;
  }

  lemma WideningKeepsShort(s: OrdersState, next: OrdersState, side: Side, horizon: nat, block: Option<nat>)
    requires Short(s, side, horizon) && KeepsBooks(s, next, block)
    requires forall id: nat :: next.core.pools.At(side).Expiry(id) == s.core.pools.At(side).Expiry(id)
    ensures Short(next, side, horizon)
  {
    hide BooksInOrder, Shortfall, Repeated;
  }

  lemma ExecutionKeepsShort(s: OrdersState, side: Side, horizon: nat, block: nat, now: nat)
    requires Short(s, side, horizon) && s.ExecuteUntil(block, now).Some?
    ensures Short(s.ExecuteUntil(block, now).value, side, horizon)
  {
    hide OrdersState.ExecuteUntil, BooksInOrder, Widens, Shortfall;
    ExecutingKeepsBooks(s, block, now);
    ExecutionKeepsExpiries(s, block, now, side);
    WideningKeepsShort(s, s.ExecuteUntil(block, now).value, side, horizon, Some(block));
  }

  /** A pool that sells too little cannot be executed to its last expiry or past it: retiring its orders underflows. */
  lemma ShortPoolStopsExecution(s: OrdersState, side: Side, horizon: nat, block: nat, now: nat)
    requires Short(s, side, horizon) && horizon <= block
    ensures s.ExecuteUntil(block, now).None?
  {
    if s.ExecuteUntil(block, now).Some? {
      ExecutionKeepsShort(s, side, horizon, block, now);
      NobodyLeftToRetire(s.ExecuteUntil(block, now).value, side);
    }
  }

  /** With no order live, nothing is missing. */
  lemma NobodyLeftToRetire(s: OrdersState, side: Side)
    requires BooksInOrder(s) && forall id: nat :: s.core.pools.At(side).Expiry(id) <= s.core.last
    ensures ShortfallOf(s.core, s.nextId, side) == 0
  {
    var c := s.core;
    assert c.pools.At(A) == c.pools.a && c.pools.At(B) == c.pools.b;
    hide Indexed, Tables, Escrowed;
    ShortPoolIsLive(c.pools.At(side), c.last, s.nextId);
  }

  /** Whatever a call does, it executes first if it executes at all. */
  lemma StepExecutesFirst(s: PairState, env: Env, call: Call)
    requires Indexed(s.book) && Step(s, env, call).Some? && Target(env, call).Some?
    ensures s.book.ExecuteUntil(Target(env, call).value, env.now).Some?
  {
    hide OrdersState.ExecuteUntil, OrdersState.CancelExecuted, OrdersState.WithdrawExecuted, Indexed, RateOver;
    hide IndexState.Insert, CoreState.Scan;
    match call
    case Swap(sell, amountIn) =>
      var book := s.Receive(sell, amountIn).book;
      NotBehind(book, env.now, env.now);
      IndexedIgnoresRest(s.book, book);
      FirstLeg(book, env.now, env.now);
      FirstLeg(s.book, env.now, env.now);
    case PlaceOrder(sell, sender, amount, intervals) =>
      var book := s.Receive(sell, amount).book;
      var ready := book.(index := book.index.Insert(book.OrderExpiry(intervals, env.now)));
      NotBehind(ready, env.now, env.now);
      IndexedIgnoresRest(s.book, book);
      InsertKeepsIndexed(book, book.OrderExpiry(intervals, env.now));
      FirstLeg(ready, env.now, env.now);
      FirstLeg(s.book, env.now, env.now);
    case _ =>
  }

  lemma PlainCallKeepsPools(s: PairState, env: Env, call: Call)
    requires Target(env, call).None? && Step(s, env, call).Some?
    ensures Step(s, env, call).value.book.core.pools == s.book.core.pools
  {
    hide RootK, FeeShares;
  }

  lemma StepKeepsShort(s: PairState, env: Env, call: Call, side: Side, horizon: nat)
    requires Short(s.book, side, horizon) && horizon <= env.now
    ensures Short(Apply(s, env, call).book, side, horizon)
  {
    if Step(s, env, call).Some? {
      StepKeepsBooks(s, env, call);
      if Target(env, call).None? {
        PlainCallKeepsPools(s, env, call);
        hide Step, BooksInOrder, Widens, Shortfall;
        WideningKeepsShort(s.book, Step(s, env, call).value.book, side, horizon, None);
      } else {
        StepExecutesFirst(s, env, call);
        if horizon <= Target(env, call).value {
          ShortPoolStopsExecution(s.book, side, horizon, Target(env, call).value, env.now);
        } else {
          ExecutionKeepsShort(s.book, side, horizon, call.block, env.now);
        }
      }
    }
  }

  lemma {:induction false} RunKeepsShort(s: PairState, calls: seq<(Env, Call)>, side: Side, horizon: nat)
    requires Short(s.book, side, horizon) && forall i :: 0 <= i < |calls| ==> horizon <= calls[i].0.now
    ensures Short(Run(s, calls).book, side, horizon)
    decreases |calls|
  {
    if calls != [] {
      var (env, call) := calls[0];
      StepKeepsShort(s, env, call, side, horizon);
      hide Apply, Short;
      RunKeepsShort(Apply(s, env, call), calls[1..], side, horizon);
    }
  }

  /**
   What becomes of a pair that has executed a block once too often: once its last order has expired, no call that
   executes to a block at or past that expiry ever succeeds again, whatever calls are made.
   */
  lemma ShortfallStopsThePair(s: PairState, calls: seq<(Env, Call)>, side: Side, horizon: nat, env: Env, call: Call)
    requires Short(s.book, side, horizon) && forall i :: 0 <= i < |calls| ==> horizon <= calls[i].0.now
    ensures Target(env, call).Some? && horizon <= Target(env, call).value ==> Step(Run(s, calls), env, call).None?
  {
    RunKeepsShort(s, calls, side, horizon);
    hide Run, OrdersState.ExecuteUntil, Step;
    var end := Run(s, calls);
    if Target(env, call).Some? && horizon <= Target(env, call).value && Step(end, env, call).Some? {
      StepExecutesFirst(end, env, call);
      ShortPoolStopsExecution(end.book, side, horizon, Target(env, call).value, env.now);
    }
  }
}
