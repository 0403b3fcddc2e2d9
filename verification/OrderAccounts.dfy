/**
 The pools' part in a run of calls: each call acts on a pool as a stretch of events, so that the accuracy of the
 reward factor holds of what the pair has actually paid for each order.
 */
module OrderAccounts {
  import opened Basics
  import opened FixedPoint
  import opened Pricing
  import opened OrderPools
  import opened Distribution
  import opened Execution
  import opened Solvency
  import opened ExpiryIndex
  import opened Orders
  import opened IndexRefinement
  import opened OrderInvariants
  import opened PairOperations
  import opened ExecutionLaws
  import opened EveryRun
  import opened SalesLaws
  import opened SellSide

  // The events of a call ------------------------------------------------------------------------------------

  /** Trading up to `block` pays pool `side` what the other token's trade left after the fee. */
  function ExecutionEvents(c: CoreState, block: nat, side: Side): seq<Event>
    requires c.last <= block
  {
    if Tradable(c, block) then [Advanced(Net(TradeUpTo(c, block).out.At(side.Other())), block)] else []
  }

  function ScanEvents(c: CoreState, b: nat, block: nat, side: Side): seq<Event>
    requires c.last < b && c.last <= block
    decreases block - b
  {
    if block <= b then ExecutionEvents(c, block, side)
    else if c.EndsAt(b) then
      var next := c.ExecuteAt(b);
      ExecutionEvents(c, b, side) + if next.None? then [] else ScanEvents(next.value, b + 1, block, side)
    else ScanEvents(c, b + 1, block, side)
  }

  /** What a call does to pool `side` besides executing. */
  function OwnEvents(s: OrdersState, env: Env, call: Call, side: Side): seq<Event> {
    match call
    case PlaceOrder(sell, _, amount, intervals) =>
      if sell != side then []
      else [Deposited(s.nextId, s.SellingRate(amount, intervals, env.now), s.OrderExpiry(intervals, env.now))]
    case CancelOrder(_, id) =>
      if id in s.orders && s.orders[id].sellToken == side then [Cancelled(id)] else []
    case ClaimProceeds(_, id) =>
      if id in s.orders && s.orders[id].sellToken == side then [Withdrawn(id)] else []
    case _ => []
  }

  function StepEvents(s: PairState, env: Env, call: Call, side: Side): seq<Event> {
    var target := Target(env, call);
    if Step(s, env, call).None? then []
    else if target.None? || target.value < s.book.core.last then OwnEvents(s.book, env, call, side)
    else
      ScanEvents(s.book.core, s.book.core.last + 1, target.value, side) + OwnEvents(s.book, env, call, side)
  }

  function RunEvents(s: PairState, calls: seq<(Env, Call)>, side: Side): seq<Event>
    decreases |calls|
  {
    if calls == [] then []
    else
      var (env, call) := calls[0];
      StepEvents(s, env, call, side) + RunEvents(Apply(s, env, call), calls[1..], side)
  }

  // An account kept along the way ---------------------------------------------------------------------------

  ghost predicate Follows(t: Account, c: CoreState, side: Side) {
    t.pool == c.pools.At(side) && t.last == c.last
  }

  /** The account is that of order `id` of the pair: same pool, same block, and the payments entered for it. */
  ghost predicate Entered(s: OrdersState, t: Account, id: nat, side: Side) {
    && Follows(t, s.core, side) && id < s.nextId && id in s.orders
    && s.orders[id].sellToken == side && s.orders[id].buyAmount == t.paid
  }

  /** Execution has to stop where a live order ends. */
  ghost predicate StopsFor(c: CoreState, t: Account, id: nat) {
    Live(t, id) ==> c.EndsAt(t.pool.Expiry(id))
  }

  lemma LiveOrdersStopExecution(c: CoreState, t: Account, id: nat, side: Side, n: nat)
    requires Follows(t, c, side) && Booked(t.pool, t.last, n) && (t.pool.Rate(id) == 0 ==> !Live(t, id))
    ensures StopsFor(c, t, id)
  {
    if Live(t, id) {
      RateIsRecorded(t.pool, t.last, n, id);
    }
  }

  lemma ExecutionIsEvent(c: CoreState, block: nat, side: Side, t: Account, id: nat)
    requires c.last <= block && c.ExecuteAt(block).Some? && Follows(t, c, side)
    requires !(t.last < t.pool.Expiry(id) < block)
    ensures var r := After(t, id, ExecutionEvents(c, block, side));
      && r.Some? && Follows(r.value, c.ExecuteAt(block).value, side) && r.value.paid == t.paid
      && r.value.pool.Expiry(id) == t.pool.Expiry(id)
  {
    assert Tradable(c, block);
    ExecuteAtByPools(c, block);
    var amount := Net(TradeUpTo(c, block).out.At(side.Other()));
    if block == c.last {
      StandingStillPaysNothing(c, block);
    }
    hide CoreState.ExecuteAt, TradeUpTo, Net, PoolState.Advance, PerRate;
    AfterOne(t, id, Advanced(amount, block));
    hide After;
    var next := Next(t, id, Advanced(amount, block));
    AdvanceMoves(t, id, amount, block);
  }

  lemma {:induction false} ScanIsEvents(c: CoreState, b: nat, block: nat, side: Side, t: Account, id: nat)
    requires c.last < b && c.last <= block && Follows(t, c, side) && StopsFor(c, t, id)
    requires forall k: nat :: c.last < k < b ==> !c.EndsAt(k)
    ensures c.Scan(b, block).Some? ==>
      var r := After(t, id, ScanEvents(c, b, block, side));
      r.Some? && Follows(r.value, c.Scan(b, block).value, side) && r.value.paid == t.paid
    decreases block - b
  {
    hide CoreState.ExecuteAt, CoreState.EndsAt, After, ExecutionEvents;
    if c.Scan(b, block).None? {
    } else if block <= b {
      ExecutionIsEvent(c, block, side, t, id);
    } else if c.EndsAt(b) {
      ExecutionIsEvent(c, b, side, t, id);
      ExecuteKeepsEndings(c, b);
      var next, u := c.ExecuteAt(b).value, After(t, id, ExecutionEvents(c, b, side)).value;
      ScanIsEvents(next, b + 1, block, side, u, id);
      AfterConcat(t, id, ExecutionEvents(c, b, side), ScanEvents(next, b + 1, block, side));
    } else {
      ScanIsEvents(c, b + 1, block, side, t, id);
    }
  }

  /** Execution in the pair is the scan's events. */
  lemma ExecutingIsEvents(s: OrdersState, block: nat, now: nat, side: Side, t: Account, id: nat)
    requires Indexed(s) && s.core.last <= block <= now && s.ExecuteUntil(block, now).Some?
    requires Entered(s, t, id, side) && StopsFor(s.core, t, id)
    ensures var r := After(t, id, ScanEvents(s.core, s.core.last + 1, block, side));
      r.Some? && Entered(s.ExecuteUntil(block, now).value, r.value, id, side)
  {
    hide Indexed, StopsFor, After, CoreState.Scan, ScanEvents, OrdersState.ExecuteUntil;
    FirstLeg(s, block, now);
    ExecutionKeepsOrders(s, block, now);
    ScanIsEvents(s.core, s.core.last + 1, block, side, t, id);
  }

  // What follows execution ----------------------------------------------------------------------------------

  lemma TokensMovedKeepsEntered(s: OrdersState, next: OrdersState, t: Account, id: nat, side: Side)
    requires Entered(s, t, id, side) && TokensMoved(s, next)
    ensures Entered(next, t, id, side)
  {
  }

  lemma DepositIsEvent(s: OrdersState, env: Env, call: Call, t: Account, id: nat, side: Side)
    requires call.PlaceOrder? && Entered(s, t, id, side)
    ensures var placed := s.AddOrder(call.sell, call.sender, call.amount,
                                     s.SellingRate(call.amount, call.intervals, env.now),
                                     s.OrderExpiry(call.intervals, env.now), env.now);
      var r := After(t, id, OwnEvents(s, env, call, side));
      r.Some? && Entered(placed, r.value, id, side)
  {
    hide RateOver, PoolState.Deposit;
    assert After(t, id, []) == Some(t);
    hide After;
    if call.sell == side {
      AfterOne(t, id, OwnEvents(s, env, call, side)[0]);
    }
  }

  lemma CancelIsEvent(s: OrdersState, env: Env, call: Call, t: Account, id: nat, side: Side)
    requires call.CancelOrder? && Entered(s, t, id, side) && env.now == s.core.last
    requires s.CancelExecuted(call.sender, call.id, env.now).Some?
    ensures var r := After(t, id, OwnEvents(s, env, call, side));
      r.Some? && Entered(s.CancelExecuted(call.sender, call.id, env.now).value.0, r.value, id, side)
  {
    hide PoolState.Cancel, Tokens, IndexState.Delete;
    assert After(t, id, []) == Some(t);
    hide After;
    if s.orders[call.id].sellToken == side {
      AfterOne(t, id, Cancelled(call.id));
    }
  }

  lemma WithdrawIsEvent(s: OrdersState, env: Env, call: Call, t: Account, id: nat, side: Side)
    requires call.ClaimProceeds? && Entered(s, t, id, side) && env.now == s.core.last
    requires s.WithdrawExecuted(call.sender, call.id, env.now).Some?
    ensures var r := After(t, id, OwnEvents(s, env, call, side));
      r.Some? && Entered(s.WithdrawExecuted(call.sender, call.id, env.now).value.0, r.value, id, side)
  {
    hide PoolState.Withdraw, Tokens;
    assert After(t, id, []) == Some(t);
    hide After;
    if s.orders[call.id].sellToken == side {
      AfterOne(t, id, Withdrawn(call.id));
    }
  }

  // Steps and runs ------------------------------------------------------------------------------------------

  /** The whole of a call: execution first, then what the call itself does. */
  ghost predicate StepFollowed(s: PairState, env: Env, call: Call, t: Account, id: nat, side: Side) {
    var r := After(t, id, StepEvents(s, env, call, side));
    r.Some? && Entered(Apply(s, env, call).book, r.value, id, side)
  }

  lemma NothingHappens(t: Account, id: nat)
    ensures After(t, id, []) == Some(t)
  {
  }

  /** Where `own` events follow those of execution. */
  lemma Followed(s: PairState, env: Env, call: Call, t: Account, u: Account, id: nat, side: Side)
    requires Step(s, env, call).Some? && Target(env, call).Some? && s.book.core.last <= Target(env, call).value
    requires After(t, id, ScanEvents(s.book.core, s.book.core.last + 1, Target(env, call).value, side)) == Some(u)
    requires var r := After(u, id, OwnEvents(s.book, env, call, side));
      r.Some? && Entered(Step(s, env, call).value.book, r.value, id, side)
    ensures StepFollowed(s, env, call, t, id, side)
  {
    hide After, ScanEvents, OwnEvents, Step, Entered;
    AfterConcat(t, id, ScanEvents(s.book.core, s.book.core.last + 1, Target(env, call).value, side),
                OwnEvents(s.book, env, call, side));
  }

  /** Execution of the pair is execution of its books. */
  lemma ExecutesBooks(s: PairState, block: nat, now: nat)
    requires BooksInOrder(s.book) && s.ExecuteVirtualOrders(block, now).Some?
    ensures Indexed(s.book) && s.book.core.last <= block <= now && s.book.ExecuteUntil(block, now).Some?
    ensures s.ExecuteVirtualOrders(block, now) == Some(s.(book := s.book.ExecuteUntil(block, now).value))
  {
    BooksAreIndexed(s.book);
    hide CoreState.Drive, IndexState.Process, BooksInOrder, Indexed;
  }

  /** Calls that move tokens only, after execution. */
  lemma TokenStepFollowed(s: PairState, env: Env, call: Call, block: nat, t: Account, id: nat, side: Side)
    requires BooksInOrder(s.book) && Entered(s.book, t, id, side) && StopsFor(s.book.core, t, id)
    requires Step(s, env, call).Some? && Target(env, call) == Some(block)
    requires !call.PlaceOrder? && !call.CancelOrder? && !call.ClaimProceeds?
    requires s.ExecuteVirtualOrders(block, env.now).Some?
    requires TokensMoved(s.ExecuteVirtualOrders(block, env.now).value.book, Step(s, env, call).value.book)
    ensures StepFollowed(s, env, call, t, id, side)
  {
    hide OrdersState.ExecuteUntil, StopsFor, Step, After, ScanEvents, Entered, BooksInOrder, StepFollowed;
    ExecutesBooks(s, block, env.now);
    var e := s.book.ExecuteUntil(block, env.now).value;
    ExecutingIsEvents(s.book, block, env.now, side, t, id);
    var u := After(t, id, ScanEvents(s.book.core, s.book.core.last + 1, block, side)).value;
    NothingHappens(u, id);
    TokensMovedKeepsEntered(e, Step(s, env, call).value.book, u, id, side);
    Followed(s, env, call, t, u, id, side);
  }

  lemma LiquidityStepFollowed(s: PairState, env: Env, call: Call, t: Account, id: nat, side: Side)
    requires BooksInOrder(s.book) && Entered(s.book, t, id, side) && StopsFor(s.book.core, t, id)
    requires Step(s, env, call).Some? && (call.AddLiquidity? || call.TakeLiquidity?)
    ensures StepFollowed(s, env, call, t, id, side)
  {
    hide OrdersState.ExecuteUntil, PairState.ProvideExecuted, PairState.RemoveExecuted, StepFollowed, StopsFor;
    hide BooksInOrder, Entered;
    var e := s.ExecuteVirtualOrders(env.now, env.now).value;
    match call {
      case AddLiquidity(shares) =>
        LiquidityOnlyMovesTokens(e, Two(0, 0), shares, 0, env);
      case TakeLiquidity(shares, balance) =>
        LiquidityOnlyMovesTokens(e, Two(0, 0), shares, balance, env);
    }
    TokenStepFollowed(s, env, call, env.now, t, id, side);
  }

  lemma SwapStepFollowed(s: PairState, env: Env, call: Call, t: Account, id: nat, side: Side)
    requires BooksInOrder(s.book) && Entered(s.book, t, id, side) && StopsFor(s.book.core, t, id)
    requires Step(s, env, call).Some? && call.Swap?
    ensures StepFollowed(s, env, call, t, id, side)
  {
    hide OrdersState.ExecuteUntil, PairState.SwapExecuted, StepFollowed, StopsFor;
    hide BooksInOrder, Entered;
    ExecuteIgnoresReceipts(s, call.sell, call.amountIn, env.now);
    hide PairState.ExecuteVirtualOrders;
    var e := s.Receive(call.sell, call.amountIn).ExecuteVirtualOrders(env.now, env.now).value;
    SwapOnlyMovesTokens(e, call.sell, call.amountIn);
    TokenStepFollowed(s, env, call, env.now, t, id, side);
  }

  /** The books as a placement executes them: its tokens received and its expiry in the index. */
  function ReadyToPlace(s: PairState, env: Env, call: Call): OrdersState
    requires call.PlaceOrder?
  {
    var book := s.Receive(call.sell, call.amount).book;
    book.(index := book.index.Insert(book.OrderExpiry(call.intervals, env.now)))
  }

  /** What a placement is: an execution and an order. */
  lemma PlacementIs(s: PairState, env: Env, call: Call)
    requires call.PlaceOrder? && Step(s, env, call).Some?
    ensures var e := ReadyToPlace(s, env, call).ExecuteUntil(env.now, env.now);
      && e.Some? && s.book.core.last <= env.now && e.value.core.last == env.now
      && Step(s, env, call).value.book
      == e.value.AddOrder(call.sell, call.sender, call.amount,
                          e.value.SellingRate(call.amount, call.intervals, env.now),
                          e.value.OrderExpiry(call.intervals, env.now), env.now)
  {
    hide OrdersState.ExecuteUntil, OrdersState.AddOrder, IndexState.Insert, RateOver;
    if ReadyToPlace(s, env, call).ExecuteUntil(env.now, env.now).Some? {
      NotBehind(ReadyToPlace(s, env, call), env.now, env.now);
    }
  }

  /** The execution before a placement is execution of the books as they were. */
  lemma PlacementExecutes(s: PairState, env: Env, call: Call, t: Account, id: nat, side: Side)
    requires call.PlaceOrder? && BooksInOrder(s.book) && Entered(s.book, t, id, side) && StopsFor(s.book.core, t, id)
    requires s.book.core.last <= env.now && ReadyToPlace(s, env, call).ExecuteUntil(env.now, env.now).Some?
    ensures var e := ReadyToPlace(s, env, call).ExecuteUntil(env.now, env.now).value;
      var r := After(t, id, ScanEvents(s.book.core, s.book.core.last + 1, env.now, side));
      r.Some? && Entered(e, r.value, id, side) && e.nextId == s.book.nextId && e.orders == s.book.orders
  {
    hide OrdersState.ExecuteUntil, StopsFor, After, ScanEvents, IndexState.Insert, Indexed, Entered;
    var book, ready := s.Receive(call.sell, call.amount).book, ReadyToPlace(s, env, call);
    BooksAreIndexed(s.book);
    hide BooksInOrder;
    IndexedIgnoresRest(s.book, book);
    InsertKeepsIndexed(book, book.OrderExpiry(call.intervals, env.now));
    EnteredIgnoresIndex(s.book, ready, t, id, side);
    ExecutingIsEvents(ready, env.now, env.now, side, t, id);
    ExecutionKeepsOrders(ready, env.now, env.now);
  }

  lemma PlaceStepFollowed(s: PairState, env: Env, call: Call, t: Account, id: nat, side: Side)
    requires BooksInOrder(s.book) && Entered(s.book, t, id, side) && StopsFor(s.book.core, t, id)
    requires Step(s, env, call).Some? && call.PlaceOrder?
    ensures StepFollowed(s, env, call, t, id, side)
  {
    hide OrdersState.ExecuteUntil, StopsFor, After, ScanEvents, OwnEvents, StepFollowed, BooksInOrder, Entered, Step;
    hide OrdersState.AddOrder, ReadyToPlace, OrdersState.SellingRate, OrdersState.OrderExpiry;
    PlacementIs(s, env, call);
    PlacementExecutes(s, env, call, t, id, side);
    var e := ReadyToPlace(s, env, call).ExecuteUntil(env.now, env.now).value;
    var u := After(t, id, ScanEvents(s.book.core, s.book.core.last + 1, env.now, side)).value;
    DepositIsEvent(e, env, call, u, id, side);
    OwnAfterExecution(s.book, e, env, call, side);
    Followed(s, env, call, t, u, id, side);
  }

  lemma EnteredIgnoresIndex(s: OrdersState, next: OrdersState, t: Account, id: nat, side: Side)
    requires Entered(s, t, id, side) && next == s.(index := next.index, held := next.held)
    ensures Entered(next, t, id, side)
  {
  }

  /** Execution changes neither ids nor orders, so a call does to the executed pools what it says. */
  lemma OwnAfterExecution(s: OrdersState, e: OrdersState, env: Env, call: Call, side: Side)
    requires e.nextId == s.nextId && e.orders == s.orders
    ensures OwnEvents(e, env, call, side) == OwnEvents(s, env, call, side)
  {
    hide RateOver;
  }

  lemma ClaimStepFollowed(s: PairState, env: Env, call: Call, t: Account, id: nat, side: Side)
    requires BooksInOrder(s.book) && Entered(s.book, t, id, side) && StopsFor(s.book.core, t, id)
    requires Step(s, env, call).Some? && (call.CancelOrder? || call.ClaimProceeds?)
    ensures StepFollowed(s, env, call, t, id, side)
  {
    hide OrdersState.ExecuteUntil, OrdersState.CancelExecuted, OrdersState.WithdrawExecuted;
    hide StopsFor, After, ScanEvents, OwnEvents, BooksInOrder, StepFollowed;
    ExecutesBooks(s, env.now, env.now);
    ExecutingIsEvents(s.book, env.now, env.now, side, t, id);
    ExecutionKeepsOrders(s.book, env.now, env.now);
    hide Entered, Indexed;
    var e := s.book.ExecuteUntil(env.now, env.now).value;
    var u := After(t, id, ScanEvents(s.book.core, s.book.core.last + 1, env.now, side)).value;
    OwnAfterExecution(s.book, e, env, call, side);
    if call.CancelOrder? {
      CancelIsEvent(e, env, call, u, id, side);
    } else {
      WithdrawIsEvent(e, env, call, u, id, side);
    }
    Followed(s, env, call, t, u, id, side);
  }

  lemma PlainStepFollowed(s: PairState, env: Env, call: Call, t: Account, id: nat, side: Side)
    requires Entered(s.book, t, id, side) && Step(s, env, call).Some? && (call.InitialLiquidity? || call.Donate?)
    ensures StepFollowed(s, env, call, t, id, side)
  {
    NothingHappens(t, id);
    if call.InitialLiquidity? {
      var funded := s.Receive(A, call.amountA).Receive(B, call.amountB);
      LiquidityOnlyMovesTokens(funded, Two(call.amountA, call.amountB), 0, 0, env);
    }
    hide After, PairState.ProvideInitialLiquidity;
  }

  lemma StepIsFollowed(s: PairState, env: Env, call: Call, t: Account, id: nat, side: Side)
    requires BooksInOrder(s.book) && Entered(s.book, t, id, side) && StopsFor(s.book.core, t, id)
    ensures StepFollowed(s, env, call, t, id, side)
  {
    if Step(s, env, call).None? {
      NothingHappens(t, id);
    } else {
      match call {
        case InitialLiquidity(_, _) => PlainStepFollowed(s, env, call, t, id, side);
        case Donate(_, _) => PlainStepFollowed(s, env, call, t, id, side);
        case AddLiquidity(_) => LiquidityStepFollowed(s, env, call, t, id, side);
        case TakeLiquidity(_, _) => LiquidityStepFollowed(s, env, call, t, id, side);
        case Swap(_, _) => SwapStepFollowed(s, env, call, t, id, side);
        case PlaceOrder(_, _, _, _) => PlaceStepFollowed(s, env, call, t, id, side);
        case CancelOrder(_, _) => ClaimStepFollowed(s, env, call, t, id, side);
        case ClaimProceeds(_, _) => ClaimStepFollowed(s, env, call, t, id, side);
        case Execute(block) => TokenStepFollowed(s, env, call, block, t, id, side);
      }
    }
    hide Step, BooksInOrder, Entered, StopsFor;
  }

  lemma TrackedStops(s: PairState, t: Account, id: nat, side: Side, from: nat, rate: nat, expiry: nat)
    requires BooksInOrder(s.book) && Entered(s.book, t, id, side) && Tracks(t, id, from, rate, expiry)
    ensures StopsFor(s.book.core, t, id)
  {
    hide Booked, Indexed, Tables, Escrowed, Accrued, Claim;
    LiveOrdersStopExecution(s.book.core, t, id, side, s.book.nextId);
  }

  /** Any run acts on an order's pool as its events say, and enters what it pays for the order. */
  lemma {:induction false} RunIsEvents(s: PairState, calls: seq<(Env, Call)>, side: Side, t: Account, id: nat,
                                       from: nat, rate: nat, expiry: nat)
    requires BooksInOrder(s.book) && Entered(s.book, t, id, side) && Tracks(t, id, from, rate, expiry) && 0 < rate
    ensures var r := After(t, id, RunEvents(s, calls, side));
      r.Some? && Entered(Run(s, calls).book, r.value, id, side)
    decreases |calls|
  {
    hide Step, After, StepEvents, Entered, Tracks, BooksInOrder, Widens;
    if calls == [] {
      NothingHappens(t, id);
    } else {
      var (env, call) := calls[0];
      TrackedStops(s, t, id, side, from, rate, expiry);
      StepIsFollowed(s, env, call, t, id, side);
      StepKeepsBooks(s, env, call);
      var next, u := Apply(s, env, call), After(t, id, StepEvents(s, env, call, side)).value;
      EventsTrack(t, id, from, rate, expiry, StepEvents(s, env, call, side));
      RunIsEvents(next, calls[1..], side, u, id, from, rate, expiry);
      AfterConcat(t, id, StepEvents(s, env, call, side), RunEvents(next, calls[1..], side));
    }
  }

  // What the pair pays for an order -------------------------------------------------------------------------

  /** The account of an order that has just been placed. */
  function NewAccount(s: OrdersState, id: nat, side: Side): Account {
    var p := s.core.pools.At(side);
    Account(p, s.core.last, 0, 0, p.Submitted(id), 0, 0.0)
  }

  /** Placing an order opens its account. */
  lemma PlacingOpens(s: PairState, env: Env, call: Call)
    requires call.PlaceOrder? && Step(s, env, call).Some?
    requires 0 < s.book.SellingRate(call.amount, call.intervals, env.now)
    ensures var placed, id := Step(s, env, call).value.book, s.book.nextId;
      var rate, expiry := s.book.SellingRate(call.amount, call.intervals, env.now),
                          s.book.OrderExpiry(call.intervals, env.now);
      var t := NewAccount(placed, id, call.sell);
      Entered(placed, t, id, call.sell) && Tracks(t, id, t.upTo, rate, expiry)
  {
    hide OrdersState.ExecuteUntil, IndexState.Insert, RateOver, Tracks;
    var book := s.Receive(call.sell, call.amount).book;
    var ready := book.(index := book.index.Insert(book.OrderExpiry(call.intervals, env.now)));
    ExecutionKeepsOrders(ready, env.now, env.now);
    var e := ready.ExecuteUntil(env.now, env.now).value;
    OpenedTracks(e.core.pools.At(call.sell), env.now, s.book.nextId,
                 s.book.SellingRate(call.amount, call.intervals, env.now),
                 s.book.OrderExpiry(call.intervals, env.now));
  }

  lemma ClosedHoldsNothing(s: OrdersState, id: nat, side: Side)
    requires BooksInOrder(s) && !s.Active(id)
    ensures s.core.pools.At(side).Rate(id) == 0
  {
    assert Owned(s, id, side);
    hide SellInvariant, Indexed;
  }

  /**
   After `calls`, what the pair has entered as bought for order `id` is what the events of its pool pay in the
   account opened in `placed`. That is pro rata, and a closed order has been settled.
   */
  ghost predicate PaidItsShare(placed: PairState, calls: seq<(Env, Call)>, id: nat, side: Side, rate: nat) {
    var r := After(NewAccount(placed.book, id, side), id, RunEvents(placed, calls, side));
    var end := Run(placed, calls).book;
    && r.Some? && id in end.orders && end.orders[id].buyAmount == r.value.paid
    && r.value.pool == end.core.pools.At(side)
    && PaidProRata(r.value, id, rate) && (!end.Active(id) ==> Settled(r.value, id))
  }

  /**
   The pair pays pro rata: after any run, what it has entered as bought for an order is what the events of its pool
   pay in that order's account. It never exceeds the order's exact share of the payments made while it was live, and
   once the order is closed it falls short by less than one unit a claim plus rate / REWARD_SCALE a payment.
   */
  lemma OrdersArePaidProRata(s: PairState, env: Env, call: Call, calls: seq<(Env, Call)>)
    requires BooksInOrder(s.book)
    ensures call.PlaceOrder? && Step(s, env, call).Some? ==>
      var rate := s.book.SellingRate(call.amount, call.intervals, env.now);
      0 < rate ==> PaidItsShare(Step(s, env, call).value, calls, s.book.nextId, call.sell, rate)
  {
    hide Step, After, RunEvents, BooksInOrder, Widens, Tracks, RateOver, Settled, PaidProRata;
    hide OrdersState.SellingRate, NewAccount;
    if call.PlaceOrder? && Step(s, env, call).Some? {
      var id, rate := s.book.nextId, s.book.SellingRate(call.amount, call.intervals, env.now);
      var expiry := s.book.OrderExpiry(call.intervals, env.now);
      if 0 < rate {
        StepKeepsBooks(s, env, call);
        PlacingOpens(s, env, call);
        var placed := Step(s, env, call).value;
        var t := NewAccount(placed.book, id, call.sell);
        RunIsEvents(placed, calls, call.sell, t, id, t.upTo, rate, expiry);
        RunKeepsBooks(placed, calls);
        EventsTrack(t, id, t.upTo, rate, expiry, RunEvents(placed, calls, call.sell));
        TracksIsAccurate(After(t, id, RunEvents(placed, calls, call.sell)).value, id, t.upTo, rate, expiry);
        var end := Run(placed, calls).book;
        if !end.Active(id) {
          ClosedHoldsNothing(end, id, call.sell);
        }
      }
    }
  }
}
