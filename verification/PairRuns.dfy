/** What holds of a pair after any run of calls, and when a call is bound to succeed. */
module PairRuns {
  import opened Basics
  import opened FixedPoint
  import opened Pricing
  import opened Liquidity
  import opened OrderPools
  import opened OrderPoolLedger
  import opened Execution
  import opened Solvency
  import opened ExpiryIndex
  import opened Orders
  import opened IndexRefinement
  import opened OrderInvariants
  import opened PairOperations
  import opened PairInvariants
  import opened EveryRun
  import opened SalesLaws
  import opened SellSide
  import opened Sums

  // When a call succeeds ------------------------------------------------------------------------------------

  predicate CanExecute(s: PairState, block: nat, now: nat) {
    0 < s.supply && s.book.core.last <= block <= now
  }

  /** The orders once every stop up to `now` has been made, found by looking at every block. */
  ghost function Executed(s: PairState, now: nat): OrdersState
    requires PairInvariant(s) && CanExecute(s, now, now) && Clean(s.book.core, now)
  {
    ScanKeepsInvariant(s.book.core, s.book.held, s.book.nextId, s.book.core.last + 1, now);
    s.book.(core := s.book.core.Scan(s.book.core.last + 1, now).value, index := Processed(s.book, now))
  }

  /**
   What a caller has to meet, and all of it: no subtraction, division or transfer inside the pair can make an
   admissible call revert.
   */
  ghost predicate Acceptable(s: PairState, env: Env, call: Call)
    requires PairInvariant(s) && Admissible(s, env, call)
  {
    match call
    case InitialLiquidity(amountA, amountB) => s.supply == 0 && 0 < amountA && 0 < amountB
    case AddLiquidity(shares) => CanExecute(s, env.now, env.now) && 0 < shares
    case TakeLiquidity(shares, balance) =>
      CanExecute(s, env.now, env.now) && 0 < shares < s.supply && shares <= balance
    case Swap(_, amountIn) => CanExecute(s, env.now, env.now) && 0 < amountIn
    case PlaceOrder(_, _, amount, _) => CanExecute(s, env.now, env.now) && 0 < amount
    case CancelOrder(sender, id) =>
      CanExecute(s, env.now, env.now) &&
      var e := Executed(s, env.now);
      && e.OpenFor(id, sender) && env.now < e.orders[id].expirationBlock && 0 < e.Unsold(id) + e.Claimable(id)
    case ClaimProceeds(sender, id) =>
      CanExecute(s, env.now, env.now) &&
      var e := Executed(s, env.now);
      e.OpenFor(id, sender) && 0 < e.Claimable(id)
    case Execute(block) => CanExecute(s, block, env.now)
    case Donate(_, _) => true
  }

  lemma ExecutedIs(s: PairState, now: nat)
    requires PairInvariant(s) && Clean(s.book.core, now) && CanExecute(s, now, now)
    ensures s.ExecuteVirtualOrders(now, now) == Some(s.(book := Executed(s, now)))
    ensures var e := s.(book := Executed(s, now));
      PairInvariant(e) && ProductKept(s.book.core, e.book.core) && e.book.core.last == now
  {
    hide OrdersInvariant, CoreState.Scan, CoreState.Drive, Processed, ProductKept, OrdersState.ExecuteUntil;
    ExecuteKeepsInvariant(s, now, now);
    ExecuteUntilKeepsInvariant(s.book, now, now);
  }

  // Steps ---------------------------------------------------------------------------------------------------

  /** A call succeeds exactly when it is acceptable, and then keeps the invariant. */
  ghost predicate StepSucceeds(s: PairState, env: Env, call: Call)
    requires PairInvariant(s) && Admissible(s, env, call)
  {
    var r := Step(s, env, call);
    && (r.Some? <==> Acceptable(s, env, call))
    && (r.Some? ==> PairInvariant(r.value) && (0 < s.supply ==> 0 < r.value.supply))
  }

  lemma ExecuteStep(s: PairState, env: Env, block: nat)
    requires PairInvariant(s) && Admissible(s, env, Execute(block))
    ensures StepSucceeds(s, env, Execute(block))
  {
    ExecuteKeepsInvariant(s, block, env.now);
  }

  lemma CancelStep(s: PairState, env: Env, sender: nat, id: nat)
    requires PairInvariant(s) && Admissible(s, env, CancelOrder(sender, id))
    ensures StepSucceeds(s, env, CancelOrder(sender, id))
  {
    hide OrdersInvariant, OrdersState.ExecuteUntil, OrdersState.CancelExecuted, OrdersState.Unsold;
    hide OrdersState.Claimable, Executed;
    ExecuteKeepsInvariant(s, env.now, env.now);
    if CanExecute(s, env.now, env.now) {
      ExecutedIs(s, env.now);
      var e := Executed(s, env.now);
      CancelExecutedKeepsInvariant(e, sender, id);
    }
  }

  lemma ClaimStep(s: PairState, env: Env, sender: nat, id: nat)
    requires PairInvariant(s) && Admissible(s, env, ClaimProceeds(sender, id))
    ensures StepSucceeds(s, env, ClaimProceeds(sender, id))
  {
    hide OrdersInvariant, OrdersState.ExecuteUntil, OrdersState.WithdrawExecuted;
    hide OrdersState.Claimable, Executed;
    ExecuteKeepsInvariant(s, env.now, env.now);
    if CanExecute(s, env.now, env.now) {
      ExecutedIs(s, env.now);
      WithdrawExecutedKeepsInvariant(Executed(s, env.now), sender, id);
    }
  }

  lemma SwapStep(s: PairState, env: Env, sell: Side, amountIn: nat)
    requires PairInvariant(s) && Admissible(s, env, Swap(sell, amountIn))
    ensures StepSucceeds(s, env, Swap(sell, amountIn))
  {
    hide OrdersInvariant, OrdersState.ExecuteUntil, PairState.ExecuteVirtualOrders, PairState.SwapExecuted;
    hide SwapOut, Net;
    ExecuteKeepsInvariant(s, env.now, env.now);
    ExecuteIgnoresReceipts(s, sell, amountIn, env.now);
    if CanExecute(s, env.now, env.now) && 0 < amountIn {
      var e := s.ExecuteVirtualOrders(env.now, env.now).value;
      var funded := e.Receive(sell, amountIn);
      assert funded.(book := funded.book.(held := e.book.held)) == e;
      SwapKeepsInvariant(funded, e.book.held, sell, amountIn);
    }
  }

  lemma PlaceStep(s: PairState, env: Env, sell: Side, sender: nat, amount: nat, intervals: nat)
    requires PairInvariant(s) && Admissible(s, env, PlaceOrder(sell, sender, amount, intervals))
    ensures StepSucceeds(s, env, PlaceOrder(sell, sender, amount, intervals))
  {
    hide OrdersInvariant, OrdersState.PerformLongTermSwap;
    if 0 < s.supply && 0 < amount {
      var funded := s.Receive(sell, amount);
      assert funded.book.(held := s.book.held) == s.book;
      LongTermSwapKeepsInvariant(funded.book, s.book.held, sell, sender, amount, intervals, env.now);
    }
  }

  lemma AddStep(s: PairState, env: Env, shares: nat)
    requires PairInvariant(s) && Admissible(s, env, AddLiquidity(shares))
    ensures StepSucceeds(s, env, AddLiquidity(shares))
  {
    hide OrdersInvariant, PairState.ExecuteVirtualOrders, PairState.ProvideExecuted;
    ExecuteKeepsInvariant(s, env.now, env.now);
    if CanExecute(s, env.now, env.now) {
      ProvideKeepsInvariant(s.ExecuteVirtualOrders(env.now, env.now).value, shares, env);
    }
  }

  lemma TakeStep(s: PairState, env: Env, shares: nat, balance: nat)
    requires PairInvariant(s) && Admissible(s, env, TakeLiquidity(shares, balance))
    ensures StepSucceeds(s, env, TakeLiquidity(shares, balance))
  {
    hide OrdersInvariant, PairState.ExecuteVirtualOrders, PairState.RemoveExecuted;
    ExecuteKeepsInvariant(s, env.now, env.now);
    if CanExecute(s, env.now, env.now) {
      var e := s.ExecuteVirtualOrders(env.now, env.now).value;
      RemoveKeepsInvariant(e, shares, balance, env);
    }
  }

  lemma InitialStep(s: PairState, env: Env, amountA: nat, amountB: nat)
    requires PairInvariant(s) && Admissible(s, env, InitialLiquidity(amountA, amountB))
    ensures StepSucceeds(s, env, InitialLiquidity(amountA, amountB))
  {
    hide OrdersInvariant, PairState.ProvideInitialLiquidity;
    ProvideInitialKeepsInvariant(s, amountA, amountB, env);
  }

  lemma DonateStep(s: PairState, env: Env, token: Side, amount: nat)
    requires PairInvariant(s)
    ensures StepSucceeds(s, env, Donate(token, amount))
  {
    hide OrdersInvariant;
    ReceiveKeepsInvariant(s, token, amount);
  }

  /**
   Every admissible call keeps the invariant and succeeds exactly when what it asks of its caller is met. Unless it
   changes liquidity it never lowers the product of the reserves, and unless it mints shares it keeps the value of a
   share while no fee is taken.
   */
  lemma StepKeepsInvariant(s: PairState, env: Env, call: Call)
    requires PairInvariant(s) && Admissible(s, env, call)
    ensures StepSucceeds(s, env, call)
    ensures Step(s, env, call).Some? && !ChangesLiquidity(call) ==> KeepsProduct(s, Step(s, env, call).value)
    ensures Step(s, env, call).Some? && 0 < s.supply && !env.feeOn && !call.AddLiquidity? ==>
      KeepsShareValue(s, Step(s, env, call).value)
  {
    hide PairInvariant, StepSucceeds, Step, KeepsProduct, KeepsShareValue;
    if !ChangesLiquidity(call) {
      StepKeepsProduct(s, env, call);
    }
    if 0 < s.supply && !env.feeOn && !call.AddLiquidity? {
      StepKeepsShareValue(s, env, call);
    }
    match call
    case InitialLiquidity(amountA, amountB) => InitialStep(s, env, amountA, amountB);
    case AddLiquidity(shares) => AddStep(s, env, shares);
    case TakeLiquidity(shares, balance) => TakeStep(s, env, shares, balance);
    case Swap(sell, amountIn) => SwapStep(s, env, sell, amountIn);
    case PlaceOrder(sell, sender, amount, intervals) => PlaceStep(s, env, sell, sender, amount, intervals);
    case CancelOrder(sender, id) => CancelStep(s, env, sender, id);
    case ClaimProceeds(sender, id) => ClaimStep(s, env, sender, id);
    case Execute(block) => ExecuteStep(s, env, block);
    case Donate(token, amount) => DonateStep(s, env, token, amount);
  }

  // Whole runs ----------------------------------------------------------------------------------------------

  lemma {:induction false} RunKeepsInvariant(s: PairState, calls: seq<(Env, Call)>)
    requires PairInvariant(s) && AdmissibleRun(s, calls)
    ensures PairInvariant(Run(s, calls))
    ensures 0 < s.supply ==> 0 < Run(s, calls).supply && Run(s, calls).book.core.Ready()
    decreases |calls|
  {
    if calls != [] {
      var (env, call) := calls[0];
      if Step(s, env, call).Some? {
        StepKeepsInvariant(s, env, call);
      }
      hide OrdersInvariant, Step, Acceptable;
      RunKeepsInvariant(Apply(s, env, call), calls[1..]);
    }
  }

  function WholeUnits(s: seq<int>, scale: int): seq<int>
    requires 0 < scale
  {
    seq(|s|, i requires 0 <= i < |s| => s[i] / scale)
  }

  /** Whole tokens the orders of pool `side` have yet to sell. */
  ghost function UnsoldTokens(s: OrdersState, side: Side): int {
    Sum(WholeUnits(Obligations(s.core.pools.At(side), s.core.last, s.nextId), RATE_SCALE))
  }

  /** Whole tokens the orders of pool `side` could claim now, paid in the other token. */
  ghost function ClaimableTokens(s: OrdersState, side: Side): int {
    Sum(WholeUnits(Owed(s.core.pools.At(side), s.core.last, s.nextId), REWARD_SCALE))
  }

  ghost predicate Solvent(s: OrdersState) {
    forall side: Side ::
      s.core.reserves.At(side) + UnsoldTokens(s, side) + ClaimableTokens(s, side.Other()) <= s.held.At(side)
  }

  lemma PoolClaimsWithinTotals(p: PoolState, k: Books, last: nat, n: nat)
    requires PoolSound(p, k, last, n)
    ensures Sum(WholeUnits(Obligations(p, last, n), RATE_SCALE)) <= k.deposited - k.sold - k.refunded
    ensures Sum(WholeUnits(Owed(p, last, n), REWARD_SCALE)) <= k.paidIn - k.paidOut
  {
    var unsold, owed := Obligations(p, last, n), Owed(p, last, n);
    SumOfFloors(unsold, RATE_SCALE, WholeUnits(unsold, RATE_SCALE));
    SumOfFloors(owed, REWARD_SCALE, WholeUnits(owed, REWARD_SCALE));
    hide Sum, Sound, WholeUnits, Obligations, Owed;
  }

  lemma InvariantIsSolvent(s: OrdersState)
    requires OrdersInvariant(s)
    ensures Solvent(s)
  {
    PoolClaimsWithinTotals(s.core.pools.a, s.core.books.a, s.core.last, s.nextId);
    PoolClaimsWithinTotals(s.core.pools.b, s.core.books.b, s.core.last, s.nextId);
    hide PoolSound, Sum, WholeUnits;
    forall side: Side
      ensures s.core.reserves.At(side) + UnsoldTokens(s, side) + ClaimableTokens(s, side.Other()) <= s.held.At(side)
    {
      assert Backed(s.core, s.held, A) && Backed(s.core, s.held, B);
    }
  }

  /**
   Solvency: in every state an admissible run reaches, the balance of each token covers its reserve, everything the
   orders selling it have yet to sell, and everything the other orders could claim in it.
   */
  lemma RunsAreSolvent(s: PairState, calls: seq<(Env, Call)>)
    requires PairInvariant(s) && AdmissibleRun(s, calls)
    ensures Solvent(Run(s, calls).book)
  {
    RunKeepsInvariant(s, calls);
    InvariantIsSolvent(Run(s, calls).book);
  }

  lemma SoundIsBooked(p: PoolState, last: nat, n: nat)
    requires Sound(p, last, n)
    ensures Booked(p, last, n) && p.currentSalesRate == Sum(LiveRates(p, last, n))
  {
    assert p.(currentSalesRate := p.currentSalesRate + 0) == p;
    BookedByAccounts(p, last, n, 0);
    hide Sum, LiveRates, RatesEndingAt;
  }

  /** A pair in the invariant has its books in order. */
  lemma InvariantIsInOrder(s: OrdersState)
    requires OrdersInvariant(s)
    ensures BooksInOrder(s) && RatesAgree(s)
  {
    SoundIsBooked(s.core.pools.a, s.core.last, s.nextId);
    SoundIsBooked(s.core.pools.b, s.core.last, s.nextId);
    hide Sound, Booked, Escrowed, Covered, Sum, LiveRates, Indexed, Tables;
  }

  /**
   The ledgers behind solvency. After any run, what each pool sold, refunded and has yet to sell stays within what was
   deposited; after an admissible one, its lumped rate is the sum of the rates of its live orders, and what it paid
   out and still owes stays within what came in.
   */
  lemma RunsBalanceTheirBooks(s: PairState, calls: seq<(Env, Call)>, side: Side)
    requires PairInvariant(s)
    ensures var end := Run(s, calls).book;
      var p, k := end.core.pools.At(side), end.core.books.At(side);
      RATE_SCALE * (k.sold + k.refunded) + Sum(Obligations(p, end.core.last, end.nextId)) <= RATE_SCALE * k.deposited
    ensures AdmissibleRun(s, calls) ==>
      var end := Run(s, calls).book;
      var p, k := end.core.pools.At(side), end.core.books.At(side);
      && p.currentSalesRate == Sum(LiveRates(p, end.core.last, end.nextId))
      && REWARD_SCALE * k.paidOut + Sum(Owed(p, end.core.last, end.nextId)) <= REWARD_SCALE * k.paidIn
  {
    InvariantIsInOrder(s.book);
    RunsConserveSales(s, calls, side);
    if AdmissibleRun(s, calls) {
      RunKeepsInvariant(s, calls);
    }
    hide Sum, LiveRates, Obligations, Owed, Indexed, Tables, Marked, BooksInOrder;
  }

  /**
   In every state an admissible run reaches, there are horizons past the last expiry, and up to any of them what is
   recorded to end at the blocks to come is each pool's lumped rate: what retiring them subtracts brings it to zero.
   */
  lemma RunsRetireEveryRate(s: PairState, calls: seq<(Env, Call)>, side: Side)
    requires PairInvariant(s) && AdmissibleRun(s, calls)
    ensures var end := Run(s, calls).book;
      var p := end.core.pools.At(side);
      && (exists horizon: nat :: Horizon(p, end.core.last, horizon))
      && forall horizon: nat :: Horizon(p, end.core.last, horizon) ==>
           p.currentSalesRate == Sum(Endings(p, end.core.last, horizon))
  {
    RunKeepsInvariant(s, calls);
    hide Sum, LiveRates, Obligations, Owed, Indexed, Tables, Marked, Accounts, Horizon;
    var end := Run(s, calls).book;
    LumpedRateEndsEventually(end.core.pools.At(side), end.core.last, end.nextId);
  }

  /** A pair is in the invariant when it is deployed, so all of this holds of the runs from there. */
  lemma RunsFromDeployment(block: nat, calls: seq<(Env, Call)>)
    ensures var end := Run(Deployed(block), calls);
      && Funded(end) && IndexInOrder(end.book) && BooksInOrder(end.book)
      && (RatesAgree(end.book) <==> AdmissibleRun(Deployed(block), calls))
      && (AdmissibleRun(Deployed(block), calls) ==> PairInvariant(end) && Solvent(end.book))
  {
    hide AdmissibleRun, Run, Solvent, BooksInOrder, RatesAgree;
    DeployedInvariant(block);
    InvariantIsInOrder(Deployed(block).book);
    RunStaysFunded(Deployed(block), calls);
    RunsKeepIndexComplete(Deployed(block), calls);
    RunKeepsBooks(Deployed(block), calls);
    RunKeepsRatesIff(Deployed(block), calls);
    if AdmissibleRun(Deployed(block), calls) {
      RunKeepsInvariant(Deployed(block), calls);
      RunsAreSolvent(Deployed(block), calls);
    }
  }

  // Closed orders -------------------------------------------------------------------------------------------

  /** No call reopens a closed order, and ids are never handed out twice. */
  ghost predicate ClosedStaysClosed(s: OrdersState, next: OrdersState) {
    s.nextId <= next.nextId && forall id: nat :: id < s.nextId && !s.Active(id) ==> !next.Active(id)
  }

  lemma ClosedStaysClosedChains(s: OrdersState, t: OrdersState, u: OrdersState)
    requires ClosedStaysClosed(s, t) && ClosedStaysClosed(t, u)
    ensures ClosedStaysClosed(s, u)
  {
  }

  lemma ExecutionClosesNothing(s: OrdersState, block: nat, now: nat)
    ensures s.ExecuteUntil(block, now).Some? ==> var next := s.ExecuteUntil(block, now).value;
      next.nextId == s.nextId && next.status == s.status
  {
  }

  lemma CancelOnlyCloses(s: OrdersState, sender: nat, id: nat, now: nat)
    ensures s.CancelExecuted(sender, id, now).Some? ==> var next := s.CancelExecuted(sender, id, now).value.0;
      next.nextId == s.nextId && next.status == s.status[id := false]
  {
    hide Claim, Tokens;
  }

  lemma WithdrawOnlyCloses(s: OrdersState, sender: nat, id: nat, now: nat)
    ensures s.WithdrawExecuted(sender, id, now).Some? ==> var next := s.WithdrawExecuted(sender, id, now).value.0;
      next.nextId == s.nextId && (next.status == s.status || next.status == s.status[id := false])
  {
    hide Claim, Tokens;
  }

  lemma OrderCallReopensNothing(s: PairState, env: Env, call: Call)
    requires call.PlaceOrder? || call.CancelOrder? || call.ClaimProceeds?
    ensures ClosedStaysClosed(s.book, Apply(s, env, call).book)
  {
    hide OrdersState.ExecuteUntil, OrdersState.CancelExecuted, OrdersState.WithdrawExecuted, RateOver;
    hide IndexState.Insert, PoolState.Deposit;
    match call
    case PlaceOrder(sell, sender, amount, intervals) =>
      var book := s.Receive(sell, amount).book;
      ExecutionClosesNothing(book.(index := book.index.Insert(book.OrderExpiry(intervals, env.now))), env.now, env.now);
    case CancelOrder(sender, id) =>
      ExecutionClosesNothing(s.book, env.now, env.now);
      var e := s.book.ExecuteUntil(env.now, env.now);
      if e.Some? {
        CancelOnlyCloses(e.value, sender, id, env.now);
      }
    case ClaimProceeds(sender, id) =>
      ExecutionClosesNothing(s.book, env.now, env.now);
      var e := s.book.ExecuteUntil(env.now, env.now);
      if e.Some? {
        WithdrawOnlyCloses(e.value, sender, id, env.now);
      }
  }

  lemma LiquidityKeepsStatus(s: PairState, env: Env, shares: nat, balance: nat)
    ensures s.ProvideExecuted(shares, env).Some? ==> var next := s.ProvideExecuted(shares, env).value.0;
      next.book.nextId == s.book.nextId && next.book.status == s.book.status
    ensures s.RemoveExecuted(shares, balance, env).Some? ==>
      var next := s.RemoveExecuted(shares, balance, env).value.0;
      next.book.nextId == s.book.nextId && next.book.status == s.book.status
  {
    hide RootK, FeeShares, Share;
  }

  /** The calls that do not concern orders leave their status alone. */
  lemma OtherCallKeepsStatus(s: PairState, env: Env, call: Call)
    requires !call.PlaceOrder? && !call.CancelOrder? && !call.ClaimProceeds?
    ensures Apply(s, env, call).book.nextId == s.book.nextId && Apply(s, env, call).book.status == s.book.status
  {
    hide OrdersState.ExecuteUntil, PairState.ProvideExecuted, PairState.RemoveExecuted, PairState.SwapExecuted;
    hide RootK, FeeShares, SwapOut, Net;
    ExecutionClosesNothing(s.book, env.now, env.now);
    match call
    case AddLiquidity(shares) =>
      var e := s.ExecuteVirtualOrders(env.now, env.now);
      if e.Some? {
        LiquidityKeepsStatus(e.value, env, shares, 0);
      }
    case TakeLiquidity(shares, balance) =>
      var e := s.ExecuteVirtualOrders(env.now, env.now);
      if e.Some? {
        LiquidityKeepsStatus(e.value, env, shares, balance);
      }
    case Swap(sell, amountIn) =>
      var funded := s.Receive(sell, amountIn);
      ExecutionClosesNothing(funded.book, env.now, env.now);
      var e := funded.ExecuteVirtualOrders(env.now, env.now);
      if e.Some? && 0 < amountIn {
        SwapKeepsStatus(e.value, sell, amountIn);
      }
    case Execute(block) =>
      ExecutionClosesNothing(s.book, block, env.now);
    case _ =>
  }

  lemma SwapKeepsStatus(s: PairState, sell: Side, amountIn: nat)
    requires 0 < amountIn
    ensures s.SwapExecuted(sell, amountIn).Some? ==> var next := s.SwapExecuted(sell, amountIn).value.0;
      next.book.nextId == s.book.nextId && next.book.status == s.book.status
  {
    hide SwapOut, Net;
  }

  lemma StepReopensNothing(s: PairState, env: Env, call: Call)
    ensures ClosedStaysClosed(s.book, Apply(s, env, call).book)
  {
    hide Apply;
    if call.PlaceOrder? || call.CancelOrder? || call.ClaimProceeds? {
      OrderCallReopensNothing(s, env, call);
    } else {
      OtherCallKeepsStatus(s, env, call);
    }
  }

  lemma {:induction false} RunReopensNothing(s: PairState, calls: seq<(Env, Call)>)
    ensures ClosedStaysClosed(s.book, Run(s, calls).book)
    decreases |calls|
  {
    if calls != [] {
      var (env, call) := calls[0];
      StepReopensNothing(s, env, call);
      hide Step;
      RunReopensNothing(Apply(s, env, call), calls[1..]);
      ClosedStaysClosedChains(s.book, Apply(s, env, call).book, Run(s, calls).book);
    }
  }

  /** An order that is closed is never paid again, whatever calls follow and whoever asks. */
  lemma ClosedOrdersAreNeverPaid(s: PairState, calls: seq<(Env, Call)>, id: nat, env: Env, sender: nat)
    requires id < s.book.nextId && !s.book.Active(id)
    ensures Step(Run(s, calls), env, CancelOrder(sender, id)).None?
    ensures Step(Run(s, calls), env, ClaimProceeds(sender, id)).None?
  {
    RunReopensNothing(s, calls);
    hide Run;
    ExecutionClosesNothing(Run(s, calls).book, env.now, env.now);
    hide OrdersState.ExecuteUntil, Claim, Tokens;
  }

  lemma FinalWithdrawCloses(s: OrdersState, sender: nat, id: nat, now: nat)
    requires id in s.orders && s.orders[id].expirationBlock <= now
    ensures s.WithdrawExecuted(sender, id, now).Some? ==> !s.WithdrawExecuted(sender, id, now).value.0.Active(id)
  {
    hide Claim, Tokens;
  }

  /** A cancel closes the order, and so does a claim made at or after its expiry. */
  lemma LastClaimCloses(s: PairState, env: Env, sender: nat, id: nat)
    requires id in s.book.orders
    ensures var r := Step(s, env, CancelOrder(sender, id)); r.Some? ==> !r.value.book.Active(id)
    ensures var r := Step(s, env, ClaimProceeds(sender, id));
      r.Some? && s.book.orders[id].expirationBlock <= env.now ==> !r.value.book.Active(id)
  {
    ExecutionClosesNothing(s.book, env.now, env.now);
    var e := s.book.ExecuteUntil(env.now, env.now);
    if e.Some? {
      assert e.value.orders == s.book.orders;
      hide OrdersState.ExecuteUntil, OrdersState.CancelExecuted, OrdersState.WithdrawExecuted;
      CancelOnlyCloses(e.value, sender, id, env.now);
      if s.book.orders[id].expirationBlock <= env.now {
        FinalWithdrawCloses(e.value, sender, id, env.now);
      }
    }
  }
}
