/**
 Why runs have to be admissible: a run from deployment in which a block where an order ends is executed twice, and
 what becomes of the ledger and of solvency.
 */
module RepeatedExpiry {
  import opened Basics
  import opened FixedPoint
  import opened Pricing
  import opened OrderPools
  import opened OrderPoolLedger
  import opened Execution
  import opened Solvency
  import opened ExpiryIndex
  import opened Orders
  import opened IndexRefinement
  import opened OrderInvariants
  import opened PairOperations
  import opened PairInvariants
  import opened ExecutionLaws
  import opened EveryRun
  import opened SalesLaws
  import opened PairRuns
  import opened Sums

  const M: nat := 1_000_000

  function At(block: nat): Env {
    Env(block, false, 0)
  }

  /** A pair is funded, and two orders sell A from block 5: 100 a block until block 10, 200 a block until block 15. */
  function Placing(): seq<(Env, Call)> {
    [(At(5), InitialLiquidity(M, M)), (At(5), PlaceOrder(A, 1, 500, 0)), (At(5), PlaceOrder(A, 2, 2000, 1))]
  }

  /** Block 10 is executed, and executed again. */
  function Repeating(): seq<(Env, Call)> {
    [(At(10), Execute(10)), (At(10), Execute(10))]
  }

  // Where execution stands ----------------------------------------------------------------------------------

  /** The block and the reserves reached, and the lumped rate and reward factor of the pool selling A. */
  ghost predicate Stands(c: CoreState, last: nat, reserves: Two<nat>, rate: nat, factor: nat) {
    && c.last == last && c.reserves == reserves
    && c.pools.a.currentSalesRate == rate && c.pools.a.rewardFactor == factor && c.pools.a.Recorded(last) == factor
    && c.pools.b.currentSalesRate == 0 && c.pools.b.rewardFactor == 0 && c.pools.b.Recorded(last) == 0
  }

  /** Nobody sells B. */
  ghost predicate NobodySellsB(c: CoreState) {
    (forall b: nat :: c.pools.b.Ending(b) == 0) && forall id: nat :: c.pools.b.Rate(id) == 0
  }

  /** The two orders, in the pool selling A. */
  ghost predicate BothPlaced(c: CoreState) {
    var p := c.pools.a;
    && p.Rate(0) == 1_000_000 && p.Expiry(0) == 10 && p.Submitted(0) == 0 && p.Ending(10) == 1_000_000
    && p.Rate(1) == 2_000_000 && p.Expiry(1) == 15 && p.Submitted(1) == 0 && p.Ending(15) == 2_000_000
    && (forall b: nat :: b != 10 && b != 15 ==> p.Ending(b) == 0)
    && NobodySellsB(c)
  }

  lemma OrdersStay(c: CoreState, next: CoreState)
    requires OrdersUntouched(c, next)
    ensures BothPlaced(c) ==> BothPlaced(next)
    ensures NobodySellsB(c) ==> NobodySellsB(next)
  {
    assert c.pools.At(A) == c.pools.a && c.pools.At(B) == c.pools.b;
    assert next.pools.At(A) == next.pools.a && next.pools.At(B) == next.pools.b;
    assert forall b: nat :: next.pools.a.Ending(b) == c.pools.a.Ending(b);
    assert forall b: nat :: next.pools.b.Ending(b) == c.pools.b.Ending(b);
    assert forall id: nat :: next.pools.b.Rate(id) == c.pools.b.Rate(id);
  }

  /** Executing where execution stands already. */
  lemma StandsStill(c: CoreState, last: nat, reserves: Two<nat>, rate: nat, factor: nat)
    requires Stands(c, last, reserves, rate, factor) && c.Ready() && NobodySellsB(c) && c.pools.a.Ending(last) <= rate
    ensures c.ExecuteAt(last).Some?
    ensures var e := c.ExecuteAt(last).value;
      Stands(e, last, reserves, rate - c.pools.a.Ending(last), factor) && OrdersUntouched(c, e)
  {
    RepeatExecution(c);
    hide CoreState.ExecuteAt, OrdersUntouched;
    assert c.pools.b.Ending(last) == 0;
    assert c.pools.At(A) == c.pools.a && c.pools.At(B) == c.pools.b;
    if c.ExecuteAt(last).Some? {
      var e := c.ExecuteAt(last).value;
      assert e.pools.At(A) == e.pools.a && e.pools.At(B) == e.pools.b;
    }
  }

  // Single calls --------------------------------------------------------------------------------------------

  lemma ExecuteCall(s: PairState, block: nat)
    requires Indexed(s.book) && s.book.core.last <= block && s.book.core.ExecuteAt(block).Some?
    requires forall k: nat :: s.book.core.last < k < block ==> !s.book.core.EndsAt(k)
    ensures var r := Step(s, At(block), Execute(block));
      && r.Some? && r.value.book.core == s.book.core.ExecuteAt(block).value
      && r.value.book.held == s.book.held && r.value.book.nextId == s.book.nextId
  {
    hide CoreState.ExecuteAt, CoreState.EndsAt, Indexed, OrdersState.ExecuteUntil;
    if s.book.core.last < block {
      ScanSkipsQuiet(s.book.core, s.book.core.last + 1, block, block);
    }
    FirstLeg(s.book, block, block);
    ExecutionKeepsOrders(s.book, block, block);
  }

  /** Placing an order for A at the block execution has reached, where nothing ends. */
  lemma PlaceCall(s: PairState, sender: nat, amount: nat, intervals: nat)
    requires Indexed(s.book) && s.book.core.Ready() && 0 < amount && s.book.core.ExecuteAt(s.book.core.last).Some?
    ensures var now := s.book.core.last;
      var e := s.book.core.ExecuteAt(now).value;
      var rate, expiry := s.book.SellingRate(amount, intervals, now), s.book.OrderExpiry(intervals, now);
      var r := Step(s, At(now), PlaceOrder(A, sender, amount, intervals));
      && r.Some? && r.value.book.nextId == s.book.nextId + 1
      && r.value.book.held == s.book.held.With(A, s.book.held.a + amount)
      && r.value.book.core == e.TakeIn(A, e.pools.a.Deposit(s.book.nextId, rate, expiry), amount)
  {
    hide CoreState.ExecuteAt, OrdersState.ExecuteUntil, Indexed, RateOver, IndexState.Insert, PoolState.Deposit;
    var now := s.book.core.last;
    var book := s.Receive(A, amount).book;
    var ready := book.(index := book.index.Insert(book.OrderExpiry(intervals, now)));
    IndexedIgnoresRest(s.book, book);
    InsertKeepsIndexed(book, book.OrderExpiry(intervals, now));
    FirstLeg(ready, now, now);
    ExecutionKeepsOrders(ready, now, now);
  }

  // The run, call by call -----------------------------------------------------------------------------------

  /** One more call of a run, in a pair whose index is in order. */
  lemma Calls(s: PairState, env: Env, call: Call, rest: seq<(Env, Call)>)
    requires IndexInOrder(s.book)
    ensures Run(s, [(env, call)] + rest) == Run(Apply(s, env, call), rest)
    ensures IndexInOrder(Apply(s, env, call).book)
  {
    hide Apply, IndexInOrder;
    assert ([(env, call)] + rest)[1..] == rest;
    assert [(env, call)][1..] == [];
    assert Run(s, [(env, call)]) == Run(Apply(s, env, call), []);
    RunsKeepIndexComplete(s, [(env, call)]);
  }

  /** After the three calls that place the orders. */
  lemma PlacingReaches()
    ensures var s := Run(Deployed(5), Placing());
      && IndexInOrder(s.book) && BothPlaced(s.book.core) && Stands(s.book.core, 5, Two(M, M), 3_000_000, 0)
      && s.book.held.b == M && s.book.nextId == 2
  {
    var s := Deployed(5);
    DeployedInvariant(5);
    assert Placing() == [(At(5), InitialLiquidity(M, M))] + Placing()[1..];
    assert Placing()[1..] == [(At(5), PlaceOrder(A, 1, 500, 0))] + [(At(5), PlaceOrder(A, 2, 2000, 1))];
    var last: seq<(Env, Call)> := [(At(5), PlaceOrder(A, 2, 2000, 1))];
    assert last == last + [];
    hide Run, IndexInOrder, Apply;
    Calls(s, At(5), InitialLiquidity(M, M), Placing()[1..]);
    var funded := Apply(s, At(5), InitialLiquidity(M, M));
    AfterFunding();
    Calls(funded, At(5), PlaceOrder(A, 1, 500, 0), last);
    FirstPlaced(funded);
    var first := Apply(funded, At(5), PlaceOrder(A, 1, 500, 0));
    Calls(first, At(5), PlaceOrder(A, 2, 2000, 1), []);
    SecondPlaced(first);
    EmptyRun(Apply(first, At(5), PlaceOrder(A, 2, 2000, 1)));
  }

  lemma EmptyRun(s: PairState)
    ensures Run(s, []) == s
  {
  }

  lemma AfterFunding()
    ensures var s := Apply(Deployed(5), At(5), InitialLiquidity(M, M));
      && s.book.core.pools == Two(EMPTY_POOL, EMPTY_POOL) && Stands(s.book.core, 5, Two(M, M), 0, 0)
      && s.book.held == Two(M, M) && s.book.nextId == 0
  {
    hide RootK;
  }

  lemma FirstPlaced(s: PairState)
    requires IndexInOrder(s.book) && s.book.core.pools == Two(EMPTY_POOL, EMPTY_POOL)
    requires Stands(s.book.core, 5, Two(M, M), 0, 0) && s.book.held == Two(M, M) && s.book.nextId == 0
    ensures var next := Apply(s, At(5), PlaceOrder(A, 1, 500, 0)).book;
      && Stands(next.core, 5, Two(M, M), 1_000_000, 0) && next.held.b == M && next.nextId == 1
      && FirstHolds(next.core.pools.a) && NobodySellsB(next.core)
  {
    StandsStill(s.book.core, 5, Two(M, M), 0, 0);
    var e := s.book.core.ExecuteAt(5).value;
    OrdersStay(s.book.core, e);
    PoolAOrders(s.book.core, e);
    FirstDeposited(e);
    RatesOfBoth(s.book);
    hide CoreState.ExecuteAt, Indexed, Step, OrdersState.SellingRate, CoreState.TakeIn, PoolState.Deposit;
    hide OrdersState.OrderExpiry, FirstHolds, NobodySellsB;
    PlaceCall(s, 1, 500, 0);
  }

  lemma RatesOfBoth(s: OrdersState)
    ensures s.SellingRate(500, 0, 5) == 1_000_000 && s.OrderExpiry(0, 5) == 10
    ensures s.SellingRate(2000, 1, 5) == 2_000_000 && s.OrderExpiry(1, 5) == 15
  {
  }

  /** The pool selling A while it has the first order only. */
  ghost predicate FirstHolds(p: PoolState) {
    && p.Rate(0) == 1_000_000 && p.Expiry(0) == 10 && p.Submitted(0) == 0 && p.Ending(10) == 1_000_000
    && forall b: nat :: b != 10 ==> p.Ending(b) == 0
  }

  lemma PoolAOrders(c: CoreState, next: CoreState)
    requires OrdersUntouched(c, next)
    ensures FirstHolds(c.pools.a) ==> FirstHolds(next.pools.a)
    ensures forall b: nat :: next.pools.a.Ending(b) == c.pools.a.Ending(b)
  {
    assert c.pools.At(A) == c.pools.a && next.pools.At(A) == next.pools.a;
    assert forall b: nat :: next.pools.a.Ending(b) == c.pools.a.Ending(b);
  }

  lemma FirstDeposited(e: CoreState)
    requires Stands(e, 5, Two(M, M), 0, 0) && NobodySellsB(e) && forall b: nat :: e.pools.a.Ending(b) == 0
    ensures var next := e.TakeIn(A, e.pools.a.Deposit(0, 1_000_000, 10), 500);
      Stands(next, 5, Two(M, M), 1_000_000, 0) && FirstHolds(next.pools.a) && NobodySellsB(next)
  {
    var next := e.TakeIn(A, e.pools.a.Deposit(0, 1_000_000, 10), 500);
    assert forall b: nat :: b != 10 ==> next.pools.a.Ending(b) == e.pools.a.Ending(b);
    assert next.pools.b == e.pools.b;
  }

  lemma SecondDeposited(e: CoreState)
    requires Stands(e, 5, Two(M, M), 1_000_000, 0) && NobodySellsB(e) && FirstHolds(e.pools.a)
    ensures var next := e.TakeIn(A, e.pools.a.Deposit(1, 2_000_000, 15), 2000);
      Stands(next, 5, Two(M, M), 3_000_000, 0) && BothPlaced(next)
  {
    var next := e.TakeIn(A, e.pools.a.Deposit(1, 2_000_000, 15), 2000);
    assert forall b: nat :: b != 15 ==> next.pools.a.Ending(b) == e.pools.a.Ending(b);
    assert next.pools.b == e.pools.b;
  }

  lemma SecondPlaced(s: PairState)
    requires IndexInOrder(s.book) && Stands(s.book.core, 5, Two(M, M), 1_000_000, 0) && s.book.held.b == M
    requires FirstHolds(s.book.core.pools.a) && NobodySellsB(s.book.core) && s.book.nextId == 1
    ensures var next := Apply(s, At(5), PlaceOrder(A, 2, 2000, 1)).book;
      && BothPlaced(next.core) && Stands(next.core, 5, Two(M, M), 3_000_000, 0)
      && next.held.b == M && next.nextId == 2
  {
    StandsStill(s.book.core, 5, Two(M, M), 1_000_000, 0);
    var e := s.book.core.ExecuteAt(5).value;
    OrdersStay(s.book.core, e);
    PoolAOrders(s.book.core, e);
    SecondDeposited(e);
    RatesOfBoth(s.book);
    hide CoreState.ExecuteAt, Indexed, Step, OrdersState.SellingRate, CoreState.TakeIn, PoolState.Deposit;
    hide OrdersState.OrderExpiry, FirstHolds, NobodySellsB, BothPlaced;
    PlaceCall(s, 2, 2000, 1);
  }

  // Executing ------------------------------------------------------------------------------------------------

  /** What one execution of the two orders does. */
  lemma Executes(c: CoreState, last: nat, reserves: Two<nat>, rate: nat, factor: nat, block: nat,
                 sold: nat, bought: nat)
    requires Stands(c, last, reserves, rate, factor) && c.Ready() && BothPlaced(c) && last < block
    requires sold == Tokens(rate, block - last) && bought == reserves.b * sold / (reserves.a + sold)
    requires 0 < rate && c.pools.a.Ending(block) <= rate
    ensures c.ExecuteAt(block).Some?
    ensures var e := c.ExecuteAt(block).value;
      && Stands(e, block, Two(reserves.a + sold, reserves.b - bought + Fee(bought)), rate - c.pools.a.Ending(block),
                factor + RewardPerRate(Net(bought), rate))
      && BothPlaced(e) && e.Ready()
      && forall b: nat :: b != block ==> e.pools.a.Recorded(b) == c.pools.a.Recorded(b)
  {
    assert c.pools.b.Ending(block) == 0;
    assert c.SellAmount(A, block) == sold && c.SellAmount(B, block) == 0;
    var trade := TradeUpTo(c, block);
    assert trade.out.a == 0 && trade.out.b == bought;
    assert trade.end == Two(reserves.a + sold, reserves.b - bought);
    ExecuteAtByPools(c, block);
    assert c.ExecuteAt(block).Some?;
    ExecuteAtLeavesOrders(c, block);
    OrdersStay(c, c.ExecuteAt(block).value);
    ReservesAfter(c, block);
    hide RewardPerRate, Fee, BothPlaced, TradeUpTo, OrdersUntouched;
  }

  lemma {:induction false} RunConcat(s: PairState, xs: seq<(Env, Call)>, ys: seq<(Env, Call)>)
    ensures Run(s, xs + ys) == Run(Run(s, xs), ys)
    decreases |xs|
  {
    hide Apply;
    if xs == [] {
      assert xs + ys == ys;
    } else {
      assert (xs + ys)[0] == xs[0] && (xs + ys)[1..] == xs[1..] + ys;
      RunConcat(Apply(s, xs[0].0, xs[0].1), xs[1..], ys);
    }
  }

  /** A single execution, in a pair whose index is in order. */
  lemma ExecuteReaches(s: PairState, block: nat)
    requires IndexInOrder(s.book) && s.book.core.last <= block && s.book.core.ExecuteAt(block).Some?
    requires forall k: nat :: s.book.core.last < k < block ==> !s.book.core.EndsAt(k)
    ensures var next := Run(s, [(At(block), Execute(block))]);
      && IndexInOrder(next.book) && next.book.core == s.book.core.ExecuteAt(block).value
      && next.book.held == s.book.held && next.book.nextId == s.book.nextId
  {
    hide Step, Indexed, CoreState.ExecuteAt, CoreState.EndsAt;
    ExecuteCall(s, block);
    var one: seq<(Env, Call)> := [(At(block), Execute(block))];
    assert one == one + [];
    hide Run, IndexInOrder;
    Calls(s, At(block), Execute(block), []);
    EmptyRun(Apply(s, At(block), Execute(block)));
  }

  lemma NothingEndsBetween(c: CoreState, last: nat, block: nat)
    requires BothPlaced(c) && ((last == 5 && block == 10) || (last == 10 && block == 12))
    ensures forall k: nat :: last < k < block ==> !c.EndsAt(k)
  {
  }

  /** The numbers of the first trade, 1500 of A, and of the one after the repeat, 200 of A. */
  lemma Amounts()
    ensures Tokens(3_000_000, 5) == 1500 && M * 1500 / (M + 1500) == 1497
    ensures Fee(1497) == 4 && Net(1497) == 1492
    ensures Tokens(1_000_000, 2) == 200 && 998_507 * 200 / (1_001_500 + 200) == 199
    ensures Fee(199) == 0 && Net(199) == 198
    ensures RewardPerRate(1492, 3_000_000) == 4_973_333_333_333_333_333
    ensures RewardPerRate(198, 1_000_000) == 1_980_000_000_000_000_000
  {
  }

  const FACTOR: nat := 4_973_333_333_333_333_333

  lemma FirstExecution(s: PairState)
    requires IndexInOrder(s.book) && BothPlaced(s.book.core) && Stands(s.book.core, 5, Two(M, M), 3_000_000, 0)
    ensures var next := Run(s, [(At(10), Execute(10))]);
      && IndexInOrder(next.book) && BothPlaced(next.book.core)
      && Stands(next.book.core, 10, Two(1_001_500, 998_507), 2_000_000, FACTOR)
      && next.book.held == s.book.held && next.book.nextId == s.book.nextId
  {
    Amounts();
    hide Tokens, Fee, Net, RewardPerRate;
    Executes(s.book.core, 5, Two(M, M), 3_000_000, 0, 10, 1500, 1497);
    NothingEndsBetween(s.book.core, 5, 10);
    hide CoreState.ExecuteAt, CoreState.EndsAt, IndexInOrder, Run;
    ExecuteReaches(s, 10);
  }

  lemma SecondExecution(s: PairState)
    requires IndexInOrder(s.book) && BothPlaced(s.book.core)
    requires Stands(s.book.core, 10, Two(1_001_500, 998_507), 2_000_000, FACTOR)
    ensures var next := Run(s, [(At(10), Execute(10))]);
      && IndexInOrder(next.book) && BothPlaced(next.book.core)
      && Stands(next.book.core, 10, Two(1_001_500, 998_507), 1_000_000, FACTOR)
      && next.book.held == s.book.held && next.book.nextId == s.book.nextId
  {
    StandsStill(s.book.core, 10, Two(1_001_500, 998_507), 2_000_000, FACTOR);
    OrdersStay(s.book.core, s.book.core.ExecuteAt(10).value);
    hide CoreState.ExecuteAt, CoreState.EndsAt, IndexInOrder, Run;
    ExecuteReaches(s, 10);
  }

  lemma RepeatingReaches()
    ensures var s := Run(Deployed(5), Placing() + Repeating());
      && IndexInOrder(s.book) && BothPlaced(s.book.core)
      && Stands(s.book.core, 10, Two(1_001_500, 998_507), 1_000_000, FACTOR)
      && s.book.held.b == M && s.book.nextId == 2
  {
    var one: seq<(Env, Call)> := [(At(10), Execute(10))];
    assert Repeating() == one + one;
    hide Run, IndexInOrder, BothPlaced, Stands;
    PlacingReaches();
    var placed := Run(Deployed(5), Placing());
    RunConcat(Deployed(5), Placing(), Repeating());
    RunConcat(placed, one, one);
    FirstExecution(placed);
    SecondExecution(Run(placed, one));
  }

  /**
   The assumption on runs cannot be dropped from the ledger. Once block 10 has been executed twice the first order
   has been retired twice: the second sells on at twice the lumped rate of the pool.
   */
  lemma RepeatLosesALiveOrder()
    ensures var s := Run(Deployed(5), Placing() + Repeating()).book;
      var p := s.core.pools.a;
      && s.core.last == 10 && p.currentSalesRate == 1_000_000 && LiveRate(p, 10, 1) == 2_000_000
      && !Accounts(p, 10, s.nextId)
  {
    RepeatingReaches();
    hide Run;
    var p := Run(Deployed(5), Placing() + Repeating()).book.core.pools.a;
    if Accounts(p, 10, 2) {
      NoEndingNoOrder(p, 10, 2, 1);
    }
  }

  /** What the two orders can claim at block 12: 497 and 1390. */
  lemma ClaimsAtTwelve(s: OrdersState)
    requires BothPlaced(s.core) && s.nextId == 2 && s.core.last == 12
    requires s.core.pools.a.rewardFactor == FACTOR + 1_980_000_000_000_000_000
    requires s.core.pools.a.Recorded(10) == FACTOR
    ensures ClaimableTokens(s, A) == 1887 && UnsoldTokens(s, B) == 0
  {
    var p := s.core.pools.a;
    assert Unclaimed(p, 12, 0) == 1_000_000 * FACTOR;
    assert Unclaimed(p, 12, 1) == 2_000_000 * (FACTOR + 1_980_000_000_000_000_000);
    assert WholeUnits(Owed(p, 12, 2), REWARD_SCALE) == [497, 1390];
    SumOfTwo(497, 1390);
    assert WholeUnits(Obligations(s.core.pools.b, 12, 2), RATE_SCALE) == [0, 0];
    SumOfTwo(0, 0);
  }

  lemma SumOfTwo(x: int, y: int)
    ensures Sum([x, y]) == x + y
  {
    assert [x, y][1..] == [y] && [y][1..] == [];
    assert Sum([y]) == y + Sum([]);
  }

  lemma ThirdExecution(s: PairState)
    requires IndexInOrder(s.book) && BothPlaced(s.book.core)
    requires Stands(s.book.core, 10, Two(1_001_500, 998_507), 1_000_000, FACTOR)
    ensures var next := Run(s, [(At(12), Execute(12))]);
      && BothPlaced(next.book.core)
      && Stands(next.book.core, 12, Two(1_001_700, 998_308), 1_000_000, FACTOR + 1_980_000_000_000_000_000)
      && next.book.core.pools.a.Recorded(10) == FACTOR
      && next.book.held == s.book.held && next.book.nextId == s.book.nextId
  {
    Amounts();
    hide Tokens, Fee, Net, RewardPerRate;
    assert s.book.core.pools.a.Ending(12) == 0;
    Executes(s.book.core, 10, Two(1_001_500, 998_507), 1_000_000, FACTOR, 12, 200, 199);
    NothingEndsBetween(s.book.core, 10, 12);
    hide CoreState.ExecuteAt, CoreState.EndsAt, IndexInOrder, Run;
    ExecuteReaches(s, 12);
  }

  /**
   Nor can it be dropped from solvency. From then on each payment is divided by half the rate it is claimed with: two
   blocks later the reserve of B and what the two orders can claim in it exceed all the B the pair holds.
   */
  lemma RepeatBreaksSolvency()
    ensures var s := Run(Deployed(5), Placing() + Repeating() + [(At(12), Execute(12))]).book;
      && s.core.reserves.b + ClaimableTokens(s, A) == 1_000_195 && s.held.b == 1_000_000
      && !Solvent(s)
  {
    RepeatingReaches();
    RunConcat(Deployed(5), Placing() + Repeating(), [(At(12), Execute(12))]);
    hide Run, Indexed, ClaimableTokens, UnsoldTokens, IndexInOrder;
    ThirdExecution(Run(Deployed(5), Placing() + Repeating()));
    var s := Run(Deployed(5), Placing() + Repeating() + [(At(12), Execute(12))]).book;
    ClaimsAtTwelve(s);
    assert B.Other() == A;
    assert s.core.reserves.At(B) + UnsoldTokens(s, B) + ClaimableTokens(s, B.Other()) > s.held.At(B);
  }

  /**
   And it is final: no call that executes to block 15 or past it ever succeeds again, whatever is tried from block 15
   on; the second order can be neither cancelled nor claimed.
   */
  lemma RepeatStopsThePair(calls: seq<(Env, Call)>, env: Env, call: Call)
    requires forall i :: 0 <= i < |calls| ==> 15 <= calls[i].0.now
    ensures var s := Run(Deployed(5), Placing() + Repeating());
      Target(env, call).Some? && 15 <= Target(env, call).value ==> Step(Run(s, calls), env, call).None?
  {
    hide Run, BooksInOrder, Step;
    RepeatingReaches();
    DeployedInvariant(5);
    InvariantIsInOrder(Deployed(5).book);
    RunKeepsBooks(Deployed(5), Placing() + Repeating());
    var s := Run(Deployed(5), Placing() + Repeating());
    TwoOrdersAreShort(s.book);
    hide Short;
    ShortfallStopsThePair(s, calls, A, 15, env, call);
  }

  lemma TwoOrdersAreShort(s: OrdersState)
    requires BooksInOrder(s) && BothPlaced(s.core) && s.nextId == 2 && s.core.last == 10
    requires s.core.pools.a.currentSalesRate == 1_000_000
    ensures Short(s, A, 15)
  {
    var p := s.core.pools.a;
    assert LiveRates(p, 10, 2) == [0, 2_000_000];
    SumOfTwo(0, 2_000_000);
    assert s.core.pools.At(A) == p;
    hide Indexed, Tables, Sum;
    forall id: nat
      ensures p.Expiry(id) <= 15
    {
      assert id == 0 || id == 1 || p.Expiry(id) == 0;
    }
  }
}
