/** A whole pair as a value, and what each of its entry points does to it. `None` is a revert. */
module PairOperations {
  import opened Basics
  import opened FixedPoint
  import opened Pricing
  import opened Liquidity
  import opened OrderPools
  import opened Execution
  import opened ExpiryIndex
  import opened Orders

  /** What a call takes from its surroundings: the current block and the factory's fee settings. */
  datatype Env = Env(now: nat, feeOn: bool, feeArg: nat)

  datatype PairState = PairState(book: OrdersState, supply: nat, rootKLast: nat) {

    function Reserves(): Two<nat> {
      book.core.reserves
    }

    function WithReserves(reserves: Two<nat>): PairState {
      this.(book := book.(core := book.core.(reserves := reserves)))
    }

    /** Tokens reach the pair from outside: the router moves the inputs of a call before making it. */
    function Receive(token: Side, amount: nat): PairState {
      this.(book := book.(held := book.held.With(token, book.held.At(token) + amount)))
    }

    /** The protocol's share of the growth since `rootKLast`; without a fee recipient the mark is dropped. */
    function MintFee(reserves: Two<nat>, env: Env): PairState {
      if !env.feeOn then this.(rootKLast := 0)
      else
        var rootK := RootK(reserves.a, reserves.b);
        if 0 < rootKLast < rootK then
          this.(supply := supply + FeeShares(supply, rootK, rootKLast, env.feeArg))
        else this
    }

    /** With a fee recipient the mean of the reserves is marked after every change of liquidity. */
    function MarkRootK(env: Env): PairState {
      if env.feeOn then this.(rootKLast := RootK(Reserves().a, Reserves().b)) else this
    }

    function ProvideInitialLiquidity(amountA: nat, amountB: nat, env: Env): Option<(PairState, nat)> {
      if amountA == 0 || amountB == 0 || supply != 0 then None
      else
        var shares := RootK(amountA, amountB);
        var fee := WithReserves(Two(amountA, amountB)).MintFee(Two(0, 0), env);
        var minted := fee.(supply := fee.supply + shares);
        Some((if env.feeOn then minted.(rootKLast := shares) else minted, shares))
    }

    function ExecuteVirtualOrders(block: nat, now: nat): Option<PairState> {
      var executed :- book.ExecuteUntil(block, now);
      Some(this.(book := executed))
    }

    function ProvideLiquidity(shares: nat, env: Env): Option<(PairState, Two<nat>)> {
      var s :- ExecuteVirtualOrders(env.now, env.now);
      s.ProvideExecuted(shares, env)
    }

    function ProvideExecuted(shares: nat, env: Env): Option<(PairState, Two<nat>)> {
      if shares == 0 || supply == 0 then None
      else
        var paid := Two(Share(shares, Reserves().a, supply), Share(shares, Reserves().b, supply));
        var fee := WithReserves(Two(Reserves().a + paid.a, Reserves().b + paid.b)).MintFee(Reserves(), env);
        Some((fee.(supply := fee.supply + shares).MarkRootK(env), paid))
    }

    /** `balance` is how many shares the caller holds; burning more reverts. */
    function RemoveLiquidity(shares: nat, balance: nat, env: Env): Option<(PairState, Two<nat>)> {
      var s :- ExecuteVirtualOrders(env.now, env.now);
      s.RemoveExecuted(shares, balance, env)
    }

    function RemoveExecuted(shares: nat, balance: nat, env: Env): Option<(PairState, Two<nat>)> {
      if shares == 0 || supply <= shares then None
      else
        RemoveKeepsRatioIff(shares, Reserves().a, supply);
        RemoveKeepsRatioIff(shares, Reserves().b, supply);
        var paid := Two(Share(shares, Reserves().a, supply), Share(shares, Reserves().b, supply));
        if balance < shares then None
        else
          var burnt := Burnt(shares, paid, env);
          var settled :- burnt.book.PayBoth(paid);
          Some((burnt.(book := settled).MarkRootK(env), paid))
    }

    /** The reserves without what is paid out, the protocol's share minted on what they were, the shares burnt. */
    function Burnt(shares: nat, paid: Two<nat>, env: Env): PairState
      requires paid.a <= Reserves().a && paid.b <= Reserves().b && shares <= supply
    {
      var fee := WithReserves(Two(Reserves().a - paid.a, Reserves().b - paid.b)).MintFee(Reserves(), env);
      fee.(supply := fee.supply - shares)
    }

    predicate HasLiquidity() {
      0 < Reserves().a && 0 < Reserves().b
    }

    function InstantSwap(sell: Side, amountIn: nat, env: Env): Option<(PairState, nat)> {
      if !HasLiquidity() || amountIn == 0 then None
      else
        var s :- ExecuteVirtualOrders(env.now, env.now);
        s.SwapExecuted(sell, amountIn)
    }

    function SwapExecuted(sell: Side, amountIn: nat): Option<(PairState, nat)>
      requires 0 < amountIn
    {
      var from, to := Reserves().At(sell), Reserves().At(sell.Other());
      var out := Net(SwapOut(from, to, amountIn));
      SwapWithinReserve(from, to, amountIn);
      var s := WithReserves(Reserves().With(sell, from + amountIn).With(sell.Other(), to - out));
      var paid :- s.book.Pay(sell.Other(), out);
      Some((s.(book := paid), out))
    }

    function LongTermSwap(sell: Side, sender: nat, amount: nat, intervals: nat, env: Env): Option<(PairState, nat)> {
      if !HasLiquidity() || amount == 0 then None
      else
        var (placed, id) :- book.PerformLongTermSwap(sell, sender, amount, intervals, env.now);
        Some((this.(book := placed), id))
    }

    function CancelLongTermSwap(sender: nat, id: nat, env: Env): Option<(PairState, nat, nat)> {
      var (closed, unsold, purchased) :- book.CancelLongTermSwap(sender, id, env.now);
      Some((this.(book := closed), unsold, purchased))
    }

    function WithdrawProceeds(sender: nat, id: nat, env: Env): Option<(PairState, nat)> {
      var (drawn, proceeds) :- book.WithdrawProceeds(sender, id, env.now);
      Some((this.(book := drawn), proceeds))
    }
  }

  /** A pair as its constructor leaves it in block `block`. */
  function Deployed(block: nat): PairState {
    PairState(
      OrdersState(CoreState(block, Two(0, 0), Two(EMPTY_POOL, EMPTY_POOL), Two(EMPTY_BOOKS, EMPTY_BOOKS)),
                  EMPTY_INDEX.Insert(IntervalStart(block)), 0, map[], map[], Two(0, 0)),
      0, 0)
  }

  lemma SwapWithinReserve(reserveFrom: nat, reserveTo: nat, amountIn: nat)
    requires 0 < amountIn
    ensures Net(SwapOut(reserveFrom, reserveTo, amountIn)) <= reserveTo
  {
    VirtualOutBounds(reserveTo, 0, reserveFrom, amountIn);
    assert SwapOut(reserveFrom, reserveTo, amountIn) == VirtualOut(reserveTo, 0, reserveFrom, amountIn);
  }

  // Calls and runs ------------------------------------------------------------------------------------------

  /** A transaction: the router's part (moving the inputs) together with the pair's. */
  datatype Call =
    | InitialLiquidity(amountA: nat, amountB: nat)
    | AddLiquidity(shares: nat)
    | TakeLiquidity(shares: nat, balance: nat)
    | Swap(sell: Side, amountIn: nat)
    | PlaceOrder(sell: Side, sender: nat, amount: nat, intervals: nat)
    | CancelOrder(sender: nat, id: nat)
    | ClaimProceeds(sender: nat, id: nat)
    | Execute(block: nat)
    | Donate(token: Side, amount: nat)

  function Step(s: PairState, env: Env, call: Call): Option<PairState> {
    match call
    case InitialLiquidity(amountA, amountB) =>
      var (next, _) :- s.Receive(A, amountA).Receive(B, amountB).ProvideInitialLiquidity(amountA, amountB, env);
      Some(next)
    case AddLiquidity(shares) =>
      var (next, paid) :- s.ProvideLiquidity(shares, env);
      Some(next.Receive(A, paid.a).Receive(B, paid.b))
    case TakeLiquidity(shares, balance) =>
      var (next, _) :- s.RemoveLiquidity(shares, balance, env);
      Some(next)
    case Swap(sell, amountIn) =>
      var (next, _) :- s.Receive(sell, amountIn).InstantSwap(sell, amountIn, env);
      Some(next)
    case PlaceOrder(sell, sender, amount, intervals) =>
      var (next, _) :- s.Receive(sell, amount).LongTermSwap(sell, sender, amount, intervals, env);
      Some(next)
    case CancelOrder(sender, id) =>
      var (next, _, _) :- s.CancelLongTermSwap(sender, id, env);
      Some(next)
    case ClaimProceeds(sender, id) =>
      var (next, _) :- s.WithdrawProceeds(sender, id, env);
      Some(next)
    case Execute(block) =>
      s.ExecuteVirtualOrders(block, env.now)
    case Donate(token, amount) =>
      Some(s.Receive(token, amount))
  }

  /** A transaction that reverts leaves the pair as it was. */
  function Apply(s: PairState, env: Env, call: Call): PairState {
    var r := Step(s, env, call);
    if r.None? then s else r.value
  }

  function Run(s: PairState, calls: seq<(Env, Call)>): PairState
    decreases |calls|
  {
    if calls == [] then s else Run(Apply(s, calls[0].0, calls[0].1), calls[1..])
  }
}
