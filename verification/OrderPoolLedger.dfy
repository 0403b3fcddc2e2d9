/**
 What an order pool's O(1) fields stand for, order by order.

 `last` is the block up to which virtual orders have been executed and `n` the number of order ids handed out
 so far; ids are shared by both pools of a pair, so an id that belongs to the other pool has rate 0 here.
 */
module OrderPoolLedger {
  import opened Basics
  import opened FixedPoint
  import opened OrderPools
  import opened Sums

  // Per-order quantities ------------------------------------------------------------------------------------

  function LiveRate(p: PoolState, last: nat, id: nat): int {
    if p.Expiry(id) > last then p.Rate(id) else 0
  }

  function RateEndingAt(p: PoolState, block: nat, id: nat): int {
    if p.Expiry(id) == block then p.Rate(id) else 0
  }

  /** Scaled amount order `id` has yet to sell (in 1/RATE_SCALE tokens). */
  function StillToSell(p: PoolState, last: nat, id: nat): int {
    if p.Expiry(id) > last then p.Rate(id) * (p.Expiry(id) - last) else 0
  }

  /** Scaled proceeds order `id` has earned and not been paid (in 1/REWARD_SCALE tokens). */
  function Unclaimed(p: PoolState, last: nat, id: nat): int {
    p.Rate(id) * (p.Cutoff(id, last) - p.Submitted(id))
  }

  function LiveRates(p: PoolState, last: nat, n: nat): seq<int> {
    seq(n, id requires 0 <= id < n => LiveRate(p, last, id))
  }

  function RatesEndingAt(p: PoolState, block: nat, n: nat): seq<int> {
    seq(n, id requires 0 <= id < n => RateEndingAt(p, block, id))
  }

  function Obligations(p: PoolState, last: nat, n: nat): seq<int> {
    seq(n, id requires 0 <= id < n => StillToSell(p, last, id))
  }

  function Owed(p: PoolState, last: nat, n: nat): seq<int> {
    seq(n, id requires 0 <= id < n => Unclaimed(p, last, id))
  }

  // The invariant -------------------------------------------------------------------------------------------

  /** The lumped rates agree with the orders behind them, now and at every block still to come. */
  ghost predicate Accounts(p: PoolState, last: nat, n: nat) {
    && p.currentSalesRate == Sum(LiveRates(p, last, n))
    && (forall b: nat :: last < b ==> p.Ending(b) == Sum(RatesEndingAt(p, b, n)))
    && (forall id: nat :: n <= id ==> p.Rate(id) == 0 && p.Expiry(id) == 0)
  }

  /** Reward factors are recorded where they will be needed and never run backwards. */
  ghost predicate Marked(p: PoolState, last: nat) {
    && p.Recorded(last) == p.rewardFactor
    && (forall id: nat :: 0 < p.Rate(id) || last < p.Expiry(id) ==> p.Submitted(id) <= p.Cutoff(id, last))
  }

  ghost predicate Sound(p: PoolState, last: nat, n: nat) {
    Accounts(p, last, n) && Marked(p, last)
  }

  /** No order of the pool expires strictly between `last` and `block`. */
  ghost predicate Quiet(p: PoolState, last: nat, block: nat) {
    forall b: nat :: last < b < block ==> p.Ending(b) == 0
  }

  // Consequences --------------------------------------------------------------------------------------------

  /** A block at which the pool records no ending rate is the expiry of no order with a positive rate. */
  lemma NoEndingNoOrder(p: PoolState, last: nat, n: nat, id: nat)
    requires Accounts(p, last, n) && last < p.Expiry(id)
    ensures p.Rate(id) <= p.Ending(p.Expiry(id)) && p.Rate(id) <= p.currentSalesRate
  {
    SumBoundsTerm(RatesEndingAt(p, p.Expiry(id), n), id);
    SumBoundsTerm(LiveRates(p, last, n), id);
  }

  lemma LiveOrdersOutlast(p: PoolState, last: nat, n: nat, block: nat, id: nat)
    requires Accounts(p, last, n) && Quiet(p, last, block) && last < p.Expiry(id) < block
    ensures p.Rate(id) == 0
  {
    NoEndingNoOrder(p, last, n, id);
  }

  lemma AmountNonNegative(p: PoolState, last: nat, n: nat, id: nat)
    requires Sound(p, last, n)
    ensures 0 <= StillToSell(p, last, id) && 0 <= Unclaimed(p, last, id)
  {
    hide Sum, LiveRates, RatesEndingAt;
    if 0 < p.Rate(id) {
      ProductNonNegative(p.Rate(id), p.Expiry(id) - last);
      ProductNonNegative(p.Rate(id), p.Cutoff(id, last) - p.Submitted(id));
    }
  }

  lemma ProductNonNegative(x: int, y: int)
    requires 0 <= x
    ensures 0 <= y ==> 0 <= x * y
  {
  }

  lemma AmountsNonNegative(p: PoolState, last: nat, n: nat)
    requires Sound(p, last, n)
    ensures NonNegative(Obligations(p, last, n)) && NonNegative(Owed(p, last, n))
    ensures 0 <= Sum(Obligations(p, last, n)) && 0 <= Sum(Owed(p, last, n))
  {
    hide StillToSell, Unclaimed;
    forall id | 0 <= id < n
      ensures 0 <= StillToSell(p, last, id) && 0 <= Unclaimed(p, last, id)
    {
      AmountNonNegative(p, last, n, id);
    }
    SumNonNegative(Obligations(p, last, n));
    SumNonNegative(Owed(p, last, n));
  }

  // Virtual execution ---------------------------------------------------------------------------------------

  /** Advancing from `last` to `block` retires exactly the orders that expire at `block`. */
  lemma LiveRatesAfter(p: PoolState, last: nat, n: nat, block: nat)
    requires Accounts(p, last, n) && last < block && Quiet(p, last, block)
    ensures Sum(LiveRates(p, last, n)) == Sum(LiveRates(p, block, n)) + p.Ending(block)
  {
    forall id | 0 <= id < n
      ensures LiveRate(p, last, id) == LiveRate(p, block, id) + 1 * RateEndingAt(p, block, id)
    {
      if last < p.Expiry(id) < block {
        LiveOrdersOutlast(p, last, n, block, id);
      }
    }
    SumCombine(LiveRates(p, block, n), RatesEndingAt(p, block, n), 1, LiveRates(p, last, n));
  }

  lemma StillToSellAfter(p: PoolState, last: nat, n: nat, block: nat, id: nat)
    requires Accounts(p, last, n) && last <= block && Quiet(p, last, block)
    ensures StillToSell(p, block, id) == StillToSell(p, last, id) + (last - block) * LiveRate(p, last, id)
  {
    if last < p.Expiry(id) < block {
      LiveOrdersOutlast(p, last, n, block, id);
    }
  }

  /** What is left to sell shrinks by the lumped rate times the blocks that passed, whatever expires at the end. */
  lemma ObligationsAfter(p: PoolState, last: nat, n: nat, block: nat)
    requires Accounts(p, last, n) && last <= block && Quiet(p, last, block)
    ensures Sum(Obligations(p, block, n)) == Sum(Obligations(p, last, n)) - p.currentSalesRate * (block - last)
  {
    hide StillToSell;
    forall id | 0 <= id < n
      ensures StillToSell(p, block, id) == StillToSell(p, last, id) + (last - block) * LiveRate(p, last, id)
    {
      StillToSellAfter(p, last, n, block, id);
    }
    SumCombine(Obligations(p, last, n), LiveRates(p, last, n), last - block, Obligations(p, block, n));
  }

  lemma UnclaimedAfterPayment(p: PoolState, last: nat, amount: nat, id: nat)
    ensures Unclaimed(p.Distribute(amount), last, id)
         == Unclaimed(p, last, id) + (p.Distribute(amount).rewardFactor - p.rewardFactor) * LiveRate(p, last, id)
  {
    var q := p.Distribute(amount);
    var growth := q.rewardFactor - p.rewardFactor;
    assert q.Cutoff(id, last) - p.Cutoff(id, last) == if p.Expiry(id) > last then growth else 0;
    hide RewardPerRate, PoolState.Distribute, PoolState.Cutoff;
    MoveFactor(p.Rate(id), p.Cutoff(id, last) - p.Submitted(id), growth);
  }

  lemma MoveFactor(rate: int, claim: int, growth: int)
    ensures rate * (claim + growth) == rate * claim + growth * rate
  {
  }

  /** A payment raises what is owed by (growth of the reward factor) x (lumped rate), so by at most its amount. */
  lemma OwedAfterPayment(p: PoolState, last: nat, n: nat, amount: nat)
    requires Accounts(p, last, n)
    ensures Sum(Owed(p.Distribute(amount), last, n)) <= Sum(Owed(p, last, n)) + REWARD_SCALE * amount
  {
    hide Unclaimed, RewardPerRate;
    var q := p.Distribute(amount);
    var growth := q.rewardFactor - p.rewardFactor;
    forall id | 0 <= id < n
      ensures Unclaimed(q, last, id) == Unclaimed(p, last, id) + growth * LiveRate(p, last, id)
    {
      UnclaimedAfterPayment(p, last, amount, id);
    }
    SumCombine(Owed(p, last, n), LiveRates(p, last, n), growth, Owed(q, last, n));
    PaymentCoversGrowth(p, amount);
  }

  lemma PaymentCoversGrowth(p: PoolState, amount: nat)
    ensures (p.Distribute(amount).rewardFactor - p.rewardFactor) * p.currentSalesRate <= amount * REWARD_SCALE
  {
    var rate := p.currentSalesRate;
    if rate != 0 {
      var scaled := amount * REWARD_SCALE;
      assert scaled == rate * (scaled / rate) + scaled % rate;
    }
  }

  /** Retiring a block moves nothing: every order that expires there has its reward factor recorded. */
  lemma OwedAfterExpiry(p: PoolState, last: nat, n: nat, block: nat, q: PoolState)
    requires Accounts(p, last, n) && last <= block && Quiet(p, last, block)
    requires block == last ==> p.Recorded(last) == p.rewardFactor
    requires p.Expire(block) == Some(q)
    ensures Sum(Owed(q, block, n)) == Sum(Owed(p, last, n))
  {
    forall id | 0 <= id < n
      ensures Unclaimed(q, block, id) == Unclaimed(p, last, id)
    {
      if last < p.Expiry(id) < block {
        LiveOrdersOutlast(p, last, n, block, id);
      }
    }
    assert Owed(q, block, n) == Owed(p, last, n);
  }

  /** Rates and expiries depend on the orders alone, not on the lumped fields. */
  lemma SameOrders(p: PoolState, q: PoolState, last: nat, n: nat)
    requires q.orderExpiry == p.orderExpiry && q.salesRate == p.salesRate
    ensures LiveRates(q, last, n) == LiveRates(p, last, n)
    ensures RatesEndingAt(q, last, n) == RatesEndingAt(p, last, n)
    ensures Obligations(q, last, n) == Obligations(p, last, n)
  {
    assert forall id :: 0 <= id < n ==> StillToSell(q, last, id) == StillToSell(p, last, id);
  }

  /** `Accounts` for a pool whose orders are those of `p` and whose lumped rate is the live rate at `block`. */
  lemma SameAccounts(p: PoolState, q: PoolState, last: nat, n: nat, block: nat)
    requires Accounts(p, last, n) && last <= block
    requires q.orderExpiry == p.orderExpiry && q.salesRate == p.salesRate
    requires q.salesRateEndingPerBlock == p.salesRateEndingPerBlock
    requires q.currentSalesRate == Sum(LiveRates(p, block, n))
    ensures Accounts(q, block, n)
  {
    SameOrders(p, q, block, n);
    forall b: nat | block < b
      ensures q.Ending(b) == Sum(RatesEndingAt(q, b, n))
    {
      SameOrders(p, q, b, n);
    }
    assert forall id: nat :: q.Rate(id) == p.Rate(id) && q.Expiry(id) == p.Expiry(id);
  }

  lemma AdvanceKeepsMark(p: PoolState, last: nat, n: nat, amount: nat, block: nat, id: nat)
    requires Sound(p, last, n) && last <= block && Quiet(p, last, block) && p.Advance(amount, block).Some?
    requires 0 < p.Rate(id) || block < p.Expiry(id)
    ensures p.Submitted(id) <= p.Advance(amount, block).value.Cutoff(id, block)
  {
    hide RewardPerRate;
    if last < p.Expiry(id) < block {
      LiveOrdersOutlast(p, last, n, block, id);
    }
    var q := p.Advance(amount, block).value;
    assert p.Submitted(id) <= p.Cutoff(id, last) && p.rewardFactor <= q.rewardFactor;
    assert forall b: nat :: b != block ==> q.Recorded(b) == p.Recorded(b);
  }

  lemma AdvanceKeepsAccounts(p: PoolState, last: nat, n: nat, amount: nat, block: nat)
    requires Accounts(p, last, n) && last <= block && Quiet(p, last, block)
    requires block == last ==> p.Ending(last) == 0
    ensures p.Advance(amount, block).Some?
    ensures Accounts(p.Advance(amount, block).value, block, n)
  {
    hide RewardPerRate, Sum, LiveRates, RatesEndingAt, Quiet;
    assert p.currentSalesRate == Sum(LiveRates(p, last, n));
    if last < block {
      LiveRatesAfter(p, last, n, block);
      LiveRatesNonNegative(p, block, n);
    }
    hide Accounts;
    SameAccounts(p, p.Advance(amount, block).value, last, n, block);
  }

  lemma LiveRatesNonNegative(p: PoolState, last: nat, n: nat)
    ensures 0 <= Sum(LiveRates(p, last, n))
  {
    SumNonNegative(LiveRates(p, last, n));
  }

  lemma AdvanceMovesSums(p: PoolState, last: nat, n: nat, amount: nat, block: nat)
    requires Sound(p, last, n) && last <= block && Quiet(p, last, block) && p.Advance(amount, block).Some?
    requires block == last ==> amount == 0
    ensures var q := p.Advance(amount, block).value;
      && Sum(Owed(q, block, n)) <= Sum(Owed(p, last, n)) + REWARD_SCALE * amount
      && Sum(Obligations(q, block, n)) == Sum(Obligations(p, last, n)) - p.currentSalesRate * (block - last)
  {
    var paid := p.Distribute(amount);
    SameAccounts(p, paid, last, n, last);
    assert forall b: nat :: paid.Ending(b) == p.Ending(b);
    assert amount == 0 ==> paid == p by {
      assert amount == 0 && p.currentSalesRate != 0 ==> RewardPerRate(amount, p.currentSalesRate) == 0;
    }
    hide Unclaimed, StillToSell, RewardPerRate;
    var q := p.Advance(amount, block).value;
    OwedAfterPayment(p, last, n, amount);
    OwedAfterExpiry(paid, last, n, block, q);
    ObligationsAfter(p, last, n, block);
    SameOrders(p, q, block, n);
  }

  /**
   One virtual execution seen from one pool. `block` lies strictly ahead, or nothing expires there: a second
   retirement of the same block would subtract its ending rate again.
   */
  lemma {:induction false} AdvanceKeepsSound(p: PoolState, last: nat, n: nat, amount: nat, block: nat)
    requires Sound(p, last, n) && last <= block && Quiet(p, last, block)
    requires block == last ==> p.Ending(last) == 0 && amount == 0
    ensures p.Advance(amount, block).Some?
    ensures var q := p.Advance(amount, block).value;
      && Sound(q, block, n)
      && q.salesRateEndingPerBlock == p.salesRateEndingPerBlock
      && Sum(Owed(q, block, n)) <= Sum(Owed(p, last, n)) + REWARD_SCALE * amount
      && Sum(Obligations(q, block, n)) == Sum(Obligations(p, last, n)) - p.currentSalesRate * (block - last)
  {
    hide RewardPerRate;
    AdvanceKeepsAccounts(p, last, n, amount, block);
    var q := p.Advance(amount, block).value;
    assert Marked(q, block) by {
      forall id: nat | 0 < q.Rate(id) || block < q.Expiry(id)
        ensures q.Submitted(id) <= q.Cutoff(id, block)
      {
        AdvanceKeepsMark(p, last, n, amount, block, id);
      }
    }
    AdvanceMovesSums(p, last, n, amount, block);
  }

  // Orders coming and going ---------------------------------------------------------------------------------

  /** The pool of the other token is unaffected when an id is handed out. */
  lemma {:induction false} ForeignIdKeepsSound(p: PoolState, last: nat, n: nat)
    requires Sound(p, last, n)
    ensures Sound(p, last, n + 1)
    ensures Sum(Owed(p, last, n + 1)) == Sum(Owed(p, last, n))
    ensures Sum(Obligations(p, last, n + 1)) == Sum(Obligations(p, last, n))
  {
    ForeignIdKeepsAccounts(p, last, n);
    assert Owed(p, last, n + 1) == Owed(p, last, n) + [0];
    SumAppend(Owed(p, last, n), 0);
  }

  lemma ForeignIdKeepsAccounts(p: PoolState, last: nat, n: nat)
    requires Accounts(p, last, n)
    ensures Accounts(p, last, n + 1)
    ensures Sum(Obligations(p, last, n + 1)) == Sum(Obligations(p, last, n))
  {
    assert p.Rate(n) == 0 && p.Expiry(n) == 0;
    assert LiveRates(p, last, n + 1) == LiveRates(p, last, n) + [0];
    SumAppend(LiveRates(p, last, n), 0);
    assert Obligations(p, last, n + 1) == Obligations(p, last, n) + [0];
    SumAppend(Obligations(p, last, n), 0);
    forall b: nat | last < b
      ensures Sum(RatesEndingAt(p, b, n + 1)) == Sum(RatesEndingAt(p, b, n))
    {
      assert RatesEndingAt(p, b, n + 1) == RatesEndingAt(p, b, n) + [0];
      SumAppend(RatesEndingAt(p, b, n), 0);
    }
  }

  lemma DepositEndings(p: PoolState, last: nat, n: nat, rate: nat, expiry: nat, b: nat)
    requires Accounts(p, last, n) && last < b
    ensures p.Deposit(n, rate, expiry).Ending(b) == Sum(RatesEndingAt(p.Deposit(n, rate, expiry), b, n + 1))
  {
    var q := p.Deposit(n, rate, expiry);
    var ending := if b == expiry then rate else 0;
    assert p.Ending(b) == Sum(RatesEndingAt(p, b, n));
    assert q.Ending(b) == p.Ending(b) + ending;
    assert forall id: nat :: id != n ==> q.Rate(id) == p.Rate(id) && q.Expiry(id) == p.Expiry(id);
    assert RatesEndingAt(q, b, n + 1) == RatesEndingAt(p, b, n) + [ending];
    SumAppend(RatesEndingAt(p, b, n), ending);
  }

  lemma DepositKeepsAccounts(p: PoolState, last: nat, n: nat, rate: nat, expiry: nat)
    requires Accounts(p, last, n) && last < expiry
    ensures Accounts(p.Deposit(n, rate, expiry), last, n + 1)
  {
    var q := p.Deposit(n, rate, expiry);
    assert forall id: nat :: id != n ==> q.Rate(id) == p.Rate(id) && q.Expiry(id) == p.Expiry(id);
    assert LiveRates(q, last, n + 1) == LiveRates(p, last, n) + [rate];
    SumAppend(LiveRates(p, last, n), rate);
    forall b: nat | last < b
      ensures q.Ending(b) == Sum(RatesEndingAt(q, b, n + 1))
    {
      DepositEndings(p, last, n, rate, expiry, b);
    }
  }

  lemma DepositKeepsMarks(p: PoolState, last: nat, n: nat, rate: nat, expiry: nat)
    requires Marked(p, last) && last < expiry
    ensures Marked(p.Deposit(n, rate, expiry), last)
  {
    var q := p.Deposit(n, rate, expiry);
    assert forall id: nat :: id != n ==> q.Rate(id) == p.Rate(id) && q.Expiry(id) == p.Expiry(id);
    assert forall id: nat :: id != n ==> q.Submitted(id) == p.Submitted(id);
  }

  lemma DepositTerms(p: PoolState, last: nat, n: nat, rate: nat, expiry: nat, id: nat)
    requires last < expiry
    ensures var q := p.Deposit(n, rate, expiry);
      && (id != n ==> Unclaimed(q, last, id) == Unclaimed(p, last, id))
      && (id != n ==> StillToSell(q, last, id) == StillToSell(p, last, id))
      && Unclaimed(q, last, n) == 0
      && StillToSell(q, last, n) == rate * (expiry - last)
  {
  }

  lemma DepositObliges(p: PoolState, last: nat, n: nat, rate: nat, expiry: nat)
    requires last < expiry
    ensures Sum(Obligations(p.Deposit(n, rate, expiry), last, n + 1))
         == Sum(Obligations(p, last, n)) + rate * (expiry - last)
  {
    hide StillToSell;
    var q, obligation := p.Deposit(n, rate, expiry), rate * (expiry - last);
    forall id | 0 <= id <= n
      ensures id != n ==> StillToSell(q, last, id) == StillToSell(p, last, id)
    {
      DepositTerms(p, last, n, rate, expiry, id);
    }
    DepositTerms(p, last, n, rate, expiry, n);
    assert Obligations(q, last, n + 1) == Obligations(p, last, n) + [obligation];
    SumAppend(Obligations(p, last, n), obligation);
  }

  /** A deposit takes on exactly the obligation rate x (blocks until expiry), and owes nothing yet. */
  lemma {:induction false} DepositKeepsSound(p: PoolState, last: nat, n: nat, rate: nat, expiry: nat)
    requires Sound(p, last, n) && last < expiry
    ensures var q := p.Deposit(n, rate, expiry);
      && Sound(q, last, n + 1)
      && Sum(Owed(q, last, n + 1)) == Sum(Owed(p, last, n))
      && Sum(Obligations(q, last, n + 1)) == Sum(Obligations(p, last, n)) + rate * (expiry - last)
  {
    DepositKeepsAccounts(p, last, n, rate, expiry);
    DepositKeepsMarks(p, last, n, rate, expiry);
    hide Unclaimed, StillToSell, Sound;
    var q := p.Deposit(n, rate, expiry);
    forall id | 0 <= id <= n
      ensures id != n ==> Unclaimed(q, last, id) == Unclaimed(p, last, id)
      ensures id != n ==> StillToSell(q, last, id) == StillToSell(p, last, id)
    {
      DepositTerms(p, last, n, rate, expiry, id);
    }
    DepositTerms(p, last, n, rate, expiry, n);
    DepositObliges(p, last, n, rate, expiry);
    assert Owed(q, last, n + 1) == Owed(p, last, n) + [0];
    SumAppend(Owed(p, last, n), 0);
  }

  lemma ClaimWithinGrowth(growth: nat, rate: nat)
    ensures REWARD_SCALE * Claim(growth, rate) <= rate * growth
  {
  }

  lemma WithdrawKeepsMarks(p: PoolState, last: nat, id: nat)
    requires Marked(p, last) && p.Withdraw(id, last).Some?
    ensures Marked(p.Withdraw(id, last).value.0, last)
  {
    hide Claim;
    var q := p.Withdraw(id, last).value.0;
    assert forall o: nat :: q.Expiry(o) == p.Expiry(o);
    assert forall o: nat :: o != id ==> q.Rate(o) == p.Rate(o) && q.Submitted(o) == p.Submitted(o);
  }

  lemma WithdrawKeepsAccounts(p: PoolState, last: nat, n: nat, id: nat)
    requires Accounts(p, last, n) && p.Withdraw(id, last).Some?
    ensures Accounts(p.Withdraw(id, last).value.0, last, n)
  {
    hide Claim, Sum;
    var q := p.Withdraw(id, last).value.0;
    assert forall o: nat :: q.Expiry(o) == p.Expiry(o);
    assert forall o: nat :: o != id ==> q.Rate(o) == p.Rate(o);
    assert LiveRates(q, last, n) == LiveRates(p, last, n);
    forall b: nat | last < b
      ensures q.Ending(b) == Sum(RatesEndingAt(q, b, n))
    {
      assert RatesEndingAt(q, b, n) == RatesEndingAt(p, b, n);
    }
  }

  lemma WithdrawLeavesOthers(p: PoolState, last: nat, id: nat, o: nat)
    requires p.Withdraw(id, last).Some?
    ensures StillToSell(p.Withdraw(id, last).value.0, last, o) == StillToSell(p, last, o)
    ensures o != id ==> Unclaimed(p.Withdraw(id, last).value.0, last, o) == Unclaimed(p, last, o)
  {
    hide Claim;
  }

  lemma WithdrawObliges(p: PoolState, last: nat, n: nat, id: nat)
    requires p.Withdraw(id, last).Some?
    ensures Obligations(p.Withdraw(id, last).value.0, last, n) == Obligations(p, last, n)
  {
    hide StillToSell;
    forall o | 0 <= o < n
      ensures StillToSell(p.Withdraw(id, last).value.0, last, o) == StillToSell(p, last, o)
    {
      WithdrawLeavesOthers(p, last, id, o);
    }
  }

  lemma WithdrawClears(p: PoolState, last: nat, id: nat)
    requires p.Withdraw(id, last).Some?
    ensures var (q, reward) := p.Withdraw(id, last).value;
      && Unclaimed(q, last, id) == 0
      && REWARD_SCALE * reward <= Unclaimed(p, last, id)
  {
    ClaimWithinGrowth(p.Cutoff(id, last) - p.Submitted(id), p.Rate(id));
    hide Claim;
  }

  /** A claim is covered by what the order was owed, and leaves every other order's claim alone. */
  lemma {:induction false} WithdrawKeepsSound(p: PoolState, last: nat, n: nat, id: nat)
    requires Sound(p, last, n)
    ensures p.Withdraw(id, last).Some? <==> 0 < p.Rate(id)
    ensures p.Withdraw(id, last).Some? ==> var (q, reward) := p.Withdraw(id, last).value;
      && Sound(q, last, n)
      && q.salesRateEndingPerBlock == p.salesRateEndingPerBlock
      && Sum(Owed(q, last, n)) + REWARD_SCALE * reward <= Sum(Owed(p, last, n))
      && Sum(Obligations(q, last, n)) == Sum(Obligations(p, last, n))
  {
    hide Claim;
    if 0 < p.Rate(id) {
      assert id < n;
      WithdrawKeepsAccounts(p, last, n, id);
      WithdrawKeepsMarks(p, last, id);
      hide Unclaimed, StillToSell, Sound;
      var q := p.Withdraw(id, last).value.0;
      forall o | 0 <= o < n
        ensures o != id ==> Unclaimed(q, last, o) == Unclaimed(p, last, o)
      {
        WithdrawLeavesOthers(p, last, id, o);
      }
      WithdrawClears(p, last, id);
      WithdrawObliges(p, last, n, id);
      assert Owed(q, last, n) == Owed(p, last, n)[id := 0];
      SumUpdate(Owed(p, last, n), id, 0);
    }
  }

  lemma CancelSucceeds(p: PoolState, last: nat, n: nat, id: nat)
    requires Sound(p, last, n)
    ensures p.Cancel(id, last).Some? <==> last < p.Expiry(id)
    ensures last < p.Expiry(id) ==> id < n
  {
    hide Claim;
    if last < p.Expiry(id) {
      NoEndingNoOrder(p, last, n, id);
      assert p.Rate(id) == 0 || p.Submitted(id) <= p.rewardFactor;
    }
  }

  lemma CancelKeepsMarks(p: PoolState, last: nat, id: nat)
    requires Marked(p, last) && p.Cancel(id, last).Some?
    ensures Marked(p.Cancel(id, last).value.0, last)
  {
    hide Claim, Tokens;
    var q := p.Cancel(id, last).value.0;
    assert forall o: nat :: o != id ==> q.Rate(o) == p.Rate(o) && q.Expiry(o) == p.Expiry(o);
  }

  lemma CancelKeepsAccounts(p: PoolState, last: nat, n: nat, id: nat)
    requires Accounts(p, last, n) && p.Cancel(id, last).Some? && id < n
    ensures Accounts(p.Cancel(id, last).value.0, last, n)
  {
    hide Claim, Sum, Tokens;
    var q := p.Cancel(id, last).value.0;
    assert forall o: nat :: o != id ==> q.Rate(o) == p.Rate(o) && q.Expiry(o) == p.Expiry(o);
    assert LiveRates(q, last, n) == LiveRates(p, last, n)[id := 0];
    SumUpdate(LiveRates(p, last, n), id, 0);
    forall b: nat | last < b
      ensures q.Ending(b) == Sum(RatesEndingAt(q, b, n))
    {
      assert RatesEndingAt(q, b, n) == RatesEndingAt(p, b, n)[id := 0];
      SumUpdate(RatesEndingAt(p, b, n), id, 0);
    }
  }

  lemma CancelTerms(p: PoolState, last: nat, id: nat, o: nat)
    requires p.Cancel(id, last).Some?
    ensures var (q, unsold, purchased) := p.Cancel(id, last).value;
      && (o != id ==> Unclaimed(q, last, o) == Unclaimed(p, last, o))
      && (o != id ==> StillToSell(q, last, o) == StillToSell(p, last, o))
      && Unclaimed(q, last, id) == 0 && StillToSell(q, last, id) == 0
      && REWARD_SCALE * purchased <= Unclaimed(p, last, id)
      && RATE_SCALE * unsold <= StillToSell(p, last, id)
  {
    ClaimWithinGrowth(p.rewardFactor - p.Submitted(id), p.Rate(id));
    hide Claim;
  }

  lemma CancelObliges(p: PoolState, last: nat, n: nat, id: nat)
    requires p.Cancel(id, last).Some? && id < n
    ensures var (q, unsold, _) := p.Cancel(id, last).value;
      Sum(Obligations(q, last, n)) + RATE_SCALE * unsold <= Sum(Obligations(p, last, n))
  {
    hide Claim, Unclaimed, StillToSell;
    var q := p.Cancel(id, last).value.0;
    forall o | 0 <= o < n
      ensures o != id ==> StillToSell(q, last, o) == StillToSell(p, last, o)
    {
      CancelTerms(p, last, id, o);
    }
    CancelTerms(p, last, id, id);
    assert Obligations(q, last, n) == Obligations(p, last, n)[id := 0];
    SumUpdate(Obligations(p, last, n), id, 0);
  }

  /** A cancel returns what was left to sell, pays what was owed, and takes the order out of both. */
  lemma {:induction false} CancelKeepsSound(p: PoolState, last: nat, n: nat, id: nat)
    requires Sound(p, last, n)
    ensures p.Cancel(id, last).Some? <==> last < p.Expiry(id)
    ensures p.Cancel(id, last).Some? ==> var (q, unsold, purchased) := p.Cancel(id, last).value;
      && Sound(q, last, n)
      && Sum(Owed(q, last, n)) + REWARD_SCALE * purchased <= Sum(Owed(p, last, n))
      && Sum(Obligations(q, last, n)) + RATE_SCALE * unsold <= Sum(Obligations(p, last, n))
  {
    CancelSucceeds(p, last, n, id);
    if last < p.Expiry(id) {
      CancelKeepsAccounts(p, last, n, id);
      CancelKeepsMarks(p, last, id);
      hide Claim, Unclaimed, StillToSell, Sound;
      var q := p.Cancel(id, last).value.0;
      forall o | 0 <= o < n
        ensures o != id ==> Unclaimed(q, last, o) == Unclaimed(p, last, o)
      {
        CancelTerms(p, last, id, o);
      }
      CancelTerms(p, last, id, id);
      CancelObliges(p, last, n, id);
      assert Owed(q, last, n) == Owed(p, last, n)[id := 0];
      SumUpdate(Owed(p, last, n), id, 0);
    }
  }

  // The lumped rate as a sum over blocks ---------------------------------------------------------------------

  function Endings(p: PoolState, last: nat, horizon: nat): seq<int>
    requires last <= horizon
  {
    seq(horizon - last, i requires 0 <= i < horizon - last => p.Ending(last + 1 + i))
  }

  lemma OneBlockOn(p: PoolState, n: nat, from: nat)
    ensures Sum(LiveRates(p, from, n)) == Sum(LiveRates(p, from + 1, n)) + Sum(RatesEndingAt(p, from + 1, n))
  {
    assert forall id: nat :: LiveRate(p, from, id) == LiveRate(p, from + 1, id) + 1 * RateEndingAt(p, from + 1, id);
    SumCombine(LiveRates(p, from + 1, n), RatesEndingAt(p, from + 1, n), 1, LiveRates(p, from, n));
  }

  lemma {:induction false} LiveRatesEndEventually(p: PoolState, last: nat, n: nat, from: nat, horizon: nat)
    requires Accounts(p, last, n) && last <= from <= horizon
    requires forall id: nat :: p.Expiry(id) <= horizon
    ensures Sum(LiveRates(p, from, n)) == Sum(Endings(p, from, horizon))
    decreases horizon - from
  {
    if from == horizon {
      assert forall id: nat :: LiveRate(p, from, id) == 0;
      hide Accounts;
      AllZero(LiveRates(p, from, n));
    } else {
      assert p.Ending(from + 1) == Sum(RatesEndingAt(p, from + 1, n));
      hide Accounts, LiveRates, RatesEndingAt;
      OneBlockOn(p, n, from);
      LiveRatesEndEventually(p, last, n, from + 1, horizon);
      assert Endings(p, from + 1, horizon) == Endings(p, from, horizon)[1..];
    }
  }

  /** No order of the pool ends after `horizon`. */
  ghost predicate Horizon(p: PoolState, last: nat, horizon: nat) {
    last <= horizon && forall id: nat :: p.Expiry(id) <= horizon
  }

  lemma {:induction false} GreatestExpiry(expiries: map<nat, nat>, last: nat) returns (horizon: nat)
    ensures last <= horizon && forall id :: id in expiries ==> expiries[id] <= horizon
    decreases |expiries|
  {
    horizon := last;
    if expiries != map[] {
      var id :| id in expiries;
      horizon := GreatestExpiry(expiries - {id}, last);
      horizon := if horizon < expiries[id] then expiries[id] else horizon;
      assert forall o :: o in expiries && o != id ==> o in expiries - {id};
    }
  }

  /** Every live rate ends at some block to come: counting orders and counting blocks give the same rate. */
  lemma LumpedRateEndsEventually(p: PoolState, last: nat, n: nat)
    requires Accounts(p, last, n)
    ensures exists horizon: nat :: Horizon(p, last, horizon)
    ensures forall horizon: nat :: Horizon(p, last, horizon) ==>
      p.currentSalesRate == Sum(Endings(p, last, horizon))
  {
    var horizon := GreatestExpiry(p.orderExpiry, last);
    assert Horizon(p, last, horizon);
    forall horizon: nat | Horizon(p, last, horizon)
      ensures p.currentSalesRate == Sum(Endings(p, last, horizon))
    {
      LiveRatesEndEventually(p, last, n, last, horizon);
    }
  }

  lemma {:induction false} AllZero(s: seq<int>)
    requires forall i :: 0 <= i < |s| ==> s[i] == 0
    ensures Sum(s) == 0
  {
    if s != [] {
      AllZero(s[1..]);
    }
  }
}
