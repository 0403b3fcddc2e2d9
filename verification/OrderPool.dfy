/** One pool of long term orders selling the same token, with its O(1) reward-factor distribution. */
module OrderPools {
  import opened Basics
  import opened FixedPoint

  /** The value of an order pool's storage. */
  datatype PoolState = PoolState(
    currentSalesRate: nat,
    rewardFactor: nat,
    salesRateEndingPerBlock: map<nat, nat>,
    orderExpiry: map<nat, nat>,
    salesRate: map<nat, nat>,
    rewardFactorAtSubmission: map<nat, nat>,
    rewardFactorAtBlock: map<nat, nat>
  ) {

    function Rate(id: nat): nat { Get(salesRate, id) }
    function Expiry(id: nat): nat { Get(orderExpiry, id) }
    function Submitted(id: nat): nat { Get(rewardFactorAtSubmission, id) }
    function Ending(block: nat): nat { Get(salesRateEndingPerBlock, block) }
    function Recorded(block: nat): nat { Get(rewardFactorAtBlock, block) }

    function Distribute(amount: nat): PoolState {
      if currentSalesRate == 0 then this
      else this.(rewardFactor := rewardFactor + RewardPerRate(amount, currentSalesRate))
    }

    function Deposit(id: nat, amountPerBlock: nat, expiry: nat): PoolState {
      this.(currentSalesRate := currentSalesRate + amountPerBlock,
            rewardFactorAtSubmission := rewardFactorAtSubmission[id := rewardFactor],
            orderExpiry := orderExpiry[id := expiry],
            salesRate := salesRate[id := amountPerBlock],
            salesRateEndingPerBlock := salesRateEndingPerBlock[expiry := Ending(expiry) + amountPerBlock])
    }

    function Expire(block: nat): Option<PoolState> {
      if currentSalesRate < Ending(block) then None
      else Some(this.(currentSalesRate := currentSalesRate - Ending(block),
                      rewardFactorAtBlock := rewardFactorAtBlock[block := rewardFactor]))
    }

    /** The pool's half of one virtual execution: pay the proceeds, then retire what expires at `block`. */
    function Advance(amount: nat, block: nat): Option<PoolState> {
      Distribute(amount).Expire(block)
    }

    /** The reward factor up to which order `id` has earned, once execution has reached block `last`. */
    function Cutoff(id: nat, last: nat): nat {
      if Expiry(id) <= last then Recorded(Expiry(id)) else rewardFactor
    }

    function Withdraw(id: nat, now: nat): Option<(PoolState, nat)> {
      if Rate(id) == 0 || Cutoff(id, now) < Submitted(id) then None
      else
        var reward := Claim(Cutoff(id, now) - Submitted(id), Rate(id));
        if Expiry(id) <= now then Some((this.(salesRate := salesRate[id := 0]), reward))
        else Some((this.(rewardFactorAtSubmission := rewardFactorAtSubmission[id := rewardFactor]), reward))
    }

    function Cancel(id: nat, now: nat): Option<(PoolState, nat, nat)> {
      var expiry := Expiry(id);
      var rate := Rate(id);
      if expiry <= now || rewardFactor < Submitted(id) then None
      else if currentSalesRate < rate || Ending(expiry) < rate then None
      else
        var unsold := Tokens(rate, expiry - now);
        var purchased := Claim(rewardFactor - Submitted(id), rate);
        Some((this.(currentSalesRate := currentSalesRate - rate,
                    salesRate := salesRate[id := 0],
                    orderExpiry := orderExpiry[id := 0],
                    salesRateEndingPerBlock := salesRateEndingPerBlock[expiry := Ending(expiry) - rate]),
              unsold, purchased))
    }
  }

  const EMPTY_POOL := PoolState(0, 0, map[], map[], map[], map[], map[])

  /** The order pool as the contract keeps it: every operation updates its fields in place. */
  class OrderPool {
    var currentSalesRate: nat
    var rewardFactor: nat
    var salesRateEndingPerBlock: map<nat, nat>
    var orderExpiry: map<nat, nat>
    var salesRate: map<nat, nat>
    var rewardFactorAtSubmission: map<nat, nat>
    var rewardFactorAtBlock: map<nat, nat>

    function View(): PoolState
      reads this
    {
      PoolState(currentSalesRate, rewardFactor, salesRateEndingPerBlock, orderExpiry, salesRate,
                rewardFactorAtSubmission, rewardFactorAtBlock)
    }

    constructor ()
      ensures View() == EMPTY_POOL
    {
      currentSalesRate, rewardFactor := 0, 0;
      salesRateEndingPerBlock, orderExpiry, salesRate := map[], map[], map[];
      rewardFactorAtSubmission, rewardFactorAtBlock := map[], map[];
    }

    method DistributePayment(amount: nat)
      modifies this
      ensures View() == old(View()).Distribute(amount)
    {
      if currentSalesRate != 0 {
        RewardPerUnit(amount, currentSalesRate);
        rewardFactor := rewardFactor +
          Div(Mul(FromUint(amount), FromUint(RATE_SCALE)), FromUint(currentSalesRate));
      }
    }

    method DepositOrder(orderId: nat, amountPerBlock: nat, expiry: nat)
      modifies this
      ensures View() == old(View()).Deposit(orderId, amountPerBlock, expiry)
    {
      currentSalesRate := currentSalesRate + amountPerBlock;
      rewardFactorAtSubmission := rewardFactorAtSubmission[orderId := rewardFactor];
      orderExpiry := orderExpiry[orderId := expiry];
      salesRate := salesRate[orderId := amountPerBlock];
      salesRateEndingPerBlock :=
        salesRateEndingPerBlock[expiry := Get(salesRateEndingPerBlock, expiry) + amountPerBlock];
    }

    /** `ok` is false when the subtraction underflows, which reverts the whole transaction. */
    method UpdateStateFromBlockExpiry(blockNumber: nat) returns (ok: bool)
      modifies this
      ensures ok == old(View()).Expire(blockNumber).Some?
      ensures ok ==> View() == old(View()).Expire(blockNumber).value
    {
      var ordersExpiring := Get(salesRateEndingPerBlock, blockNumber);
      if currentSalesRate < ordersExpiring {
        return false;
      }
      currentSalesRate := currentSalesRate - ordersExpiring;
      rewardFactorAtBlock := rewardFactorAtBlock[blockNumber := rewardFactor];
      return true;
    }

    method CancelOrder(orderId: nat, now: nat) returns (ok: bool, unsoldAmount: nat, purchasedAmount: nat)
      modifies this
      ensures ok == old(View()).Cancel(orderId, now).Some?
      ensures ok ==> (View(), unsoldAmount, purchasedAmount) == old(View()).Cancel(orderId, now).value
    {
      unsoldAmount, purchasedAmount := 0, 0;
      var expiry := Get(orderExpiry, orderId);
      if expiry <= now {
        return false, 0, 0;
      }
      var rate := Get(salesRate, orderId);
      unsoldAmount := Tokens(rate, expiry - now);
      var atSubmission := Get(rewardFactorAtSubmission, orderId);
      if rewardFactor < atSubmission {
        return false, 0, 0;
      }
      ClaimIsOneDivision(rewardFactor - atSubmission, rate);
      purchasedAmount := ToUint(Div(Mul(rewardFactor - atSubmission, FromUint(rate)), FromUint(RATE_SCALE)));
      if currentSalesRate < rate || Get(salesRateEndingPerBlock, expiry) < rate {
        return false, 0, 0;
      }
      currentSalesRate := currentSalesRate - rate;
      salesRate := salesRate[orderId := 0];
      orderExpiry := orderExpiry[orderId := 0];
      salesRateEndingPerBlock := salesRateEndingPerBlock[expiry := Get(salesRateEndingPerBlock, expiry) - rate];
      ok := true;
    }

    method WithdrawProceeds(orderId: nat, now: nat) returns (ok: bool, totalReward: nat)
      modifies this
      ensures ok == old(View()).Withdraw(orderId, now).Some?
      ensures ok ==> (View(), totalReward) == old(View()).Withdraw(orderId, now).value
    {
      var stakedAmount := Get(salesRate, orderId);
      if stakedAmount == 0 {
        return false, 0;
      }
      var expiry := Get(orderExpiry, orderId);
      var atSubmission := Get(rewardFactorAtSubmission, orderId);
      var upTo := if now >= expiry then Get(rewardFactorAtBlock, expiry) else rewardFactor;
      if upTo < atSubmission {
        return false, 0;
      }
      ClaimIsOneDivision(upTo - atSubmission, stakedAmount);
      totalReward := ToUint(Div(Mul(upTo - atSubmission, FromUint(stakedAmount)), FromUint(RATE_SCALE)));
      if now >= expiry {
        salesRate := salesRate[orderId := 0];
      } else {
        rewardFactorAtSubmission := rewardFactorAtSubmission[orderId := rewardFactor];
      }
      ok := true;
    }
  }
}
