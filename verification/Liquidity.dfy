/** The arithmetic of liquidity shares: what shares are worth, and the protocol's cut of the pool's growth. */
module Liquidity {
  import FixedPoint
  import Pricing

  /** The part of `reserve` that `shares` out of `supply` stand for, rounded down. */
  function Share(shares: nat, reserve: nat, supply: nat): nat
    requires 0 < supply
  {
    shares * reserve / supply
  }

  function Quotient(n: nat, d: nat): nat
    requires 0 < d
  {
    n / d
  }

  function Growth(supply: nat, growth: nat): nat {
    supply * growth
  }

  /** What the fee formula divides by. */
  function FeeWeight(rootK: nat, rootKLast: nat, feeArg: nat): (weight: nat)
    ensures rootKLast <= weight
  {
    rootK * feeArg + rootKLast
  }

  /** Shares minted to the fee recipient when the mean of the reserves has grown from `rootKLast` to `rootK`. */
  function FeeShares(supply: nat, rootK: nat, rootKLast: nat, feeArg: nat): nat
    requires 0 < rootKLast < rootK
  {
    Quotient(Growth(supply, rootK - rootKLast), FeeWeight(rootK, rootKLast, feeArg))
  }

  lemma QuotientBrackets(n: nat, d: nat)
    requires 0 < d
    ensures (n / d) * d <= n < (n / d + 1) * d
  {
  }

  lemma QuotientBelow(n: nat, d: nat, q: nat)
    requires 0 < d && n < (q + 1) * d
    ensures n / d <= q
  {
    var x := n / d;
    QuotientFits(n, d, x);
    FactorBelow(x, q, n, d);
  }

  lemma QuotientFits(n: nat, d: nat, x: nat)
    requires 0 < d && x == n / d
    ensures x * d <= n
  {
  }

  lemma FactorBelow(x: nat, q: nat, n: nat, d: nat)
    requires x * d <= n < (q + 1) * d
    ensures x <= q
  {
    FixedPoint.ProductKeepsOrder(q + 1, x, d);
  }

  lemma Distribute(x: int, y: int, k: int)
    ensures (x + y) * k == x * k + y * k && k * (x + y) == k * x + k * y
  {
  }

  /**
   Whoever mints `shares` and burns them again with no trade in between gets back at most what they paid in,
   however many shares were minted to others (the protocol's fee) on the way.
   */
  lemma AddThenRemoveNeverGains(shares: nat, reserve: nat, supply: nat, minted: nat)
    requires 0 < supply
    ensures var paid := Share(shares, reserve, supply);
      Share(shares, reserve + paid, supply + shares + minted) <= paid
  {
    var paid := Share(shares, reserve, supply);
    QuotientBrackets(shares * reserve, supply);
    Distribute(reserve, paid, shares);
    Distribute(supply, shares + minted, paid + 1);
    Distribute(shares, minted, paid + 1);
    Distribute(paid, 1, shares);
    assert 0 <= (paid + 1) * minted;
    QuotientBelow(shares * (reserve + paid), supply + shares + minted, paid);
  }

  /**
   Minting keeps the ratio of reserve to supply exactly when the payment is not rounded; otherwise it dilutes the
   shares already out.
   */
  lemma AddKeepsRatioIff(shares: nat, reserve: nat, supply: nat)
    requires 0 < supply
    ensures var paid := Share(shares, reserve, supply);
      && ((reserve + paid) * supply == reserve * (supply + shares) <==> shares * reserve % supply == 0)
      && (reserve + paid) * supply <= reserve * (supply + shares)
  {
    var paid := Share(shares, reserve, supply);
    Distribute(reserve, paid, supply);
    Distribute(supply, shares, reserve);
    assert shares * reserve == paid * supply + shares * reserve % supply;
  }

  /** One share of a reserve of 3 for 2 shares costs 1 instead of 3/2: the ratio falls from 3/2 to 4/3. */
  lemma RoundedAddDilutes()
    ensures Share(1, 3, 2) == 1 && (3 + 1) * 2 < 3 * (2 + 1)
  {
  }

  /** Shares minted to one owner and, at the same time, to others. */
  datatype Addition = Addition(shares: nat, others: nat)

  function SharesOf(adds: seq<Addition>): nat {
    if adds == [] then 0 else adds[0].shares + SharesOf(adds[1..])
  }

  function OthersOf(adds: seq<Addition>): nat {
    if adds == [] then 0 else adds[0].others + OthersOf(adds[1..])
  }

  /** What the owner pays for all of `adds`, made one after the other. */
  function PaidFor(adds: seq<Addition>, reserve: nat, supply: nat): nat
    requires 0 < supply
  {
    if adds == [] then 0
    else
      var paid := Share(adds[0].shares, reserve, supply);
      paid + PaidFor(adds[1..], reserve + paid, supply + adds[0].shares + adds[0].others)
  }

  /** `shares` stand for at most `paid` and one unit for each of `count` adds, and for less once there is one. */
  ghost predicate PaidUp(shares: nat, reserve: nat, supply: nat, paid: nat, count: nat) {
    shares * reserve <= (paid + count) * supply && (0 < count ==> shares * reserve < (paid + count) * supply)
  }

  lemma AddStaysPaidUp(shares: nat, reserve: nat, supply: nat, paid: nat, count: nat, add: Addition)
    requires 0 < supply && PaidUp(shares, reserve, supply, paid, count)
    ensures var x := Share(add.shares, reserve, supply);
      PaidUp(shares + add.shares, reserve + x, supply + add.shares + add.others, paid + x, count + 1)
  {
    var l, x := add.shares, Share(add.shares, reserve, supply);
    var all, most := shares + l, paid + x + count + 1;
    QuotientBrackets(l * reserve, supply);
    Distribute(shares, l, reserve);
    Distribute(paid + count, x + 1, supply);
    assert all * reserve < most * supply;
    FixedPoint.ProductKeepsOrder(x * supply, l * reserve, all);
    FixedPoint.ProductKeepsOrder(all * reserve, most * supply, l);
    Rearrange(all, x, supply);
    Rearrange(all, l, reserve);
    Rearrange(most, supply, l);
    Pricing.CancelFactor(supply, all * x, most * l);
    Distribute(reserve, x, all);
    Distribute(supply, l, most);
    Distribute(supply + l, add.others, most);
  }

  lemma Rearrange(x: nat, y: nat, z: nat)
    ensures (y * z) * x == z * (x * y) && (x * z) * y == z * (x * y) && (x * y) * z == z * (x * y)
  {
  }

  lemma {:induction false} AddsStayPaidUp(adds: seq<Addition>, shares: nat, reserve: nat, supply: nat, paid: nat,
                                          count: nat)
    requires 0 < supply && PaidUp(shares, reserve, supply, paid, count)
    ensures var more := PaidFor(adds, reserve, supply);
      PaidUp(shares + SharesOf(adds), reserve + more, supply + SharesOf(adds) + OthersOf(adds), paid + more,
             count + |adds|)
    decreases adds
  {
    if adds != [] {
      var add, x := adds[0], Share(adds[0].shares, reserve, supply);
      AddStaysPaidUp(shares, reserve, supply, paid, count, add);
      hide Share, PaidUp;
      AddsStayPaidUp(adds[1..], shares + add.shares, reserve + x, supply + add.shares + add.others, paid + x,
                     count + 1);
    }
  }

  /**
   Adding in pieces: p adds, whatever was minted to others between them, and one removal of all their shares return
   at most what was paid and p - 1 units.
   */
  lemma AddsThenRemoveGainLessThanAdds(adds: seq<Addition>, reserve: nat, supply: nat)
    requires 0 < supply && adds != []
    ensures var paid := PaidFor(adds, reserve, supply);
      Share(SharesOf(adds), reserve + paid, supply + SharesOf(adds) + OthersOf(adds)) <= paid + |adds| - 1
  {
    hide PaidFor, SharesOf, OthersOf, Share;
    AddsStayPaidUp(adds, 0, reserve, supply, 0, 0);
    hide PaidUp;
    var paid := PaidFor(adds, reserve, supply);
    PaidUpIsWorth(SharesOf(adds), reserve + paid, supply + SharesOf(adds) + OthersOf(adds), paid, |adds|);
  }

  lemma PaidUpIsWorth(shares: nat, reserve: nat, supply: nat, paid: nat, count: nat)
    requires 0 < supply && 0 < count && PaidUp(shares, reserve, supply, paid, count)
    ensures Share(shares, reserve, supply) <= paid + count - 1
  {
    QuotientBelow(shares * reserve, supply, paid + count - 1);
  }

  /** The bound is met: two adds of one share to a reserve of 19 for 10 shares cost 2, and return 3. */
  lemma AddsInPiecesGain()
    ensures var adds := [Addition(1, 0), Addition(1, 0)];
      PaidFor(adds, 19, 10) == 2 && Share(SharesOf(adds), 21, 10 + SharesOf(adds) + OthersOf(adds)) == 3
  {
    var adds := [Addition(1, 0), Addition(1, 0)];
    assert adds[1..] == [Addition(1, 0)] && adds[1..][1..] == [];
    assert SharesOf(adds[1..]) == 1 && OthersOf(adds[1..]) == 0;
    assert PaidFor(adds[1..], 20, 11) == 1;
  }

  /** Burning rounds in favour of the shares that stay, and keeps the ratio exactly when it does not round. */
  lemma RemoveKeepsRatioIff(shares: nat, reserve: nat, supply: nat)
    requires 0 < supply && shares <= supply
    ensures var paid := Share(shares, reserve, supply);
      && paid <= reserve
      && ((reserve - paid) * supply == reserve * (supply - shares) <==> shares * reserve % supply == 0)
      && reserve * (supply - shares) <= (reserve - paid) * supply
  {
    var paid := Share(shares, reserve, supply);
    FixedPoint.ProductKeepsOrder(shares, supply, reserve);
    QuotientBelow(shares * reserve, supply, reserve) by {
      assert shares * reserve < (reserve + 1) * supply;
    }
    Distribute(reserve - paid, paid, supply);
    Distribute(supply - shares, shares, reserve);
    assert shares * reserve == paid * supply + shares * reserve % supply;
  }

  /** Burning less than everything leaves something of a positive reserve. */
  lemma RemoveLeavesSome(shares: nat, reserve: nat, supply: nat)
    requires shares < supply && 0 < reserve
    ensures Share(shares, reserve, supply) < reserve
  {
    RemoveKeepsRatioIff(shares, reserve, supply);
    FixedPoint.ProductKeepsOrder(1, supply - shares, reserve);
    var paid := Share(shares, reserve, supply);
    assert paid == reserve ==> (reserve - paid) * supply == 0;
  }

  /**
   `minted` shares are at most a 1/(feeArg + 1) part of the growth, measured on the supply after minting, exactly
   when they are no more than the protocol mints.
   */
  lemma FeeSharesAreLargest(supply: nat, rootK: nat, rootKLast: nat, feeArg: nat, minted: nat)
    requires 0 < rootKLast < rootK
    ensures minted * rootK * (feeArg + 1) <= (supply + minted) * (rootK - rootKLast)
       <==> minted <= FeeShares(supply, rootK, rootKLast, feeArg)
  {
    var growth, weight := rootK - rootKLast, FeeWeight(rootK, rootKLast, feeArg);
    var most := FeeShares(supply, rootK, rootKLast, feeArg);
    Distribute(supply, minted, growth);
    Distribute(growth, rootKLast, minted);
    Distribute(rootK * feeArg, rootKLast, minted);
    Distribute(feeArg, 1, minted * rootK);
    assert minted * rootK * feeArg == minted * (rootK * feeArg);
    QuotientBrackets(supply * growth, weight);
    FixedPoint.ProductKeepsOrder(minted, most, weight);
    FixedPoint.ProductKeepsOrder(most + 1, minted, weight);
  }

  /** Burning the same part of two reserves and of the supply keeps reserve x reserve over supply squared. */
  lemma RemoveKeepsProductRatio(shares: nat, a: nat, b: nat, supply: nat)
    requires 0 < supply && shares <= supply
    ensures Share(shares, a, supply) <= a && Share(shares, b, supply) <= b
    ensures var rest := supply - shares;
      (a * b) * (rest * rest) <= ((a - Share(shares, a, supply)) * (b - Share(shares, b, supply))) * (supply * supply)
  {
    RemoveKeepsRatioIff(shares, a, supply);
    RemoveKeepsRatioIff(shares, b, supply);
    RatiosMultiply(a, b, supply - shares, a - Share(shares, a, supply), b - Share(shares, b, supply), supply);
  }

  lemma RatiosMultiply(a: nat, b: nat, rest: nat, a': nat, b': nat, supply: nat)
    requires a * rest <= a' * supply && b * rest <= b' * supply
    ensures (a * b) * (rest * rest) <= (a' * b') * (supply * supply)
  {
    FixedPoint.ProductKeepsOrder(a * rest, a' * supply, b * rest);
    FixedPoint.ProductKeepsOrder(b * rest, b' * supply, a' * supply);
    Interchange(a, rest, b, rest);
    Interchange(a', supply, b', supply);
  }

  lemma Interchange(x: int, y: int, z: int, w: int)
    ensures (x * y) * (z * w) == (x * z) * (y * w)
  {
  }
}
