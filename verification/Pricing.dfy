/** The arithmetic of trading against the reserves: two-sided virtual trades and one-sided instant swaps. */
module Pricing {
  import opened Basics
  import FixedPoint

  /** The liquidity fee, in 1/FEE_BASE of the amount bought. */
  const LP_FEE: nat := 30
  const FEE_BASE: nat := 10_000

  function Fee(amountOut: nat): nat {
    amountOut * LP_FEE / FEE_BASE
  }

  function Net(amountOut: nat): nat {
    amountOut * (FEE_BASE - LP_FEE) / FEE_BASE
  }

  /** What sellers of `inOther` of the other token buy, once `inSame` has been sold on this side. */
  function VirtualOut(start: nat, inSame: nat, startOther: nat, inOther: nat): (out: nat)
    requires 0 < startOther + inOther
  {
    (start + inSame) * inOther / (startOther + inOther)
  }

  lemma VirtualOutBounds(start: nat, inSame: nat, startOther: nat, inOther: nat)
    requires 0 < startOther + inOther
    ensures VirtualOut(start, inSame, startOther, inOther) <= start + inSame
    ensures (start + inSame) * startOther
         <= (start + inSame - VirtualOut(start, inSame, startOther, inOther)) * (startOther + inOther)
  {
    var a, b := start + inSame, startOther + inOther;
    var out := a * inOther / b;
    assert out * b <= a * inOther;
    assert a * b == a * startOther + a * inOther;
    assert (a - out) * b == a * b - out * b;
    if a < out {
      assert (a - out) * b < 0;
    }
  }

  datatype VirtualTrade = VirtualTrade(out: Two<nat>, end: Two<nat>)

  function ComputeVirtualBalances(start: Two<nat>, sold: Two<nat>): VirtualTrade
    requires 0 < start.a + sold.a && 0 < start.b + sold.b
  {
    VirtualOutBounds(start.a, sold.a, start.b, sold.b);
    VirtualOutBounds(start.b, sold.b, start.a, sold.a);
    var outA := VirtualOut(start.a, sold.a, start.b, sold.b);
    var outB := VirtualOut(start.b, sold.b, start.a, sold.a);
    VirtualTrade(Two(outA, outB), Two(start.a + sold.a - outA, start.b + sold.b - outB))
  }

  /** (a'b)(b'a) >= (a y)(b x) with a, b positive gives a'b' >= x y. */
  lemma CrossProducts(a: nat, b: nat, a': nat, b': nat, x: nat, y: nat)
    requires 0 < a && 0 < b
    requires a * y <= a' * b && b * x <= b' * a
    ensures x * y <= a' * b'
  {
    var ab := a * b;
    assert 0 < ab;
    ProductsKeepOrder(a * y, a' * b, b * x, b' * a);
    assert (a * y) * (b * x) == ab * (x * y);
    assert (a' * b) * (b' * a) == ab * (a' * b');
    CancelFactor(ab, x * y, a' * b');
  }

  lemma CancelFactor(k: nat, x: nat, y: nat)
    requires 0 < k && k * x <= k * y
    ensures x <= y
  {
  }

  lemma ProductsKeepOrder(x: nat, x': nat, y: nat, y': nat)
    requires x <= x' && y <= y'
    ensures x * y <= x' * y'
  {
    assert x * y <= x' * y;
    assert x' * y <= x' * y';
  }

  /** `x` of a token is covered by what the other side's sellers bring in, at the rate both sides' sales make. */
  predicate Affordable(x: nat, start: nat, sold: nat, startOther: nat, soldOther: nat) {
    x * (startOther + soldOther) <= (start + sold) * soldOther
  }

  /** A two-sided trade gives each side's sellers the most of the other token they can afford, and no more. */
  lemma TradeBuysTheMost(start: Two<nat>, sold: Two<nat>)
    requires 0 < start.a + sold.a && 0 < start.b + sold.b
    ensures var trade := ComputeVirtualBalances(start, sold);
      && (forall x: nat :: Affordable(x, start.a, sold.a, start.b, sold.b) <==> x <= trade.out.a)
      && (forall x: nat :: Affordable(x, start.b, sold.b, start.a, sold.a) <==> x <= trade.out.b)
      && trade.end.a == start.a + sold.a - trade.out.a && trade.end.b == start.b + sold.b - trade.out.b
  {
    forall x: nat
      ensures Affordable(x, start.a, sold.a, start.b, sold.b)
         <==> x <= VirtualOut(start.a, sold.a, start.b, sold.b)
      ensures Affordable(x, start.b, sold.b, start.a, sold.a)
         <==> x <= VirtualOut(start.b, sold.b, start.a, sold.a)
    {
      WithinQuotient(x, (start.a + sold.a) * sold.b, start.b + sold.b);
      WithinQuotient(x, (start.b + sold.b) * sold.a, start.a + sold.a);
    }
  }

  lemma WithinQuotient(x: nat, n: nat, d: nat)
    requires 0 < d
    ensures x * d <= n <==> x <= n / d
  {
    var q := n / d;
    assert n == q * d + n % d;
    FixedPoint.ProductKeepsOrder(x, q, d);
    FixedPoint.ProductKeepsOrder(q + 1, x, d);
  }

  /** A virtual trade never lowers the product of the reserves, and never empties one. */
  lemma VirtualTradeKeepsProduct(start: Two<nat>, sold: Two<nat>)
    requires 0 < start.a && 0 < start.b
    ensures var trade := ComputeVirtualBalances(start, sold);
      && 0 < trade.end.a && 0 < trade.end.b && start.a * start.b <= trade.end.a * trade.end.b
      && (forall x: nat :: Affordable(x, start.a, sold.a, start.b, sold.b) <==> x <= trade.out.a)
      && (forall x: nat :: Affordable(x, start.b, sold.b, start.a, sold.a) <==> x <= trade.out.b)
  {
    TradeBuysTheMost(start, sold);
    TradeKeepsProduct(start, sold);
    hide ComputeVirtualBalances, Affordable;
  }

  lemma TradeKeepsProduct(start: Two<nat>, sold: Two<nat>)
    requires 0 < start.a && 0 < start.b
    ensures var end := ComputeVirtualBalances(start, sold).end;
      0 < end.a && 0 < end.b && start.a * start.b <= end.a * end.b
  {
    VirtualOutBounds(start.a, sold.a, start.b, sold.b);
    VirtualOutBounds(start.b, sold.b, start.a, sold.a);
    var end := ComputeVirtualBalances(start, sold).end;
    var a, b := start.a + sold.a, start.b + sold.b;
    CrossProducts(a, b, end.a, end.b, start.a, start.b);
    assert 0 < start.a * start.b;
    assert end.a == 0 ==> end.a * end.b == 0;
    assert end.b == 0 ==> end.a * end.b == 0;
  }

  /** Fee and proceeds together lose at most one unit of what was bought to rounding, and gain nothing. */
  lemma FeeAndNet(amountOut: nat)
    ensures amountOut - 1 <= Fee(amountOut) + Net(amountOut) <= amountOut
  {
  }

  /** The 30 / 10000 of what was bought that stay in the reserves, and the 9970 / 10000 that are paid out. */
  lemma FeeSplit(amountOut: nat)
    ensures IsFloor(Fee(amountOut), 30 * amountOut, 10_000)
    ensures IsFloor(Net(amountOut), 9_970 * amountOut, 10_000)
  {
  }

  /** What an instant swap pays out, before and after the fee. */
  function SwapOut(reserveFrom: nat, reserveTo: nat, amountIn: nat): nat
    requires 0 < reserveFrom + amountIn
  {
    reserveTo * amountIn / (reserveFrom + amountIn)
  }

  /** `x` can leave one reserve after `amountIn` has entered the other without lowering the product. */
  predicate ProductAllows(x: nat, reserveFrom: nat, reserveTo: nat, amountIn: nat) {
    reserveFrom * reserveTo <= (reserveFrom + amountIn) * (reserveTo - x)
  }

  /** `paid` is 9970 / 10000 of the most that the product allows, rounded down. */
  ghost predicate PaysTheMost(paid: nat, reserveFrom: nat, reserveTo: nat, amountIn: nat) {
    exists most: nat ::
      && (forall x: nat :: ProductAllows(x, reserveFrom, reserveTo, amountIn) <==> x <= most)
      && IsFloor(paid, 9_970 * most, 10_000)
  }

  lemma SwapPaysTheMost(reserveFrom: nat, reserveTo: nat, amountIn: nat)
    requires 0 < reserveFrom + amountIn
    ensures PaysTheMost(Net(SwapOut(reserveFrom, reserveTo, amountIn)), reserveFrom, reserveTo, amountIn)
  {
    var most := SwapOut(reserveFrom, reserveTo, amountIn);
    forall x: nat
      ensures ProductAllows(x, reserveFrom, reserveTo, amountIn) <==> x <= most
    {
      SwapAllows(x, reserveFrom, reserveTo, amountIn);
      WithinQuotient(x, reserveTo * amountIn, reserveFrom + amountIn);
    }
    hide SwapOut, ProductAllows;
    FeeSplit(most);
    hide Net;
  }

  lemma SwapAllows(x: int, from: int, other: int, amountIn: int)
    ensures from * other <= (from + amountIn) * (other - x) <==> x * (from + amountIn) <= other * amountIn
  {
    assert (from + amountIn) * (other - x) == from * other + amountIn * other - x * (from + amountIn);
  }

  lemma SwapKeepsProduct(reserveFrom: nat, reserveTo: nat, amountIn: nat)
    requires 0 < reserveFrom && 0 < reserveTo
    ensures var paid := Net(SwapOut(reserveFrom, reserveTo, amountIn));
      && paid < reserveTo && reserveFrom * reserveTo <= (reserveFrom + amountIn) * (reserveTo - paid)
      && PaysTheMost(paid, reserveFrom, reserveTo, amountIn)
  {
    SwapPaysTheMost(reserveFrom, reserveTo, amountIn);
    hide PaysTheMost;
    VirtualOutBounds(reserveTo, 0, reserveFrom, amountIn);
    var out := SwapOut(reserveFrom, reserveTo, amountIn);
    assert out == VirtualOut(reserveTo, 0, reserveFrom, amountIn);
    NetWithin(out);
    hide SwapOut, Net, VirtualOut;
    PayingLessKeepsMore(reserveFrom, reserveTo, reserveFrom + amountIn, out, Net(out));
  }

  lemma NetWithin(amountOut: nat)
    ensures Net(amountOut) <= amountOut
  {
  }

  lemma PayingLessKeepsMore(from: nat, reserve: nat, grown: nat, out: nat, paid: nat)
    requires 0 < from <= grown && 0 < reserve && paid <= out <= reserve
    requires reserve * from <= (reserve - out) * grown
    ensures paid < reserve && from * reserve <= grown * (reserve - paid)
  {
    ProductsKeepOrder(reserve - out, reserve - paid, grown, grown);
    PositiveProduct(from, reserve);
    assert paid == reserve ==> grown * (reserve - paid) == 0;
  }

  lemma PositiveProduct(x: nat, y: nat)
    requires 0 < x && 0 < y
    ensures 0 < x * y
  {
  }
}
