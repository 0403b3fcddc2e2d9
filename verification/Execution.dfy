/**
 Virtual order execution: one interval at a time, driven either by a list of expiries or by looking at every
 block in turn.
 */
module Execution {
  import opened Basics
  import opened FixedPoint
  import opened OrderPools
  import opened Pricing
  import opened ExpiryTree

  /**
   Running totals of one pool: tokens its orders deposited, sold to the reserves and had refunded, and proceeds
   in the other token that came in for them and were paid out. The contract does not store these.
   */
  datatype Books = Books(deposited: nat, sold: nat, refunded: nat, paidIn: nat, paidOut: nat)

  const EMPTY_BOOKS := Books(0, 0, 0, 0, 0)

  /** The state virtual execution works on. Pool `side` sells the token of that side. */
  datatype CoreState = CoreState(last: nat, reserves: Two<nat>, pools: Two<PoolState>, books: Two<Books>) {

    predicate EndsAt(block: nat) {
      0 < pools.a.Ending(block) || 0 < pools.b.Ending(block)
    }

    predicate Ready() {
      0 < reserves.a && 0 < reserves.b
    }

    /** What a pool sells between `last` and `block`, lumped into one trade. */
    function SellAmount(side: Side, block: nat): nat
      requires last <= block
    {
      Tokens(pools.At(side).currentSalesRate, block - last)
    }

    /** Trade up to `block`, pay both pools, retire what expires there. Reverts on a division or an underflow. */
    function ExecuteAt(block: nat): (r: Option<CoreState>)
      requires last <= block
      ensures r.Some? ==> r.value.last == block
    {
      var sold := Two(SellAmount(A, block), SellAmount(B, block));
      if reserves.a + sold.a == 0 || reserves.b + sold.b == 0 then None
      else Traded(sold).Retired(block)
    }

    /** Both lumps sold against the reserves at once, and the proceeds handed to the pools. */
    function Traded(sold: Two<nat>): CoreState
      requires reserves.a + sold.a != 0 && reserves.b + sold.b != 0
    {
      var trade := ComputeVirtualBalances(reserves, sold);
      var net := Two(Net(trade.out.a), Net(trade.out.b));
      CoreState(last,
                Two(trade.end.a + Fee(trade.out.a), trade.end.b + Fee(trade.out.b)),
                Two(pools.a.Distribute(net.b), pools.b.Distribute(net.a)),
                Two(books.a.(sold := books.a.sold + sold.a, paidIn := books.a.paidIn + net.b),
                    books.b.(sold := books.b.sold + sold.b, paidIn := books.b.paidIn + net.a)))
    }

    /** Both pools let go of the orders that end at `block`. */
    function Retired(block: nat): (r: Option<CoreState>)
      ensures r.Some? ==> r.value.last == block
    {
      var poolA :- pools.a.Expire(block);
      var poolB :- pools.b.Expire(block);
      Some(this.(last := block, pools := Two(poolA, poolB)))
    }

    /** Store a pool after a claim, and enter what left the pair for it into its totals. */
    function Settle(sell: Side, pool: PoolState, refunded: nat, paidOut: nat): CoreState {
      var k := books.At(sell);
      this.(pools := pools.With(sell, pool),
            books := books.With(sell, k.(refunded := k.refunded + refunded, paidOut := k.paidOut + paidOut)))
    }

    /** Store a pool after a deposit, and enter what came in for it into its totals. */
    function TakeIn(sell: Side, pool: PoolState, deposited: nat): CoreState {
      var k := books.At(sell);
      this.(pools := pools.With(sell, pool), books := books.With(sell, k.(deposited := k.deposited + deposited)))
    }

    /** Execution driven by a list of expiries: entries already passed or not yet due are skipped. */
    function Drive(expiries: seq<nat>, block: nat): (r: Option<CoreState>)
      requires last <= block
      ensures r.Some? ==> r.value.last == block
      decreases expiries
    {
      if expiries == [] then ExecuteAt(block)
      else if EndsAt(expiries[0]) && last < expiries[0] < block then
        var next :- ExecuteAt(expiries[0]);
        next.Drive(expiries[1..], block)
      else Drive(expiries[1..], block)
    }

    /** Reference execution: look at every block from `b` on, stop wherever some order ends. */
    function Scan(b: nat, block: nat): (r: Option<CoreState>)
      requires last < b && last <= block
      ensures r.Some? ==> r.value.last == block
      decreases block - b
    {
      if block <= b then ExecuteAt(block)
      else if EndsAt(b) then
        var next :- ExecuteAt(b);
        next.Scan(b + 1, block)
      else Scan(b + 1, block)
    }
  }

  // Index refines scan --------------------------------------------------------------------------------------

  lemma ExecuteKeepsEndings(c: CoreState, block: nat)
    requires c.last <= block && c.ExecuteAt(block).Some?
    ensures forall b: nat :: c.ExecuteAt(block).value.EndsAt(b) == c.EndsAt(b)
  {
  }

  lemma {:induction false} DriveSkipsPast(c: CoreState, past: seq<nat>, expiries: seq<nat>, block: nat)
    requires c.last <= block && forall e :: e in past ==> e <= c.last
    ensures c.Drive(past + expiries, block) == c.Drive(expiries, block)
  {
    if past == [] {
      assert past + expiries == expiries;
    } else {
      assert (past + expiries)[1..] == past[1..] + expiries;
      assert past[0] in past && forall e :: e in past[1..] ==> e in past;
      DriveSkipsPast(c, past[1..], expiries, block);
    }
  }

  lemma {:induction false} ScanSkipsQuiet(c: CoreState, b: nat, stop: nat, block: nat)
    requires c.last < b <= stop <= block && forall k: nat :: b <= k < stop ==> !c.EndsAt(k)
    ensures c.Scan(b, block) == c.Scan(stop, block)
    decreases stop - b
  {
    if b < stop {
      ScanSkipsQuiet(c, b + 1, stop, block);
    }
  }

  /**
   Driving execution by an ascending list that covers every stop equals visiting every block. Nothing is asked
   of the entries that are not stops.
   */
  lemma {:induction false} DriveRefinesScan(c: CoreState, expiries: seq<nat>, block: nat)
    requires c.last <= block && Ascending(expiries)
    requires forall b: nat :: c.last < b < block && c.EndsAt(b) ==> b in expiries
    ensures c.Drive(expiries, block) == c.Scan(c.last + 1, block)
    decreases |expiries|
  {
    hide CoreState.ExecuteAt, CoreState.EndsAt;
    if expiries == [] {
      if c.last < block {
        ScanSkipsQuiet(c, c.last + 1, block, block);
      }
    } else {
      var e, rest := expiries[0], expiries[1..];
      assert expiries == [e] + rest;
      if c.EndsAt(e) && c.last < e < block {
        ScanSkipsQuiet(c, c.last + 1, e, block);
        if c.ExecuteAt(e).Some? {
          ExecuteKeepsEndings(c, e);
          DriveRefinesScan(c.ExecuteAt(e).value, rest, block);
        }
      } else {
        DriveRefinesScan(c, rest, block);
      }
    }
  }

  /** Stopping at a block where orders end and going on from there is what one execution does anyway. */
  lemma {:induction false} SplitScan(c: CoreState, b: nat, m: nat, n: nat)
    requires c.last < b <= m < n && c.EndsAt(m)
    ensures c.Scan(b, m).None? ==> c.Scan(b, n).None?
    ensures c.Scan(b, m).Some? ==>
      c.Scan(b, m).value.last == m && c.Scan(b, n) == c.Scan(b, m).value.Scan(m + 1, n)
    decreases m - b
  {
    hide CoreState.ExecuteAt, CoreState.EndsAt;
    if b < m {
      if !c.EndsAt(b) {
        SplitScan(c, b + 1, m, n);
      } else if c.ExecuteAt(b).Some? {
        ExecuteKeepsEndings(c, b);
        SplitScan(c.ExecuteAt(b).value, b + 1, m, n);
      }
    }
  }
}
