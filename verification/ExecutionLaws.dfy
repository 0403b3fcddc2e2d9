/** How executions compose, in two legs and twice at one block, and when one succeeds. */
module ExecutionLaws {
  import opened Basics
  import opened OrderPools
  import opened OrderPoolLedger
  import opened FixedPoint
  import opened Pricing
  import opened Sums
  import opened Execution
  import opened Solvency
  import opened ExpiryTree
  import opened ExpiryIndex
  import opened Orders
  import opened IndexRefinement

  lemma {:induction false} ScanKeepsEndings(c: CoreState, b: nat, block: nat)
    requires c.last < b && c.last <= block
    ensures c.Scan(b, block).Some? ==> forall k: nat :: c.Scan(b, block).value.EndsAt(k) == c.EndsAt(k)
    decreases block - b
  {
    if block <= b {
      if c.ExecuteAt(block).Some? {
        ExecuteKeepsEndings(c, block);
      }
    } else if c.EndsAt(b) {
      if c.ExecuteAt(b).Some? {
        ExecuteKeepsEndings(c, b);
        ScanKeepsEndings(c.ExecuteAt(b).value, b + 1, block);
      }
    } else {
      ScanKeepsEndings(c, b + 1, block);
    }
  }

  lemma FirstLeg(s: OrdersState, m: nat, now: nat)
    requires Indexed(s) && s.core.last <= m <= now
    ensures s.ExecuteUntil(m, now).Some? <==> s.core.Scan(s.core.last + 1, m).Some?
    ensures s.ExecuteUntil(m, now).Some? ==> var first := s.ExecuteUntil(m, now).value;
      && Some(first.core) == s.core.Scan(s.core.last + 1, m)
      && Keys(first.index.tree) == KeysPast(Keys(s.index.tree), m)
      && Indexed(first)
  {
    IndexRefinesScan(s, m);
    ProcessedKeysAhead(s, m);
    if s.core.Scan(s.core.last + 1, m).Some? {
      var next := s.core.Scan(s.core.last + 1, m).value;
      ScanKeepsEndings(s.core, s.core.last + 1, m);
      ExecutionKeepsIndexed(s, m, next);
      hide CoreState.Scan, CoreState.Drive, CoreState.EndsAt, IndexState.Process, Keys, Indexed;
      assert s.ExecuteUntil(m, now) == Some(s.(core := next, index := Processed(s, m)));
    }
  }

  /**
   Executing to a block `m` where orders end, and from there to `n`, is executing straight to `n`: the same
   reserves, pools and totals, and the same keys left in the index; and the one reverts just when the other does.
   */
  lemma SplitExecution(s: OrdersState, m: nat, n: nat, now: nat)
    requires Indexed(s) && s.core.last < m < n <= now && s.core.EndsAt(m)
    ensures s.ExecuteUntil(m, now).None? ==> s.ExecuteUntil(n, now).None?
    ensures s.ExecuteUntil(m, now).Some? ==>
      var direct, second := s.ExecuteUntil(n, now), s.ExecuteUntil(m, now).value.ExecuteUntil(n, now);
      && (direct.Some? <==> second.Some?)
      && (direct.Some? ==> direct.value.core == second.value.core)
      && (direct.Some? ==> Keys(direct.value.index.tree) == Keys(second.value.index.tree))
  {
    hide OrdersState.ExecuteUntil, CoreState.Scan, CoreState.EndsAt, Keys, Indexed, KeysPast;
    FirstLeg(s, m, now);
    FirstLeg(s, n, now);
    SplitScan(s.core, s.core.last + 1, m, n);
    if s.ExecuteUntil(m, now).Some? {
      FirstLeg(s.ExecuteUntil(m, now).value, n, now);
      KeysPastCompose(Keys(s.index.tree), m, n);
    }
  }

  lemma KeysPastCompose(keys: set<nat>, m: nat, n: nat)
    requires m <= n
    ensures KeysPast(KeysPast(keys, m), n) == KeysPast(keys, n)
  {
    assert IntervalStart(m) <= IntervalStart(n);
  }

  /**
   Executing at the block already reached, in a pair with reserves. It moves no token and keeps every key past the
   current interval boundary; it lowers each lumped rate by exactly what ends at that block, and reverts just when
   one of them is lower than that. So it leaves the virtual execution state as it was exactly when nothing ends
   there, up to entries a mapping already reads as such.
   */
  lemma RepeatExecutionMovesNothing(s: OrdersState, now: nat)
    requires Indexed(s) && s.core.Ready() && s.core.last <= now
    requires Marked(s.core.pools.a, s.core.last) && Marked(s.core.pools.b, s.core.last)
    ensures var c, r := s.core, s.ExecuteUntil(s.core.last, now);
      && (r.Some? <==> forall side: Side :: c.pools.At(side).Ending(c.last) <= c.pools.At(side).currentSalesRate)
      && (r.Some? ==> var next := r.value;
            && next.core.reserves == c.reserves && next.core.books == c.books && OrdersUntouched(c, next.core)
            && (forall side: Side ::
                  var p, q := c.pools.At(side), next.core.pools.At(side);
                  && q.rewardFactor == p.rewardFactor
                  && (forall b: nat :: q.Recorded(b) == p.Recorded(b))
                  && q.currentSalesRate == p.currentSalesRate - p.Ending(c.last))
            && Keys(next.index.tree) == KeysPast(Keys(s.index.tree), c.last))
  {
    IndexRefinesScan(s, s.core.last);
    RepeatExecution(s.core);
    ProcessedKeysAhead(s, s.core.last);
    hide CoreState.Drive, CoreState.ExecuteAt, IndexState.Process, Keys, OrdersUntouched;
  }

  // When execution succeeds ---------------------------------------------------------------------------------

  /** The lumped rate covers what is recorded to end on the way to `block`, or once more at the block reached. */
  ghost predicate CoversEndings(p: PoolState, last: nat, block: nat)
    requires last <= block
  {
    (if block == last then p.Ending(last) else Sum(Endings(p, last, block))) <= p.currentSalesRate
  }

  lemma EndingsNonNegative(p: PoolState, last: nat, block: nat)
    requires last <= block
    ensures 0 <= Sum(Endings(p, last, block))
  {
    var endings := Endings(p, last, block);
    forall i | 0 <= i < |endings|
      ensures 0 <= endings[i]
    {
      assert endings[i] == p.Ending(last + 1 + i);
    }
    SumNonNegative(endings);
  }

  lemma EndingsSplit(p: PoolState, last: nat, stop: nat, block: nat)
    requires last < stop <= block && Quiet(p, last, stop)
    ensures Sum(Endings(p, last, block)) == p.Ending(stop) + Sum(Endings(p, stop, block))
    ensures 0 <= Sum(Endings(p, stop, block))
    decreases stop - last
  {
    EndingsNonNegative(p, stop, block);
    var all := Endings(p, last, block);
    if last + 1 == stop {
      assert all[0] == p.Ending(stop) && all[1..] == Endings(p, stop, block);
    } else {
      assert all[0] == p.Ending(last + 1) == 0 && all[1..] == Endings(p, last + 1, block);
      EndingsSplit(p, last + 1, stop, block);
    }
  }

  lemma EndingsAtStop(p: PoolState, block: nat)
    ensures Sum(Endings(p, block, block)) == 0
  {
  }

  /** One advance underflows exactly when the lumped rate is below what ends at its block. */
  lemma AdvanceSucceedsIff(p: PoolState, amount: nat, block: nat)
    ensures p.Advance(amount, block).Some? <==> p.Ending(block) <= p.currentSalesRate
    ensures p.Advance(amount, block).Some? ==> var q := p.Advance(amount, block).value;
      && q.currentSalesRate == p.currentSalesRate - p.Ending(block)
      && q.salesRateEndingPerBlock == p.salesRateEndingPerBlock
  {
    hide RewardPerRate;
  }

  lemma ExecuteAtSucceedsIff(c: CoreState, block: nat)
    requires c.Ready() && c.last <= block
    ensures c.ExecuteAt(block).Some? <==>
      c.pools.a.Ending(block) <= c.pools.a.currentSalesRate && c.pools.b.Ending(block) <= c.pools.b.currentSalesRate
    ensures c.ExecuteAt(block).Some? ==> var next := c.ExecuteAt(block).value;
      && next.Ready()
      && next.pools.a.currentSalesRate == c.pools.a.currentSalesRate - c.pools.a.Ending(block)
      && next.pools.b.currentSalesRate == c.pools.b.currentSalesRate - c.pools.b.Ending(block)
      && next.pools.a.salesRateEndingPerBlock == c.pools.a.salesRateEndingPerBlock
      && next.pools.b.salesRateEndingPerBlock == c.pools.b.salesRateEndingPerBlock
  {
    ExecuteAtByPools(c, block);
    var out := TradeUpTo(c, block).out;
    hide CoreState.ExecuteAt, TradeUpTo, Net, PoolState.Advance;
    AdvanceSucceedsIff(c.pools.a, Net(out.b), block);
    AdvanceSucceedsIff(c.pools.b, Net(out.a), block);
    if c.ExecuteAt(block).Some? {
      ReservesAfter(c, block);
    }
  }

  lemma SameEndings(p: PoolState, q: PoolState, last: nat, block: nat)
    requires last <= block && q.salesRateEndingPerBlock == p.salesRateEndingPerBlock
    ensures Endings(q, last, block) == Endings(p, last, block)
  {
    forall i | 0 <= i < block - last
      ensures Endings(q, last, block)[i] == Endings(p, last, block)[i]
    {
      assert q.Ending(last + 1 + i) == p.Ending(last + 1 + i);
    }
  }

  /** A last stretch on which nothing ends before its end. */
  lemma CoversLastStretch(p: PoolState, last: nat, block: nat)
    requires last <= block && Quiet(p, last, block)
    ensures CoversEndings(p, last, block) <==> p.Ending(block) <= p.currentSalesRate
  {
    if last < block {
      EndingsSplit(p, last, block, block);
      EndingsAtStop(p, block);
      assert Sum(Endings(p, last, block)) == p.Ending(block);
    }
  }

  lemma CoversFromStop(p: PoolState, q: PoolState, last: nat, stop: nat, block: nat)
    requires last < stop < block && Quiet(p, last, stop)
    requires q.salesRateEndingPerBlock == p.salesRateEndingPerBlock
    ensures CoversEndings(p, last, block) ==> p.Ending(stop) <= p.currentSalesRate
    ensures p.Ending(stop) <= p.currentSalesRate && q.currentSalesRate == p.currentSalesRate - p.Ending(stop) ==>
      (CoversEndings(p, last, block) <==> CoversEndings(q, stop, block))
  {
    EndingsSplit(p, last, stop, block);
    SameEndings(p, q, stop, block);
  }

  lemma {:induction false} ScanSucceedsIff(c: CoreState, b: nat, block: nat)
    requires c.Ready() && c.last < b && c.last <= block
    requires forall k: nat :: c.last < k < b ==> !c.EndsAt(k)
    ensures c.Scan(b, block).Some? <==>
      CoversEndings(c.pools.a, c.last, block) && CoversEndings(c.pools.b, c.last, block)
    decreases block - b
  {
    hide CoreState.ExecuteAt, CoversEndings, CoreState.EndsAt;
    if block <= b {
      QuietUntil(c, b, block);
      ExecuteAtSucceedsIff(c, block);
      CoversLastStretch(c.pools.a, c.last, block);
      CoversLastStretch(c.pools.b, c.last, block);
    } else if c.EndsAt(b) {
      QuietUntil(c, b, b);
      ExecuteAtSucceedsIff(c, b);
      CoversFromStop(c.pools.a, c.pools.a, c.last, b, block);
      CoversFromStop(c.pools.b, c.pools.b, c.last, b, block);
      if c.ExecuteAt(b).Some? {
        ExecuteKeepsEndings(c, b);
        var next := c.ExecuteAt(b).value;
        CoversFromStop(c.pools.a, next.pools.a, c.last, b, block);
        CoversFromStop(c.pools.b, next.pools.b, c.last, b, block);
        ScanSucceedsIff(next, b + 1, block);
      }
    } else {
      ScanSucceedsIff(c, b + 1, block);
    }
  }

  /**
   When execution of a pair with reserves succeeds, in any state: exactly from the last block up to now, if each
   pool's lumped rate covers all that is recorded to end on the way. Nothing else can stop it.
   */
  lemma ExecutionSucceedsIff(s: OrdersState, block: nat, now: nat)
    requires Indexed(s) && s.core.Ready()
    ensures s.ExecuteUntil(block, now).Some? <==>
      && s.core.last <= block <= now
      && CoversEndings(s.core.pools.a, s.core.last, block) && CoversEndings(s.core.pools.b, s.core.last, block)
  {
    if s.core.last <= block <= now {
      FirstLeg(s, block, now);
      hide Indexed, CoversEndings, CoreState.Scan, OrdersState.ExecuteUntil;
      ScanSucceedsIff(s.core, s.core.last + 1, block);
    }
  }
}
