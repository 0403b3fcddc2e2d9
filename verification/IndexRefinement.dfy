/** The expiry index finds every block at which execution has to stop, whatever it has been through before. */
module IndexRefinement {
  import opened Basics
  import opened Execution
  import opened ExpiryTree
  import opened ExpiryIndex
  import opened Orders

  /** Every key is due at an interval boundary, and none lies before the interval reached. */
  ghost predicate KeysAligned(s: OrdersState) {
    forall k :: k in Keys(s.index.tree) ==> k % ORDER_BLOCK_INTERVAL == 0 && IntervalStart(s.core.last) <= k
  }

  /** Every block still to come at which an order ends is a key. */
  ghost predicate KeysComplete(s: OrdersState) {
    forall b: nat :: s.core.EndsAt(b) ==>
      b % ORDER_BLOCK_INTERVAL == 0 && (s.core.last < b ==> b in Keys(s.index.tree))
  }

  /** No list left behind by a report names a block still to come. */
  ghost predicate ListsPast(s: OrdersState) {
    forall r, e :: e in ListAt(s.index.rootToList, r) ==> e <= s.core.last
  }

  ghost predicate Indexed(s: OrdersState) {
    KeysAligned(s) && KeysComplete(s) && ListsPast(s)
  }

  function Processed(s: OrdersState, block: nat): IndexState {
    s.index.Process(IntervalStart(s.core.last), IntervalStart(block))
  }

  lemma {:induction false} PushAllMembers(list: seq<nat>, xs: seq<nat>, e: nat)
    requires e in PushAll(list, xs)
    ensures e in list || e in xs
    decreases xs
  {
    if xs != [] {
      PushAllMembers(Push(list, xs[0]), xs[1..], e);
    }
  }

  /** A report over past entries is those entries followed by an ascending run with all the keys still to come. */
  lemma ReportSplits(stale: seq<nat>, xs: seq<nat>, last: nat) returns (ahead: seq<nat>)
    requires Ascending(xs) && forall e :: e in stale ==> e <= last
    ensures PushAll(stale, xs) == stale + ahead && Ascending(ahead)
    ensures forall x :: x in xs && last < x ==> x in ahead
  {
    PushAscending(stale, xs);
    if stale != [] && xs != [] && stale[|stale| - 1] == xs[0] {
      assert xs == [xs[0]] + xs[1..];
      assert forall x :: x in xs ==> x == xs[0] || x in xs[1..];
      assert xs[0] in stale;
      ahead := xs[1..];
    } else {
      ahead := xs;
    }
  }

  /** Every stop before `block` is in the range that is reported. */
  lemma StopsReported(s: OrdersState, block: nat, b: nat)
    requires KeysAligned(s) && KeysComplete(s) && s.core.last < b < block && s.core.EndsAt(b)
    ensures s.index.tree.Node?
    ensures b in Between(s.index.tree, IntervalStart(s.core.last), IntervalStart(block))
  {
    BetweenListsRange(s.index.tree, IntervalStart(s.core.last), IntervalStart(block));
  }

  lemma EmptyIndexRefinesScan(s: OrdersState, block: nat)
    requires Indexed(s) && s.core.last <= block && s.index.tree.Leaf?
    ensures s.core.Drive(s.index.ExpiriesList(), block) == s.core.Scan(s.core.last + 1, block)
  {
    var list := s.index.ExpiriesList();
    assert list + [] == list;
    assert Keys(s.index.tree) == {};
    assert forall e :: e in list ==> e <= s.core.last;
    hide CoreState.Drive, CoreState.Scan, CoreState.EndsAt, Keys, Ordered, ListAt, IndexState.ExpiriesList;
    assert forall b: nat :: s.core.last < b ==> !s.core.EndsAt(b);
    DriveSkipsPast(s.core, list, [], block);
    DriveRefinesScan(s.core, [], block);
  }

  /**
   Execution driven by the index stops exactly where a scan of every block would: the list it follows may start
   with entries left over from an earlier use of the same root, and may list keys at which nothing ends.
   */
  lemma IndexRefinesScan(s: OrdersState, block: nat)
    requires Indexed(s) && s.core.last <= block
    ensures s.core.Drive(Processed(s, block).ExpiriesList(), block) == s.core.Scan(s.core.last + 1, block)
  {
    hide Indexed, Ascending, CoreState.Drive, CoreState.Scan, CoreState.EndsAt, Processed, IndexState.ExpiriesList;
    if s.index.tree.Leaf? {
      EmptyIndexIsNotProcessed(s, block);
      EmptyIndexRefinesScan(s, block);
    } else {
      var stale, ahead := ReportCovers(s, block);
      DriveSkipsPast(s.core, stale, ahead, block);
      DriveRefinesScan(s.core, ahead, block);
    }
  }

  lemma EmptyIndexIsNotProcessed(s: OrdersState, block: nat)
    requires s.index.tree.Leaf?
    ensures Processed(s, block) == s.index
  {
  }

  /** What execution follows: entries of the past, and then an ascending list of every stop to come. */
  lemma ReportCovers(s: OrdersState, block: nat) returns (stale: seq<nat>, ahead: seq<nat>)
    requires Indexed(s) && s.core.last <= block && s.index.tree.Node?
    ensures Processed(s, block).ExpiriesList() == stale + ahead && Ascending(ahead)
    ensures forall e :: e in stale ==> e <= s.core.last
    ensures forall b: nat :: s.core.last < b < block && s.core.EndsAt(b) ==> b in ahead
  {
    hide Keys, Ordered, Between, PushAll, IndexState.Process, CoreState.EndsAt, Ascending, IntervalStart;
    var start, end := IntervalStart(s.core.last), IntervalStart(block);
    IntervalsInOrder(s.core.last, block);
    var xs := Between(s.index.tree, start, end);
    stale := s.index.StaleList();
    StaleIsPast(s);
    ReportedLists(s.index, start, end);
    BetweenListsRange(s.index.tree, start, end);
    hide ListsPast, ListAt, IndexState.StaleList, IndexState.ExpiriesList;
    ahead := ReportSplits(stale, xs, s.core.last);
    forall b: nat | s.core.last < b < block && s.core.EndsAt(b)
      ensures b in ahead
    {
      StopsReported(s, block, b);
    }
  }

  lemma IntervalsInOrder(m: nat, n: nat)
    requires m <= n
    ensures IntervalStart(m) <= IntervalStart(n)
  {
  }

  lemma StaleIsPast(s: OrdersState)
    requires ListsPast(s)
    ensures forall e :: e in s.index.StaleList() ==> e <= s.core.last
  {
  }

  /** The keys past the interval boundary at or before `block`. */
  function KeysPast(keys: set<nat>, block: nat): set<nat> {
    set k | k in keys && IntervalStart(block) < k
  }

  /** After execution to `block` exactly the keys past its interval are left, and all of them lie ahead. */
  lemma ProcessedKeysAhead(s: OrdersState, block: nat)
    requires KeysAligned(s) && s.core.last <= block
    ensures Keys(Processed(s, block).tree) == KeysPast(Keys(s.index.tree), block)
    ensures forall k :: k in Keys(Processed(s, block).tree) ==> block < k
  {
    hide Ordered, Between, PushAll, ExpiryTree.Trim;
    var start, end := IntervalStart(s.core.last), IntervalStart(block);
    IntervalsInOrder(s.core.last, block);
    AlignedKeys(s, block);
    hide KeysAligned, IntervalStart;
    if s.index.tree.Node? {
      hide Keys, IndexState.Process;
      ReportedLists(s.index, start, end);
      TrimLeavesOutside(s.index.tree, start, end);
    }
  }

  /** No key is left behind, and past the interval is past the block. */
  lemma AlignedKeys(s: OrdersState, block: nat)
    requires KeysAligned(s)
    ensures forall k :: k in Keys(s.index.tree) ==>
      IntervalStart(s.core.last) <= k && (IntervalStart(block) < k <==> block < k)
  {
    hide Keys;
  }

  lemma ProcessedLists(s: OrdersState, block: nat, r: nat, e: nat)
    requires ListsPast(s) && s.core.last <= block && e in ListAt(Processed(s, block).rootToList, r)
    ensures e <= block
  {
    var start, end := IntervalStart(s.core.last), IntervalStart(block);
    if s.index.tree.Node? {
      ReportedLists(s.index, start, end);
      BetweenListsRange(s.index.tree, start, end);
      hide Keys, Ordered, Between, PushAll, IndexState.Process;
      if r == Root(s.index.tree) {
        PushAllMembers(s.index.StaleList(), Between(s.index.tree, start, end), e);
      }
    }
  }

  /** Execution leaves the index complete, trimmed and without a stale entry for a block to come. */
  lemma ExecutionKeepsIndexed(s: OrdersState, block: nat, next: CoreState)
    requires Indexed(s) && s.core.last <= block && next.last == block
    requires forall b: nat :: next.EndsAt(b) == s.core.EndsAt(b)
    ensures Indexed(s.(core := next, index := Processed(s, block)))
  {
    ProcessedKeysAhead(s, block);
    var after := s.(core := next, index := Processed(s, block));
    forall r, e | e in ListAt(after.index.rootToList, r)
      ensures e <= block
    {
      ProcessedLists(s, block, r, e);
    }
    hide IndexState.Process;
    assert forall b: nat :: next.EndsAt(b) && block < b ==> IntervalStart(block) < b;
  }

  /** A new expiry lies ahead of the current block, so it is never trimmed by the execution that follows. */
  lemma InsertKeepsIndexed(s: OrdersState, expiry: nat)
    requires Indexed(s) && s.core.last < expiry && expiry % ORDER_BLOCK_INTERVAL == 0
    ensures Indexed(s.(index := s.index.Insert(expiry)))
    ensures Keys(s.index.Insert(expiry).tree) == Keys(s.index.tree) + {expiry}
    ensures s.index.Insert(expiry).rootToList == s.index.rootToList
  {
    InsertAddsKey(s.index.tree, expiry);
    var after := s.(index := s.index.Insert(expiry));
    assert Keys(after.index.tree) == Keys(s.index.tree) + {expiry};
  }

  /** Dropping a block at which nothing ends any more keeps the index complete. */
  lemma DropKeepsIndexed(s: OrdersState, order: Order)
    requires Indexed(s) && order.buyToken == order.sellToken.Other()
    ensures Indexed(s.DropExpiry(order))
  {
    DeleteRemovesKey(s.index.tree, order.expirationBlock);
  }
}
