/** The expiry index as a value: the search tree and the lists that reports leave behind, keyed by root. */
module ExpiryIndex {
  import opened ExpiryTree

  /** How far past the end of the executed interval upcoming expiries are listed. */
  const TIME_EXTENSION: nat := 50400

  type SearchTree = t: Tree | Ordered(t) witness Leaf

  /** A Solidity mapping of lists reads the empty list where nothing was stored. */
  function ListAt(lists: map<nat, seq<nat>>, key: nat): seq<nat> {
    if key in lists then lists[key] else []
  }

  /** Append `value` unless the list already ends with it. */
  function Push(list: seq<nat>, value: nat): seq<nat> {
    if list != [] && list[|list| - 1] == value then list else list + [value]
  }

  function PushAll(list: seq<nat>, values: seq<nat>): seq<nat>
    decreases values
  {
    if values == [] then list else PushAll(Push(list, values[0]), values[1..])
  }

  function Trimmed(t: SearchTree, start: nat, end: nat): SearchTree {
    if start <= end then
      TrimLeavesOutside(t, start, end);
      ExpiryTree.Trim(t, start, end)
    else t
  }

  datatype IndexState = IndexState(
    tree: SearchTree,
    rootLast: nat,
    rootToList: map<nat, seq<nat>>,
    futureExpiries: map<nat, seq<nat>>
  ) {

    /** Inserting the null key 0 makes sense only as the first, empty, tree. */
    function Insert(key: nat): IndexState
      requires 0 < key || tree.Leaf?
    {
      if tree.Leaf? then
        IndexState(if key == 0 then Leaf else Node(Leaf, key, Leaf), key, rootToList,
                   futureExpiries[key := ListAt(futureExpiries, key) + [key]])
      else
        InsertAddsKey(tree, key);
        this.(tree := ExpiryTree.Insert(tree, key))
    }

    function Delete(key: nat): IndexState {
      DeleteRemovesKey(tree, key);
      this.(tree := ExpiryTree.Delete(tree, key))
    }

    function Trim(start: nat, end: nat): IndexState {
      this.(tree := Trimmed(tree, start, end))
    }

    /**
     List the keys of [start, end] and, separately, those up to TIME_EXTENSION past `end`; then trim the former.
     The list kept for the current root starts afresh only if that root was also the last one reported.
     */
    function Process(start: nat, end: nat): IndexState {
      if tree.Leaf? then this
      else if end < start then Report([], [], end)
      else Report(Between(tree, start, end), Between(tree, end + 1, end + TIME_EXTENSION), end).Trim(start, end)
    }

    function Report(expiries: seq<nat>, upcoming: seq<nat>, end: nat): IndexState {
      var root := Root(tree);
      this.(rootLast := root,
            rootToList := rootToList[root := PushAll(StaleList(), expiries)],
            futureExpiries := futureExpiries[root := PushAll([end], upcoming)])
    }

    /** The list the next report starts from: entries of an earlier use of the same root, if any. */
    function StaleList(): seq<nat> {
      if Root(tree) == rootLast then [] else ListAt(rootToList, Root(tree))
    }

    function ExpiriesList(): seq<nat> {
      ListAt(rootToList, rootLast)
    }

    function FutureExpiriesList(): seq<nat> {
      ListAt(futureExpiries, rootLast)
    }
  }

  const EMPTY_INDEX := IndexState(Leaf, 0, map[], map[])

  lemma {:induction false} PushAllConcat(list: seq<nat>, xs: seq<nat>, ys: seq<nat>)
    ensures PushAll(list, xs + ys) == PushAll(PushAll(list, xs), ys)
    decreases xs
  {
    if xs == [] {
      assert xs + ys == ys;
    } else {
      assert (xs + ys)[1..] == xs[1..] + ys;
      PushAllConcat(Push(list, xs[0]), xs[1..], ys);
    }
  }

  /** Pushing an ascending run appends it whole, except that its first element may repeat the end of the list. */
  lemma {:induction false} PushAscending(list: seq<nat>, xs: seq<nat>)
    requires Ascending(xs)
    ensures PushAll(list, xs) ==
            if list != [] && xs != [] && list[|list| - 1] == xs[0] then list + xs[1..] else list + xs
    decreases xs
  {
    if xs != [] {
      PushAscending(Push(list, xs[0]), xs[1..]);
    }
  }

  /** A report appends the range to the root's list, restarts the future list, and trims the range away. */
  lemma ReportedLists(ix: IndexState, start: nat, end: nat)
    requires ix.tree.Node? && start <= end
    ensures var after := ix.Process(start, end);
      && after.ExpiriesList() == PushAll(ix.StaleList(), Between(ix.tree, start, end))
      && after.FutureExpiriesList() == [end] + Between(ix.tree, end + 1, end + TIME_EXTENSION)
      && after.tree == Trimmed(ix.tree, start, end)
      && (forall r :: r != Root(ix.tree) ==> ListAt(after.rootToList, r) == ListAt(ix.rootToList, r))
      && after.rootLast == Root(ix.tree)
  {
    hide Keys, Ordered;
    var future := Between(ix.tree, end + 1, end + TIME_EXTENSION);
    BetweenListsRange(ix.tree, end + 1, end + TIME_EXTENSION);
    assert future != [] ==> future[0] in future;
    PushAscending([end], future);
  }

  /**
   What one report returns. From a fresh list it is exactly the keys of [start, end] in ascending order; over a
   stale list those keys follow the stale entries. The future list is `end` and then exactly the keys within
   the extension.
   */
  lemma ReportListsRange(ix: IndexState, start: nat, end: nat)
    requires ix.tree.Node? && start <= end
    ensures var keys := Keys(ix.tree);
      var list, future := ix.Process(start, end).ExpiriesList(), ix.Process(start, end).FutureExpiriesList();
      && (ix.StaleList() == [] ==> Ascending(list) && forall k :: k in list <==> k in keys && start <= k <= end)
      && Ascending(future) && |future| > 0 && future[0] == end
      && (forall k :: k in future[1..] <==> k in keys && end < k <= end + TIME_EXTENSION)
      && Keys(ix.Process(start, end).tree) == (set k | k in keys && !(start <= k <= end))
  {
    ReportedLists(ix, start, end);
    BetweenListsRange(ix.tree, start, end);
    PushAscending([], Between(ix.tree, start, end));
    assert [] + Between(ix.tree, start, end) == Between(ix.tree, start, end);
    BetweenListsRange(ix.tree, end + 1, end + TIME_EXTENSION);
    TrimLeavesOutside(ix.tree, start, end);
    hide Between, Keys, Ordered, PushAll, IndexState.Process, ExpiryTree.Trim;
    ConsAscending(end, Between(ix.tree, end + 1, end + TIME_EXTENSION));
  }

  lemma ConsAscending(x: nat, xs: seq<nat>)
    requires Ascending(xs) && forall y :: y in xs ==> x < y
    ensures Ascending([x] + xs) && ([x] + xs)[1..] == xs
  {
    assert forall i :: 0 <= i < |xs| ==> xs[i] in xs;
  }

  /** The key of an empty index becomes its root, is filed as upcoming, and its first report starts afresh. */
  lemma FirstInsert(ix: IndexState, key: nat)
    requires ix.tree.Leaf? && 0 < key
    ensures var next := ix.Insert(key);
      && Keys(next.tree) == {key} && Root(next.tree) == key && next.rootLast == key && next.StaleList() == []
      && next.FutureExpiriesList() == ListAt(ix.futureExpiries, key) + [key]
      && next.rootToList == ix.rootToList
      && forall r :: r != key ==> ListAt(next.futureExpiries, r) == ListAt(ix.futureExpiries, r)
  {
  }

  /** A further key leaves the root and all lists alone. */
  lemma LaterInsert(ix: IndexState, key: nat)
    requires ix.tree.Node? && 0 < key
    ensures var next := ix.Insert(key);
      && Keys(next.tree) == Keys(ix.tree) + {key} && Root(next.tree) == Root(ix.tree)
      && next == ix.(tree := next.tree)
  {
    InsertAddsKey(ix.tree, key);
    RootAfterInsert(ix.tree, key);
  }

  /** `list` is `prior` followed by `range`, which may start where `prior` ends. */
  predicate FiledAfter(list: seq<nat>, prior: seq<nat>, range: seq<nat>) {
    list == prior + if prior != [] && range != [] && prior[|prior| - 1] == range[0] then range[1..] else range
  }

  /**
   A report, told without the functions that make it. It is filed under the root it found: what was there stays in
   front unless that root was also the last one reported; the keys of [start, end] follow in ascending order and leave
   the tree; `end` and the keys up to 50400 blocks past it are filed as upcoming; no other root's list changes.
   */
  lemma ReportDoes(ix: IndexState, start: nat, end: nat) returns (range: seq<nat>)
    requires ix.tree.Node? && start <= end
    ensures Ascending(range) && forall k :: k in range <==> k in Keys(ix.tree) && start <= k <= end
    ensures var after, root := ix.Process(start, end), Root(ix.tree);
      && after.rootLast == root
      && FiledAfter(after.ExpiriesList(), if root == ix.rootLast then [] else ListAt(ix.rootToList, root), range)
      && (forall r :: r != root ==> ListAt(after.rootToList, r) == ListAt(ix.rootToList, r))
      && (forall r :: r != root ==> ListAt(after.futureExpiries, r) == ListAt(ix.futureExpiries, r))
      && Ascending(after.FutureExpiriesList())
      && |after.FutureExpiriesList()| > 0 && after.FutureExpiriesList()[0] == end
      && (forall k :: k in after.FutureExpiriesList()[1..] <==> k in Keys(ix.tree) && end < k <= end + 50_400)
      && Keys(after.tree) == (set k | k in Keys(ix.tree) && !(start <= k <= end))
  {
    hide Keys, Ordered, Between, PushAll, ExpiryTree.Trim;
    range := Between(ix.tree, start, end);
    BetweenListsRange(ix.tree, start, end);
    ReportedLists(ix, start, end);
    ReportListsRange(ix, start, end);
    PushAscending(ix.StaleList(), range);
  }

  /** A range that runs backwards is empty: the root is remembered, its lists restart, and nothing is trimmed. */
  lemma BackwardReportDoes(ix: IndexState, start: nat, end: nat)
    requires ix.tree.Node? && end < start
    ensures var after, root := ix.Process(start, end), Root(ix.tree);
      && after.tree == ix.tree && after.rootLast == root && after.FutureExpiriesList() == [end]
      && after.ExpiriesList() == if root == ix.rootLast then [] else ListAt(ix.rootToList, root)
  {
    assert PushAll([end], []) == [end];
  }
}
