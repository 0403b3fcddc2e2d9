/**
 The expiry index as the contract stores it: a mapping from block number to a node with parent, left and right
 links, rewritten in place by recursive procedures.
 */
module BinarySearchTrees {
  import opened ExpiryTree
  import opened ExpiryIndex

  datatype TreeNode = TreeNode(parent: nat, value: nat, left: nat, right: nat)

  const NULL_NODE := TreeNode(0, 0, 0, 0)

  type Nodes = map<nat, TreeNode>

  /** A Solidity mapping reads the zero node where nothing was stored. */
  function At(m: Nodes, id: nat): TreeNode {
    if id in m then m[id] else NULL_NODE
  }

  /** The mapping holds `t`, linked below a node with id `parent`. */
  ghost predicate Holds(m: Nodes, parent: nat, t: Tree)
    decreases t
  {
    t.Node? ==>
      && At(m, t.value) == TreeNode(parent, t.value, Root(t.left), Root(t.right))
      && Holds(m, t.value, t.left)
      && Holds(m, t.value, t.right)
  }

  ghost predicate SameOutside(m: Nodes, m': Nodes, touched: set<nat>) {
    forall id: nat :: id !in touched ==> At(m', id) == At(m, id)
  }

  /** `parent` now links to `child` on the side where the removed `value` hung; the null parent has no links. */
  function Linked(parent: TreeNode, id: nat, value: nat, child: nat): TreeNode {
    if id == 0 then parent
    else if value < id then parent.(left := child)
    else parent.(right := child)
  }

  lemma {:induction false} HoldsFrame(m: Nodes, m': Nodes, parent: nat, t: Tree)
    requires Holds(m, parent, t)
    requires forall id :: id in Keys(t) ==> At(m', id) == At(m, id)
    ensures Holds(m', parent, t)
    decreases t
  {
    if t.Node? {
      assert Keys(t.left) <= Keys(t) && Keys(t.right) <= Keys(t) && t.value in Keys(t);
      HoldsFrame(m, m', t.value, t.left);
      HoldsFrame(m, m', t.value, t.right);
    }
  }

  lemma WiderFrame(m: Nodes, m': Nodes, touched: set<nat>, wider: set<nat>)
    requires SameOutside(m, m', touched) && touched <= wider
    ensures SameOutside(m, m', wider)
  {
  }

  /** Rewriting the parent link of a subtree's root rehangs the subtree. */
  lemma Rehang(m: Nodes, m': Nodes, parent: nat, t: SearchTree, newParent: nat)
    requires Holds(m, parent, t)
    requires t.Node? ==> At(m', t.value) == At(m, t.value).(parent := newParent)
    requires forall id :: id in Keys(t) && id != t.value ==> At(m', id) == At(m, id)
    ensures Holds(m', newParent, t)
  {
    if t.Node? {
      HoldsFrame(m, m', t.value, t.left);
      HoldsFrame(m, m', t.value, t.right);
    }
  }

  /** How a search tree and the links that hold it come apart at the root. */
  lemma Parts(m: Nodes, parent: nat, t: SearchTree)
    requires t.Node? && Holds(m, parent, t)
    ensures At(m, t.value) == TreeNode(parent, t.value, Root(t.left), Root(t.right))
    ensures Holds(m, t.value, t.left) && Holds(m, t.value, t.right)
    ensures Ordered(t.left) && (Root(t.left) == 0 <==> t.left.Leaf?)
    ensures Ordered(t.right) && (Root(t.right) == 0 <==> t.right.Leaf?)
    ensures Keys(t) == Keys(t.left) + {t.value} + Keys(t.right) && Keys(t.left) !! Keys(t.right)
    ensures t.value !in Keys(t.left) && t.value !in Keys(t.right)
    ensures t.left.Node? ==> t.left.value in Keys(t.left)
    ensures t.right.Node? ==> t.right.value in Keys(t.right)
  {
  }

  /** Insertion takes one side of a node and leaves the other alone. */
  lemma InsertSides(t: SearchTree, key: nat)
    requires t.Node? && 0 < key
    ensures key == t.value ==> ExpiryTree.Insert(t, key) == t
    ensures key < t.value ==>
      && ExpiryTree.Insert(t, key) == t.(left := ExpiryTree.Insert(t.left, key)) && key !in Keys(t.right)
      && Root(ExpiryTree.Insert(t.left, key)) == if t.left.Leaf? then key else t.left.value
    ensures t.value < key ==>
      && ExpiryTree.Insert(t, key) == t.(right := ExpiryTree.Insert(t.right, key)) && key !in Keys(t.left)
      && Root(ExpiryTree.Insert(t.right, key)) == if t.right.Leaf? then key else t.right.value
  {
  }

  lemma HoldsLeaf(m: Nodes, parent: nat, key: nat)
    requires At(m, key) == TreeNode(parent, key, 0, 0)
    ensures Holds(m, parent, ExpiryTree.Insert(Leaf, key))
  {
  }

  lemma Assemble(m: Nodes, parent: nat, t: Tree)
    requires t.Node? && At(m, t.value) == TreeNode(parent, t.value, Root(t.left), Root(t.right))
    requires Holds(m, t.value, t.left) && Holds(m, t.value, t.right)
    ensures Holds(m, parent, t)
  {
  }

  /** One turn of trimming a non-empty tree, and what it clears. */
  lemma TrimTurn(t: SearchTree, parent: nat, start: nat, end: nat)
    requires t.Node? && start <= end
    ensures t.value < start ==> Trimmed(t, start, end) == t.(right := Trimmed(t.right, start, end))
    ensures Ordered(DeleteRoot(t)) && Keys(DeleteRoot(t)) == Keys(t) - {t.value} && Size(DeleteRoot(t)) < Size(t)
    ensures start <= t.value <= end ==> Trimmed(t, start, end) == Trimmed(DeleteRoot(t), start, end)
    ensures end < t.value ==> Trimmed(t, start, end) == t.(left := Trimmed(t.left, start, end))
    ensures t.value < start ==> forall k :: k in Keys(t.left) ==> k < start
    ensures end < t.value ==> forall k :: k in Keys(t.right) ==> end < k
    ensures HangsFrom(TreeNode(parent, t.value, Root(t.left), Root(t.right)), t.value, t.left)
    ensures HangsFrom(TreeNode(parent, t.value, Root(t.left), Root(t.right)), t.value, t.right)
    ensures Size(t.left) < Size(t) && Size(t.right) < Size(t)
    ensures t.left.Leaf? ==> Trimmed(t.left, start, end) == Leaf
    ensures t.right.Leaf? ==> Trimmed(t.right, start, end) == Leaf
    ensures DeleteRoot(t).Leaf? ==> Trimmed(DeleteRoot(t), start, end) == Leaf
  {
    DeleteRootRemovesRoot(t);
    DeleteRootShrinks(t);
  }

  /** After the root of `t` is replaced, what is left still hangs from the same side of its parent. */
  lemma StillHangs(node: TreeNode, parent: nat, t: Tree, rest: Tree)
    requires t.Node? && 0 < parent && HangsFrom(node, parent, t) && Keys(rest) <= Keys(t)
    ensures HangsFrom(Linked(node, parent, t.value, Root(rest)), parent, rest)
    ensures rest.Node? ==> forall x, y ::
      Linked(Linked(node, parent, t.value, x), parent, rest.value, y) == Linked(node, parent, t.value, y)
  {
    assert t.value in Keys(t) && (rest.Node? ==> rest.value in Keys(rest));
    assert rest.Node? ==> rest.value in Keys(t);
  }

  ghost predicate Cleared(m: Nodes, keys: set<nat>, start: nat, end: nat) {
    forall id :: id in keys && start <= id <= end ==> At(m, id) == NULL_NODE
  }

  /** A side out of the range has nothing to clear. */
  lemma ClearedOnOneSide(m: Nodes, t: SearchTree, start: nat, end: nat)
    requires t.Node?
    ensures t.value < start && Cleared(m, Keys(t.right), start, end) ==> Cleared(m, Keys(t), start, end)
    ensures end < t.value && Cleared(m, Keys(t.left), start, end) ==> Cleared(m, Keys(t), start, end)
  {
  }

  /** `m'` is `m` with the keys of `t` within [start, end] taken out of the subtree that hangs from `parent`. */
  ghost predicate TrimmedIn(m: Nodes, m': Nodes, parent: nat, t: SearchTree, start: nat, end: nat) {
    && Holds(m', parent, Trimmed(t, start, end))
    && SameOutside(m, m', Keys(t) + {parent})
    && Cleared(m', Keys(t), start, end)
    && (t.Node? ==> At(m', parent) == Linked(At(m, parent), parent, t.value, Root(Trimmed(t, start, end))))
    && (t.Leaf? ==> SameOutside(m, m', {}))
  }

  lemma ParentOutside(node: TreeNode, id: nat, t: SearchTree)
    requires HangsFrom(node, id, t)
    ensures id !in Keys(t)
  {
  }

  lemma NothingTrimmed(m: Nodes, parent: nat, t: SearchTree, start: nat, end: nat)
    requires Holds(m, parent, t) && HangsFrom(At(m, parent), parent, t)
    ensures t.Leaf? || end < start ==> TrimmedIn(m, m, parent, t, start, end)
  {
  }

  lemma RightSideTrimmed(m: Nodes, m': Nodes, parent: nat, t: SearchTree, start: nat, end: nat)
    requires t.Node? && Holds(m, parent, t) && HangsFrom(At(m, parent), parent, t) && t.value < start <= end
    requires 0 < parent && TrimmedIn(m, m', t.value, t.right, start, end)
    ensures TrimmedIn(m, m', parent, t, start, end)
  {
    Parts(m, parent, t);
    TrimTurn(t, parent, start, end);
    SidesAreOrdered(t);
    ParentOutside(At(m, parent), parent, t);
    assert Linked(At(m, parent), parent, t.value, t.value) == At(m, parent);
    hide Keys, Ordered, Trimmed, HangsFrom, Holds;
    var rest := Trimmed(t.right, start, end);
    ClearedOnOneSide(m', t, start, end);
    hide Cleared;
    assert At(m', t.value) == At(m, t.value).(right := Root(rest));
    HoldsFrame(m, m', t.value, t.left);
    Assemble(m', parent, t.(right := rest));
    WiderFrame(m, m', Keys(t.right) + {t.value}, Keys(t) + {parent});
  }

  lemma LeftSideTrimmed(m: Nodes, m': Nodes, parent: nat, t: SearchTree, start: nat, end: nat)
    requires t.Node? && Holds(m, parent, t) && HangsFrom(At(m, parent), parent, t) && start <= end < t.value
    requires 0 < parent && TrimmedIn(m, m', t.value, t.left, start, end)
    ensures TrimmedIn(m, m', parent, t, start, end)
  {
    Parts(m, parent, t);
    TrimTurn(t, parent, start, end);
    SidesAreOrdered(t);
    ParentOutside(At(m, parent), parent, t);
    assert Linked(At(m, parent), parent, t.value, t.value) == At(m, parent);
    hide Keys, Ordered, Trimmed, HangsFrom, Holds;
    var rest := Trimmed(t.left, start, end);
    ClearedOnOneSide(m', t, start, end);
    hide Cleared;
    assert At(m', t.value) == At(m, t.value).(left := Root(rest));
    HoldsFrame(m, m', t.value, t.right);
    Assemble(m', parent, t.(left := rest));
    WiderFrame(m, m', Keys(t.left) + {t.value}, Keys(t) + {parent});
  }

  /** The effect of deleting the root of `t` from the mapping. */
  ghost predicate RootDeleted(m: Nodes, m': Nodes, parent: nat, t: SearchTree)
    requires t.Node?
  {
    && Holds(m', parent, DeleteRoot(t)) && At(m', t.value) == NULL_NODE
    && At(m', parent) == Linked(At(m, parent), parent, t.value, Root(DeleteRoot(t)))
    && SameOutside(m, m', Keys(t) + {parent})
  }

  lemma RootTrimmed(m: Nodes, m': Nodes, parent: nat, t: SearchTree, start: nat, end: nat)
    requires t.Node? && RootDeleted(m, m', parent, t) && start <= t.value <= end
    requires 0 < parent && HangsFrom(At(m, parent), parent, t)
    ensures Ordered(DeleteRoot(t)) && HangsFrom(At(m', parent), parent, DeleteRoot(t))
    ensures DeleteRoot(t).Leaf? ==> TrimmedIn(m, m', parent, t, start, end)
  {
    TrimTurn(t, parent, start, end);
    StillHangs(At(m, parent), parent, t, DeleteRoot(t));
    assert DeleteRoot(t).Leaf? ==> Keys(t) == {t.value};
    hide Keys, Ordered, Trimmed, DeleteRoot, HangsFrom;
  }

  lemma TrimmedOnwards(m: Nodes, m1: Nodes, m': Nodes, parent: nat, t: SearchTree, start: nat, end: nat)
    requires t.Node? && RootDeleted(m, m1, parent, t) && start <= t.value <= end
    requires 0 < parent && parent !in Keys(t) && HangsFrom(At(m, parent), parent, t)
    requires Ordered(DeleteRoot(t)) && DeleteRoot(t).Node? && TrimmedIn(m1, m', parent, DeleteRoot(t), start, end)
    ensures TrimmedIn(m, m', parent, t, start, end)
  {
    TrimTurn(t, parent, start, end);
    StillHangs(At(m, parent), parent, t, DeleteRoot(t));
    WiderFrame(m1, m', Keys(DeleteRoot(t)) + {parent}, Keys(t) + {parent});
    hide Keys, Ordered, Trimmed, DeleteRoot, HangsFrom, Linked;
    assert t.value !in Keys(DeleteRoot(t)) && t.value != parent ==> At(m', t.value) == NULL_NODE;
  }

  lemma SidesAreOrdered(t: SearchTree)
    requires t.Node?
    ensures 0 < t.value && (t.left.Node? ==> t.left.value < t.value) && (t.right.Node? ==> t.value < t.right.value)
  {
    assert t.left.Node? ==> t.left.value in Keys(t.left);
    assert t.right.Node? ==> t.right.value in Keys(t.right);
  }

  /** After deleting the predecessor from the left subtree, its node takes over the root's links. */
  lemma PredecessorTakesOver(m: Nodes, parent: nat, t: SearchTree)
    requires t.Node? && t.left.Node? && t.left.right.Node?
    requires var p := Max(t.left);
      && At(m, p) == TreeNode(parent, p, Root(t.left), Root(t.right))
      && Holds(m, p, ExpiryTree.Delete(t.left, p)) && Holds(m, p, t.right)
    ensures Holds(m, parent, DeleteRoot(t)) && Root(DeleteRoot(t)) == Max(t.left)
  {
    MaxIsGreatest(t.left);
    MaxIsInRightSubtree(t.left);
  }

  lemma MaxIsInRightSubtree(t: SearchTree)
    requires t.Node?
    ensures t.right.Node? <==> Max(t) != t.value
  {
    if t.right.Node? {
      MaxIsGreatest(t.right);
    }
  }

  /** Append `values` to the list stored for `key`. */
  function Extend(lists: map<nat, seq<nat>>, key: nat, values: seq<nat>): (extended: map<nat, seq<nat>>)
    requires key in lists
    ensures key in extended
  {
    lists[key := PushAll(lists[key], values)]
  }

  /** Append `value` to the list stored for `key` if it lies within [start, end]. */
  function Recorded(lists: map<nat, seq<nat>>, key: nat, value: nat, start: nat, end: nat): (r: map<nat, seq<nat>>)
    requires key in lists
    ensures key in r
  {
    if start <= value <= end then lists[key := Push(lists[key], value)] else lists
  }

  /** Reporting a tree is reporting its left subtree, then its root, then its right subtree. */
  lemma ExtendInOrder(lists: map<nat, seq<nat>>, key: nat, t: Tree, start: nat, end: nat)
    requires t.Node? && key in lists
    ensures var left := Extend(lists, key, Between(t.left, start, end));
      Extend(lists, key, Between(t, start, end))
      == Extend(Recorded(left, key, t.value, start, end), key, Between(t.right, start, end))
  {
    var l, r := Between(t.left, start, end), Between(t.right, start, end);
    var m := if start <= t.value <= end then [t.value] else [];
    PushAllConcat(lists[key], l + m, r);
    PushAllConcat(lists[key], l, m);
    var left := PushAll(lists[key], l);
    assert m != [] ==> PushAll(left, m) == PushAll(Push(left, t.value), []);
  }

  lemma EmptyReport(lists: map<nat, seq<nat>>, key: nat, t: Tree, start: nat, end: nat)
    requires key in lists
    ensures t.Leaf? ==> Extend(lists, key, Between(t, start, end)) == lists
  {
  }

  lemma ExtendByNothing(lists: map<nat, seq<nat>>, key: nat)
    requires key in lists
    ensures Extend(lists, key, []) == lists
  {
  }

  /** What processing amounts to once the lists of the current root have been restarted. */
  lemma ProcessInSteps(restarted: IndexState, before: IndexState, start: nat, end: nat)
    requires before.tree.Node?
    requires var root := Root(before.tree);
      restarted == before.(rootToList := before.rootToList[root := before.StaleList()],
                           futureExpiries := before.futureExpiries[root := [end]])
    ensures var root := Root(before.tree);
      var after := before.Process(start, end);
      && after.tree == Trimmed(before.tree, start, end) && after.rootLast == root
      && (start <= end ==> after.rootToList == Extend(restarted.rootToList, root, Between(before.tree, start, end)))
      && (start <= end ==>
            after.futureExpiries
            == Extend(restarted.futureExpiries, root, Between(before.tree, end + 1, end + TIME_EXTENSION)))
      && (end < start ==> after.rootToList == restarted.rootToList)
      && (end < start ==> after.futureExpiries == restarted.futureExpiries)
  {
    hide Keys, Ordered, Between, ExpiryTree.Trim;
    assert PushAll(before.StaleList(), []) == before.StaleList() && PushAll([end], []) == [end];
  }

  /** Nothing is missed on a side that lies beyond the range. */
  lemma SkippedSides(t: SearchTree, start: nat, end: nat)
    requires t.Node?
    ensures t.value <= start ==> Between(t.left, start, end) == []
    ensures end <= t.value ==> Between(t.right, start, end) == []
  {
    if t.value <= start {
      NothingBetween(t.left, start, end);
    }
    if end <= t.value {
      NothingBetween(t.right, start, end);
    }
  }

  /** All of `t` lies on one side of `id`, and the node there links to its root on that side. */
  ghost predicate HangsFrom(node: TreeNode, id: nat, t: Tree) {
    t.Node? ==>
      && node == Linked(node, id, t.value, t.value)
      && ((forall k :: k in Keys(t) ==> k < id) || (forall k :: k in Keys(t) ==> id < k))
  }

  class BinarySearchTree {
    var root: nat
    var rootLast: nat
    var nodes: Nodes
    var rootToList: map<nat, seq<nat>>
    var futureExpiries: map<nat, seq<nat>>
    ghost var tree: SearchTree

    /** The links spell out `tree`, and every other slot of the mapping is clear. */
    ghost predicate Valid()
      reads this
    {
      && root == Root(tree)
      && Holds(nodes, 0, tree)
      && (forall id: nat :: id !in Keys(tree) ==> At(nodes, id) == NULL_NODE)
    }

    ghost function View(): IndexState
      reads this
    {
      IndexState(tree, rootLast, rootToList, futureExpiries)
    }

    constructor ()
      ensures Valid() && View() == EMPTY_INDEX
    {
      root, rootLast, nodes := 0, 0, map[];
      rootToList, futureExpiries := map[], map[];
      tree := Leaf;
    }

    method InsertHelper(newValue: nat, nodeId: nat, ghost t: SearchTree, ghost parent: nat)
      requires t.Node? && nodeId == t.value && 0 < newValue
      requires Holds(nodes, parent, t)
      modifies this`nodes
      ensures Holds(nodes, parent, ExpiryTree.Insert(t, newValue))
      ensures SameOutside(old(nodes), nodes, Keys(t) + {newValue})
      decreases t
    {
      var curNode := At(nodes, nodeId);
      Parts(nodes, parent, t);
      InsertSides(t, newValue);
      hide Keys, Ordered, Holds, ExpiryTree.Insert;
      if newValue != curNode.value {
        if newValue < curNode.value {
          if curNode.left == 0 {
            nodes := nodes[curNode.value := At(nodes, curNode.value).(left := newValue)];
            nodes := nodes[newValue := TreeNode(curNode.value, newValue, 0, 0)];
            HoldsLeaf(nodes, t.value, newValue);
          } else {
            InsertHelper(newValue, curNode.left, t.left, t.value);
          }
          HoldsFrame(old(nodes), nodes, t.value, t.right);
        } else {
          if curNode.right == 0 {
            nodes := nodes[curNode.value := At(nodes, curNode.value).(right := newValue)];
            nodes := nodes[newValue := TreeNode(curNode.value, newValue, 0, 0)];
            HoldsLeaf(nodes, t.value, newValue);
          } else {
            InsertHelper(newValue, curNode.right, t.right, t.value);
          }
          HoldsFrame(old(nodes), nodes, t.value, t.left);
        }
        Assemble(nodes, parent, ExpiryTree.Insert(t, newValue));
      }
    }

    method Insert(newValue: nat)
      requires Valid() && (0 < newValue || root == 0)
      modifies this
      ensures Valid() && View() == old(View()).Insert(newValue)
    {
      if root == 0 {
        root := newValue;
        rootLast := newValue;
        nodes := nodes[newValue := TreeNode(0, newValue, 0, 0)];
        futureExpiries := futureExpiries[root := ListAt(futureExpiries, root) + [newValue]];
        tree := if newValue == 0 then Leaf else Node(Leaf, newValue, Leaf);
      } else {
        InsertAddsKey(tree, newValue);
        InsertHelper(newValue, root, tree, 0);
        tree := ExpiryTree.Insert(tree, newValue);
      }
    }

    /**
     Delete `deleteValue` from the subtree `t` rooted at `nodeId`. While a node is being replaced by its
     predecessor, the root of its left subtree already names that predecessor, a node further down `t`, as its
     parent; the procedure is then entered with `parent in Keys(t)` and must not be asked to delete the root.
     */
    method DeleteNodeHelper(deleteValue: nat, nodeId: nat, ghost t: SearchTree, ghost parent: nat)
      returns (newValue: nat)
      requires nodeId == Root(t) && Holds(nodes, parent, t)
      requires t.Leaf? ==> At(nodes, 0) == NULL_NODE
      requires t.Node? && deleteValue == t.value ==> parent !in Keys(t)
      modifies this`nodes
      ensures Holds(nodes, parent, ExpiryTree.Delete(t, deleteValue))
      ensures SameOutside(old(nodes), nodes, Keys(t) + {parent})
      ensures deleteValue in Keys(t) ==> At(nodes, deleteValue) == NULL_NODE
      ensures t.Node? && deleteValue == t.value ==> newValue == Root(DeleteRoot(t))
      ensures t.Node? && deleteValue == t.value ==>
        At(nodes, parent) == Linked(old(At(nodes, parent)), parent, t.value, newValue)
      ensures t.Node? && deleteValue != t.value && parent !in Keys(t) ==> At(nodes, parent) == old(At(nodes, parent))
      ensures t.Leaf? ==> newValue == 0 && SameOutside(old(nodes), nodes, {})
      decreases t, 1
    {
      var curNode := At(nodes, nodeId);
      if t.Node? {
        Parts(nodes, parent, t);
      }
      DeleteRemovesKey(t, deleteValue);
      if curNode.value == deleteValue {
        newValue := DeleteLeaf(curNode.value, t, parent);
      } else if curNode.value < deleteValue {
        if curNode.right == 0 {
          newValue := 0;
        } else {
          newValue := DeleteNodeHelper(deleteValue, curNode.right, t.right, t.value);
          HoldsFrame(old(nodes), nodes, t.value, t.left);
        }
      } else {
        if curNode.left == 0 {
          newValue := 0;
        } else {
          newValue := DeleteNodeHelper(deleteValue, curNode.left, t.left, t.value);
          HoldsFrame(old(nodes), nodes, t.value, t.right);
        }
      }
    }

    /** Walk to the greatest key of the left subtree. */
    method Predecessor(leftId: nat, ghost t: SearchTree, ghost parent: nat) returns (tempValue: nat)
      requires t.Node? && leftId == t.value && Holds(nodes, parent, t)
      ensures tempValue == Max(t)
    {
      tempValue := leftId;
      ghost var spine: SearchTree := t;
      ghost var above := parent;
      while At(nodes, tempValue).right != 0
        invariant spine.Node? && tempValue == spine.value && Holds(nodes, above, spine)
        invariant Max(spine) == Max(t)
        decreases spine
      {
        above := spine.value;
        spine := spine.right;
        tempValue := At(nodes, tempValue).right;
      }
      assert Ordered(spine.right);
    }

    method LinkParent(parent: nat, value: nat, child: nat)
      modifies this`nodes
      ensures SameOutside(old(nodes), nodes, {parent})
      ensures At(nodes, parent) == Linked(old(At(nodes, parent)), parent, value, child)
    {
      if parent != 0 {
        if value < parent {
          nodes := nodes[parent := At(nodes, parent).(left := child)];
        } else {
          nodes := nodes[parent := At(nodes, parent).(right := child)];
        }
      }
    }

    method SetParent(id: nat, parent: nat)
      modifies this`nodes
      ensures SameOutside(old(nodes), nodes, {id})
      ensures At(nodes, id) == old(At(nodes, id)).(parent := parent)
    {
      nodes := nodes[id := At(nodes, id).(parent := parent)];
    }

    /** The arm of `DeleteLeaf` for a predecessor deeper down: it is deleted there and takes over the node. */
    method ReplaceByPredecessor(curNode: TreeNode, tempValue: nat, ghost t: SearchTree, ghost parent: nat)
      requires t.Node? && Holds(nodes, parent, t) && parent !in Keys(t) && curNode == At(nodes, t.value)
      requires t.left.Node? && tempValue == Max(t.left) != t.left.value
      modifies this`nodes
      ensures Holds(nodes, parent, DeleteRoot(t)) && Root(DeleteRoot(t)) == tempValue
      ensures SameOutside(old(nodes), nodes, Keys(t) + {parent})
      ensures At(nodes, t.value) == NULL_NODE
      ensures At(nodes, parent) == Linked(old(At(nodes, parent)), parent, t.value, tempValue)
      decreases t, 0, 0
    {
      Parts(nodes, parent, t);
      MaxIsGreatest(t.left);
      MaxIsInRightSubtree(t.left);
      hide Keys, Ordered, Holds, Max, DeleteRoot, ExpiryTree.Delete;
      LinkParent(curNode.parent, curNode.value, tempValue);
      ghost var above := At(nodes, parent);
      if curNode.right != 0 {
        SetParent(curNode.right, tempValue);
      }
      SetParent(curNode.left, tempValue);
      Rehang(old(nodes), nodes, t.value, t.right, tempValue);
      Rehang(old(nodes), nodes, t.value, t.left, tempValue);
      assert SameOutside(old(nodes), nodes, Keys(t) + {parent}) && At(nodes, parent) == above;
      label before:
      var _ := DeleteNodeHelper(tempValue, curNode.left, t.left, tempValue);
      assert SameOutside(old(nodes), nodes, Keys(t) + {parent}) && At(nodes, parent) == above;
      DeleteRemovesKey(t.left, tempValue);
      label after:
      nodes := nodes[tempValue := curNode.(value := tempValue)];
      nodes := nodes[curNode.value := NULL_NODE];
      assert SameOutside(old(nodes), nodes, Keys(t) + {parent}) && At(nodes, parent) == above;
      HoldsFrame(old@before(nodes), nodes, tempValue, t.right);
      HoldsFrame(old@after(nodes), nodes, tempValue, ExpiryTree.Delete(t.left, tempValue));
      PredecessorTakesOver(nodes, parent, t);
    }

    /** The arm of `DeleteLeaf` for a left child without a right subtree: it moves up. */
    method ReplaceByLeftChild(curNode: TreeNode, ghost t: SearchTree, ghost parent: nat)
      requires t.Node? && Holds(nodes, parent, t) && parent !in Keys(t) && curNode == At(nodes, t.value)
      requires t.left.Node? && t.left.right.Leaf?
      modifies this`nodes
      ensures Holds(nodes, parent, DeleteRoot(t)) && Root(DeleteRoot(t)) == t.left.value
      ensures SameOutside(old(nodes), nodes, Keys(t) + {parent})
      ensures At(nodes, t.value) == NULL_NODE
      ensures At(nodes, parent) == Linked(old(At(nodes, parent)), parent, t.value, t.left.value)
    {
      Parts(nodes, parent, t);
      Parts(nodes, t.value, t.left);
      hide Keys, Ordered;
      LinkParent(curNode.parent, curNode.value, curNode.left);
      ghost var above := At(nodes, parent);
      if curNode.right != 0 {
        SetParent(curNode.right, curNode.left);
      }
      SetParent(curNode.left, curNode.parent);
      nodes := nodes[curNode.left := At(nodes, curNode.left).(right := curNode.right)];
      nodes := nodes[curNode.value := NULL_NODE];
      assert SameOutside(old(nodes), nodes, Keys(t) + {parent}) && At(nodes, parent) == above;
      HoldsFrame(old(nodes), nodes, t.left.value, t.left.left);
      Rehang(old(nodes), nodes, t.value, t.right, t.left.value);
    }

    method DeleteLeaf(nodeId: nat, ghost t: SearchTree, ghost parent: nat) returns (newNodeId: nat)
      requires nodeId == Root(t) && Holds(nodes, parent, t) && parent !in Keys(t)
      requires t.Leaf? ==> At(nodes, 0) == NULL_NODE
      modifies this`nodes
      ensures t.Node? ==> Holds(nodes, parent, DeleteRoot(t)) && newNodeId == Root(DeleteRoot(t))
      ensures t.Node? ==> At(nodes, t.value) == NULL_NODE
      ensures t.Node? ==> At(nodes, parent) == Linked(old(At(nodes, parent)), parent, t.value, newNodeId)
      ensures t.Leaf? ==> newNodeId == 0 && SameOutside(old(nodes), nodes, {})
      ensures SameOutside(old(nodes), nodes, Keys(t) + {parent})
      decreases t, 0, 1
    {
      var curNode := At(nodes, nodeId);
      if t.Node? {
        Parts(nodes, parent, t);
      }
      if curNode.left != 0 {
        var tempValue := Predecessor(curNode.left, t.left, t.value);
        MaxIsInRightSubtree(t.left);
        if tempValue != curNode.left {
          ReplaceByPredecessor(curNode, tempValue, t, parent);
        } else {
          ReplaceByLeftChild(curNode, t, parent);
        }
        newNodeId := tempValue;
      } else if curNode.left == 0 && curNode.right != 0 {
        var tempValue := curNode.right;
        LinkParent(curNode.parent, curNode.value, tempValue);
        SetParent(curNode.right, curNode.parent);
        nodes := nodes[nodeId := NULL_NODE];
        Rehang(old(nodes), nodes, t.value, t.right, parent);
        newNodeId := tempValue;
      } else {
        LinkParent(curNode.parent, curNode.value, 0);
        nodes := nodes[nodeId := NULL_NODE];
        newNodeId := 0;
      }
    }

    method DeleteNode(deleteValue: nat) returns (newRoot: nat)
      requires Valid()
      modifies this`root, this`nodes, this`tree
      ensures Valid() && View() == old(View()).Delete(deleteValue) && newRoot == root
    {
      KeysArePositive(tree);
      DeleteRemovesKey(tree, deleteValue);
      if deleteValue != root {
        var _ := DeleteNodeHelper(deleteValue, root, tree, 0);
        newRoot := root;
      } else {
        newRoot := DeleteLeaf(root, tree, 0);
        root := newRoot;
      }
      tree := ExpiryTree.Delete(tree, deleteValue);
    }

    /** Trim the subtree `t` that hangs from `parent`, relinking `parent` whenever the subtree's root changes. */
    method TrimTreeHelper(start: nat, end: nat, nodeId: nat, ghost t: SearchTree, ghost parent: nat)
      requires nodeId == Root(t) && Holds(nodes, parent, t) && At(nodes, 0) == NULL_NODE
      requires 0 < parent && HangsFrom(At(nodes, parent), parent, t)
      modifies this`nodes
      ensures TrimmedIn(old(nodes), nodes, parent, t, start, end)
      decreases Size(t)
    {
      hide Keys, Ordered, Holds, Trimmed, Size, HangsFrom, TrimmedIn, Linked;
      KeysArePositive(t);
      ParentOutside(At(nodes, parent), parent, t);
      NothingTrimmed(nodes, parent, t, start, end);
      if start <= end {
        var curNode := At(nodes, nodeId);
        if t.Node? {
          Parts(nodes, parent, t);
          TrimTurn(t, parent, start, end);
        }
        if curNode.value != 0 {
          if curNode.value < start {
            TrimTreeHelper(start, end, curNode.right, t.right, t.value);
            RightSideTrimmed(old(nodes), nodes, parent, t, start, end);
          } else if curNode.value >= start && curNode.value <= end {
            var newNodeId := DeleteLeaf(curNode.value, t, parent);
            KeysArePositive(DeleteRoot(t));
            RootTrimmed(old(nodes), nodes, parent, t, start, end);
            label deleted:
            if newNodeId != 0 {
              TrimTreeHelper(start, end, newNodeId, DeleteRoot(t), parent);
              TrimmedOnwards(old(nodes), old@deleted(nodes), nodes, parent, t, start, end);
            }
          } else {
            TrimTreeHelper(start, end, curNode.left, t.left, t.value);
            LeftSideTrimmed(old(nodes), nodes, parent, t, start, end);
          }
        }
      }
    }

    method TrimTree(start: nat, end: nat) returns (newRoot: nat)
      requires Valid()
      modifies this`root, this`nodes, this`tree
      ensures Valid() && tree == Trimmed(old(tree), start, end)
      ensures newRoot == if start <= end then root else 0
      decreases Size(tree)
    {
      newRoot := 0;
      KeysArePositive(tree);
      if start <= end {
        TrimLeavesOutside(tree, start, end);
        var rootNode := At(nodes, root);
        if rootNode.value != 0 {
          ghost var t := tree;
          Parts(nodes, 0, t);
          if rootNode.value < start {
            TrimTreeHelper(start, end, rootNode.right, t.right, t.value);
            HoldsFrame(old(nodes), nodes, t.value, t.left);
            tree := Trimmed(t, start, end);
            newRoot := root;
          } else if rootNode.value >= start && rootNode.value <= end {
            DeleteRootRemovesRoot(t);
            DeleteRootShrinks(t);
            newRoot := DeleteNode(rootNode.value);
            KeysArePositive(tree);
            if newRoot != 0 {
              newRoot := TrimTree(start, end);
            }
          } else {
            TrimTreeHelper(start, end, rootNode.left, t.left, t.value);
            HoldsFrame(old(nodes), nodes, t.value, t.right);
            tree := Trimmed(t, start, end);
            newRoot := root;
          }
        }
      }
    }

    method RecordKey(start: nat, end: nat, value: nat, extension: nat)
      requires root in rootToList && root in futureExpiries
      modifies this`rootToList, this`futureExpiries
      ensures root in rootToList && root in futureExpiries
      ensures rootToList == Recorded(old(rootToList), root, value, start, end)
      ensures futureExpiries == Recorded(old(futureExpiries), root, value, end + 1, extension)
    {
      if value <= end && value >= start {
        rootToList := rootToList[root := Push(rootToList[root], value)];
      }
      if value <= extension && value > end {
        futureExpiries := futureExpiries[root := Push(futureExpiries[root], value)];
      }
    }

    /** Visit the keys of `t` in order, skipping subtrees out of range, and append to the current root's lists. */
    method ReturnListHelperEx(start: nat, end: nat, nodeId: nat, extension: nat, ghost t: SearchTree, ghost parent: nat)
      requires nodeId == Root(t) && Holds(nodes, parent, t) && At(nodes, 0) == NULL_NODE
      requires root in rootToList && root in futureExpiries
      modifies this`rootToList, this`futureExpiries
      ensures root in rootToList && root in futureExpiries
      ensures start <= end < extension ==> rootToList == Extend(old(rootToList), root, Between(t, start, end))
      ensures start <= end < extension ==>
        futureExpiries == Extend(old(futureExpiries), root, Between(t, end + 1, extension))
      ensures !(start <= end < extension) ==> rootToList == old(rootToList) && futureExpiries == old(futureExpiries)
      decreases t
    {
      hide Keys, Ordered, Holds, Between, Extend, Recorded;
      KeysArePositive(t);
      EmptyReport(rootToList, root, t, start, end);
      EmptyReport(futureExpiries, root, t, end + 1, extension);
      if start <= end && end < extension {
        var curNode := At(nodes, nodeId);
        if t.Node? {
          Parts(nodes, parent, t);
        }
        if curNode.value != 0 {
          ExtendInOrder(rootToList, root, t, start, end);
          ExtendInOrder(futureExpiries, root, t, end + 1, extension);
          SkippedSides(t, start, end);
          SkippedSides(t, end + 1, extension);
          ExtendByNothing(rootToList, root);
          ExtendByNothing(futureExpiries, root);
          if curNode.value > start {
            ReturnListHelperEx(start, end, curNode.left, extension, t.left, t.value);
          }
          RecordKey(start, end, curNode.value, extension);
          ExtendByNothing(rootToList, root);
          ExtendByNothing(futureExpiries, root);
          if curNode.value < extension {
            ReturnListHelperEx(start, end, curNode.right, extension, t.right, t.value);
          }
        }
      }
    }

    method ProcessExpiriesListNTrimTree(start: nat, end: nat)
      requires Valid()
      modifies this
      ensures Valid() && View() == old(View()).Process(start, end)
    {
      KeysArePositive(tree);
      if root != 0 {
        futureExpiries := futureExpiries[root := []];
        futureExpiries := futureExpiries[root := futureExpiries[root] + [end]];
        assert [] + [end] == [end];
        // Naming the list of a root that has none yet stores the empty list it already reads as.
        rootToList := rootToList[root := if root == rootLast then [] else ListAt(rootToList, root)];
        assert futureExpiries == old(futureExpiries)[root := [end]];
        ProcessInSteps(View(), old(View()), start, end);
        hide Keys, Ordered, Holds, Between, Extend, IndexState.Process;
        ReturnListHelperEx(start, end, root, end + TIME_EXTENSION, tree, 0);
        rootLast := root;
        var _ := TrimTree(start, end);
      }
    }

    function GetExpiriesList(): seq<nat>
      reads this
    {
      ListAt(rootToList, rootLast)
    }

    function GetFutureExpiriesList(): seq<nat>
      reads this
    {
      ListAt(futureExpiries, rootLast)
    }
  }
}
