/**
 The expiry index as a value: a binary search tree of block numbers. Block 0 is the null link, so every key is
 positive. Deletion, trimming and the range report take the same turns as the contract's recursion.
 */
module ExpiryTree {

  datatype Tree = Leaf | Node(left: Tree, value: nat, right: Tree)

  /** The id a parent stores for a subtree: its root value, or 0 for none. */
  function Root(t: Tree): nat {
    if t.Leaf? then 0 else t.value
  }

  function Keys(t: Tree): set<nat> {
    if t.Leaf? then {} else Keys(t.left) + {t.value} + Keys(t.right)
  }

  ghost predicate Ordered(t: Tree) {
    t.Node? ==>
      && 0 < t.value
      && Ordered(t.left) && Ordered(t.right)
      && (forall k :: k in Keys(t.left) ==> k < t.value)
      && (forall k :: k in Keys(t.right) ==> t.value < k)
  }

  function Size(t: Tree): nat {
    if t.Leaf? then 0 else Size(t.left) + 1 + Size(t.right)
  }

  // Operations ----------------------------------------------------------------------------------------------

  function Insert(t: Tree, key: nat): Tree {
    if t.Leaf? then Node(Leaf, key, Leaf)
    else if key == t.value then t
    else if key < t.value then t.(left := Insert(t.left, key))
    else t.(right := Insert(t.right, key))
  }

  function Max(t: Tree): nat
    requires t.Node?
  {
    if t.right.Leaf? then t.value else Max(t.right)
  }

  function Delete(t: Tree, key: nat): Tree
    decreases t, 1
  {
    if t.Leaf? then t
    else if t.value == key then DeleteRoot(t)
    else if t.value < key then t.(right := Delete(t.right, key))
    else t.(left := Delete(t.left, key))
  }

  /** The predecessor takes the root's place; without a left subtree the right one moves up. */
  function DeleteRoot(t: Tree): Tree
    requires t.Node?
    decreases t, 0
  {
    if t.left.Leaf? then t.right
    else if t.left.right.Leaf? then Node(t.left.left, t.left.value, t.right)
    else Node(Delete(t.left, Max(t.left)), Max(t.left), t.right)
  }

  /** Trimming descends one side of a key outside the range and deletes a key inside it, over and over. */
  function Trim(t: Tree, start: nat, end: nat): Tree
    requires Ordered(t)
    decreases Size(t)
  {
    if t.Leaf? then t
    else if t.value < start then t.(right := Trim(t.right, start, end))
    else if t.value <= end then
      DeleteRootRemovesRoot(t);
      DeleteRootShrinks(t);
      Trim(DeleteRoot(t), start, end)
    else t.(left := Trim(t.left, start, end))
  }

  /** The keys within [start, end], from left to right. */
  function Between(t: Tree, start: nat, end: nat): seq<nat> {
    if t.Leaf? then []
    else Between(t.left, start, end) + (if start <= t.value <= end then [t.value] else [])
         + Between(t.right, start, end)
  }

  // Laws ----------------------------------------------------------------------------------------------------

  lemma {:induction false} InsertAddsKey(t: Tree, key: nat)
    requires Ordered(t) && 0 < key
    ensures Ordered(Insert(t, key)) && Keys(Insert(t, key)) == Keys(t) + {key}
  {
    if t.Node? && key < t.value {
      InsertAddsKey(t.left, key);
    } else if t.Node? && t.value < key {
      InsertAddsKey(t.right, key);
    }
  }

  lemma {:induction false} MaxIsGreatest(t: Tree)
    requires Ordered(t) && t.Node?
    ensures Max(t) in Keys(t) && forall k :: k in Keys(t) ==> k <= Max(t)
  {
    if t.right.Node? {
      MaxIsGreatest(t.right);
    }
  }

  /** Deletion removes exactly the given key and keeps the search order. */
  lemma {:induction false} DeleteRemovesKey(t: Tree, key: nat)
    requires Ordered(t)
    ensures Ordered(Delete(t, key)) && Keys(Delete(t, key)) == Keys(t) - {key}
    decreases t, 1
  {
    if t.Node? && t.value == key {
      DeleteRootRemovesRoot(t);
    } else if t.Node? && t.value < key {
      DeleteRemovesKey(t.right, key);
    } else if t.Node? {
      DeleteRemovesKey(t.left, key);
    }
  }

  /** The greatest key of the left subtree can stand in for the root once it is gone from there. */
  lemma PredecessorStandsIn(t: Tree, p: nat, rest: Tree)
    requires Ordered(t) && t.Node? && p in Keys(t.left) && forall k :: k in Keys(t.left) ==> k <= p
    requires Ordered(rest) && Keys(rest) == Keys(t.left) - {p}
    ensures Ordered(Node(rest, p, t.right)) && Keys(Node(rest, p, t.right)) == Keys(t) - {t.value}
  {
    KeysArePositive(t.left);
  }

  lemma {:induction false} KeysArePositive(t: Tree)
    requires Ordered(t)
    ensures 0 !in Keys(t) && (Root(t) == 0 <==> t.Leaf?)
  {
    if t.Node? {
      KeysArePositive(t.left);
      KeysArePositive(t.right);
    }
  }

  lemma {:induction false} DeleteRootRemovesRoot(t: Tree)
    requires Ordered(t) && t.Node?
    ensures Ordered(DeleteRoot(t)) && Keys(DeleteRoot(t)) == Keys(t) - {t.value}
    decreases t, 0
  {
    var l := t.left;
    if l.Node? {
      MaxIsGreatest(l);
      if l.right.Node? {
        DeleteRemovesKey(l, Max(l));
        PredecessorStandsIn(t, Max(l), Delete(l, Max(l)));
      } else {
        assert Keys(l) == Keys(l.left) + {l.value};
        PredecessorStandsIn(t, l.value, l.left);
      }
      hide Keys, Ordered, Max, Delete;
    }
  }

  lemma {:induction false} DeleteShrinks(t: Tree, key: nat)
    requires Ordered(t) && key in Keys(t)
    ensures Size(Delete(t, key)) == Size(t) - 1
    decreases t, 1
  {
    if t.value == key {
      DeleteRootShrinks(t);
    } else if t.value < key {
      DeleteShrinks(t.right, key);
    } else {
      DeleteShrinks(t.left, key);
    }
  }

  lemma {:induction false} DeleteRootShrinks(t: Tree)
    requires Ordered(t) && t.Node?
    ensures Size(DeleteRoot(t)) == Size(t) - 1
    decreases t, 0
  {
    var l := t.left;
    if l.Node? && l.right.Node? {
      MaxIsGreatest(l);
      DeleteShrinks(l, Max(l));
    } else if l.Node? {
      assert Size(l) == Size(l.left) + 1;
    }
  }

  /** Trimming leaves exactly the keys outside [start, end], although it never looks at both sides of a node. */
  lemma {:induction false} TrimLeavesOutside(t: Tree, start: nat, end: nat)
    requires Ordered(t)
    ensures Ordered(Trim(t, start, end))
    ensures Keys(Trim(t, start, end)) == set k | k in Keys(t) && !(start <= k <= end)
    decreases Size(t)
  {
    if t.Leaf? {
    } else if t.value < start {
      TrimLeavesOutside(t.right, start, end);
    } else if t.value <= end {
      DeleteRootRemovesRoot(t);
      DeleteRootShrinks(t);
      TrimLeavesOutside(DeleteRoot(t), start, end);
    } else {
      TrimLeavesOutside(t.left, start, end);
    }
  }

  ghost predicate Ascending(s: seq<nat>) {
    forall i, j :: 0 <= i < j < |s| ==> s[i] < s[j]
  }

  lemma AscendingConcat(l: seq<nat>, m: seq<nat>, r: seq<nat>)
    requires Ascending(l) && Ascending(r) && |m| <= 1
    requires forall x, y :: x in l && y in m + r ==> x < y
    requires forall x, y :: x in m && y in r ==> x < y
    ensures Ascending(l + m + r)
  {
    var s := l + m + r;
    forall i, j | 0 <= i < j < |s|
      ensures s[i] < s[j]
    {
      if j < |l| {
        assert s[i] == l[i] && s[j] == l[j];
      } else if i < |l| {
        assert s[i] == l[i] && s[j] == (m + r)[j - |l|];
        assert l[i] in l && (m + r)[j - |l|] in m + r;
      } else if i < |l| + |m| {
        assert s[i] == m[i - |l|] && s[j] == r[j - |l| - |m|];
        assert m[i - |l|] in m && r[j - |l| - |m|] in r;
      } else {
        assert s[i] == r[i - |l| - |m|] && s[j] == r[j - |l| - |m|];
      }
    }
  }

  /** The range report is strictly ascending and lists exactly the keys of the range. */
  lemma {:induction false} BetweenListsRange(t: Tree, start: nat, end: nat)
    requires Ordered(t)
    ensures Ascending(Between(t, start, end))
    ensures forall k :: k in Between(t, start, end) <==> k in Keys(t) && start <= k <= end
  {
    if t.Node? {
      BetweenListsRange(t.left, start, end);
      BetweenListsRange(t.right, start, end);
      var l, r := Between(t.left, start, end), Between(t.right, start, end);
      AscendingConcat(l, if start <= t.value <= end then [t.value] else [], r);
    }
  }

  /** A subtree that lies wholly outside the range reports nothing. */
  lemma {:induction false} NothingBetween(t: Tree, start: nat, end: nat)
    requires forall k :: k in Keys(t) ==> k < start || end < k
    ensures Between(t, start, end) == []
  {
    if t.Node? {
      assert Keys(t.left) <= Keys(t) && Keys(t.right) <= Keys(t) && t.value in Keys(t);
      NothingBetween(t.left, start, end);
      NothingBetween(t.right, start, end);
    }
  }

  // The root, under which reports are filed ------------------------------------------------------------------

  lemma RootAfterInsert(t: Tree, key: nat)
    ensures Root(Insert(t, key)) == if t.Leaf? then key else t.value
  {
  }

  /** `k` is the greatest key of `t` below `bound`. */
  ghost predicate GreatestBelow(t: Tree, k: nat, bound: nat) {
    k in Keys(t) && k < bound && forall o :: o in Keys(t) && o < bound ==> o <= k
  }

  /** When the root goes, the next smaller key takes its place, or else the root of the right subtree. */
  lemma RootAfterDelete(t: Tree, key: nat)
    requires Ordered(t) && t.Node?
    ensures key != t.value ==> Root(Delete(t, key)) == t.value
    ensures key == t.value && t.left.Node? ==> GreatestBelow(t, Root(Delete(t, key)), key)
    ensures key == t.value && t.left.Leaf? ==> Delete(t, key) == t.right
  {
    if key == t.value && t.left.Node? {
      MaxIsGreatest(t.left);
      assert Keys(t.left) <= Keys(t);
      assert t.left.right.Leaf? ==> Max(t.left) == t.left.value;
    }
  }

  /**
   Where trimming leaves the root: in place outside the range; else at the greatest key below the range, or, if there
   is none, where trimming the right subtree leaves it.
   */
  lemma {:induction false} RootAfterTrim(t: Tree, start: nat, end: nat)
    requires Ordered(t) && t.Node?
    ensures !(start <= t.value <= end) ==> Root(Trim(t, start, end)) == t.value
    ensures start <= t.value <= end && (exists k :: k in Keys(t) && k < start) ==>
      GreatestBelow(t, Root(Trim(t, start, end)), start)
    ensures start <= t.value <= end && !(exists k :: k in Keys(t) && k < start) ==>
      Root(Trim(t, start, end)) == Root(Trim(t.right, start, end))
    decreases Size(t)
  {
    if start <= t.value <= end && t.left.Node? {
      var d := DeleteRoot(t);
      DeleteRootRemovesRoot(t);
      DeleteRootShrinks(t);
      RootAfterDelete(t, t.value);
      assert d.Node? && d.right == t.right;
      RootAfterTrim(d, start, end);
      assert forall k :: k in Keys(t) && k < start <==> k in Keys(d) && k < start;
    }
  }
}
