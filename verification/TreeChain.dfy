/**
 * The sibling pointers. Following `right` from the leftmost leaf visits the leaves in
 * the order of the tree and ends at the invalid id, after any puts and deletes.
 */
module TreeChain {
  import opened Bytes
  import opened FileSerializer
  import opened NodeOps
  import opened Tree

  ghost function FirstLeaf(t: Tree): BlockID
    requires Wf(t)
  {
    match t
    case Leaf(id, _) => id
    case Branch(_, _, children) => FirstLeaf(children[0])
  }

  /** The id the leaves before `children[c..]` point to. */
  ghost function FirstOf(children: seq<Tree>, c: nat, after: BlockID): BlockID
    requires AllWf(children) && c <= |children|
  {
    if c == |children| then after else FirstLeaf(children[c])
  }

  /** Every leaf points to the next one, and the last of them to `after`. */
  ghost predicate Chained(t: Tree, after: BlockID)
    requires Wf(t)
    decreases t, 0
  {
    match t
    case Leaf(_, node) => node.right == after
    case Branch(_, _, children) => AllChained(children, after)
  }

  ghost predicate AllChained(children: seq<Tree>, after: BlockID)
    requires AllWf(children)
    decreases children, 1
  {
    forall c :: 0 <= c < |children| ==> Chained(children[c], FirstOf(children, c + 1, after))
  }

  // ----- What the chain visits ---------------------------------------------------------

  ghost function Leaves(t: Tree): seq<Tree>
    requires Wf(t)
    decreases t, 0
  {
    match t
    case Leaf(_, _) => [t]
    case Branch(_, _, children) => AllLeaves(children)
  }

  ghost function AllLeaves(children: seq<Tree>): seq<Tree>
    requires AllWf(children)
    decreases children, 1
  {
    if |children| == 0 then [] else Leaves(children[0]) + AllLeaves(children[1..])
  }

  /** The leaf in this place points to the next one, and the last to `after`. */
  ghost predicate PointsOn(leaves: seq<Tree>, i: int, after: BlockID)
    requires 0 <= i < |leaves|
  {
    leaves[i].Leaf? && leaves[i].node.right == if i + 1 < |leaves| then leaves[i + 1].id else after
  }

  ghost predicate Row(leaves: seq<Tree>, after: BlockID) {
    forall i :: 0 <= i < |leaves| ==> PointsOn(leaves, i, after)
  }

  /** The chain visits exactly the leaves of the tree, from left to right. */
  lemma {:induction false} ChainVisitsLeaves(t: Tree, after: BlockID)
    requires Wf(t) && Chained(t, after)
    ensures |Leaves(t)| > 0 && Leaves(t)[0].id == FirstLeaf(t)
    ensures Row(Leaves(t), after)
    decreases t, 0
  {
    if t.Branch? {
      ChainVisitsAll(t.children, after);
    }
  }

  lemma {:induction false} ChainVisitsAll(children: seq<Tree>, after: BlockID)
    requires AllWf(children) && AllChained(children, after)
    ensures |children| > 0 ==> |AllLeaves(children)| > 0 && AllLeaves(children)[0].id == FirstLeaf(children[0])
    ensures Row(AllLeaves(children), after)
    decreases children, 1
  {
    if |children| > 0 {
      var rest := children[1..];
      ChainVisitsLeaves(children[0], FirstOf(children, 1, after));
      forall c | 0 <= c < |rest|
        ensures Chained(rest[c], FirstOf(rest, c + 1, after))
      {
        assert Chained(children[c + 1], FirstOf(children, c + 2, after));
      }
      ChainVisitsAll(rest, after);
      var a, b := Leaves(children[0]), AllLeaves(rest);
      JoinRows(a, b, FirstOf(children, 1, after), after);
    }
  }

  lemma JoinRows(a: seq<Tree>, b: seq<Tree>, middle: BlockID, after: BlockID)
    requires Row(a, middle) && Row(b, after) && |a| > 0
    requires middle == if |b| > 0 then b[0].id else after
    ensures Row(a + b, after)
  {
    forall i | 0 <= i < |a + b|
      ensures PointsOn(a + b, i, after)
    {
      assert if i < |a| then PointsOn(a, i, middle) else PointsOn(b, i - |a|, after);
    }
  }

  /** The leaves hold the contents in order. */
  lemma {:induction false} LeavesHoldItems(t: Tree)
    requires Wf(t)
    ensures AllWf(Leaves(t)) && AllItems(Leaves(t)) == Items(t)
    decreases t, 0
  {
    if t.Leaf? {
      AllItemsOne(t);
    } else {
      AllLeavesHoldItems(t.children);
    }
  }

  lemma {:induction false} AllLeavesHoldItems(children: seq<Tree>)
    requires AllWf(children)
    ensures AllWf(AllLeaves(children)) && AllItems(AllLeaves(children)) == AllItems(children)
    decreases children, 1
  {
    if |children| > 0 {
      LeavesHoldItems(children[0]);
      AllLeavesHoldItems(children[1..]);
      AllItemsConcat(Leaves(children[0]), AllLeaves(children[1..]));
    }
  }

  // ----- Put keeps the chain ------------------------------------------------------------

  ghost predicate PartsChained(parts: seq<Tree>, first: BlockID, after: BlockID) {
    |parts| > 0 && AllWf(parts) && AllChained(parts, after) && FirstLeaf(parts[0]) == first
  }

  lemma ReplacedChained(children: seq<Tree>, c: nat, parts: seq<Tree>, after: BlockID)
    requires c < |children| && AllWf(children) && AllChained(children, after)
    requires PartsChained(parts, FirstLeaf(children[c]), FirstOf(children, c + 1, after))
    ensures PartsChained(Replaced(children, c, parts), FirstLeaf(children[0]), after)
  {
    hide Replaced, Chained, Wf, FirstLeaf;
    var all := Replaced(children, c, parts);
    var m := |parts|;
    ReplacedLength(children, c, parts);
    forall i | 0 <= i < |all|
      ensures Wf(all[i])
    {
      PlaceOf(children, c, parts, i);
    }
    forall i | 0 <= i < |all|
      ensures Chained(all[i], FirstOf(all, i + 1, after))
    {
      PlaceOf(children, c, parts, i);
      if i + 1 < |all| {
        PlaceOf(children, c, parts, i + 1);
      }
      if i < c {
        assert Chained(children[i], FirstOf(children, i + 1, after));
      } else if i < c + m {
        assert Chained(parts[i - c], FirstOf(parts, i - c + 1, FirstOf(children, c + 1, after)));
      } else {
        assert Chained(children[i - m + 1], FirstOf(children, i - m + 2, after));
      }
    }
    PlaceOf(children, c, parts, 0);
  }

  lemma ReplacedLength(children: seq<Tree>, c: nat, parts: seq<Tree>)
    requires c < |children|
    ensures |Replaced(children, c, parts)| == |children| + |parts| - 1
  {
  }

  lemma PlaceOf(children: seq<Tree>, c: nat, parts: seq<Tree>, i: nat)
    requires c < |children| && i < |Replaced(children, c, parts)|
    ensures Replaced(children, c, parts)[i] ==
            if i < c then children[i] else if i < c + |parts| then parts[i - c] else children[i - |parts| + 1]
  {
  }

  lemma CutChained(children: seq<Tree>, mid: nat, after: BlockID)
    requires AllWf(children) && AllChained(children, after) && 0 < mid < |children|
    ensures AllWf(children[..mid]) && AllChained(children[..mid], FirstLeaf(children[mid]))
    ensures AllWf(children[mid..]) && AllChained(children[mid..], after)
  {
    var l, r := children[..mid], children[mid..];
    forall c | 0 <= c < mid
      ensures Chained(l[c], FirstOf(l, c + 1, FirstLeaf(children[mid])))
    {
      assert Chained(children[c], FirstOf(children, c + 1, after));
    }
    forall c | 0 <= c < |r|
      ensures Chained(r[c], FirstOf(r, c + 1, after))
    {
      assert Chained(children[mid + c], FirstOf(children, mid + c + 1, after));
    }
  }

  lemma SplitBranchChained(t: Tree, next: BlockID, after: BlockID)
    requires Wf(t) && t.Branch? && |t.children| >= 4 && AllChained(t.children, after)
    ensures PartsChained(Parts(SplitBranchTree(t, next)), FirstLeaf(t), after)
  {
    var mid := |t.children| / 2;
    CutChained(t.children, mid, after);
    var o := SplitBranchTree(t, next);
    assert Wf(o.left) && Wf(o.right);
    assert FirstLeaf(o.right) == FirstLeaf(t.children[mid..][0]);
    PairChained(o.left, o.right, after);
    assert FirstLeaf(o.left) == FirstLeaf(t.children[..mid][0]);
  }

  lemma PairChained(l: Tree, r: Tree, after: BlockID)
    requires Wf(l) && Wf(r) && Chained(l, FirstLeaf(r)) && Chained(r, after)
    ensures PartsChained([l, r], FirstLeaf(l), after)
  {
    var parts := [l, r];
    assert parts[0] == l && parts[1] == r;
    assert FirstOf(parts, 1, after) == FirstLeaf(r);
  }

  lemma OneChained(t: Tree, after: BlockID)
    requires Wf(t) && Chained(t, after)
    ensures PartsChained([t], FirstLeaf(t), after)
  {
    assert [t][0] == t && FirstOf([t], 1, after) == after;
  }

  /** A split links its new right half in; the first leaf of a subtree never changes. */
  lemma {:induction false} PutChained(t: Tree, key: Bytes, value: Bytes, next: BlockID, after: BlockID)
    requires Wf(t) && Chained(t, after)
    ensures PartsChained(Parts(PutTree(t, key, value, next).0), FirstLeaf(t), after)
  {
    match t
    case Leaf(id, node) =>
      var u := Leaf(id, LeafInsert(node, key, value));
      if |u.node.keys| >= MAX_LEAF_KEYS {
        var o := SplitLeafTree(u, next);
        PairChained(o.left, o.right, after);
      } else {
        OneChained(u, after);
      }
    case Branch(_, keys, children) =>
      var c := UpperBound(keys, key);
      assert Chained(children[c], FirstOf(children, c + 1, after));
      PutChained(children[c], key, value, next, FirstOf(children, c + 1, after));
      BranchPutChained(t, c, PutTree(children[c], key, value, next).0, PutTree(children[c], key, value, next).1, after);
  }

  lemma BranchPutChained(t: Tree, c: nat, o: Outcome, next': BlockID, after: BlockID)
    requires Wf(t) && t.Branch? && c < |t.children| && AllChained(t.children, after)
    requires PartsChained(Parts(o), FirstLeaf(t.children[c]), FirstOf(t.children, c + 1, after))
    ensures var u := TakeIn(t, c, o);
            && PartsChained([u], FirstLeaf(t), after)
            && (|u.children| >= 4 ==> PartsChained(Parts(SplitBranchTree(u, next')), FirstLeaf(t), after))
  {
    var u := TakeIn(t, c, o);
    assert u.children == Replaced(t.children, c, Parts(o));
    ReplacedChained(t.children, c, Parts(o), after);
    assert Wf(u) && Chained(u, after) && FirstLeaf(u) == FirstLeaf(t);
    OneChained(u, after);
    if |u.children| >= 4 {
      SplitBranchChained(u, next', after);
    }
  }

  lemma PutRootChained(t: Tree, key: Bytes, value: Bytes, next: BlockID)
    requires Wf(t) && Chained(t, INVALID_BLOCK_ID)
    ensures var u := PutRoot(t, key, value, next).0;
            Wf(u) && Chained(u, INVALID_BLOCK_ID) && FirstLeaf(u) == FirstLeaf(t)
  {
    PutChained(t, key, value, next, INVALID_BLOCK_ID);
    PutWf(t, key, value, next);
    var parts := Parts(PutTree(t, key, value, next).0);
    assert Chained(parts[0], FirstOf(parts, 1, INVALID_BLOCK_ID));
  }

  lemma {:induction false} DeleteChained(t: Tree, key: Bytes, after: BlockID)
    requires Wf(t) && Chained(t, after)
    ensures Wf(DeleteTree(t, key)) && Chained(DeleteTree(t, key), after)
    ensures FirstLeaf(DeleteTree(t, key)) == FirstLeaf(t)
  {
    DeleteWf(t, key);
    if t.Branch? {
      var c := UpperBound(t.keys, key);
      var mid := FirstOf(t.children, c + 1, after);
      assert Chained(t.children[c], mid);
      DeleteChained(t.children[c], key, mid);
      OneChained(DeleteTree(t.children[c], key), mid);
      ReplacedChained(t.children, c, [DeleteTree(t.children[c], key)], after);
    }
  }
}
