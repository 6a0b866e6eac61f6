/**
 * The shape of the tree over every put and delete: block ids are never shared, all
 * leaves are at one depth, nodes are filled between their limits and fit in a block;
 * so with 32-bit ids no search is longer than six blocks.
 */
module TreeShape {
  import opened Bytes
  import opened FileSerializer
  import opened NodeCodec
  import opened NodeOps
  import opened Tree

  // ----- Block ids ----------------------------------------------------------------------

  ghost function Ids(t: Tree): set<BlockID>
    decreases t, 0
  {
    match t
    case Leaf(id, _) => {id}
    case Branch(id, _, children) => {id} + IdsOf(children)
  }

  ghost function IdsOf(children: seq<Tree>): set<BlockID>
    decreases children, 1
  {
    set c, x | 0 <= c < |children| && x in Ids(children[c]) :: x
  }

  /** No id occurs twice in the tree. */
  ghost predicate Distinct(t: Tree)
    decreases t, 0
  {
    t.Branch? ==> t.id !in IdsOf(t.children) && AllDistinct(t.children)
  }

  ghost predicate AllDistinct(children: seq<Tree>)
    decreases children, 1
  {
    && (forall c :: 0 <= c < |children| ==> Distinct(children[c]))
    && (forall c, d :: 0 <= c < d < |children| ==> Ids(children[c]) !! Ids(children[d]))
  }

  ghost predicate Below(ids: set<BlockID>, next: BlockID) {
    forall x :: x in ids ==> 1 <= x < next
  }

  /** The parts use the ids of the old tree and ids from `next` up to `next'`. */
  ghost predicate IdsFrom(parts: seq<Tree>, old': set<BlockID>, next: BlockID, next': BlockID) {
    AllDistinct(parts) && forall x :: x in IdsOf(parts) ==> x in old' || next <= x < next'
  }

  lemma ReplacedIds(children: seq<Tree>, c: nat, parts: seq<Tree>, next: BlockID, next': BlockID)
    requires c < |children| && AllDistinct(children) && Below(IdsOf(children), next)
    requires IdsFrom(parts, Ids(children[c]), next, next')
    ensures IdsFrom(Replaced(children, c, parts), IdsOf(children), next, next')
  {
    var after := Replaced(children, c, parts);
    forall i | 0 <= i < |after|
      ensures after[i] in parts || (exists j :: 0 <= j < |children| && j != c && after[i] == children[j])
    {
      if i < c {
        assert after[i] == children[i];
      } else if i < c + |parts| {
        assert after[i] == parts[i - c];
      } else {
        assert after[i] == children[i - |parts| + 1];
      }
    }
    forall x | x in IdsOf(after)
      ensures x in IdsOf(children) || next <= x < next'
    {
      var i :| 0 <= i < |after| && x in Ids(after[i]);
      if after[i] in parts {
        var k :| 0 <= k < |parts| && parts[k] == after[i];
        assert x in IdsOf(parts);
      }
    }
    forall i, j | 0 <= i < j < |after|
      ensures Ids(after[i]) !! Ids(after[j])
    {
      PairDistinct(children, c, parts, next, next', i, j);
    }
  }

  /** Two places of the new list share no id: both old, both new, or one of each. */
  lemma PairDistinct(children: seq<Tree>, c: nat, parts: seq<Tree>, next: BlockID, next': BlockID, i: nat, j: nat)
    requires c < |children| && AllDistinct(children) && Below(IdsOf(children), next)
    requires IdsFrom(parts, Ids(children[c]), next, next')
    requires i < j < |Replaced(children, c, parts)|
    ensures Ids(Replaced(children, c, parts)[i]) !! Ids(Replaced(children, c, parts)[j])
  {
    var after := Replaced(children, c, parts);
    var m := |parts|;
    if i < c {
      assert after[i] == children[i];
      if j < c {
        assert after[j] == children[j];
      } else if j < c + m {
        OldAndNew(children, c, parts, next, next', i, j - c);
        assert after[j] == parts[j - c];
      } else {
        assert after[j] == children[j - m + 1];
      }
    } else if i < c + m {
      assert after[i] == parts[i - c];
      if j < c + m {
        assert after[j] == parts[j - c];
      } else {
        OldAndNew(children, c, parts, next, next', j - m + 1, i - c);
        assert after[j] == children[j - m + 1];
      }
    } else {
      assert after[i] == children[i - m + 1] && after[j] == children[j - m + 1];
    }
  }

  lemma OldAndNew(children: seq<Tree>, c: nat, parts: seq<Tree>, next: BlockID, next': BlockID, i: nat, k: nat)
    requires c < |children| && AllDistinct(children) && Below(IdsOf(children), next)
    requires IdsFrom(parts, Ids(children[c]), next, next') && i < |children| && i != c && k < |parts|
    ensures Ids(children[i]) !! Ids(parts[k])
  {
    forall x | x in Ids(children[i])
      ensures x !in Ids(parts[k])
    {
      assert x in IdsOf(children);
      assert x in Ids(parts[k]) ==> x in IdsOf(parts);
    }
  }

  lemma SliceIds(children: seq<Tree>, from: nat, to: nat)
    requires from <= to <= |children| && AllDistinct(children)
    ensures AllDistinct(children[from..to]) && IdsOf(children[from..to]) <= IdsOf(children)
  {
    forall x | x in IdsOf(children[from..to])
      ensures x in IdsOf(children)
    {
      var i :| 0 <= i < to - from && x in Ids(children[from..to][i]);
      assert x in Ids(children[from + i]);
    }
  }

  lemma OnePart(t: Tree)
    ensures IdsOf([t]) == Ids(t)
    ensures Distinct(t) ==> AllDistinct([t])
  {
    assert [t][0] == t;
  }

  lemma TwoPartsIds(l: Tree, r: Tree)
    ensures IdsOf([l, r]) == Ids(l) + Ids(r)
    ensures Distinct(l) && Distinct(r) && Ids(l) !! Ids(r) ==> AllDistinct([l, r])
  {
    assert [l, r][0] == l && [l, r][1] == r;
  }

  lemma CutDisjoint(children: seq<Tree>, mid: nat)
    requires mid <= |children| && AllDistinct(children)
    ensures IdsOf(children[..mid]) !! IdsOf(children[mid..])
  {
    var l, r := children[..mid], children[mid..];
    forall x | x in IdsOf(l)
      ensures x !in IdsOf(r)
    {
      var i :| 0 <= i < mid && x in Ids(l[i]);
      assert forall j :: 0 <= j < |r| ==> Ids(children[i]) !! Ids(children[mid + j]) && r[j] == children[mid + j];
    }
  }

  lemma CutCovers(children: seq<Tree>, mid: nat)
    requires mid <= |children|
    ensures IdsOf(children) == IdsOf(children[..mid]) + IdsOf(children[mid..])
  {
    var l, r := children[..mid], children[mid..];
    forall x | x in IdsOf(children)
      ensures x in IdsOf(l) + IdsOf(r)
    {
      var i :| 0 <= i < |children| && x in Ids(children[i]);
      assert if i < mid then x in Ids(l[i]) else x in Ids(r[i - mid]);
    }
    forall x | x in IdsOf(l)
      ensures x in IdsOf(children)
    {
      var i :| 0 <= i < mid && x in Ids(l[i]);
      assert x in Ids(children[i]);
    }
    forall x | x in IdsOf(r)
      ensures x in IdsOf(children)
    {
      var i :| 0 <= i < |r| && x in Ids(r[i]);
      assert x in Ids(children[mid + i]);
    }
  }

  /** Cutting a list of children in two cuts its ids in two. */
  lemma CutIds(children: seq<Tree>, mid: nat)
    requires mid <= |children| && AllDistinct(children)
    ensures AllDistinct(children[..mid]) && AllDistinct(children[mid..])
    ensures IdsOf(children[..mid]) !! IdsOf(children[mid..])
    ensures IdsOf(children) == IdsOf(children[..mid]) + IdsOf(children[mid..])
  {
    CutDisjoint(children, mid);
    CutCovers(children, mid);
    SliceIds(children, 0, mid);
    SliceIds(children, mid, |children|);
    assert children[0..mid] == children[..mid] && children[mid..|children|] == children[mid..];
  }

  lemma SplitBranchIds(t: Tree, next: BlockID)
    requires t.Branch? && |t.children| == |t.keys| + 1 >= 2 && Distinct(t) && Below(Ids(t), next)
    ensures IdsFrom(Parts(SplitBranchTree(t, next)), Ids(t), next, next + 1)
  {
    var mid := |t.children| / 2;
    CutIds(t.children, mid);
    var o := SplitBranchTree(t, next);
    assert Below(IdsOf(t.children), next) && t.id < next;
    TwoPartsIds(o.left, o.right);
  }

  /** Put keeps the ids distinct; new blocks get new ids; the left half keeps the old id. */
  lemma {:induction false} PutIds(t: Tree, key: Bytes, value: Bytes, next: BlockID)
    requires Wf(t) && Distinct(t) && Below(Ids(t), next) && next >= 1
    ensures var (o, next') := PutTree(t, key, value, next);
            && IdsFrom(Parts(o), Ids(t), next, next') && next' >= next
            && Parts(o)[0].id == t.id && (o.Halves? ==> next <= o.right.id < next')
  {
    match t
    case Leaf(id, node) =>
      var u := Leaf(id, LeafInsert(node, key, value));
      OnePart(u);
      var o := SplitLeafTree(if |u.node.keys| > 0 then u else u, next);
      TwoPartsIds(o.left, o.right);
    case Branch(id, keys, children) =>
      var c := UpperBound(keys, key);
      ChildIdsBelow(t, c, next);
      PutIds(children[c], key, value, next);
      BranchPutIds(t, c, key, value, next);
  }

  lemma ChildIdsBelow(t: Tree, c: nat, next: BlockID)
    requires t.Branch? && c < |t.children| && Below(Ids(t), next)
    ensures Below(Ids(t.children[c]), next) && Ids(t.children[c]) <= IdsOf(t.children)
  {
  }

  lemma BranchPutIds(t: Tree, c: nat, key: Bytes, value: Bytes, next: BlockID)
    requires Wf(t) && t.Branch? && Distinct(t) && Below(Ids(t), next) && next >= 1 && c == UpperBound(t.keys, key)
    requires var (o, next') := PutTree(t.children[c], key, value, next);
             IdsFrom(Parts(o), Ids(t.children[c]), next, next') && next' >= next
    ensures var (o, next') := PutTree(t, key, value, next);
            && IdsFrom(Parts(o), Ids(t), next, next') && next' >= next
            && Parts(o)[0].id == t.id && (o.Halves? ==> next <= o.right.id < next')
  {
    var (o, next') := PutTree(t.children[c], key, value, next);
    var u := TakeIn(t, c, o);
    assert u.children == Replaced(t.children, c, Parts(o));
    ReplacedIds(t.children, c, Parts(o), next, next');
    assert Distinct(u) && Below(Ids(u), next');
    OnePart(u);
    if o.Halves? && |u.children| >= MAX_INTERNAL_KEYS + 1 {
      SplitBranchIds(u, next');
    }
  }

  lemma PutRootIds(t: Tree, key: Bytes, value: Bytes, next: BlockID)
    requires Wf(t) && Distinct(t) && Below(Ids(t), next) && next >= 1
    ensures var (u, next') := PutRoot(t, key, value, next);
            Distinct(u) && Below(Ids(u), next') && next' >= next
  {
    PutIds(t, key, value, next);
    var (o, next') := PutTree(t, key, value, next);
    match o
    case Whole(u) => OnePart(u);
    case Halves(l, s, r) =>
      assert [l, r][0] == l && [l, r][1] == r;
      TwoPartsIds(l, r);
  }

  lemma {:induction false} DeleteIds(t: Tree, key: Bytes, next: BlockID)
    requires Wf(t) && Distinct(t) && Below(Ids(t), next) && next >= 1
    ensures Distinct(DeleteTree(t, key)) && Ids(DeleteTree(t, key)) <= Ids(t) && DeleteTree(t, key).id == t.id
  {
    if t.Branch? {
      var c := UpperBound(t.keys, key);
      ChildIdsBelow(t, c, next);
      DeleteIds(t.children[c], key, next);
      var u := DeleteTree(t.children[c], key);
      OnePart(u);
      ReplacedIds(t.children, c, [u], next, next);
    }
  }

  // ----- Depth and filling ------------------------------------------------------------------

  /** All leaves lie `h` levels down; `root` lifts the lower limit of a branch to two children. */
  ghost predicate Filled(t: Tree, h: nat, root: bool)
    decreases t, 0
  {
    match t
    case Leaf(_, node) => h == 0 && |node.keys| < MAX_LEAF_KEYS
    case Branch(_, _, children) =>
      && h >= 1 && (if root then 2 else MAX_INTERNAL_KEYS / 2) <= |children| <= MAX_INTERNAL_KEYS
      && AllFilled(children, h - 1)
  }

  ghost predicate AllFilled(children: seq<Tree>, h: nat)
    decreases children, 1
  {
    forall c :: 0 <= c < |children| ==> Filled(children[c], h, false)
  }

  ghost predicate OutcomeFilled(o: Outcome, h: nat, root: bool) {
    match o
    case Whole(t) => Filled(t, h, root)
    case Halves(l, _, r) => Filled(l, h, false) && Filled(r, h, false)
  }

  /** Put never finds a full node, and leaves none. */
  lemma {:induction false} PutFilled(t: Tree, h: nat, root: bool, key: Bytes, value: Bytes, next: BlockID)
    requires Wf(t) && Filled(t, h, root)
    ensures OutcomeFilled(PutTree(t, key, value, next).0, h, root)
    ensures PutTree(t, key, value, next).1 <= next + h + 1
  {
    if t.Branch? {
      var c := UpperBound(t.keys, key);
      PutFilled(t.children[c], h - 1, false, key, value, next);
      BranchPutFilled(t, h, root, key, value, next);
    }
  }

  lemma BranchPutFilled(t: Tree, h: nat, root: bool, key: Bytes, value: Bytes, next: BlockID)
    requires Wf(t) && Filled(t, h, root) && t.Branch?
    requires var (o, next') := PutTree(t.children[UpperBound(t.keys, key)], key, value, next);
             OutcomeFilled(o, h - 1, false) && next' <= next + h
    ensures OutcomeFilled(PutTree(t, key, value, next).0, h, root)
    ensures PutTree(t, key, value, next).1 <= next + h + 1
  {
    var c := UpperBound(t.keys, key);
    var (o, next') := PutTree(t.children[c], key, value, next);
    var u := TakeIn(t, c, o);
    assert u.children == Replaced(t.children, c, Parts(o));
    ReplacedFilled(t.children, c, Parts(o), h - 1);
    if o.Halves? && |u.children| >= MAX_INTERNAL_KEYS + 1 {
      CutFilled(u.children, |u.children| / 2, h - 1);
    }
  }

  lemma ReplacedFilled(children: seq<Tree>, c: nat, parts: seq<Tree>, h: nat)
    requires c < |children| && AllFilled(children, h) && AllFilled(parts, h)
    ensures AllFilled(Replaced(children, c, parts), h)
  {
    var after := Replaced(children, c, parts);
    forall i | 0 <= i < |after|
      ensures Filled(after[i], h, false)
    {
      if i < c {
        assert after[i] == children[i];
      } else if i < c + |parts| {
        assert after[i] == parts[i - c];
      } else {
        assert after[i] == children[i - |parts| + 1];
      }
    }
  }

  lemma CutFilled(children: seq<Tree>, mid: nat, h: nat)
    requires mid <= |children| && AllFilled(children, h)
    ensures AllFilled(children[..mid], h) && AllFilled(children[mid..], h)
  {
  }

  lemma PutRootFilled(t: Tree, h: nat, key: Bytes, value: Bytes, next: BlockID)
    requires Wf(t) && Filled(t, h, true)
    ensures var (u, next') := PutRoot(t, key, value, next);
            (Filled(u, h, true) || Filled(u, h + 1, true)) && next' <= next + h + 2
  {
    PutFilled(t, h, true, key, value, next);
  }

  lemma {:induction false} DeleteFilled(t: Tree, h: nat, root: bool, key: Bytes)
    requires Wf(t) && Filled(t, h, root)
    ensures Filled(DeleteTree(t, key), h, root)
  {
    if t.Branch? {
      var c := UpperBound(t.keys, key);
      DeleteFilled(t.children[c], h - 1, false, key);
      ReplacedFilled(t.children, c, [DeleteTree(t.children[c], key)], h - 1);
    }
  }

  // ----- How high ------------------------------------------------------------------------------

  function Power(b: nat, e: nat): nat {
    if e == 0 then 1 else b * Power(b, e - 1)
  }

  lemma {:induction false} ManyIds(t: Tree, h: nat)
    requires Distinct(t) && Filled(t, h, false)
    ensures |Ids(t)| >= Power(MAX_INTERNAL_KEYS / 2, h)
    decreases t, 0
  {
    if t.Branch? {
      ManyChildIds(t.children, h - 1);
      var p := Power(MAX_INTERNAL_KEYS / 2, h - 1);
      Grows(|t.children|, MAX_INTERNAL_KEYS / 2, p);
      assert |Ids(t)| == 1 + |IdsOf(t.children)|;
    }
  }

  lemma Grows(a: nat, b: nat, p: nat)
    requires a >= b
    ensures a * p >= b * p
  {
  }

  lemma {:induction false} ManyChildIds(children: seq<Tree>, h: nat)
    requires AllDistinct(children) && AllFilled(children, h)
    ensures |IdsOf(children)| >= |children| * Power(MAX_INTERNAL_KEYS / 2, h)
    decreases children, 1
  {
    hide Power, Filled, Distinct, Ids, IdsOf;
    if |children| > 0 {
      ManyIds(children[0], h);
      assert |IdsOf(children[1..])| >= (|children| - 1) * Power(MAX_INTERNAL_KEYS / 2, h) by {
        CutIds(children, 1);
        CutFilled(children, 1, h);
        ManyChildIds(children[1..], h);
      }
      FirstAndRest(children);
      AddUp(|Ids(children[0])|, |IdsOf(children[1..])|, |children|, Power(MAX_INTERNAL_KEYS / 2, h));
    }
  }

  lemma FirstAndRest(children: seq<Tree>)
    requires |children| > 0 && AllDistinct(children)
    ensures |IdsOf(children)| == |Ids(children[0])| + |IdsOf(children[1..])|
  {
    CutIds(children, 1);
    OnePart(children[0]);
    assert children[..1] == [children[0]];
  }

  lemma AddUp(a: nat, b: nat, n: nat, p: nat)
    requires n > 0 && a >= p && b >= (n - 1) * p
    ensures a + b >= n * p
  {
    OneMore(n, p);
  }

  lemma {:induction false} PowerMono(b: nat, e: nat, f: nat)
    requires b >= 1 && e <= f
    ensures Power(b, e) <= Power(b, f)
    decreases f - e
  {
    if e < f {
      PowerMono(b, e, f - 1);
      Grows(b, 1, Power(b, f - 1));
    }
  }

  function Range(n: nat): (s: set<nat>)
    ensures |s| == n && forall x: nat :: x in s <==> x < n
  {
    if n == 0 then {} else
      var r := Range(n - 1);
      assert n - 1 !in r;
      r + {n - 1}
  }

  lemma BelowIsSmall(ids: set<BlockID>, next: BlockID)
    requires Below(ids, next)
    ensures |ids| <= next
  {
    var all := Range(next);
    assert ids <= all;
    assert all == ids + (all - ids);
  }

  /** With 32-bit block ids a search reads at most six blocks. */
  lemma HeightBound(t: Tree, h: nat, next: BlockID)
    requires Wf(t) && Distinct(t) && Filled(t, h, true) && Below(Ids(t), next) && next <= MAX_BLOCK_ID + 1
    ensures h + 1 <= 6
  {
    if h >= 1 {
      var p := Power(MAX_INTERNAL_KEYS / 2, h - 1);
      ManyChildIds(t.children, h - 1);
      Grows(|t.children|, 2, p);
      assert IdsOf(t.children) <= Ids(t);
      BelowIsSmall(IdsOf(t.children), next);
      TooHigh(h - 1);
    }
  }

  lemma TooHigh(e: nat)
    ensures e >= 5 ==> Power(MAX_INTERNAL_KEYS / 2, e) > MAX_BLOCK_ID
  {
    if e >= 5 {
      PowerMono(125, 5, e);
      PowerFive();
    }
  }

  lemma PowerFive()
    ensures Power(125, 5) == 30517578125
  {
    assert Power(125, 1) == 125;
    assert Power(125, 2) == 15625;
    assert Power(125, 3) == 1953125;
    assert Power(125, 4) == 244140625;
  }

  // ----- Sizes -----------------------------------------------------------------------------------

  const MAX_KEY_SIZE: nat := 10
  const MAX_PAIR_SIZE: nat := 79

  /** Keys and values within the sizes the block layout was made for. */
  ghost predicate SmallPair(key: Bytes, value: Bytes) {
    |key| <= MAX_KEY_SIZE && |key| + |value| <= MAX_PAIR_SIZE
  }

  ghost predicate SmallKeys(keys: seq<Bytes>) {
    forall i :: 0 <= i < |keys| ==> |keys[i]| <= MAX_KEY_SIZE
  }

  ghost predicate SmallLeaf(n: LeafValue) {
    |n.keys| == |n.values| && forall i :: 0 <= i < |n.keys| ==> SmallPair(n.keys[i], n.values[i])
  }

  ghost predicate Small(t: Tree) {
    match t
    case Leaf(_, node) => SmallLeaf(node)
    case Branch(_, keys, children) => SmallKeys(keys) && forall c :: 0 <= c < |children| ==> Small(children[c])
  }

  ghost predicate OutcomeSmall(o: Outcome) {
    match o
    case Whole(t) => Small(t)
    case Halves(l, s, r) => Small(l) && |s| <= MAX_KEY_SIZE && Small(r)
  }

  lemma {:induction false} PutSmall(t: Tree, key: Bytes, value: Bytes, next: BlockID)
    requires Wf(t) && Small(t) && SmallPair(key, value)
    ensures OutcomeSmall(PutTree(t, key, value, next).0)
  {
    match t
    case Leaf(id, node) =>
      LeafInsertSmall(node, key, value);
      var u := LeafInsert(node, key, value);
      if |u.keys| > 0 {
        assert SmallPair(u.keys[|u.keys| / 2], u.values[|u.keys| / 2]);
      }
    case Branch(_, keys, children) =>
      var c := UpperBound(keys, key);
      PutSmall(children[c], key, value, next);
      TakeInSmall(t, c, PutTree(children[c], key, value, next).0);
  }

  lemma LeafInsertSmall(n: LeafValue, key: Bytes, value: Bytes)
    requires SmallLeaf(n) && SmallPair(key, value)
    ensures SmallLeaf(LeafInsert(n, key, value))
  {
    var p := LowerBound(n.keys, key);
    var m := LeafInsert(n, key, value);
    forall i | 0 <= i < |m.keys|
      ensures SmallPair(m.keys[i], m.values[i])
    {
      if !FoundAt(n.keys, key, p) && i > p {
        assert SmallPair(n.keys[i - 1], n.values[i - 1]);
      } else if i != p {
        assert SmallPair(n.keys[i], n.values[i]);
      }
    }
  }

  lemma TakeInSmall(t: Tree, c: nat, o: Outcome)
    requires t.Branch? && c < |t.children| && c <= |t.keys| && Small(t) && OutcomeSmall(o)
    ensures Small(TakeIn(t, c, o))
  {
    var u := TakeIn(t, c, o);
    assert u.children == Replaced(t.children, c, Parts(o));
    forall i | 0 <= i < |u.children|
      ensures Small(u.children[i])
    {
      if i >= c + |Parts(o)| {
        assert u.children[i] == t.children[i - |Parts(o)| + 1];
      }
    }
  }

  lemma PutRootSmall(t: Tree, key: Bytes, value: Bytes, next: BlockID)
    requires Wf(t) && Small(t) && SmallPair(key, value)
    ensures Small(PutRoot(t, key, value, next).0)
  {
    PutSmall(t, key, value, next);
  }

  lemma {:induction false} DeleteSmall(t: Tree, key: Bytes)
    requires Wf(t) && Small(t)
    ensures Small(DeleteTree(t, key))
  {
    match t
    case Leaf(_, node) =>
      var p, m := LowerBound(node.keys, key), LeafDelete(node, key);
      forall i | 0 <= i < |m.keys|
        ensures SmallPair(m.keys[i], m.values[i])
      {
        if FoundAt(node.keys, key, p) && i >= p {
          assert SmallPair(node.keys[i + 1], node.values[i + 1]);
        } else {
          assert SmallPair(node.keys[i], node.values[i]);
        }
      }
    case Branch(_, keys, children) =>
      var c := UpperBound(keys, key);
      DeleteSmall(children[c], key);
      TakeInSmall(t, c, Whole(DeleteTree(children[c], key)));
  }
}
