/**
 * The tree that a set of blocks represents, as a value, and what Put and Delete make of
 * it. A put may leave two halves and a separator; the caller above takes them in.
 */
module Tree {
  import opened Options
  import opened Bytes
  import opened FileSerializer
  import opened NodeCodec
  import opened NodeOps

  datatype Tree =
    | Leaf(id: BlockID, node: LeafValue)
    | Branch(id: BlockID, keys: seq<Bytes>, children: seq<Tree>)

  type Item = (Bytes, Bytes)

  /** Lengths fit together. */
  ghost predicate Wf(t: Tree) {
    match t
    case Leaf(_, node) => |node.keys| == |node.values|
    case Branch(_, keys, children) =>
      |children| == |keys| + 1 >= 2 && forall c :: 0 <= c < |children| ==> Wf(children[c])
  }

  // ----- Contents -----------------------------------------------------------------------

  function Zip(keys: seq<Bytes>, values: seq<Bytes>): seq<Item>
    requires |keys| == |values|
  {
    seq(|keys|, i requires 0 <= i < |keys| => (keys[i], values[i]))
  }

  /** The pairs of the tree from left to right. */
  ghost function Items(t: Tree): seq<Item>
    requires Wf(t)
    decreases t, 0
  {
    match t
    case Leaf(_, node) => Zip(node.keys, node.values)
    case Branch(_, _, children) => AllItems(children)
  }

  ghost predicate AllWf(children: seq<Tree>) {
    forall c :: 0 <= c < |children| ==> Wf(children[c])
  }

  ghost function AllItems(children: seq<Tree>): seq<Item>
    requires AllWf(children)
    decreases children, 1
  {
    if |children| == 0 then [] else Items(children[0]) + AllItems(children[1..])
  }

  /** A later pair for the same key wins; in a tree no key has two. */
  ghost function Dict(items: seq<Item>): map<Bytes, Bytes> {
    if |items| == 0 then map[]
    else Dict(items[..|items| - 1])[items[|items| - 1].0 := items[|items| - 1].1]
  }

  ghost function Find(m: map<Bytes, Bytes>, key: Bytes): Option<Bytes> {
    if key in m then Some(m[key]) else None
  }

  // ----- Operations ----------------------------------------------------------------------

  ghost function Lookup(t: Tree, key: Bytes): Option<Bytes>
    requires Wf(t)
  {
    match t
    case Leaf(_, node) =>
      var pos := LowerBound(node.keys, key);
      if FoundAt(node.keys, key, pos) then Some(node.values[pos]) else None
    case Branch(_, keys, children) => Lookup(children[UpperBound(keys, key)], key)
  }

  function Replaced(children: seq<Tree>, c: nat, parts: seq<Tree>): seq<Tree>
    requires c < |children|
  {
    children[..c] + parts + children[c + 1..]
  }

  datatype Outcome = Whole(tree: Tree) | Halves(left: Tree, separator: Bytes, right: Tree)

  function Parts(o: Outcome): seq<Tree> {
    match o
    case Whole(t) => [t]
    case Halves(l, _, r) => [l, r]
  }

  function SplitLeafTree(t: Tree, next: BlockID): (o: Outcome)
    requires t.Leaf? && |t.node.keys| == |t.node.values| > 0
  {
    var (l, r) := LeafSplit(t.node, next);
    Halves(Leaf(t.id, l), r.keys[0], Leaf(next, r))
  }

  function SplitBranchTree(t: Tree, next: BlockID): (o: Outcome)
    requires t.Branch? && |t.children| == |t.keys| + 1 >= 2
  {
    var mid := |t.children| / 2;
    Halves(Branch(t.id, t.keys[..mid - 1], t.children[..mid]), t.keys[mid - 1],
           Branch(next, t.keys[mid..], t.children[mid..]))
  }

  /** Takes what became of child `c` into its parent. */
  function TakeIn(t: Tree, c: nat, o: Outcome): Tree
    requires t.Branch? && c < |t.children| && c <= |t.keys|
  {
    match o
    case Whole(u) => t.(children := Replaced(t.children, c, [u]))
    case Halves(l, s, r) => t.(keys := Inserted(t.keys, c, s), children := Replaced(t.children, c, [l, r]))
  }

  /** The outcome, and the next free block id after it. */
  ghost function PutTree(t: Tree, key: Bytes, value: Bytes, next: BlockID): (Outcome, BlockID)
    requires Wf(t)
  {
    match t
    case Leaf(id, node) =>
      var u := Leaf(id, LeafInsert(node, key, value));
      if |u.node.keys| >= MAX_LEAF_KEYS then (SplitLeafTree(u, next), next + 1) else (Whole(u), next)
    case Branch(id, keys, children) =>
      var c := UpperBound(keys, key);
      var (o, next') := PutTree(children[c], key, value, next);
      var u := TakeIn(t, c, o);
      if o.Halves? && |u.children| >= MAX_INTERNAL_KEYS + 1 then (SplitBranchTree(u, next'), next' + 1)
      else (Whole(u), next')
  }

  ghost function PutRoot(t: Tree, key: Bytes, value: Bytes, next: BlockID): (Tree, BlockID)
    requires Wf(t)
  {
    var (o, next') := PutTree(t, key, value, next);
    match o
    case Whole(u) => (u, next')
    case Halves(l, s, r) => (Branch(next', [s], [l, r]), next' + 1)
  }

  ghost function DeleteTree(t: Tree, key: Bytes): Tree
    requires Wf(t)
  {
    match t
    case Leaf(id, node) => Leaf(id, LeafDelete(node, key))
    case Branch(id, keys, children) =>
      var c := UpperBound(keys, key);
      t.(children := Replaced(children, c, [DeleteTree(children[c], key)]))
  }

  // ----- Lengths are kept ------------------------------------------------------------------

  lemma {:induction false} PutWf(t: Tree, key: Bytes, value: Bytes, next: BlockID)
    requires Wf(t)
    ensures AllWf(Parts(PutTree(t, key, value, next).0)) && PutTree(t, key, value, next).1 >= next
    ensures Wf(PutRoot(t, key, value, next).0)
  {
    if t.Branch? {
      var c := UpperBound(t.keys, key);
      PutWf(t.children[c], key, value, next);
      var (o, next') := PutTree(t.children[c], key, value, next);
      BranchPutWf(t, c, o, next');
    }
    RootWf(PutTree(t, key, value, next).0, PutTree(t, key, value, next).1);
  }

  lemma BranchPutWf(t: Tree, c: nat, o: Outcome, next: BlockID)
    requires Wf(t) && t.Branch? && c <= |t.keys| && AllWf(Parts(o))
    ensures Wf(TakeIn(t, c, o))
    ensures |TakeIn(t, c, o).children| >= 4 ==> AllWf(Parts(SplitBranchTree(TakeIn(t, c, o), next)))
  {
    var u := TakeIn(t, c, o);
    assert u.children == Replaced(t.children, c, Parts(o));
  }

  lemma RootWf(o: Outcome, rootID: BlockID)
    requires AllWf(Parts(o))
    ensures o.Whole? ==> Wf(o.tree)
    ensures o.Halves? ==> Wf(Branch(rootID, [o.separator], [o.left, o.right]))
  {
    assert Parts(o)[0] == if o.Whole? then o.tree else o.left;
    assert o.Halves? ==> Parts(o)[1] == o.right;
  }

  lemma {:induction false} DeleteWf(t: Tree, key: Bytes)
    requires Wf(t)
    ensures Wf(DeleteTree(t, key))
  {
    if t.Branch? {
      DeleteWf(t.children[UpperBound(t.keys, key)], key);
    }
  }

  // ----- Facts about contents ----------------------------------------------------------------

  lemma {:induction false} AllItemsConcat(a: seq<Tree>, b: seq<Tree>)
    requires AllWf(a) && AllWf(b)
    ensures AllItems(a + b) == AllItems(a) + AllItems(b)
  {
    if |a| == 0 {
      assert a + b == b;
    } else {
      AllItemsConcat(a[1..], b);
      assert (a + b)[1..] == a[1..] + b;
    }
  }

  lemma AllItemsOne(t: Tree)
    requires Wf(t)
    ensures AllItems([t]) == Items(t)
  {
    assert AllItems([t][1..]) == [];
  }

  /** The contents of a list of children with some of them replaced. */
  lemma ReplacedItems(children: seq<Tree>, c: nat, parts: seq<Tree>)
    requires c < |children| && AllWf(children) && AllWf(parts)
    ensures AllWf(Replaced(children, c, parts))
    ensures AllItems(Replaced(children, c, parts)) ==
            AllItems(children[..c]) + AllItems(parts) + AllItems(children[c + 1..])
    ensures AllItems(children) == AllItems(children[..c]) + Items(children[c]) + AllItems(children[c + 1..])
  {
    AllItemsConcat(children[..c], parts);
    AllItemsConcat(children[..c] + parts, children[c + 1..]);
    AllItemsConcat(children[..c], [children[c]]);
    AllItemsConcat(children[..c] + [children[c]], children[c + 1..]);
    AllItemsOne(children[c]);
    assert children == children[..c] + [children[c]] + children[c + 1..];
  }

  lemma {:induction false} AllItemsFrom(children: seq<Tree>, x: Item)
    requires AllWf(children) && x in AllItems(children)
    ensures exists c :: 0 <= c < |children| && x in Items(children[c])
  {
    if x !in Items(children[0]) {
      AllItemsFrom(children[1..], x);
      var c :| 0 <= c < |children[1..]| && x in Items(children[1..][c]);
      assert x in Items(children[c + 1]);
    }
  }

  lemma {:induction false} DictConcat(a: seq<Item>, b: seq<Item>)
    ensures Dict(a + b) == Dict(a) + Dict(b)
  {
    if |b| == 0 {
      assert a + b == a;
    } else {
      var b' := b[..|b| - 1];
      DictConcat(a, b');
      assert (a + b)[..|a + b| - 1] == a + b';
    }
  }

  ghost predicate HasKey(items: seq<Item>, key: Bytes) {
    exists i :: 0 <= i < |items| && items[i].0 == key
  }

  lemma {:induction false} DictKeys(items: seq<Item>, key: Bytes)
    ensures key in Dict(items) <==> HasKey(items, key)
  {
    if |items| > 0 {
      var last := |items| - 1;
      DictKeys(items[..last], key);
      if HasKey(items[..last], key) {
        var i :| 0 <= i < last && items[..last][i].0 == key;
        assert items[i].0 == key;
      }
      if HasKey(items, key) && items[last].0 != key {
        var i :| 0 <= i < |items| && items[i].0 == key;
        assert items[..last][i].0 == key;
      }
    }
  }

  /** A pair in the middle, whose key occurs nowhere after it, is what the dictionary says. */
  lemma DictMiddle(pre: seq<Item>, mid: seq<Item>, post: seq<Item>, key: Bytes)
    requires !HasKey(pre, key) && !HasKey(post, key)
    ensures Find(Dict(pre + mid + post), key) == Find(Dict(mid), key)
  {
    DictConcat(pre + mid, post);
    DictConcat(pre, mid);
    DictKeys(pre, key);
    DictKeys(post, key);
  }

  /** Changing the middle changes the dictionary alike, if the key does not occur after it. */
  lemma DictUpdate(pre: seq<Item>, mid: seq<Item>, mid': seq<Item>, post: seq<Item>, key: Bytes, value: Bytes)
    requires !HasKey(post, key) && Dict(mid') == Dict(mid)[key := value]
    ensures Dict(pre + mid' + post) == Dict(pre + mid + post)[key := value]
  {
    hide Dict, HasKey;
    DictConcat(pre + mid, post);
    DictConcat(pre, mid);
    DictConcat(pre + mid', post);
    DictConcat(pre, mid');
    DictKeys(post, key);
  }

  lemma DictRemove(pre: seq<Item>, mid: seq<Item>, mid': seq<Item>, post: seq<Item>, key: Bytes)
    requires !HasKey(pre, key) && !HasKey(post, key) && Dict(mid') == Dict(mid) - {key}
    ensures Dict(pre + mid' + post) == Dict(pre + mid + post) - {key}
  {
    hide Dict, HasKey;
    DictConcat(pre + mid, post);
    DictConcat(pre, mid);
    DictConcat(pre + mid', post);
    DictConcat(pre, mid');
    DictKeys(pre, key);
    DictKeys(post, key);
  }
}
