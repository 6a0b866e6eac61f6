/** How a tree lies in a map of blocks: one block a node, each decodable. */
module TreeStore {
  import opened Options
  import opened Bytes
  import opened FileSerializer
  import opened NodeCodec
  import opened NodeOps
  import opened Tree
  import opened TreeOrder
  import opened TreePut
  import opened TreeShape

  type BlockMap = map<BlockID, Block>

  function ChildIds(children: seq<Tree>): (ids: seq<BlockID>)
    ensures |ids| == |children| && forall c :: 0 <= c < |children| ==> ids[c] == children[c].id
  {
    seq(|children|, c requires 0 <= c < |children| => children[c].id)
  }

  function Internal(t: Tree): InternalValue
    requires t.Branch?
  {
    InternalValue(t.keys, ChildIds(t.children))
  }

  ghost function BlockOf(t: Tree): Block
    requires Wf(t)
  {
    NewBlockFromData(if t.Leaf? then EncodeLeaf(t.node) else EncodeInternal(Internal(t)))
  }

  ghost predicate Stored(view: BlockMap, t: Tree)
    requires Wf(t)
  {
    && t.id in view && view[t.id] == BlockOf(t)
    && (t.Branch? ==> forall c :: 0 <= c < |t.children| ==> Stored(view, t.children[c]))
  }

  ghost predicate AllStored(view: BlockMap, children: seq<Tree>)
    requires AllWf(children)
  {
    forall c :: 0 <= c < |children| ==> Stored(view, children[c])
  }

  /** `view'` says what `view` says about these ids. */
  ghost predicate AgreeOn(view: BlockMap, view': BlockMap, ids: set<BlockID>) {
    forall id :: id in ids && id in view ==> id in view' && view'[id] == view[id]
  }

  /** Nothing but these ids was changed; ids may have been added. */
  ghost predicate ChangedOnly(view: BlockMap, view': BlockMap, ids: set<BlockID>) {
    forall id :: id in view && id !in ids ==> id in view' && view'[id] == view[id]
  }

  lemma {:induction false} StoredFrame(view: BlockMap, view': BlockMap, t: Tree)
    requires Wf(t) && Stored(view, t) && AgreeOn(view, view', Ids(t))
    ensures Stored(view', t)
  {
    if t.Branch? {
      forall c | 0 <= c < |t.children|
        ensures Stored(view', t.children[c])
      {
        assert Ids(t.children[c]) <= IdsOf(t.children);
        StoredFrame(view, view', t.children[c]);
      }
    }
  }

  // ----- Every node of a good tree fits in its block ----------------------------------------

  ghost predicate NodeFits(t: Tree)
    requires Wf(t)
  {
    match t
    case Leaf(_, node) => LeafFits(node)
    case Branch(_, _, _) => InternalFits(Internal(t))
  }

  /** Everything the operations keep, for a subtree between `lo` and `hi`. */
  ghost predicate Good(t: Tree, h: nat, root: bool, lo: Option<Bytes>, hi: Option<Bytes>, next: BlockID) {
    && Wf(t) && Within(t, lo, hi)
    && Distinct(t) && Below(Ids(t), next) && 1 <= next <= MAX_BLOCK_ID + 1
    && Filled(t, h, root) && Small(t) && RightsBelow(t, next)
  }

  /** Sibling pointers are block ids. */
  ghost predicate RightsBelow(t: Tree, next: BlockID) {
    match t
    case Leaf(_, node) => node.right < next
    case Branch(_, _, children) => forall c :: 0 <= c < |children| ==> RightsBelow(children[c], next)
  }

  lemma GoodFits(t: Tree, h: nat, root: bool, lo: Option<Bytes>, hi: Option<Bytes>, next: BlockID)
    requires Good(t, h, root, lo, hi, next)
    ensures NodeFits(t)
  {
    match t
    case Leaf(_, node) => SmallLeafFits(node);
    case Branch(_, keys, children) =>
      forall c | 0 <= c < |children|
        ensures ChildIds(children)[c] <= MAX_BLOCK_ID
      {
        assert children[c].id in Ids(children[c]);
        assert children[c].id in IdsOf(children);
      }
      SmallBranchFits(Internal(t));
  }

  /** At most 49 pairs of at most 79 bytes: 7 + 49 * 83 <= 4096. */
  lemma SmallLeafFits(n: LeafValue)
    requires SmallLeaf(n) && |n.keys| < MAX_LEAF_KEYS && n.right <= MAX_BLOCK_ID
    ensures LeafFits(n)
  {
    forall i | 0 <= i < |n.keys|
      ensures |n.keys[i]| + |n.values[i]| <= MAX_PAIR_SIZE
    {
      assert SmallPair(n.keys[i], n.values[i]);
    }
    PairsSize(n.keys, n.values, MAX_PAIR_SIZE);
  }

  /** At most 250 children and 249 keys of at most 10 bytes: 5 + 1000 + 249 * 12 <= 4096. */
  lemma SmallBranchFits(n: InternalValue)
    requires |n.children| == |n.keys| + 1 <= MAX_INTERNAL_KEYS && SmallKeys(n.keys)
    requires forall i :: 0 <= i < |n.children| ==> n.children[i] <= MAX_BLOCK_ID
    ensures InternalFits(n)
  {
    FieldsSize(n.keys, MAX_KEY_SIZE);
    ChildrenSize(n.children);
  }

  lemma ChildGood(t: Tree, c: nat, h: nat, root: bool, lo: Option<Bytes>, hi: Option<Bytes>, next: BlockID)
    requires Good(t, h, root, lo, hi, next) && t.Branch? && c < |t.children|
    ensures h > 0 && Good(t.children[c], h - 1, false, Low(t.keys, c, lo), High(t.keys, c, hi), next)
    ensures Ids(t.children[c]) <= Ids(t)
  {
    ChildIdsBelow(t, c, next);
    assert AllFilled(t.children, h - 1) && AllDistinct(t.children);
  }

  /** A decoded block gives back the node it was made from. */
  lemma DecodeStored(view: BlockMap, t: Tree)
    requires Wf(t) && Stored(view, t) && NodeFits(t)
    ensures |view[t.id]| > 0
    ensures t.Leaf? ==> view[t.id][0] == LEAF_TAG && DecodeLeaf(view[t.id]) == Node(t.node)
    ensures t.Branch? ==> view[t.id][0] == INTERNAL_TAG && DecodeInternal(view[t.id]) == Node(Internal(t))
  {
    if t.Leaf? {
      LeafRoundTrip(t.node);
    } else {
      InternalRoundTrip(Internal(t));
    }
  }

  /** What a descent needs: sorted nodes that come back from their blocks. */
  ghost predicate Readable(t: Tree) {
    && Wf(t) && NodeFits(t) && Ascending(if t.Leaf? then t.node.keys else t.keys)
    && (t.Branch? ==> forall c :: 0 <= c < |t.children| ==> Readable(t.children[c]))
  }

  lemma {:induction false} GoodIsReadable(t: Tree, h: nat, root: bool, lo: Option<Bytes>, hi: Option<Bytes>,
                                          next: BlockID)
    requires Good(t, h, root, lo, hi, next)
    ensures Readable(t)
    decreases t
  {
    GoodFits(t, h, root, lo, hi, next);
    if t.Branch? {
      forall c | 0 <= c < |t.children|
        ensures Readable(t.children[c])
      {
        ChildGood(t, c, h, root, lo, hi, next);
        GoodIsReadable(t.children[c], h - 1, false, Low(t.keys, c, lo), High(t.keys, c, hi), next);
      }
    }
  }

  /** The first look at a node: its block decodes to it. */
  lemma ReadableReads(view: BlockMap, t: Tree)
    requires Readable(t) && Stored(view, t)
    ensures Wf(t) && t.id in view && |view[t.id]| > 0
    ensures t.Leaf? ==> view[t.id][0] == LEAF_TAG && DecodeLeaf(view[t.id]) == Node(t.node) && Ascending(t.node.keys)
    ensures t.Branch? ==> view[t.id][0] == INTERNAL_TAG && DecodeInternal(view[t.id]) == Node(Internal(t))
    ensures t.Branch? ==> Ascending(t.keys)
  {
    DecodeStored(view, t);
  }

  lemma LookupStep(view: BlockMap, t: Tree, key: Bytes, h: nat, root: bool)
    requires Readable(t) && Stored(view, t) && Filled(t, h, root)
    ensures t.Leaf? ==> h == 0 && |t.node.keys| == |t.node.values|
    ensures t.Leaf? ==> var pos := LowerBound(t.node.keys, key);
                        Lookup(t, key) == if FoundAt(t.node.keys, key, pos) then Some(t.node.values[pos]) else None
    ensures t.Branch? ==> var c := UpperBound(t.keys, key);
                          && c < |t.children| == |t.keys| + 1 && h > 0 && Lookup(t, key) == Lookup(t.children[c], key)
                          && Readable(t.children[c]) && Stored(view, t.children[c])
                          && Filled(t.children[c], h - 1, false)
  {
  }

  // ----- Put and delete keep a good tree good ---------------------------------------------------

  lemma {:induction false} RightsGrow(t: Tree, next: BlockID, next': BlockID)
    requires RightsBelow(t, next) && next <= next'
    ensures RightsBelow(t, next')
  {
    if t.Branch? {
      forall c | 0 <= c < |t.children|
        ensures RightsBelow(t.children[c], next')
      {
        RightsGrow(t.children[c], next, next');
      }
    }
  }

  ghost predicate PartsRights(parts: seq<Tree>, next: BlockID) {
    forall c :: 0 <= c < |parts| ==> RightsBelow(parts[c], next)
  }

  lemma ReplacedRights(children: seq<Tree>, c: nat, parts: seq<Tree>, next: BlockID, next': BlockID)
    requires c < |children| && PartsRights(children, next) && PartsRights(parts, next') && next <= next'
    ensures PartsRights(Replaced(children, c, parts), next')
  {
    var all := Replaced(children, c, parts);
    forall i | 0 <= i < |all|
      ensures RightsBelow(all[i], next')
    {
      if i < c {
        RightsGrow(children[i], next, next');
      } else if i < c + |parts| {
        assert all[i] == parts[i - c];
      } else {
        assert all[i] == children[i - |parts| + 1];
        RightsGrow(all[i], next, next');
      }
    }
  }

  lemma {:induction false} PutRights(t: Tree, key: Bytes, value: Bytes, next: BlockID)
    requires Wf(t) && RightsBelow(t, next)
    ensures PartsRights(Parts(PutTree(t, key, value, next).0), PutTree(t, key, value, next).1)
  {
    if t.Leaf? {
      LeafPutRights(t, key, value, next);
    } else {
      hide RightsBelow, TakeIn, Replaced, SplitBranchTree, LeafInsert;
      assert RightsBelow(t.children[UpperBound(t.keys, key)], next) by {
        ChildRights(t, UpperBound(t.keys, key), next);
      }
      var c := UpperBound(t.keys, key);
      PutRights(t.children[c], key, value, next);
      var (o, next') := PutTree(t.children[c], key, value, next);
      PutWf(t.children[c], key, value, next);
      BranchPutRights(t, c, o, next, next');
    }
  }

  lemma ChildRights(t: Tree, c: nat, next: BlockID)
    requires t.Branch? && c < |t.children| && RightsBelow(t, next)
    ensures RightsBelow(t.children[c], next)
  {
  }

  lemma LeafPutRights(t: Tree, key: Bytes, value: Bytes, next: BlockID)
    requires t.Leaf? && Wf(t) && RightsBelow(t, next)
    ensures PartsRights(Parts(PutTree(t, key, value, next).0), PutTree(t, key, value, next).1)
  {
    hide LowerBound, Inserted;
  }

  lemma BranchPutRights(t: Tree, c: nat, o: Outcome, next: BlockID, next': BlockID)
    requires t.Branch? && c < |t.children| == |t.keys| + 1 && RightsBelow(t, next) && next <= next'
    requires PartsRights(Parts(o), next')
    ensures var u := TakeIn(t, c, o);
            && RightsBelow(u, next')
            && PartsRights([u], next')
            && (|u.children| >= 2 ==> PartsRights(Parts(SplitBranchTree(u, next')), next' + 1))
  {
    var u := TakeIn(t, c, o);
    assert u.children == Replaced(t.children, c, Parts(o));
    ReplacedRights(t.children, c, Parts(o), next, next');
    if |u.children| >= 2 {
      RightsGrow(u, next', next' + 1);
      assert PartsRights(u.children, next' + 1);
    }
  }

  lemma {:induction false} DeleteRights(t: Tree, key: Bytes, next: BlockID)
    requires Wf(t) && RightsBelow(t, next)
    ensures RightsBelow(DeleteTree(t, key), next)
  {
    if t.Branch? {
      var c := UpperBound(t.keys, key);
      DeleteRights(t.children[c], key, next);
      ReplacedRights(t.children, c, [DeleteTree(t.children[c], key)], next, next);
    }
  }

  lemma PutRootGood(t: Tree, h: nat, key: Bytes, value: Bytes, next: BlockID) returns (h': nat)
    requires Good(t, h, true, None, None, next) && SmallPair(key, value) && next + h + 2 <= MAX_BLOCK_ID
    ensures var (u, next') := PutRoot(t, key, value, next);
            Good(u, h', true, None, None, next') && Dict(Items(u)) == Dict(Items(t))[key := value]
  {
    PutRootCorrect(t, key, value, next);
    PutRootIds(t, key, value, next);
    PutRootFilled(t, h, key, value, next);
    PutRootSmall(t, key, value, next);
    PutRootRights(t, key, value, next);
    h' := if Filled(PutRoot(t, key, value, next).0, h, true) then h else h + 1;
  }

  lemma PutRootRights(t: Tree, key: Bytes, value: Bytes, next: BlockID)
    requires Wf(t) && RightsBelow(t, next)
    ensures var (u, next') := PutRoot(t, key, value, next); RightsBelow(u, next')
  {
    hide PutTree, RightsBelow;
    PutRights(t, key, value, next);
    RootRights(PutTree(t, key, value, next).0, PutTree(t, key, value, next).1);
  }

  lemma RootRights(o: Outcome, next: BlockID)
    requires PartsRights(Parts(o), next)
    ensures o.Whole? ==> RightsBelow(o.tree, next)
    ensures o.Halves? ==> RightsBelow(Branch(next, [o.separator], [o.left, o.right]), next + 1)
  {
    match o
    case Whole(u) => assert Parts(o)[0] == u;
    case Halves(l, s, r) =>
      assert Parts(o)[0] == l && Parts(o)[1] == r;
      RightsGrow(l, next, next + 1);
      RightsGrow(r, next, next + 1);
  }

  lemma DeleteGood(t: Tree, h: nat, key: Bytes, next: BlockID)
    requires Good(t, h, true, None, None, next)
    ensures var u := DeleteTree(t, key);
            Good(u, h, true, None, None, next) && Dict(Items(u)) == Dict(Items(t)) - {key}
  {
    DeleteWithin(t, None, None, key);
    DeleteItems(t, None, None, key);
    DeleteIds(t, key, next);
    DeleteFilled(t, h, true, key);
    DeleteSmall(t, key);
    DeleteRights(t, key, next);
  }

  // ----- What a put writes -------------------------------------------------------------------------

  /** The separator that comes back from child `c` is routed to place `c`. */
  lemma SeparatorRoute(keys: seq<Bytes>, c: nat, s: Bytes, lo: Option<Bytes>, hi: Option<Bytes>)
    requires Ascending(keys) && c <= |keys| && SepIn(s, Low(keys, c, lo), High(keys, c, hi))
    ensures UpperBound(keys, s) == c
  {
    UpperBoundSplits(keys, s);
    forall i | 0 <= i < c
      ensures !Less(s, keys[i])
    {
      LessIsStrictOrder(keys[i], keys[c - 1], s);
      LessIsStrictOrder(keys[i], s, keys[c - 1]);
      LessIsStrictOrder(keys[c - 1], s, keys[i]);
    }
    forall i | c <= i < |keys|
      ensures Less(s, keys[i])
    {
      LessIsStrictOrder(s, keys[c], keys[i]);
    }
    AboveIsUnique(keys, s, c, UpperBound(keys, s));
  }

  /** Inserting the separator and the new child in the node is taking the halves in. */
  lemma InsertIsTakeIn(t: Tree, c: nat, o: Outcome, lo: Option<Bytes>, hi: Option<Bytes>)
    requires Wf(t) && t.Branch? && Ascending(t.keys) && c <= |t.keys| && o.Halves?
    requires SepIn(o.separator, Low(t.keys, c, lo), High(t.keys, c, hi)) && o.left.id == t.children[c].id
    ensures InternalInsert(Internal(t), o.separator, o.right.id) == Internal(TakeIn(t, c, o))
  {
    SeparatorRoute(t.keys, c, o.separator, lo, hi);
    TakeInIds(t.children, c, o.left, o.right);
  }

  lemma TakeInIds(children: seq<Tree>, c: nat, l: Tree, r: Tree)
    requires c < |children| && l.id == children[c].id
    ensures ChildIds(Replaced(children, c, [l, r])) == Inserted(ChildIds(children), c + 1, r.id)
  {
    var all := Replaced(children, c, [l, r]);
    forall i | 0 <= i < |all|
      ensures ChildIds(all)[i] == Inserted(ChildIds(children), c + 1, r.id)[i]
    {
      assert i > c + 1 ==> all[i] == children[i - 1];
    }
  }

  lemma SplitIsCut(t: Tree, next: BlockID)
    requires Wf(t) && t.Branch?
    ensures var o := SplitBranchTree(t, next);
            InternalSplit(Internal(t)) == (Internal(o.left), o.separator, Internal(o.right))
  {
    var o := SplitBranchTree(t, next);
    var mid := |t.children| / 2;
    assert ChildIds(t.children[..mid]) == ChildIds(t.children)[..mid];
    assert ChildIds(t.children[mid..]) == ChildIds(t.children)[mid..];
  }

  // ----- Results of the descent, against the blocks ---------------------------------------------

  /** A put below the root left these parts in the blocks, and reports the right one. */
  ghost predicate Delivers(result: (Outcome, BlockID), newID: BlockID, separator: Bytes, view: BlockMap,
                           next: BlockID) {
    && next == result.1 && AllWf(Parts(result.0)) && AllStored(view, Parts(result.0))
    && match result.0
       case Whole(_) => newID == INVALID_BLOCK_ID
       case Halves(_, s, r) => newID == r.id && separator == s
  }

  /** A put at the root left the whole tree in the blocks, and reports a new root if there is one. */
  ghost predicate DeliversRoot(t: Tree, key: Bytes, value: Bytes, next0: BlockID, newID: BlockID, view: BlockMap,
                               next: BlockID)
    requires Wf(t)
  {
    var (u, next') := PutRoot(t, key, value, next0);
    && next == next' && Wf(u) && Stored(view, u)
    && newID == if PutTree(t, key, value, next0).0.Halves? then u.id else INVALID_BLOCK_ID
  }

  /** Blocks with the two halves of a split written over the old node and into a new block. */
  function WithHalves(view: BlockMap, id: BlockID, left: Block, rightID: BlockID, right: Block): BlockMap {
    view[id := left][rightID := right]
  }

  lemma LeafHalvesStored(view: BlockMap, u: Tree, next: BlockID)
    requires u.Leaf? && |u.node.keys| == |u.node.values| > 0 && u.id != next
    ensures var (l, r) := LeafSplit(u.node, next); var o := SplitLeafTree(u, next);
            && AllWf(Parts(o))
            && AllStored(WithHalves(view, u.id, NewBlockFromData(EncodeLeaf(l)),
                                    next, NewBlockFromData(EncodeLeaf(r))), Parts(o))
  {
  }

  lemma OneStored(view: BlockMap, t: Tree)
    requires Wf(t) && Stored(view, t)
    ensures AllWf([t]) && AllStored(view, [t])
  {
  }

  function RootBlock(left: BlockID, right: BlockID, separator: Bytes): Block {
    NewBlockFromData(EncodeInternal(InternalValue([separator], [left, right])))
  }

  /** A new root over two stored halves. */
  lemma NewRootStored(view: BlockMap, o: Outcome, rootID: BlockID)
    requires o.Halves? && AllWf(Parts(o)) && AllStored(view, Parts(o))
    requires rootID !in Ids(o.left) && rootID !in Ids(o.right)
    ensures var u := Branch(rootID, [o.separator], [o.left, o.right]);
            && Wf(u) && Stored(view[rootID := RootBlock(o.left.id, o.right.id, o.separator)], u)
  {
    var u := Branch(rootID, [o.separator], [o.left, o.right]);
    var after := view[rootID := RootBlock(o.left.id, o.right.id, o.separator)];
    assert Parts(o)[0] == o.left && Parts(o)[1] == o.right;
    StoredFrame(view, after, o.left);
    StoredFrame(view, after, o.right);
    assert ChildIds([o.left, o.right]) == [o.left.id, o.right.id];
  }

  /** After the put into child `c`, the other children and the node itself are as they were. */
  lemma ChildrenStored(view: BlockMap, view': BlockMap, t: Tree, c: nat, parts: seq<Tree>)
    requires Wf(t) && t.Branch? && Distinct(t) && Stored(view, t) && c < |t.children|
    requires ChangedOnly(view, view', Ids(t.children[c])) && AllWf(parts) && AllStored(view', parts)
    ensures t.id in view' && view'[t.id] == BlockOf(t)
    ensures AllWf(Replaced(t.children, c, parts)) && AllStored(view', Replaced(t.children, c, parts))
  {
    assert t.id !in Ids(t.children[c]) by {
      assert Ids(t.children[c]) <= IdsOf(t.children);
    }
    forall i | 0 <= i < |t.children| && i != c
      ensures Stored(view', t.children[i])
    {
      SiblingStored(view, view', t, c, i);
    }
    ReplacedStored(view', t.children, c, parts);
  }

  lemma ReplacedStored(view: BlockMap, children: seq<Tree>, c: nat, parts: seq<Tree>)
    requires c < |children| && AllWf(children) && AllWf(parts) && AllStored(view, parts)
    requires forall i :: 0 <= i < |children| && i != c ==> Stored(view, children[i])
    ensures AllWf(Replaced(children, c, parts)) && AllStored(view, Replaced(children, c, parts))
  {
    hide Stored, Wf;
    var all := Replaced(children, c, parts);
    forall i | 0 <= i < |all|
      ensures Wf(all[i]) && Stored(view, all[i])
    {
      if i < c {
        assert all[i] == children[i];
      } else if i < c + |parts| {
        assert all[i] == parts[i - c];
      } else {
        assert all[i] == children[i - |parts| + 1];
      }
    }
  }

  lemma SiblingStored(view: BlockMap, view': BlockMap, t: Tree, c: nat, i: nat)
    requires Wf(t) && t.Branch? && Distinct(t) && Stored(view, t) && c < |t.children| && i < |t.children| && i != c
    requires ChangedOnly(view, view', Ids(t.children[c]))
    ensures Stored(view', t.children[i])
  {
    assert Ids(t.children[i]) !! Ids(t.children[c]);
    StoredFrame(view, view', t.children[i]);
  }

  /** A child that kept its id leaves the node's own block as it was. */
  lemma SameIdsSameBlock(t: Tree, c: nat, u: Tree)
    requires Wf(t) && t.Branch? && c < |t.children| && Wf(u) && u.id == t.children[c].id
    ensures Wf(TakeIn(t, c, Whole(u))) && BlockOf(TakeIn(t, c, Whole(u))) == BlockOf(t)
  {
    hide EncodeInternal, NewBlockFromData, EncodeLeaf;
    assert ChildIds(Replaced(t.children, c, [u])) == ChildIds(t.children);
  }

  /** Rewriting the block of a node over stored children stores the node. */
  lemma BranchStored(view: BlockMap, u: Tree, block: Block)
    requires Wf(u) && u.Branch? && AllStored(view, u.children) && u.id !in IdsOf(u.children)
    requires block == BlockOf(u)
    ensures Stored(view[u.id := block], u)
  {
    forall c | 0 <= c < |u.children|
      ensures Stored(view[u.id := block], u.children[c])
    {
      assert Ids(u.children[c]) <= IdsOf(u.children);
      StoredFrame(view, view[u.id := block], u.children[c]);
    }
  }

  /** Both halves of a split branch, over stored children. */
  lemma BranchHalvesStored(view: BlockMap, u: Tree, next: BlockID)
    requires Wf(u) && u.Branch? && |u.children| >= 4 && AllStored(view, u.children)
    requires u.id !in IdsOf(u.children) && next !in IdsOf(u.children) && u.id != next
    ensures var (l, _, r) := InternalSplit(Internal(u)); var o := SplitBranchTree(u, next);
            && AllWf(Parts(o))
            && AllStored(WithHalves(view, u.id, NewBlockFromData(EncodeInternal(l)),
                                    next, NewBlockFromData(EncodeInternal(r))), Parts(o))
  {
    var o := SplitBranchTree(u, next);
    var (l, _, r) := InternalSplit(Internal(u));
    var after := WithHalves(view, u.id, NewBlockFromData(EncodeInternal(l)), next, NewBlockFromData(EncodeInternal(r)));
    SplitBranchWf(u, next);
    TwoParts(o);
    SplitIsCut(u, next);
    forall c | 0 <= c < |u.children|
      ensures Stored(after, u.children[c])
    {
      assert Ids(u.children[c]) <= IdsOf(u.children);
      StoredFrame(view, after, u.children[c]);
    }
    hide Ids, IdsOf, Wf, Stored;
    HalfStored(after, o.left, u.children);
    HalfStored(after, o.right, u.children);
  }

  lemma HalfStored(view: BlockMap, half: Tree, children: seq<Tree>)
    requires Wf(half) && half.Branch? && AllWf(children) && AllStored(view, children)
    requires forall c :: 0 <= c < |half.children| ==> half.children[c] in children
    requires half.id in view && view[half.id] == BlockOf(half)
    ensures Stored(view, half)
  {
  }

  // ----- The branch step ---------------------------------------------------------------------------

  /** The branch step of PutTree, given what came back from child `c`. */
  ghost function Grown(t: Tree, c: nat, child: (Outcome, BlockID)): (Outcome, BlockID)
    requires Wf(t) && t.Branch? && c <= |t.keys|
  {
    var u := TakeIn(t, c, child.0);
    if child.0.Halves? && |u.children| >= MAX_INTERNAL_KEYS + 1 then (SplitBranchTree(u, child.1), child.1 + 1)
    else (Whole(u), child.1)
  }

  ghost predicate DeliversGrown(result: (Outcome, BlockID), newID: BlockID, view: BlockMap, next: BlockID) {
    match result.0
    case Whole(u) => next == result.1 && Wf(u) && Stored(view, u) && newID == INVALID_BLOCK_ID
    case Halves(l, s, r) =>
      var u := Branch(result.1, [s], [l, r]);
      next == result.1 + 1 && Wf(u) && Stored(view, u) && newID == u.id
  }

  ghost predicate DoneBy(result: (Outcome, BlockID), root: bool, newID: BlockID, separator: Bytes,
                         view': BlockMap, next': BlockID) {
    if root then DeliversGrown(result, newID, view', next') else Delivers(result, newID, separator, view', next')
  }

  /** What holds between the return of the child and the write of its parent. */
  ghost predicate BranchReady(t: Tree, c: nat, child: (Outcome, BlockID), view: BlockMap, next: BlockID,
                              lo: Option<Bytes>, hi: Option<Bytes>) {
    && Wf(t) && t.Branch? && |t.children| <= MAX_INTERNAL_KEYS && c <= |t.keys| && Ascending(t.keys)
    && AllWf(Parts(child.0)) && child.1 == next && next >= 1
    && t.id in view && view[t.id] == BlockOf(t)
    && AllWf(Replaced(t.children, c, Parts(child.0)))
    && AllStored(view, Replaced(t.children, c, Parts(child.0)))
    && t.id !in IdsOf(Replaced(t.children, c, Parts(child.0)))
    && Below(IdsOf(Replaced(t.children, c, Parts(child.0))), next) && 1 <= t.id < next
    && Parts(child.0)[0].id == t.children[c].id
    && (child.0.Halves? ==> child.0.right.id >= 1 && SepIn(child.0.separator, Low(t.keys, c, lo), High(t.keys, c, hi)))
  }

  /** The state in which a put may enter a subtree. */
  ghost predicate PutReady(t: Tree, h: nat, root: bool, lo: Option<Bytes>, hi: Option<Bytes>, key: Bytes, value: Bytes,
                           view: BlockMap, next: BlockID, rootID: BlockID) {
    && Good(t, h, root, lo, hi, next) && Stored(view, t)
    && (root <==> t.id == rootID) && (!root ==> rootID !in Ids(t))
    && InRange(key, lo, hi) && SmallPair(key, value) && next + h + 2 <= MAX_BLOCK_ID
  }

  /** What a put leaves in the blocks and reports. */
  ghost predicate PutDone(t: Tree, root: bool, key: Bytes, value: Bytes, next: BlockID,
                          newID: BlockID, separator: Bytes, view': BlockMap, next': BlockID)
    requires Wf(t)
  {
    if root then DeliversRoot(t, key, value, next, newID, view', next')
    else Delivers(PutTree(t, key, value, next), newID, separator, view', next')
  }

  /** The first look at a node: its block decodes to it. */
  lemma PutReads(t: Tree, h: nat, root: bool, lo: Option<Bytes>, hi: Option<Bytes>, key: Bytes, value: Bytes,
                 view: BlockMap, next: BlockID, rootID: BlockID)
    requires PutReady(t, h, root, lo, hi, key, value, view, next, rootID)
    ensures Wf(t) && t.id in view && |view[t.id]| > 0 && t.id < next
    ensures t.Leaf? ==> view[t.id][0] == LEAF_TAG && DecodeLeaf(view[t.id]) == Node(t.node)
    ensures t.Leaf? ==> |t.node.keys| < MAX_LEAF_KEYS && Ascending(t.node.keys)
    ensures t.Branch? ==> view[t.id][0] == INTERNAL_TAG && DecodeInternal(view[t.id]) == Node(Internal(t))
    ensures t.Branch? ==> Ascending(t.keys)
  {
    GoodFits(t, h, root, lo, hi, next);
    DecodeStored(view, t);
  }

  lemma PutDescends(t: Tree, h: nat, root: bool, lo: Option<Bytes>, hi: Option<Bytes>, key: Bytes, value: Bytes,
                    view: BlockMap, next: BlockID, rootID: BlockID)
    requires PutReady(t, h, root, lo, hi, key, value, view, next, rootID) && t.Branch?
    ensures h > 0 && |t.children| == |t.keys| + 1
    ensures var c := UpperBound(t.keys, key);
            PutReady(t.children[c], h - 1, false, Low(t.keys, c, lo), High(t.keys, c, hi), key, value, view, next,
              rootID)
  {
    var c := UpperBound(t.keys, key);
    ChildGood(t, c, h, root, lo, hi, next);
    RouteInRange(t.keys, key, lo, hi);
    assert t.children[c].id in Ids(t.children[c]);
    assert Ids(t.children[c]) <= IdsOf(t.children);
  }

  lemma ChildReady(t: Tree, h: nat, root: bool, lo: Option<Bytes>, hi: Option<Bytes>, key: Bytes, value: Bytes,
                   next: BlockID)
    requires Good(t, h, root, lo, hi, next) && t.Branch? && InRange(key, lo, hi)
    ensures var c := UpperBound(t.keys, key); var child := PutTree(t.children[c], key, value, next);
            && AllWf(Parts(child.0)) && child.1 >= next && Parts(child.0)[0].id == t.children[c].id
            && (child.0.Halves? ==>
                  child.0.right.id >= 1 && SepIn(child.0.separator, Low(t.keys, c, lo), High(t.keys, c, hi)))
            && IdsFrom(Parts(child.0), Ids(t.children[c]), next, child.1)
  {
    var c := UpperBound(t.keys, key);
    ChildGood(t, c, h, root, lo, hi, next);
    RouteInRange(t.keys, key, lo, hi);
    PutWf(t.children[c], key, value, next);
    PutWithin(t.children[c], Low(t.keys, c, lo), High(t.keys, c, hi), key, value, next);
    PutIds(t.children[c], key, value, next);
  }

  /** The put into the child has returned: the parent can go on. */
  lemma PutReturns(t: Tree, h: nat, root: bool, lo: Option<Bytes>, hi: Option<Bytes>, key: Bytes, value: Bytes,
                   view: BlockMap, next: BlockID, rootID: BlockID, c: nat, child: (Outcome, BlockID),
                   newChild: BlockID, separator: Bytes, view': BlockMap, next': BlockID)
    requires PutReady(t, h, root, lo, hi, key, value, view, next, rootID) && t.Branch?
    requires c == UpperBound(t.keys, key) && child == PutTree(t.children[c], key, value, next)
    requires Delivers(child, newChild, separator, view', next') && ChangedOnly(view, view', Ids(t.children[c]))
    ensures BranchReady(t, c, child, view', next', lo, hi)
    ensures next' + 2 <= MAX_BLOCK_ID && PutTree(t, key, value, next) == Grown(t, c, child)
  {
    assert BranchReady(t, c, child, view', next', lo, hi) by {
      ChildReady(t, h, root, lo, hi, key, value, next);
      BranchReadyFrom(view, view', t, c, child, lo, hi, next);
    }
    assert next' + 2 <= MAX_BLOCK_ID by {
      ChildUses(t, h, root, lo, hi, key, value, next);
    }
    BranchStep(t, key, value, next);
  }

  lemma BranchStep(t: Tree, key: Bytes, value: Bytes, next: BlockID)
    requires Wf(t) && t.Branch?
    ensures var c := UpperBound(t.keys, key);
            PutTree(t, key, value, next) == Grown(t, c, PutTree(t.children[c], key, value, next))
  {
  }

  lemma ChildUses(t: Tree, h: nat, root: bool, lo: Option<Bytes>, hi: Option<Bytes>, key: Bytes, value: Bytes,
                  next: BlockID)
    requires Good(t, h, root, lo, hi, next) && t.Branch?
    ensures PutTree(t.children[UpperBound(t.keys, key)], key, value, next).1 <= next + h
  {
    var c := UpperBound(t.keys, key);
    ChildGood(t, c, h, root, lo, hi, next);
    PutFilled(t.children[c], h - 1, false, key, value, next);
  }

  /** What the put changed below it also changed inside the parent. */
  lemma ChangesNest(view: BlockMap, mid: BlockMap, view': BlockMap, t: Tree, c: nat)
    requires t.Branch? && c < |t.children|
    requires ChangedOnly(view, mid, Ids(t.children[c])) && ChangedOnly(mid, view', {t.id})
    ensures ChangedOnly(view, view', Ids(t))
  {
    assert Ids(t.children[c]) <= IdsOf(t.children);
  }

  lemma BranchReadyFrom(view: BlockMap, view': BlockMap, t: Tree, c: nat, child: (Outcome, BlockID),
                        lo: Option<Bytes>, hi: Option<Bytes>, next: BlockID)
    requires Wf(t) && t.Branch? && |t.children| <= MAX_INTERNAL_KEYS && c <= |t.keys| && Ascending(t.keys)
    requires Distinct(t) && Below(Ids(t), next) && Stored(view, t) && child.1 >= next >= 1
    requires AllWf(Parts(child.0)) && Parts(child.0)[0].id == t.children[c].id
    requires child.0.Halves? ==>
               child.0.right.id >= 1 && SepIn(child.0.separator, Low(t.keys, c, lo), High(t.keys, c, hi))
    requires IdsFrom(Parts(child.0), Ids(t.children[c]), next, child.1)
    requires ChangedOnly(view, view', Ids(t.children[c])) && AllStored(view', Parts(child.0))
    ensures BranchReady(t, c, child, view', child.1, lo, hi)
  {
    assert Below(IdsOf(t.children), next);
    ReplacedIds(t.children, c, Parts(child.0), next, child.1);
    ChildrenStored(view, view', t, c, Parts(child.0));
  }

  lemma KeepsAll(view: BlockMap, view': BlockMap, children: seq<Tree>)
    requires AllWf(children) && AllStored(view, children) && AgreeOn(view, view', IdsOf(children))
    ensures AllStored(view', children)
  {
    forall c | 0 <= c < |children|
      ensures Stored(view', children[c])
    {
      assert Ids(children[c]) <= IdsOf(children);
      StoredFrame(view, view', children[c]);
    }
  }

  lemma KeepsChildren(view: BlockMap, view': BlockMap, u: Tree)
    requires Wf(u) && u.Branch? && AllStored(view, u.children) && ChangedOnly(view, view', {u.id})
    requires u.id !in IdsOf(u.children)
    ensures AllStored(view', u.children)
  {
    KeepsAll(view, view', u.children);
  }

  /** A whole child leaves the node's block alone, and the node is stored. */
  lemma WholeStored(view: BlockMap, t: Tree, c: nat, v: Tree)
    requires Wf(t) && t.Branch? && c < |t.children| && Wf(v) && v.id == t.children[c].id
    requires t.id in view && view[t.id] == BlockOf(t)
    requires AllWf(Replaced(t.children, c, [v])) && AllStored(view, Replaced(t.children, c, [v]))
    ensures var u := TakeIn(t, c, Whole(v)); Wf(u) && Stored(view, u) && AllWf([u]) && AllStored(view, [u])
  {
    SameIdsSameBlock(t, c, v);
    OneStored(view, TakeIn(t, c, Whole(v)));
  }

  /** The block after the right half is in neither half. */
  lemma FreshRoot(u: Tree, next: BlockID)
    requires Wf(u) && u.Branch? && Below(IdsOf(u.children), next) && u.id < next
    ensures var o := SplitBranchTree(u, next);
            o.Halves? && o.left.id == u.id && next + 1 !in Ids(o.left) && next + 1 !in Ids(o.right)
  {
    var mid := |u.children| / 2;
    CutCovers(u.children, mid);
  }

  /** A full branch whose children are stored, about to be split. */
  ghost predicate SplitReady(u: Tree, view: BlockMap, next: BlockID) {
    && Wf(u) && u.Branch? && |u.children| >= 4 && u.id in view && u.id < next
    && AllStored(view, u.children) && u.id !in IdsOf(u.children) && Below(IdsOf(u.children), next)
  }

  lemma SplitStored(view: BlockMap, u: Tree, next: BlockID)
    requires SplitReady(u, view, next)
    ensures var (l, s, r) := InternalSplit(Internal(u)); var o := SplitBranchTree(u, next);
            var after := WithHalves(view[next := Zeros(BLOCK_SIZE)], u.id, NewBlockFromData(EncodeInternal(l)),
                                    next, NewBlockFromData(EncodeInternal(r)));
            && s == o.separator
            && Delivers((o, next + 1), next, s, after, next + 1)
  {
    KeepsAll(view, view[next := Zeros(BLOCK_SIZE)], u.children);
    SplitIsCut(u, next);
    BranchHalvesStored(view[next := Zeros(BLOCK_SIZE)], u, next);
  }

  /** An empty report means that the child stayed whole, and then nothing is left to do. */
  lemma WholeTaken(view: BlockMap, t: Tree, c: nat, child: (Outcome, BlockID), next: BlockID,
                   lo: Option<Bytes>, hi: Option<Bytes>, newChild: BlockID, separator: Bytes, root: bool)
    requires BranchReady(t, c, child, view, next, lo, hi) && Delivers(child, newChild, separator, view, next)
    ensures newChild == INVALID_BLOCK_ID <==> child.0.Whole?
    ensures child.0.Whole? ==> DoneBy(Grown(t, c, child), root, INVALID_BLOCK_ID, [], view, next)
    ensures child.0.Halves? ==> newChild == child.0.right.id && separator == child.0.separator
  {
    if child.0.Whole? {
      WholeStored(view, t, c, child.0.tree);
    }
  }

  /** With `u` written back, either all is done or `u` is full and is about to be split. */
  ghost predicate TakenIn(u: Tree, result: (Outcome, BlockID), root: bool, view: BlockMap, next: BlockID)
    requires u.Branch?
  {
    if |Internal(u).children| >= MAX_INTERNAL_KEYS + 1
    then SplitReady(u, view, next) && result == (SplitBranchTree(u, next), next + 1)
    else DoneBy(result, root, INVALID_BLOCK_ID, [], view, next)
  }

  /** Once the parent is rewritten it is stored, and ready to be split. */
  lemma HalvesTaken(view: BlockMap, t: Tree, c: nat, child: (Outcome, BlockID), next: BlockID,
                    lo: Option<Bytes>, hi: Option<Bytes>, root: bool)
    requires BranchReady(t, c, child, view, next, lo, hi) && child.0.Halves?
    ensures var u := TakeIn(t, c, child.0);
            && InternalInsert(Internal(t), child.0.separator, child.0.right.id) == Internal(u)
            && u.Branch? && u.id == t.id && |Internal(t).children| <= MAX_INTERNAL_KEYS
            && TakenIn(u, Grown(t, c, child), root, view[t.id := NewBlockFromData(EncodeInternal(Internal(u)))], next)
  {
    hide InternalInsert, EncodeInternal, NewBlockFromData;
    var u := TakeIn(t, c, child.0);
    var after := view[t.id := NewBlockFromData(EncodeInternal(Internal(u)))];
    InsertIsTakeIn(t, c, child.0, lo, hi);
    TakeInWf(t, c, child.0);
    Rewritten(view, after, u, next);
    assert |u.children| >= MAX_INTERNAL_KEYS + 1 ==> Grown(t, c, child) == (SplitBranchTree(u, next), next + 1);
    assert |u.children| < MAX_INTERNAL_KEYS + 1 ==> Grown(t, c, child) == (Whole(u), next);
  }

  /** A branch written over stored children is stored. */
  lemma Rewritten(view: BlockMap, after: BlockMap, u: Tree, next: BlockID)
    requires Wf(u) && u.Branch? && AllStored(view, u.children) && u.id !in IdsOf(u.children)
    requires after == view[u.id := BlockOf(u)] && Below(IdsOf(u.children), next) && u.id < next
    ensures |u.children| >= 4 ==> SplitReady(u, after, next)
    ensures AllWf(Parts(Whole(u))) && AllStored(after, Parts(Whole(u))) && Stored(after, u)
  {
    KeepsChildren(view, after, u);
    BranchStored(after, u, BlockOf(u));
    OneStored(after, u);
  }

  lemma PutRootReady(t: Tree, h: nat, key: Bytes, value: Bytes, view: BlockMap, next: BlockID)
    requires Good(t, h, true, None, None, next) && Stored(view, t)
    requires SmallPair(key, value) && next + h + 2 <= MAX_BLOCK_ID
    ensures PutReady(t, h, true, None, None, key, value, view, next, t.id)
  {
  }

  /** The root id to remember after a put. */
  lemma RootAfterPut(t: Tree, key: Bytes, value: Bytes, next: BlockID, newID: BlockID, view: BlockMap, next': BlockID)
    requires Wf(t) && Distinct(t) && Below(Ids(t), next) && next >= 1
    requires DeliversRoot(t, key, value, next, newID, view, next')
    ensures PutRoot(t, key, value, next).0.id == if newID != INVALID_BLOCK_ID then newID else t.id
  {
    PutIds(t, key, value, next);
  }

  // ----- The leaf step -----------------------------------------------------------------------------

  lemma LeafWhole(view: BlockMap, t: Tree, key: Bytes, value: Bytes, next: BlockID, root: bool)
    requires t.Leaf? && Wf(t)
    ensures var u := Leaf(t.id, LeafInsert(t.node, key, value));
            && |u.node.keys| == |u.node.values| && BlockOf(u) == NewBlockFromData(EncodeLeaf(u.node))
            && (|u.node.keys| >= MAX_LEAF_KEYS ==> PutTree(t, key, value, next) == (SplitLeafTree(u, next), next + 1))
            && (|u.node.keys| < MAX_LEAF_KEYS ==>
                  DoneBy(PutTree(t, key, value, next), root, INVALID_BLOCK_ID, [], view[t.id := BlockOf(u)], next))
  {
    var u := Leaf(t.id, LeafInsert(t.node, key, value));
    OneStored(view[t.id := BlockOf(u)], u);
  }

  /** Having done what PutTree says is having done the put. */
  lemma DoneIsDone(t: Tree, root: bool, key: Bytes, value: Bytes, next: BlockID,
                   newID: BlockID, separator: Bytes, view': BlockMap, next': BlockID)
    requires Wf(t) && DoneBy(PutTree(t, key, value, next), root, newID, separator, view', next')
    ensures PutDone(t, root, key, value, next, newID, separator, view', next')
  {
  }

  // ----- The delete step ---------------------------------------------------------------------------

  lemma DeleteDescends(view: BlockMap, t: Tree, key: Bytes)
    requires Readable(t) && Distinct(t) && Stored(view, t)
    ensures t.Branch? ==> var c := UpperBound(t.keys, key);
                          && c < |t.children| == |t.keys| + 1 && Lookup(t, key) == Lookup(t.children[c], key)
                          && Readable(t.children[c]) && Distinct(t.children[c]) && Stored(view, t.children[c])
  {
  }

  /** The delete in the child has returned: the parent, never rewritten, is stored. */
  lemma DeleteReturns(view: BlockMap, view': BlockMap, t: Tree, key: Bytes)
    requires Wf(t) && t.Branch? && Distinct(t) && Stored(view, t)
    requires var c := UpperBound(t.keys, key);
             && Wf(DeleteTree(t.children[c], key)) && Stored(view', DeleteTree(t.children[c], key))
             && ChangedOnly(view, view', Ids(t.children[c]))
    ensures Wf(DeleteTree(t, key)) && Stored(view', DeleteTree(t, key)) && ChangedOnly(view, view', Ids(t))
  {
    var c := UpperBound(t.keys, key);
    var v := DeleteTree(t.children[c], key);
    DeleteKeepsId(t.children[c], key);
    OneStored(view', v);
    ChildrenStored(view, view', t, c, [v]);
    WholeStored(view', t, c, v);
    assert Ids(t.children[c]) <= IdsOf(t.children);
  }

  lemma DeleteKeepsId(t: Tree, key: Bytes)
    requires Wf(t)
    ensures DeleteTree(t, key).id == t.id
  {
  }

  lemma LeafDeleteStored(view: BlockMap, t: Tree, key: Bytes)
    requires Wf(t) && t.Leaf? && Stored(view, t)
    ensures var u := DeleteTree(t, key);
            && Wf(u) && u.Leaf? && u.node == LeafDelete(t.node, key)
            && Stored(view[t.id := NewBlockFromData(EncodeLeaf(u.node))], u)
            && (Lookup(t, key) == None ==> u == t)
  {
  }

  // ----- The scan step -----------------------------------------------------------------------------

  ghost predicate ScanReady(t: Tree, low: Option<Bytes>, high: Option<Bytes>, view: BlockMap) {
    Readable(t) && Within(t, low, high) && Stored(view, t)
  }

  lemma ReadableBetween(t: Tree, low: Option<Bytes>, high: Option<Bytes>, view: BlockMap)
    requires ScanReady(t, low, high, view)
    ensures Wf(t) && Within(t, low, high)
  {
  }

  lemma ScanDescends(t: Tree, low: Option<Bytes>, high: Option<Bytes>, view: BlockMap)
    requires t.Branch? && ScanReady(t, low, high, view)
    ensures AllWf(t.children) && |t.children| == |t.keys| + 1
    ensures forall c :: 0 <= c < |t.children| ==>
              ScanReady(t.children[c], Low(t.keys, c, low), High(t.keys, c, high), view)
  {
  }
}
