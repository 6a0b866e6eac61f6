/**
 * Put and Delete change the contents as the operations of a map do, and keep the key
 * ranges, through leaf splits, internal splits and a new root.
 */
module TreePut {
  import opened Options
  import opened Bytes
  import opened FileSerializer
  import opened NodeCodec
  import opened NodeOps
  import opened Tree
  import opened TreeOrder

  // ----- Inserting into sequences ---------------------------------------------------------

  /** A key that fits strictly between its neighbours keeps the keys ascending. */
  lemma InsertedAscending(keys: seq<Bytes>, pos: nat, key: Bytes)
    requires Ascending(keys) && pos <= |keys|
    requires pos > 0 ==> Less(keys[pos - 1], key)
    requires pos < |keys| ==> Less(key, keys[pos])
    ensures Ascending(Inserted(keys, pos, key))
  {
    var after := Inserted(keys, pos, key);
    forall i, j | 0 <= i < j < |after|
      ensures Less(after[i], after[j])
    {
      if j == pos {
        if i < pos - 1 {
          LessTransitive(keys[i], keys[pos - 1], key);
        }
      } else if i == pos {
        if j > pos + 1 {
          LessTransitive(key, keys[pos], keys[j - 1]);
        }
      }
    }
  }

  lemma LowerBoundNeighbours(keys: seq<Bytes>, key: Bytes)
    requires Ascending(keys)
    ensures var p := LowerBound(keys, key);
            (p > 0 ==> Less(keys[p - 1], key)) && (p < |keys| && keys[p] != key ==> Less(key, keys[p]))
  {
    var p := LowerBound(keys, key);
    LowerBoundSplits(keys, key);
    if p < |keys| {
      LessTotal(keys[p], key);
    }
  }

  // ----- Leaves -----------------------------------------------------------------------------

  lemma LeafInsertWithin(n: LeafValue, key: Bytes, value: Bytes, lo: Option<Bytes>, hi: Option<Bytes>)
    requires LeafWithin(n, lo, hi) && InRange(key, lo, hi)
    ensures LeafWithin(LeafInsert(n, key, value), lo, hi)
  {
    LowerBoundNeighbours(n.keys, key);
    var p := LowerBound(n.keys, key);
    if !FoundAt(n.keys, key, p) {
      InsertedAscending(n.keys, p, key);
    }
  }

  lemma ZipInserted(keys: seq<Bytes>, values: seq<Bytes>, p: nat, key: Bytes, value: Bytes)
    requires |keys| == |values| && p <= |keys|
    ensures Zip(Inserted(keys, p, key), Inserted(values, p, value)) ==
            Zip(keys[..p], values[..p]) + [(key, value)] + Zip(keys[p..], values[p..])
  {
  }

  lemma ZipUpdated(keys: seq<Bytes>, values: seq<Bytes>, p: nat, value: Bytes)
    requires |keys| == |values| && p < |keys|
    ensures Zip(keys, values[p := value]) ==
            Zip(keys[..p], values[..p]) + [(keys[p], value)] + Zip(keys[p + 1..], values[p + 1..])
  {
  }

  lemma LeafInsertItems(n: LeafValue, key: Bytes, value: Bytes)
    requires |n.keys| == |n.values| && Ascending(n.keys)
    ensures var m := LeafInsert(n, key, value);
            Dict(Zip(m.keys, m.values)) == Dict(Zip(n.keys, n.values))[key := value]
  {
    var p := LowerBound(n.keys, key);
    var pre := Zip(n.keys[..p], n.values[..p]);
    LeafSides(n, key);
    ZipOne(key, value);
    if FoundAt(n.keys, key, p) {
      ZipOne(key, n.values[p]);
      ZipUpdated(n.keys, n.values, p, value);
      DictUpdate(pre, [(key, n.values[p])], [(key, value)], Zip(n.keys[p + 1..], n.values[p + 1..]), key, value);
    } else {
      ZipInserted(n.keys, n.values, p, key, value);
      DictUpdate(pre, [], [(key, value)], Zip(n.keys[p..], n.values[p..]), key, value);
    }
  }

  lemma LeafDeleteItems(n: LeafValue, key: Bytes)
    requires |n.keys| == |n.values| && Ascending(n.keys)
    ensures var m := LeafDelete(n, key);
            Dict(Zip(m.keys, m.values)) == Dict(Zip(n.keys, n.values)) - {key}
  {
    hide Dict, HasKey, LowerBound;
    var p := LowerBound(n.keys, key);
    var q := if FoundAt(n.keys, key, p) then p + 1 else p;
    var mid := if FoundAt(n.keys, key, p) then [(key, n.values[p])] else [];
    var pre, post := Zip(n.keys[..p], n.values[..p]), Zip(n.keys[q..], n.values[q..]);
    var m := LeafDelete(n, key);
    LeafSides(n, key);
    NoItems();
    if FoundAt(n.keys, key, p) {
      ZipOne(key, n.values[p]);
    }
    DictRemove(pre, mid, [], post, key);
    assert Zip(m.keys, m.values) == pre + [] + post;
  }

  lemma LeafDeleteWithin(n: LeafValue, key: Bytes, lo: Option<Bytes>, hi: Option<Bytes>)
    requires LeafWithin(n, lo, hi)
    ensures LeafWithin(LeafDelete(n, key), lo, hi)
  {
  }

  /** The first key of the right half separates the halves and lies inside the range. */
  lemma MiddleSeparates(n: LeafValue, lo: Option<Bytes>, hi: Option<Bytes>, mid: nat)
    requires LeafWithin(n, lo, hi) && 1 <= mid < |n.keys|
    ensures SepIn(n.keys[mid], lo, hi)
    ensures forall i :: mid <= i < |n.keys| ==> !Less(n.keys[i], n.keys[mid])
  {
    if lo.Some? {
      NotLessThenLess(lo.value, n.keys[0], n.keys[mid]);
    }
    forall i | mid <= i < |n.keys|
      ensures !Less(n.keys[i], n.keys[mid])
    {
      LessIsStrictOrder(n.keys[mid], n.keys[i], n.keys[mid]);
    }
  }

  lemma NotLessThenLess(a: Bytes, b: Bytes, c: Bytes)
    requires !Less(b, a) && Less(b, c)
    ensures Less(a, c)
  {
    LessTotal(a, b);
    LessIsStrictOrder(a, b, c);
  }

  lemma LeafSplitWithin(t: Tree, next: BlockID, lo: Option<Bytes>, hi: Option<Bytes>)
    requires t.Leaf? && LeafWithin(t.node, lo, hi) && |t.node.keys| >= 2
    ensures OutcomeWithin(SplitLeafTree(t, next), lo, hi)
  {
    MiddleSeparates(t.node, lo, hi, |t.node.keys| / 2);
  }

  lemma LeafSplitItems(t: Tree, next: BlockID)
    requires t.Leaf? && |t.node.keys| == |t.node.values| >= 2
    ensures AllWf(Parts(SplitLeafTree(t, next))) && AllItems(Parts(SplitLeafTree(t, next))) == Items(t)
  {
    ZipSplit(t.node.keys, t.node.values, |t.node.keys| / 2);
    TwoParts(SplitLeafTree(t, next));
  }

  /** What may come back from below: a subtree of the same range, or two that share it. */
  ghost predicate OutcomeWithin(o: Outcome, lo: Option<Bytes>, hi: Option<Bytes>) {
    match o
    case Whole(t) => Within(t, lo, hi)
    case Halves(l, s, r) => Within(l, lo, Some(s)) && SepIn(s, lo, hi) && Within(r, Some(s), hi)
  }

  ghost predicate OutcomeWf(o: Outcome) {
    match o
    case Whole(t) => Wf(t)
    case Halves(l, _, r) => Wf(l) && Wf(r)
  }

  lemma TwoParts(o: Outcome)
    requires OutcomeWf(o)
    ensures AllWf(Parts(o))
    ensures AllItems(Parts(o)) == if o.Whole? then Items(o.tree) else Items(o.left) + Items(o.right)
  {
    match o
    case Whole(t) => AllItemsOne(t);
    case Halves(l, _, r) =>
      AllItemsOne(r);
      assert [l, r][1..] == [r];
  }

  lemma PartsWf(o: Outcome)
    requires AllWf(Parts(o))
    ensures OutcomeWf(o)
  {
    assert Wf(Parts(o)[0]);
    assert o.Halves? ==> Wf(Parts(o)[1]);
  }

  // ----- Branches ----------------------------------------------------------------------------

  ghost predicate Bounded(keys: seq<Bytes>, children: seq<Tree>, lo: Option<Bytes>, hi: Option<Bytes>) {
    && |children| == |keys| + 1
    && SepsIn(keys, lo, hi)
    && forall c :: 0 <= c < |children| ==> Within(children[c], Low(keys, c, lo), High(keys, c, hi))
  }

  lemma SeparatorFits(keys: seq<Bytes>, c: nat, s: Bytes, lo: Option<Bytes>, hi: Option<Bytes>)
    requires SepsIn(keys, lo, hi) && c <= |keys| && SepIn(s, Low(keys, c, lo), High(keys, c, hi))
    ensures SepsIn(Inserted(keys, c, s), lo, hi)
  {
    InsertedAscending(keys, c, s);
    if c > 0 && lo.Some? {
      assert SepIn(keys[c - 1], lo, hi);
      LessTransitive(lo.value, keys[c - 1], s);
    }
    if c < |keys| && hi.Some? {
      assert SepIn(keys[c], lo, hi);
      LessTransitive(s, keys[c], hi.value);
    }
  }

  lemma TakeInBounded(t: Tree, c: nat, o: Outcome, lo: Option<Bytes>, hi: Option<Bytes>)
    requires t.Branch? && Bounded(t.keys, t.children, lo, hi) && c <= |t.keys|
    requires OutcomeWithin(o, Low(t.keys, c, lo), High(t.keys, c, hi))
    ensures Bounded(TakeIn(t, c, o).keys, TakeIn(t, c, o).children, lo, hi)
  {
    if o.Halves? {
      SeparatorFits(t.keys, c, o.separator, lo, hi);
      var keys, children := TakeIn(t, c, o).keys, TakeIn(t, c, o).children;
      forall i | 0 <= i < |children|
        ensures Within(children[i], Low(keys, i, lo), High(keys, i, hi))
      {
        if i < c {
          assert Within(t.children[i], Low(t.keys, i, lo), High(t.keys, i, hi));
        } else if i > c + 1 {
          assert Within(t.children[i - 1], Low(t.keys, i - 1, lo), High(t.keys, i - 1, hi));
        }
      }
    }
  }

  lemma SplitBounded(keys: seq<Bytes>, children: seq<Tree>, mid: nat, lo: Option<Bytes>, hi: Option<Bytes>)
    requires Bounded(keys, children, lo, hi) && 1 <= mid <= |keys|
    ensures SepIn(keys[mid - 1], lo, hi)
    ensures Bounded(keys[..mid - 1], children[..mid], lo, Some(keys[mid - 1]))
    ensures Bounded(keys[mid..], children[mid..], Some(keys[mid - 1]), hi)
  {
    forall c | 0 <= c < mid
      ensures Within(children[..mid][c], Low(keys[..mid - 1], c, lo), High(keys[..mid - 1], c, Some(keys[mid - 1])))
    {
      assert Within(children[c], Low(keys, c, lo), High(keys, c, hi));
    }
    forall c | 0 <= c < |children| - mid
      ensures Within(children[mid..][c], Low(keys[mid..], c, Some(keys[mid - 1])), High(keys[mid..], c, hi))
    {
      assert Within(children[c + mid], Low(keys, c + mid, lo), High(keys, c + mid, hi));
    }
  }

  lemma SplitBranchWithin(t: Tree, next: BlockID, lo: Option<Bytes>, hi: Option<Bytes>)
    requires t.Branch? && Bounded(t.keys, t.children, lo, hi) && |t.children| >= 4
    ensures OutcomeWithin(SplitBranchTree(t, next), lo, hi)
  {
    SplitBounded(t.keys, t.children, |t.children| / 2, lo, hi);
  }

  lemma SplitBranchWf(t: Tree, next: BlockID)
    requires Wf(t) && t.Branch? && |t.children| >= 4
    ensures OutcomeWf(SplitBranchTree(t, next))
  {
  }

  lemma SplitBranchItems(t: Tree, next: BlockID)
    requires Wf(t) && t.Branch? && |t.children| >= 4
    ensures AllWf(Parts(SplitBranchTree(t, next))) && AllItems(Parts(SplitBranchTree(t, next))) == Items(t)
  {
    hide AllItems;
    var mid := |t.children| / 2;
    SplitBranchWf(t, next);
    TwoParts(SplitBranchTree(t, next));
    AllItemsConcat(t.children[..mid], t.children[mid..]);
    assert t.children == t.children[..mid] + t.children[mid..];
  }

  // ----- Put -----------------------------------------------------------------------------------

  /** Put keeps the key ranges, whatever splits on the way up. */
  lemma {:induction false} PutWithin(t: Tree, lo: Option<Bytes>, hi: Option<Bytes>, key: Bytes, value: Bytes,
                                     next: BlockID)
    requires Wf(t) && Within(t, lo, hi) && InRange(key, lo, hi)
    ensures OutcomeWithin(PutTree(t, key, value, next).0, lo, hi)
  {
    match t
    case Leaf(id, node) =>
      LeafInsertWithin(node, key, value, lo, hi);
      var u := Leaf(id, LeafInsert(node, key, value));
      if |u.node.keys| >= MAX_LEAF_KEYS {
        LeafSplitWithin(u, next, lo, hi);
      }
    case Branch(_, keys, children) =>
      var c := UpperBound(keys, key);
      RouteInRange(keys, key, lo, hi);
      PutWithin(children[c], Low(keys, c, lo), High(keys, c, hi), key, value, next);
      var (o, next') := PutTree(children[c], key, value, next);
      PutWf(children[c], key, value, next);
      TakeInBounded(t, c, o, lo, hi);
      TakeInWf(t, c, o);
      if o.Halves? && |TakeIn(t, c, o).children| >= MAX_INTERNAL_KEYS + 1 {
        SplitBranchWithin(TakeIn(t, c, o), next', lo, hi);
      }
  }

  lemma TakeInWf(t: Tree, c: nat, o: Outcome)
    requires Wf(t) && t.Branch? && c <= |t.keys| && AllWf(Parts(o))
    ensures Wf(TakeIn(t, c, o))
    ensures TakeIn(t, c, o).children == Replaced(t.children, c, Parts(o))
    ensures |TakeIn(t, c, o).children| == |t.children| + (if o.Halves? then 1 else 0)
  {
  }

  /** What a put leaves behind contains the old contents with the one key set. */
  lemma {:induction false} PutItems(t: Tree, lo: Option<Bytes>, hi: Option<Bytes>, key: Bytes, value: Bytes,
                                    next: BlockID)
    requires Wf(t) && Within(t, lo, hi) && InRange(key, lo, hi)
    ensures AllWf(Parts(PutTree(t, key, value, next).0))
    ensures Dict(AllItems(Parts(PutTree(t, key, value, next).0))) == Dict(Items(t))[key := value]
  {
    match t
    case Leaf(id, node) =>
      LeafInsertWithin(node, key, value, lo, hi);
      LeafInsertItems(node, key, value);
      var u := Leaf(id, LeafInsert(node, key, value));
      if |u.node.keys| >= MAX_LEAF_KEYS {
        LeafSplitItems(u, next);
      } else {
        AllItemsOne(u);
      }
    case Branch(_, keys, children) =>
      var c := UpperBound(keys, key);
      RouteInRange(keys, key, lo, hi);
      PutItems(children[c], Low(keys, c, lo), High(keys, c, hi), key, value, next);
      BranchPutItems(t, lo, hi, key, value, next);
  }

  lemma BranchPutItems(t: Tree, lo: Option<Bytes>, hi: Option<Bytes>, key: Bytes, value: Bytes, next: BlockID)
    requires Wf(t) && Within(t, lo, hi) && InRange(key, lo, hi) && t.Branch?
    requires var (o, _) := PutTree(t.children[UpperBound(t.keys, key)], key, value, next);
             && AllWf(Parts(o))
             && Dict(AllItems(Parts(o))) == Dict(Items(t.children[UpperBound(t.keys, key)]))[key := value]
    ensures AllWf(Parts(PutTree(t, key, value, next).0))
    ensures Dict(AllItems(Parts(PutTree(t, key, value, next).0))) == Dict(Items(t))[key := value]
  {
    var c := UpperBound(t.keys, key);
    var (o, next') := PutTree(t.children[c], key, value, next);
    var u := TakeIn(t, c, o);
    TakeInWf(t, c, o);
    assert Dict(Items(u)) == Dict(Items(t))[key := value] by {
      BeforeAndAfterMiss(t, lo, hi, key);
      ReplacedItems(t.children, c, Parts(o));
      DictUpdate(AllItems(t.children[..c]), Items(t.children[c]), AllItems(Parts(o)), AllItems(t.children[c + 1..]),
        key, value);
    }
    if o.Halves? && |u.children| >= MAX_INTERNAL_KEYS + 1 {
      SplitBranchItems(u, next');
    } else {
      AllItemsOne(u);
    }
  }

  /** A put at the root, with a new root when the old one splits. */
  lemma PutRootCorrect(t: Tree, key: Bytes, value: Bytes, next: BlockID)
    requires Wf(t) && Within(t, None, None)
    ensures var u := PutRoot(t, key, value, next).0;
            Wf(u) && Within(u, None, None) && Dict(Items(u)) == Dict(Items(t))[key := value]
  {
    hide PutTree, Dict, AllItems, UpperBound, LowerBound;
    PutWithin(t, None, None, key, value, next);
    PutItems(t, None, None, key, value, next);
    PutWf(t, key, value, next);
    var (o, next') := PutTree(t, key, value, next);
    PartsWf(o);
    TwoParts(o);
    if o.Halves? {
      var u := PutRoot(t, key, value, next).0;
      assert Bounded([o.separator], [o.left, o.right], None, None);
    }
  }

  // ----- Delete ------------------------------------------------------------------------------------

  lemma {:induction false} DeleteWithin(t: Tree, lo: Option<Bytes>, hi: Option<Bytes>, key: Bytes)
    requires Wf(t) && Within(t, lo, hi) && InRange(key, lo, hi)
    ensures Within(DeleteTree(t, key), lo, hi)
  {
    match t
    case Leaf(_, node) => LeafDeleteWithin(node, key, lo, hi);
    case Branch(_, keys, children) =>
      var c := UpperBound(keys, key);
      RouteInRange(keys, key, lo, hi);
      DeleteWithin(children[c], Low(keys, c, lo), High(keys, c, hi), key);
      TakeInBounded(t, c, Whole(DeleteTree(children[c], key)), lo, hi);
  }

  /** A delete takes the one key away, and nothing happens if it is not there. */
  lemma {:induction false} DeleteItems(t: Tree, lo: Option<Bytes>, hi: Option<Bytes>, key: Bytes)
    requires Wf(t) && Within(t, lo, hi) && InRange(key, lo, hi)
    ensures Wf(DeleteTree(t, key))
    ensures Dict(Items(DeleteTree(t, key))) == Dict(Items(t)) - {key}
  {
    hide Dict, HasKey, LowerBound, UpperBound;
    DeleteWf(t, key);
    match t
    case Leaf(_, node) => LeafDeleteItems(node, key);
    case Branch(_, keys, children) =>
      var c := UpperBound(keys, key);
      RouteInRange(keys, key, lo, hi);
      DeleteItems(children[c], Low(keys, c, lo), High(keys, c, hi), key);
      var u := DeleteTree(children[c], key);
      BeforeAndAfterMiss(t, lo, hi, key);
      ReplacedItems(children, c, [u]);
      AllItemsOne(u);
      DictRemove(AllItems(children[..c]), Items(children[c]), Items(u), AllItems(children[c + 1..]), key);
  }
}
