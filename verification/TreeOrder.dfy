/**
 * Key ranges. Every subtree lies between the separators beside it, so a search follows
 * one path, the contents are in ascending order, and a scan can start in the middle.
 */
module TreeOrder {
  import opened Options
  import opened Bytes
  import opened NodeCodec
  import opened NodeOps
  import opened Tree

  /** From `lo`, inclusive, to `hi`, exclusive. */
  ghost predicate InRange(key: Bytes, lo: Option<Bytes>, hi: Option<Bytes>) {
    (lo.Some? ==> !Less(key, lo.value)) && (hi.Some? ==> Less(key, hi.value))
  }

  ghost predicate SepIn(key: Bytes, lo: Option<Bytes>, hi: Option<Bytes>) {
    (lo.Some? ==> Less(lo.value, key)) && (hi.Some? ==> Less(key, hi.value))
  }

  /** The bounds that the separators put on child `c`: left < separator <= right. */
  ghost function Low(keys: seq<Bytes>, c: int, lo: Option<Bytes>): Option<Bytes> {
    if 0 < c <= |keys| then Some(keys[c - 1]) else lo
  }

  ghost function High(keys: seq<Bytes>, c: int, hi: Option<Bytes>): Option<Bytes> {
    if 0 <= c < |keys| then Some(keys[c]) else hi
  }

  ghost predicate LeafWithin(n: LeafValue, lo: Option<Bytes>, hi: Option<Bytes>) {
    && |n.keys| == |n.values| && Ascending(n.keys)
    && forall i :: 0 <= i < |n.keys| ==> InRange(n.keys[i], lo, hi)
  }

  ghost predicate Within(t: Tree, lo: Option<Bytes>, hi: Option<Bytes>)
    decreases t
  {
    match t
    case Leaf(_, node) => LeafWithin(node, lo, hi)
    case Branch(_, keys, children) =>
      && |children| == |keys| + 1 >= 2
      && SepsIn(keys, lo, hi)
      && forall c :: 0 <= c < |children| ==> Within(children[c], Low(keys, c, lo), High(keys, c, hi))
  }

  ghost predicate SepsIn(keys: seq<Bytes>, lo: Option<Bytes>, hi: Option<Bytes>) {
    Ascending(keys) && forall i :: 0 <= i < |keys| ==> SepIn(keys[i], lo, hi)
  }

  lemma {:induction false} WithinWf(t: Tree, lo: Option<Bytes>, hi: Option<Bytes>)
    requires Within(t, lo, hi)
    ensures Wf(t)
  {
    if t.Branch? {
      forall c | 0 <= c < |t.children|
        ensures Wf(t.children[c])
      {
        WithinWf(t.children[c], Low(t.keys, c, lo), High(t.keys, c, hi));
      }
    }
  }

  // ----- Ranges nest ------------------------------------------------------------------------

  lemma ChildRangeNests(keys: seq<Bytes>, c: nat, lo: Option<Bytes>, hi: Option<Bytes>, key: Bytes)
    requires c <= |keys| && SepsIn(keys, lo, hi)
    requires InRange(key, Low(keys, c, lo), High(keys, c, hi))
    ensures InRange(key, lo, hi)
  {
    if c > 0 && lo.Some? {
      assert SepIn(keys[c - 1], lo, hi);
      LessIsStrictOrder(key, lo.value, keys[c - 1]);
      LessIsStrictOrder(lo.value, keys[c - 1], key);
      LessTotal(keys[c - 1], key);
    }
    if c < |keys| && hi.Some? {
      assert SepIn(keys[c], lo, hi);
      LessTransitive(key, keys[c], hi.value);
    }
  }

  lemma {:induction false} ItemsInRange(t: Tree, lo: Option<Bytes>, hi: Option<Bytes>, x: Item)
    requires Wf(t) && Within(t, lo, hi) && x in Items(t)
    ensures InRange(x.0, lo, hi)
  {
    if t.Branch? {
      AllItemsFrom(t.children, x);
      var c :| 0 <= c < |t.children| && x in Items(t.children[c]);
      ItemsInRange(t.children[c], Low(t.keys, c, lo), High(t.keys, c, hi), x);
      ChildRangeNests(t.keys, c, lo, hi, x.0);
    }
  }

  /** The search descends into the one child whose range holds the key. */
  lemma RouteInRange(keys: seq<Bytes>, key: Bytes, lo: Option<Bytes>, hi: Option<Bytes>)
    requires Ascending(keys) && InRange(key, lo, hi)
    ensures var c := UpperBound(keys, key); InRange(key, Low(keys, c, lo), High(keys, c, hi))
  {
    UpperBoundSplits(keys, key);
  }

  /** Every other child lies wholly to one side of the key. */
  lemma OtherChildren(keys: seq<Bytes>, c: nat, i: nat, key: Bytes, x: Bytes, lo: Option<Bytes>, hi: Option<Bytes>)
    requires Ascending(keys) && c <= |keys| && i <= |keys|
    requires InRange(key, Low(keys, c, lo), High(keys, c, hi))
    requires InRange(x, Low(keys, i, lo), High(keys, i, hi))
    ensures i < c ==> Less(x, key)
    ensures i > c ==> Less(key, x)
  {
    if i < c {
      assert i == c - 1 || Less(keys[i], keys[c - 1]);
      LessIsStrictOrder(x, keys[i], keys[c - 1]);
      NotLessThen(x, keys[c - 1], key);
    }
    if i > c {
      assert c == i - 1 || Less(keys[c], keys[i - 1]);
      LessIsStrictOrder(key, keys[c], keys[i - 1]);
      NotLessThen(key, keys[i - 1], x);
    }
  }

  lemma NotLessThen(a: Bytes, b: Bytes, c: Bytes)
    ensures Less(a, b) && !Less(c, b) ==> Less(a, c)
  {
    LessTotal(b, c);
    LessIsStrictOrder(a, b, c);
  }

  lemma BeforeAndAfterMiss(t: Tree, lo: Option<Bytes>, hi: Option<Bytes>, key: Bytes)
    requires Wf(t) && Within(t, lo, hi) && t.Branch? && InRange(key, lo, hi)
    ensures var c := UpperBound(t.keys, key);
            !HasKey(AllItems(t.children[..c]), key) && !HasKey(AllItems(t.children[c + 1..]), key)
  {
    var c := UpperBound(t.keys, key);
    RouteInRange(t.keys, key, lo, hi);
    SideIsStrict(t, lo, hi, key, c);
    var pre, post := AllItems(t.children[..c]), AllItems(t.children[c + 1..]);
    LessIrreflexive(key);
    assert forall i :: 0 <= i < |pre| ==> pre[i] in pre;
    assert forall i :: 0 <= i < |post| ==> post[i] in post;
  }

  /** What lies before child `c` is below any key of its range, what lies after is above. */
  lemma SideIsStrict(t: Tree, lo: Option<Bytes>, hi: Option<Bytes>, key: Bytes, c: nat)
    requires Wf(t) && Within(t, lo, hi) && t.Branch? && c <= |t.keys|
    requires InRange(key, Low(t.keys, c, lo), High(t.keys, c, hi))
    ensures forall x :: x in AllItems(t.children[..c]) ==> Less(x.0, key)
    ensures forall x :: x in AllItems(t.children[c + 1..]) ==> Less(key, x.0)
  {
    hide AllItems, Items, Less, InRange, Low, High;
    forall x | x in AllItems(t.children[..c])
      ensures Less(x.0, key)
    {
      AllItemsFrom(t.children[..c], x);
      var i :| 0 <= i < c && x in Items(t.children[..c][i]);
      ItemsInRange(t.children[i], Low(t.keys, i, lo), High(t.keys, i, hi), x);
      OtherChildren(t.keys, c, i, key, x.0, lo, hi);
    }
    forall x | x in AllItems(t.children[c + 1..])
      ensures Less(key, x.0)
    {
      AllItemsFrom(t.children[c + 1..], x);
      var k :| 0 <= k < |t.children| - c - 1 && x in Items(t.children[c + 1..][k]);
      var i := c + 1 + k;
      ItemsInRange(t.children[i], Low(t.keys, i, lo), High(t.keys, i, hi), x);
      OtherChildren(t.keys, c, i, key, x.0, lo, hi);
    }
  }

  // ----- Get -------------------------------------------------------------------------------

  lemma ZipSplit(keys: seq<Bytes>, values: seq<Bytes>, pos: nat)
    requires |keys| == |values| && pos <= |keys|
    ensures Zip(keys, values) == Zip(keys[..pos], values[..pos]) + Zip(keys[pos..], values[pos..])
  {
  }

  lemma ZipOne(key: Bytes, value: Bytes)
    ensures Zip([key], [value]) == [(key, value)]
    ensures Dict([(key, value)]) == map[key := value]
  {
    assert [(key, value)][..0] == [];
  }

  lemma NoItems()
    ensures Dict([]) == map[]
  {
  }

  /** Around a lower bound a leaf's pairs miss the key, but for the place itself. */
  lemma LeafSides(n: LeafValue, key: Bytes)
    requires |n.keys| == |n.values| && Ascending(n.keys)
    ensures var p := LowerBound(n.keys, key); var q := if FoundAt(n.keys, key, p) then p + 1 else p;
            && !HasKey(Zip(n.keys[..p], n.values[..p]), key)
            && !HasKey(Zip(n.keys[q..], n.values[q..]), key)
            && Zip(n.keys, n.values) == Zip(n.keys[..p], n.values[..p])
                 + (if FoundAt(n.keys, key, p) then [(key, n.values[p])] else []) + Zip(n.keys[q..], n.values[q..])
  {
    var p := LowerBound(n.keys, key);
    LowerBoundSplits(n.keys, key);
    LessIrreflexive(key);
    forall i | p < i < |n.keys|
      ensures n.keys[i] != key
    {
      assert Less(n.keys[p], n.keys[i]);
    }
  }

  lemma LeafLookup(n: LeafValue, key: Bytes)
    requires |n.keys| == |n.values| && Ascending(n.keys)
    ensures var p := LowerBound(n.keys, key);
            Find(Dict(Zip(n.keys, n.values)), key) == if FoundAt(n.keys, key, p) then Some(n.values[p]) else None
  {
    var p := LowerBound(n.keys, key);
    LeafSides(n, key);
    if FoundAt(n.keys, key, p) {
      ZipOne(key, n.values[p]);
      DictMiddle(Zip(n.keys[..p], n.values[..p]), [(key, n.values[p])], Zip(n.keys[p + 1..], n.values[p + 1..]), key);
    } else {
      DictMiddle(Zip(n.keys[..p], n.values[..p]), [], Zip(n.keys[p..], n.values[p..]), key);
    }
  }

  /** The search of Get finds what the contents of the whole tree say. */
  lemma {:induction false} LookupIsFind(t: Tree, lo: Option<Bytes>, hi: Option<Bytes>, key: Bytes)
    requires Wf(t) && Within(t, lo, hi) && InRange(key, lo, hi)
    ensures Lookup(t, key) == Find(Dict(Items(t)), key)
  {
    match t
    case Leaf(_, node) => LeafLookup(node, key);
    case Branch(_, keys, children) =>
      var c := UpperBound(keys, key);
      RouteInRange(keys, key, lo, hi);
      LookupIsFind(children[c], Low(keys, c, lo), High(keys, c, hi), key);
      BeforeAndAfterMiss(t, lo, hi, key);
      ReplacedItems(children, c, []);
      DictMiddle(AllItems(children[..c]), Items(children[c]), AllItems(children[c + 1..]), key);
  }

  // ----- Order and scan -----------------------------------------------------------------------

  ghost predicate SortedItems(items: seq<Item>) {
    forall i, j :: 0 <= i < j < |items| ==> Less(items[i].0, items[j].0)
  }

  /** The pairs with lo <= key, and key <= hi where there is a hi. */
  ghost predicate Wanted(key: Bytes, lo: Bytes, hi: Option<Bytes>) {
    !Less(key, lo) && (hi.Some? ==> !Less(hi.value, key))
  }

  ghost function Select(items: seq<Item>, lo: Bytes, hi: Option<Bytes>): seq<Item> {
    if |items| == 0 then []
    else (if Wanted(items[0].0, lo, hi) then [items[0]] else []) + Select(items[1..], lo, hi)
  }

  lemma SelectStep(items: seq<Item>, lo: Bytes, hi: Option<Bytes>)
    requires |items| > 0
    ensures Select(items, lo, hi) == Select(items[..1], lo, hi) + Select(items[1..], lo, hi)
  {
    hide Wanted;
    assert Select(items[..1][1..], lo, hi) == [];
  }

  lemma {:induction false} SelectConcat(a: seq<Item>, b: seq<Item>, lo: Bytes, hi: Option<Bytes>)
    ensures Select(a + b, lo, hi) == Select(a, lo, hi) + Select(b, lo, hi)
  {
    if |a| == 0 {
      assert a + b == b;
    } else {
      hide Select;
      SelectConcat(a[1..], b, lo, hi);
      SelectStep(a, lo, hi);
      SelectStep(a + b, lo, hi);
      assert (a + b)[1..] == a[1..] + b && (a + b)[..1] == a[..1];
    }
  }

  lemma {:induction false} SelectNone(items: seq<Item>, lo: Bytes, hi: Option<Bytes>)
    requires forall x :: x in items ==> !Wanted(x.0, lo, hi)
    ensures Select(items, lo, hi) == []
  {
    if |items| > 0 {
      SelectNone(items[1..], lo, hi);
    }
  }

  lemma {:induction false} SelectAll(items: seq<Item>, lo: Bytes, hi: Option<Bytes>)
    requires forall x :: x in items ==> Wanted(x.0, lo, hi)
    ensures Select(items, lo, hi) == items
  {
    if |items| > 0 {
      SelectAll(items[1..], lo, hi);
      assert items == [items[0]] + items[1..];
    }
  }

  /** Each wanted pair is selected, nothing else is, and the order stays. */
  lemma {:induction false} SelectIsExact(items: seq<Item>, lo: Bytes, hi: Option<Bytes>)
    ensures forall x :: x in Select(items, lo, hi) <==> x in items && Wanted(x.0, lo, hi)
    ensures SortedItems(items) ==> SortedItems(Select(items, lo, hi))
  {
    if |items| > 0 {
      var rest := Select(items[1..], lo, hi);
      SelectIsExact(items[1..], lo, hi);
      assert items == [items[0]] + items[1..];
      if SortedItems(items) {
        assert SortedItems(items[1..]);
        forall j | 0 <= j < |rest|
          ensures Less(items[0].0, rest[j].0)
        {
          assert rest[j] in items[1..];
          var k :| 0 <= k < |items[1..]| && items[1..][k] == rest[j];
          assert Less(items[0].0, items[k + 1].0);
        }
      }
    }
  }

  lemma ConcatSorted(a: seq<Item>, b: seq<Item>)
    requires SortedItems(a) && SortedItems(b)
    requires forall x, y :: x in a && y in b ==> Less(x.0, y.0)
    ensures SortedItems(a + b)
  {
    forall i, j | 0 <= i < j < |a + b|
      ensures Less((a + b)[i].0, (a + b)[j].0)
    {
      if i < |a| <= j {
        assert a[i] in a && b[j - |a|] in b;
      }
    }
  }

  /** The contents are in strictly ascending order of keys. */
  lemma {:induction false} ItemsSorted(t: Tree, lo: Option<Bytes>, hi: Option<Bytes>)
    requires Wf(t) && Within(t, lo, hi)
    ensures SortedItems(Items(t))
    decreases t, 0
  {
    if t.Branch? {
      ChildrenSorted(t, lo, hi, |t.children|);
      assert t.children[..|t.children|] == t.children;
    }
  }

  lemma {:induction false} ChildrenSorted(t: Tree, lo: Option<Bytes>, hi: Option<Bytes>, c: nat)
    requires Wf(t) && Within(t, lo, hi) && t.Branch? && c <= |t.children|
    ensures SortedItems(AllItems(t.children[..c]))
    decreases t.children, c
  {
    if c > 0 {
      var i := c - 1;
      ChildrenSorted(t, lo, hi, i);
      ItemsSorted(t.children[i], Low(t.keys, i, lo), High(t.keys, i, hi));
      assert t.children[..c] == t.children[..i] + [t.children[i]];
      AllItemsConcat(t.children[..i], [t.children[i]]);
      AllItemsOne(t.children[i]);
      forall x, y | x in AllItems(t.children[..i]) && y in Items(t.children[i])
        ensures Less(x.0, y.0)
      {
        ItemsInRange(t.children[i], Low(t.keys, i, lo), High(t.keys, i, hi), y);
        SideIsStrict(t, lo, hi, y.0, i);
      }
      ConcatSorted(AllItems(t.children[..i]), Items(t.children[i]));
    } else {
      assert t.children[..0] == [];
    }
  }

  /** In ascending order no key hides another: the list and the dictionary hold the same pairs. */
  lemma {:induction false} SortedDict(items: seq<Item>, x: Item)
    requires SortedItems(items)
    ensures x in items <==> Find(Dict(items), x.0) == Some(x.1)
  {
    if |items| > 0 {
      var last := |items| - 1;
      SortedDict(items[..last], x);
      assert items == items[..last] + [items[last]];
      LessIrreflexive(x.0);
    }
  }

  /** A leaf's place for `lo` and the first key above `hi` cut out what is wanted. */
  ghost predicate StopsAt(n: LeafValue, lo: Bytes, hi: Option<Bytes>, stop: nat) {
    && LowerBound(n.keys, lo) <= stop <= |n.keys|
    && (hi.Some? ==> forall i :: LowerBound(n.keys, lo) <= i < stop ==> !Less(hi.value, n.keys[i]))
    && (stop < |n.keys| ==> hi.Some? && Less(hi.value, n.keys[stop]))
  }

  lemma WantedBetween(n: LeafValue, lo: Bytes, hi: Option<Bytes>, stop: nat)
    requires Ascending(n.keys) && StopsAt(n, lo, hi, stop)
    ensures forall i :: 0 <= i < |n.keys| ==> (Wanted(n.keys[i], lo, hi) <==> LowerBound(n.keys, lo) <= i < stop)
  {
    LowerBoundSplits(n.keys, lo);
    forall i | stop <= i < |n.keys|
      ensures !Wanted(n.keys[i], lo, hi)
    {
      LessIsStrictOrder(hi.value, n.keys[stop], n.keys[i]);
    }
  }

  /** The pairs of a leaf from the lower bound of `lo` on, up to the first key above `hi`. */
  lemma LeafScan(n: LeafValue, lo: Bytes, hi: Option<Bytes>, stop: nat)
    requires |n.keys| == |n.values| && Ascending(n.keys) && StopsAt(n, lo, hi, stop)
    ensures Select(Zip(n.keys, n.values), lo, hi) ==
            Zip(n.keys[LowerBound(n.keys, lo)..stop], n.values[LowerBound(n.keys, lo)..stop])
  {
    hide Select, Wanted, LowerBound;
    var p := LowerBound(n.keys, lo);
    var pre, mid := Zip(n.keys[..p], n.values[..p]), Zip(n.keys[p..stop], n.values[p..stop]);
    var post := Zip(n.keys[stop..], n.values[stop..]);
    WantedBetween(n, lo, hi, stop);
    SelectNone(pre, lo, hi);
    SelectAll(mid, lo, hi);
    SelectNone(post, lo, hi);
    SelectConcat(pre + mid, post, lo, hi);
    SelectConcat(pre, mid, lo, hi);
    assert Zip(n.keys, n.values) == pre + mid + post;
  }

  /** No child before the one the search for `lo` descends into holds a wanted pair. */
  lemma EarlierChildren(t: Tree, low: Option<Bytes>, high: Option<Bytes>, lo: Bytes, hi: Option<Bytes>)
    requires Wf(t) && Within(t, low, high) && t.Branch?
    ensures UpperBound(t.keys, lo) < |t.children| && AllWf(t.children[UpperBound(t.keys, lo)..])
    ensures Select(Items(t), lo, hi) == Select(AllItems(t.children[UpperBound(t.keys, lo)..]), lo, hi)
  {
    var c := UpperBound(t.keys, lo);
    UpperBoundSplits(t.keys, lo);
    var pre := AllItems(t.children[..c]);
    forall x | x in pre
      ensures !Wanted(x.0, lo, hi)
    {
      EarlierChild(t, low, high, lo, x);
    }
    SelectNone(pre, lo, hi);
    AllItemsConcat(t.children[..c], t.children[c..]);
    SelectConcat(pre, AllItems(t.children[c..]), lo, hi);
    assert t.children == t.children[..c] + t.children[c..];
  }

  lemma EarlierChild(t: Tree, low: Option<Bytes>, high: Option<Bytes>, lo: Bytes, x: Item)
    requires Wf(t) && Within(t, low, high) && t.Branch?
    requires x in AllItems(t.children[..UpperBound(t.keys, lo)])
    ensures Less(x.0, lo)
  {
    var c := UpperBound(t.keys, lo);
    UpperBoundSplits(t.keys, lo);
    AllItemsFrom(t.children[..c], x);
    var i :| 0 <= i < c && x in Items(t.children[..c][i]);
    ItemsInRange(t.children[i], Low(t.keys, i, low), High(t.keys, i, high), x);
    NotLessThen(x.0, t.keys[i], lo);
  }

  lemma NoChildYet(children: seq<Tree>, from: nat, lo: Bytes, hi: Option<Bytes>)
    requires from <= |children|
    ensures AllWf(children[from..from]) && Select(AllItems(children[from..from]), lo, hi) == []
  {
    assert children[from..from] == [];
  }

  /** One more child scanned. */
  lemma NextChild(children: seq<Tree>, from: nat, c: nat, lo: Bytes, hi: Option<Bytes>)
    requires AllWf(children) && from <= c < |children|
    ensures AllWf(children[from..c]) && AllWf(children[from..c + 1])
    ensures Select(AllItems(children[from..c + 1]), lo, hi) ==
            Select(AllItems(children[from..c]), lo, hi) + Select(Items(children[c]), lo, hi)
  {
    assert children[from..c + 1] == children[from..c] + [children[c]];
    AllItemsConcat(children[from..c], [children[c]]);
    AllItemsOne(children[c]);
    SelectConcat(AllItems(children[from..c]), Items(children[c]), lo, hi);
  }
}
