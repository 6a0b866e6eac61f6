/**
 * Whole runs of the stack: tree, cache and file. Whatever the size of the cache, and
 * across a flush and a reopening of the file, the answers are those of a plain map.
 */
module TreeRuns {
  import opened Options
  import opened Bytes
  import opened FileSerializer
  import opened PageCache
  import opened Tree
  import opened TreeOrder
  import opened TreeShape
  import opened TreeStore
  import opened BTree

  datatype Request =
    | Get(key: Bytes)
    | Put(key: Bytes, value: Bytes)
    | Delete(key: Bytes)
    | Scan(startKey: Bytes, endKey: Option<Bytes>)

  datatype Answer = Done | Value(value: Option<Bytes>) | Pairs(items: seq<Item>)

  /** The map after one request. */
  ghost function After(m: map<Bytes, Bytes>, r: Request): map<Bytes, Bytes> {
    match r
    case Put(key, value) => m[key := value]
    case Delete(key) => m - {key}
    case _ => m
  }

  ghost function AfterAll(m: map<Bytes, Bytes>, requests: seq<Request>): map<Bytes, Bytes> {
    if |requests| == 0 then m
    else After(AfterAll(m, requests[..|requests| - 1]), requests[|requests| - 1])
  }

  /** The answer that the map gives. */
  ghost predicate Right(m: map<Bytes, Bytes>, r: Request, a: Answer) {
    match r
    case Get(key) => a == Value(Find(m, key))
    case Scan(lo, hi) =>
      && a.Pairs? && SortedItems(a.items)
      && forall x: Item :: x in a.items <==>
           x.0 in m && m[x.0] == x.1 && LessEq(lo, x.0) && (hi.Some? ==> LessEq(x.0, hi.value))
    case _ => a == Done
  }

  ghost predicate AllRight(m: map<Bytes, Bytes>, requests: seq<Request>, answers: seq<Answer>) {
    && |answers| == |requests|
    && forall i :: 0 <= i < |requests| ==> Right(AfterAll(m, requests[..i]), requests[i], answers[i])
  }

  // ----- The map leaves no choice in the answers -------------------------------------------

  lemma HasFirst(a: seq<Item>)
    requires |a| > 0
    ensures a[0] in a
  {
  }

  lemma {:induction false} SameElements(a: seq<Item>, b: seq<Item>)
    requires SortedItems(a) && SortedItems(b) && forall x :: x in a <==> x in b
    ensures a == b
  {
    if |a| == 0 {
      if |b| > 0 {
        HasFirst(b);
      }
    } else {
      assert a[0] in b;
      SameHead(a, b);
      var a', b' := a[1..], b[1..];
      assert a == [a[0]] + a' && b == [b[0]] + b';
      LessIrreflexive(a[0].0);
      assert a[0] !in a' && a[0] !in b';
      forall x: Item
        ensures x in a' <==> x in b'
      {
        assert x in a <==> x == a[0] || x in a';
        assert x in b <==> x == a[0] || x in b';
      }
      SameElements(a', b');
    }
  }

  lemma SameHead(a: seq<Item>, b: seq<Item>)
    requires SortedItems(a) && SortedItems(b) && (forall x :: x in a <==> x in b) && |a| > 0 && |b| > 0
    ensures a[0] == b[0]
  {
    assert a[0] in b && b[0] in a;
    var i :| 0 <= i < |b| && b[i] == a[0];
    var j :| 0 <= j < |a| && a[j] == b[0];
    LessIsStrictOrder(a[0].0, b[0].0, a[0].0);
  }

  lemma RightIsUnique(m: map<Bytes, Bytes>, r: Request, a: Answer, b: Answer)
    requires Right(m, r, a) && Right(m, r, b)
    ensures a == b
  {
    if r.Scan? {
      SameElements(a.items, b.items);
    }
  }

  /** Two runs over the same requests from the same map answer alike, whatever is below. */
  lemma RunsAgree(m: map<Bytes, Bytes>, requests: seq<Request>, answers: seq<Answer>, answers': seq<Answer>)
    requires AllRight(m, requests, answers) && AllRight(m, requests, answers')
    ensures answers == answers'
  {
    forall i | 0 <= i < |requests|
      ensures answers[i] == answers'[i]
    {
      RightIsUnique(AfterAll(m, requests[..i]), requests[i], answers[i], answers'[i]);
    }
  }

  // ----- The blocks leave no choice in the tree ---------------------------------------------

  /** What lies in the blocks under a root id is one tree. */
  lemma {:induction false} BlocksDetermineTree(view: BlockMap, t: Tree, u: Tree)
    requires Readable(t) && Readable(u) && Stored(view, t) && Stored(view, u) && t.id == u.id
    ensures t == u
  {
    DecodeStored(view, t);
    DecodeStored(view, u);
    if t.Branch? {
      assert ChildIds(t.children) == ChildIds(u.children);
      forall c | 0 <= c < |t.children|
        ensures t.children[c] == u.children[c]
      {
        assert ChildIds(t.children)[c] == t.children[c].id && ChildIds(u.children)[c] == u.children[c].id;
        BlocksDetermineTree(view, t.children[c], u.children[c]);
      }
      assert t.children == u.children;
    }
  }

  // ----- Runs ----------------------------------------------------------------------------------

  /** The sizes for which nodes fit in blocks. */
  ghost predicate Allowed(r: Request) {
    r.Put? ==> SmallPair(r.key, r.value)
  }

  ghost predicate AllAllowed(requests: seq<Request>) {
    forall i :: 0 <= i < |requests| ==> Allowed(requests[i])
  }

  /** A put uses one new block a level, and one more for a new root: at most seven. */
  const BLOCKS_PER_PUT: nat := 7

  function BlocksFor(r: Request): nat {
    if r.Put? then BLOCKS_PER_PUT else 0
  }

  /** What a run may use: only its puts count, however long it is. */
  function BlocksForAll(requests: seq<Request>): nat {
    if |requests| == 0 then 0
    else BlocksForAll(requests[..|requests| - 1]) + BlocksFor(requests[|requests| - 1])
  }

  /** A run uses no less than any of its beginnings. */
  lemma {:induction false} BlocksGrow(requests: seq<Request>, i: nat)
    requires i <= |requests|
    ensures BlocksForAll(requests[..i]) <= BlocksForAll(requests)
    ensures i < |requests| ==> BlocksForAll(requests[..i + 1]) == BlocksForAll(requests[..i]) + BlocksFor(requests[i])
    ensures i < |requests| ==> BlocksForAll(requests[..i + 1]) <= BlocksForAll(requests)
    decreases |requests|
  {
    if i < |requests| {
      var front := requests[..|requests| - 1];
      assert requests[..i + 1][..i] == requests[..i] == front[..i];
      BlocksGrow(front, i);
      if i + 1 == |requests| {
        assert requests[..i + 1] == requests;
      } else {
        assert requests[..i + 1] == front[..i + 1];
      }
    } else {
      assert requests[..i] == requests;
    }
  }

  method Perform(t: BTree, r: Request) returns (a: Answer)
    requires t.Valid() && Allowed(r) && t.cache.NextID() + BlocksFor(r) <= MAX_BLOCK_ID
    modifies t, t.cache, t.cache.serializer`file, t.cache.serializer`nextID
    ensures t.Valid() && t.Model() == After(old(t.Model()), r) && Right(old(t.Model()), r, a)
    ensures t.cache.NextID() <= old(t.cache.NextID()) + BlocksFor(r)
  {
    a := Done;
    match r {
      case Get(key) =>
        var value := t.Get(key);
        a := Value(value);
      case Put(key, value) =>
        PutBlocks(t.tree, t.height, key, value, t.cache.NextID());
        t.Put(key, value);
      case Delete(key) =>
        t.Delete(key);
      case Scan(startKey, endKey) =>
        var results := t.Scan(startKey, endKey);
        a := Pairs(results.items);
    }
  }

  lemma PutBlocks(t: Tree, h: nat, key: Bytes, value: Bytes, next: BlockID)
    requires Good(t, h, true, None, None, next)
    ensures h + 2 <= BLOCKS_PER_PUT && PutRoot(t, key, value, next).1 <= next + BLOCKS_PER_PUT
  {
    HeightBound(t, h, next);
    PutRootFilled(t, h, key, value, next);
  }

  /** Any run of requests, over a cache of any size. */
  method PerformAll(t: BTree, requests: seq<Request>) returns (answers: seq<Answer>)
    requires t.Valid() && AllAllowed(requests)
    requires t.cache.NextID() + BlocksForAll(requests) <= MAX_BLOCK_ID
    modifies t, t.cache, t.cache.serializer`file, t.cache.serializer`nextID
    ensures t.Valid() && t.Model() == AfterAll(old(t.Model()), requests)
    ensures AllRight(old(t.Model()), requests, answers)
    ensures t.cache.NextID() <= old(t.cache.NextID()) + BlocksForAll(requests)
  {
    answers := [];
    ghost var m := t.Model();
    for i := 0 to |requests|
      invariant t.Valid() && t.Model() == AfterAll(m, requests[..i])
      invariant AllRight(m, requests[..i], answers)
      invariant t.cache.NextID() <= old(t.cache.NextID()) + BlocksForAll(requests[..i])
    {
      BlocksGrow(requests, i);
      var a := Perform(t, requests[i]);
      OneMoreRight(m, requests, i, answers, a);
      answers := answers + [a];
    }
    assert requests[..|requests|] == requests;
  }

  lemma OneMoreRight(m: map<Bytes, Bytes>, requests: seq<Request>, i: nat, answers: seq<Answer>, a: Answer)
    requires i < |requests| && AllRight(m, requests[..i], answers)
    requires Right(AfterAll(m, requests[..i]), requests[i], a)
    ensures AllRight(m, requests[..i + 1], answers + [a])
    ensures AfterAll(m, requests[..i + 1]) == After(AfterAll(m, requests[..i]), requests[i])
  {
    hide After, Right, AfterAll;
    var longer := requests[..i + 1];
    AfterOneMore(m, requests, i);
    assert longer[..i] == requests[..i] && longer[i] == requests[i];
    forall k | 0 <= k < i
      ensures longer[..k] == requests[..i][..k]
    {
    }
  }

  lemma AfterOneMore(m: map<Bytes, Bytes>, requests: seq<Request>, i: nat)
    requires i < |requests|
    ensures AfterAll(m, requests[..i + 1]) == After(AfterAll(m, requests[..i]), requests[i])
  {
    hide After;
    var longer := requests[..i + 1];
    assert longer[..|longer| - 1] == requests[..i];
  }

  /** Flush, then open the file again with another cache, and load the tree by its root id. */
  method Reopen(t: BTree, maxSize: nat) returns (u: BTree)
    requires t.Valid() && maxSize >= 1
    modifies t.cache, t.cache.serializer`file, t.cache.serializer`nextID
    ensures u.Valid() && u.Model() == old(t.Model()) && u.rootID == old(t.rootID)
    ensures fresh(u) && fresh(u.cache) && fresh(u.cache.serializer)
    ensures u.cache.maxSize == maxSize && u.cache.NextID() == old(t.cache.NextID())
  {
    t.cache.Flush();
    var serializer := new FileSerializer(t.cache.serializer.file);
    var cache := new PageCache(serializer, maxSize);
    u := new BTree.Load(cache, t.rootID, t.tree, t.height);
  }

  /** An empty tree over an empty file. */
  method Start(maxSize: nat) returns (t: BTree)
    requires maxSize >= 1
    ensures t.Valid() && t.Model() == map[] && t.cache.NextID() == 2
    ensures fresh(t) && fresh(t.cache) && fresh(t.cache.serializer)
  {
    var serializer := new FileSerializer([]);
    var cache := new PageCache(serializer, maxSize);
    t := new BTree.New(cache);
  }

  /**
   * From an empty file: a run over one cache, a flush, and a run over another cache on the
   * reopened file. The sizes of the caches and the break in between cannot be seen.
   */
  method Session(maxSize: nat, requests: seq<Request>, maxSize': nat, requests': seq<Request>)
    returns (answers: seq<Answer>)
    requires maxSize >= 1 && maxSize' >= 1 && AllAllowed(requests) && AllAllowed(requests')
    requires 2 + BlocksForAll(requests) + BlocksForAll(requests') <= MAX_BLOCK_ID
    ensures AllRight(map[], requests + requests', answers)
  {
    var t := Start(maxSize);
    var first := PerformAll(t, requests);
    var u := Reopen(t, maxSize');
    var second := PerformAll(u, requests');
    answers := first + second;
    TwoRuns(map[], requests, first, requests', second);
  }

  lemma {:induction false} AfterBoth(m: map<Bytes, Bytes>, a: seq<Request>, b: seq<Request>)
    ensures AfterAll(m, a + b) == AfterAll(AfterAll(m, a), b)
  {
    if |b| == 0 {
      assert a + b == a;
    } else {
      AfterBoth(m, a, b[..|b| - 1]);
      assert (a + b)[..|a + b| - 1] == a + b[..|b| - 1];
    }
  }

  lemma TwoRuns(m: map<Bytes, Bytes>, a: seq<Request>, x: seq<Answer>, b: seq<Request>, y: seq<Answer>)
    requires AllRight(m, a, x) && AllRight(AfterAll(m, a), b, y)
    ensures AllRight(m, a + b, x + y)
  {
    forall i | 0 <= i < |a + b|
      ensures Right(AfterAll(m, (a + b)[..i]), (a + b)[i], (x + y)[i])
    {
      if i < |a| {
        assert (a + b)[..i] == a[..i];
      } else {
        assert (a + b)[..i] == a + b[..i - |a|];
        AfterBoth(m, a, b[..i - |a|]);
      }
    }
  }
}
