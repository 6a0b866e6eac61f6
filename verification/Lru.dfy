/**
 * The recency list of the page cache, and the inclusion property: run on the same
 * operations, a smaller cache holds a prefix of what a larger one holds. The source
 * has it exactly on the traces that `Orderly` describes.
 */
module Lru {
  import opened FileSerializer

  type Recency = seq<BlockID>

  ghost predicate NoRepeats(lru: Recency) {
    forall i, j :: 0 <= i < j < |lru| ==> lru[i] != lru[j]
  }

  function Remove(lru: Recency, id: BlockID): Recency {
    if |lru| == 0 then []
    else if lru[0] == id then lru[1..]
    else [lru[0]] + Remove(lru[1..], id)
  }

  /** A hit moves to the front; anything else is pushed in front and the tail evicted. */
  function Touch(lru: Recency, id: BlockID, maxSize: nat): Recency
    requires maxSize >= 1
  {
    if id in lru then [id] + Remove(lru, id)
    else [id] + (if |lru| < maxSize then lru else lru[..maxSize - 1])
  }

  lemma {:induction false} RemoveFacts(lru: Recency, id: BlockID)
    requires NoRepeats(lru)
    ensures NoRepeats(Remove(lru, id)) && id !in Remove(lru, id)
    ensures forall k :: k in Remove(lru, id) <==> k in lru && k != id
    ensures |Remove(lru, id)| == if id in lru then |lru| - 1 else |lru|
  {
    if |lru| > 0 {
      assert lru == [lru[0]] + lru[1..];
      RemoveFacts(lru[1..], id);
      assert lru[0] !in lru[1..];
      if lru[0] == id {
        assert Remove(lru, id) == lru[1..];
      } else {
        assert Remove(lru, id) == [lru[0]] + Remove(lru[1..], id);
      }
    }
  }

  lemma TouchFacts(lru: Recency, id: BlockID, maxSize: nat)
    requires maxSize >= 1 && NoRepeats(lru) && |lru| <= maxSize
    ensures var after := Touch(lru, id, maxSize);
            NoRepeats(after) && |after| <= maxSize && id in after
            && forall k :: k in after ==> k == id || k in lru
    ensures UsedNow(lru, Touch(lru, id, maxSize), id, maxSize)
  {
    RemoveFacts(lru, id);
    if id in lru {
      var p: nat :| p < |lru| && lru[p] == id;
      RemoveAt(lru, id, p);
    }
  }

  /** The id leaves its place, if it had one, and comes first; a full list without it loses its last element. */
  ghost predicate UsedNow(before: Recency, after: Recency, id: BlockID, maxSize: nat)
    requires maxSize >= 1
  {
    && (id !in before ==> after == [id] + if |before| < maxSize then before else before[..maxSize - 1])
    && (forall p :: 0 <= p < |before| && before[p] == id ==> after == [id] + (before[..p] + before[p + 1..]))
  }

  ghost predicate Without(before: Recency, after: Recency, id: BlockID) {
    && (id !in before ==> after == before)
    && (forall p :: 0 <= p < |before| && before[p] == id ==> after == before[..p] + before[p + 1..])
  }

  lemma {:induction false} RemoveAt(lru: Recency, id: BlockID, p: nat)
    requires NoRepeats(lru) && p < |lru| && lru[p] == id
    ensures Remove(lru, id) == lru[..p] + lru[p + 1..]
  {
    if p > 0 {
      RemoveAt(lru[1..], id, p - 1);
      assert lru[..p] == [lru[0]] + lru[1..][..p - 1];
    }
  }

  lemma {:induction false} RemoveNothing(lru: Recency, id: BlockID)
    requires id !in lru
    ensures Remove(lru, id) == lru
  {
    if |lru| > 0 {
      RemoveNothing(lru[1..], id);
      assert lru == [lru[0]] + lru[1..];
    }
  }

  lemma RemoveIsWithout(lru: Recency, id: BlockID)
    requires NoRepeats(lru)
    ensures Without(lru, Remove(lru, id), id)
  {
    if id in lru {
      var p: nat :| p < |lru| && lru[p] == id;
      RemoveAt(lru, id, p);
    } else {
      RemoveNothing(lru, id);
    }
  }

  // ----- Inclusion ------------------------------------------------------------------

  datatype CacheOp =
    | GetOp(id: BlockID)
    | PutOp(id: BlockID)
    | AllocateOp
    | DeleteOp(id: BlockID)

  /**
   * What a trace makes of list and map, with the ids the file has handed out and the hits of Get.
   * Allocate pushes a list element without asking whether its id is cached, so an id may be in the
   * list twice; the map then points to the first of the two.
   */
  datatype CacheRun = CacheRun(lru: Recency, cached: set<BlockID>, next: nat, hits: nat)

  const EMPTY: CacheRun := CacheRun([], {}, 1, 0)

  predicate ValidId(id: BlockID, next: nat) {
    1 <= id < next
  }

  /** The eviction loop: elements leave at the back, and their ids leave the map. */
  function MakeRoom(r: CacheRun, maxSize: nat): CacheRun
    decreases |r.lru|
  {
    if |r.cached| < maxSize || |r.lru| == 0 then r
    else MakeRoom(r.(lru := r.lru[..|r.lru| - 1], cached := r.cached - {r.lru[|r.lru| - 1]}), maxSize)
  }

  function Push(r: CacheRun, id: BlockID, maxSize: nat): CacheRun {
    var room := MakeRoom(r, maxSize);
    room.(lru := [id] + room.lru, cached := room.cached + {id})
  }

  function Front(r: CacheRun, id: BlockID): CacheRun {
    r.(lru := [id] + Remove(r.lru, id))
  }

  function Perform(r: CacheRun, op: CacheOp, maxSize: nat): CacheRun {
    match op
    case GetOp(id) =>
      if id in r.cached then Front(r, id).(hits := r.hits + 1)
      else if ValidId(id, r.next) then Push(r, id, maxSize)
      else r
    case PutOp(id) => if id in r.cached then Front(r, id) else Push(r, id, maxSize)
    case AllocateOp => Push(r, r.next, maxSize).(next := r.next + 1)
    case DeleteOp(id) =>
      if id in r.cached then r.(lru := Remove(r.lru, id), cached := r.cached - {id}) else r
  }

  function PerformAll(ops: seq<CacheOp>, maxSize: nat): CacheRun {
    if |ops| == 0 then EMPTY
    else Perform(PerformAll(ops[..|ops| - 1], maxSize), ops[|ops| - 1], maxSize)
  }

  function NextAfter(ops: seq<CacheOp>): nat {
    if |ops| == 0 then 1 else NextAfter(ops[..|ops| - 1]) + if ops[|ops| - 1].AllocateOp? then 1 else 0
  }

  /** The list of a cache that never evicts. */
  function Recent(ops: seq<CacheOp>): Recency {
    if |ops| == 0 then [] else Used(Recent(ops[..|ops| - 1]), ops[|ops| - 1], NextAfter(ops[..|ops| - 1]))
  }

  function ToFront(lru: Recency, id: BlockID): Recency {
    [id] + if id in lru then Remove(lru, id) else lru
  }

  function Used(lru: Recency, op: CacheOp, next: nat): Recency {
    match op
    case GetOp(id) => if id in lru || ValidId(id, next) then ToFront(lru, id) else lru
    case PutOp(id) => ToFront(lru, id)
    case AllocateOp => [next] + lru
    case DeleteOp(id) => Remove(lru, id)
  }

  /**
   * A get of an id that was never handed out finds it nowhere, or most recently used; and an
   * allocation does not hand out an id that an earlier put has left in the cache.
   */
  ghost predicate InOrder(lru: Recency, op: CacheOp, next: nat) {
    match op
    case GetOp(id) => ValidId(id, next) || id !in lru || id == lru[0]
    case AllocateOp => next !in lru
    case _ => true
  }

  ghost predicate Orderly(ops: seq<CacheOp>) {
    forall i :: 0 <= i < |ops| ==> InOrder(Recent(ops[..i]), ops[i], NextAfter(ops[..i]))
  }

  /** The lists of two caches have no repeats, and the smaller cache's is where the larger's begins. */
  ghost predicate Included(ops: seq<CacheOp>, k: nat, K: nat) {
    NoRepeats(PerformAll(ops, K).lru) && PerformAll(ops, k).lru <= PerformAll(ops, K).lru
  }

  ghost predicate Nested(ops: seq<CacheOp>) {
    forall p, k, K :: 0 <= p <= |ops| && 1 <= k <= K ==> Included(ops[..p], k, K)
  }

  // ----- Orderly traces nest ----------------------------------------------------------

  function IdSet(lru: Recency): set<BlockID> {
    set id | id in lru
  }

  lemma {:induction false} IdsSize(lru: Recency)
    requires NoRepeats(lru)
    ensures |IdSet(lru)| == |lru|
  {
    if |lru| > 0 {
      IdsSize(lru[1..]);
      assert lru == [lru[0]] + lru[1..];
      assert IdSet(lru) == {lru[0]} + IdSet(lru[1..]);
    }
  }

  /** List and map hold the same ids, each once, and no more than fit. */
  ghost predicate InBounds(r: CacheRun, maxSize: nat) {
    NoRepeats(r.lru) && r.cached == IdSet(r.lru) && |r.lru| <= maxSize
  }

  /** In bounds, the eviction loop takes one turn when the cache is full, and none otherwise. */
  lemma RoomIsMade(r: CacheRun, maxSize: nat)
    requires maxSize >= 1 && InBounds(r, maxSize)
    ensures var lru := if |r.lru| < maxSize then r.lru else r.lru[..maxSize - 1];
            MakeRoom(r, maxSize) == r.(lru := lru, cached := IdSet(lru))
  {
    IdsSize(r.lru);
    if |r.lru| == maxSize {
      var shorter := r.lru[..maxSize - 1];
      IdsSize(shorter);
      assert r.lru == shorter + [r.lru[maxSize - 1]];
      assert IdSet(r.lru) - {r.lru[maxSize - 1]} == IdSet(shorter);
    }
  }

  lemma PushIsTouch(r: CacheRun, id: BlockID, maxSize: nat)
    requires maxSize >= 1 && InBounds(r, maxSize) && id !in r.lru
    ensures InBounds(Push(r, id, maxSize), maxSize) && Push(r, id, maxSize).lru == Touch(r.lru, id, maxSize)
    ensures Push(r, id, maxSize).next == r.next && Push(r, id, maxSize).hits == r.hits
  {
    hide MakeRoom;
    RoomIsMade(r, maxSize);
    TouchFacts(r.lru, id, maxSize);
    var lru := if |r.lru| < maxSize then r.lru else r.lru[..maxSize - 1];
    assert IdSet([id] + lru) == IdSet(lru) + {id};
  }

  lemma FrontIsTouch(r: CacheRun, id: BlockID, maxSize: nat)
    requires maxSize >= 1 && InBounds(r, maxSize) && id in r.lru
    ensures InBounds(Front(r, id), maxSize) && Front(r, id).lru == Touch(r.lru, id, maxSize)
  {
    RemoveFacts(r.lru, id);
  }

  /** What an operation does in bounds, as a change of the list alone. */
  function Listed(lru: Recency, op: CacheOp, next: nat, maxSize: nat): Recency
    requires maxSize >= 1
  {
    match op
    case GetOp(id) => if id in lru || ValidId(id, next) then Touch(lru, id, maxSize) else lru
    case PutOp(id) => Touch(lru, id, maxSize)
    case AllocateOp => Touch(lru, next, maxSize)
    case DeleteOp(id) => Remove(lru, id)
  }

  lemma PerformInBounds(r: CacheRun, op: CacheOp, maxSize: nat)
    requires maxSize >= 1 && InBounds(r, maxSize) && (op.AllocateOp? ==> r.next !in r.lru)
    ensures var t := Perform(r, op, maxSize);
            && InBounds(t, maxSize) && t.lru == Listed(r.lru, op, r.next, maxSize)
            && t.next == r.next + (if op.AllocateOp? then 1 else 0)
            && t.hits == r.hits + (if op.GetOp? && op.id in r.lru then 1 else 0)
  {
    match op
    case GetOp(id) =>
      if id in r.lru {
        FrontIsTouch(r, id, maxSize);
      } else {
        PushIsTouch(r, id, maxSize);
      }
    case PutOp(id) =>
      if id in r.lru {
        FrontIsTouch(r, id, maxSize);
      } else {
        PushIsTouch(r, id, maxSize);
      }
    case AllocateOp => PushIsTouch(r, r.next, maxSize);
    case DeleteOp(id) =>
      RemoveFacts(r.lru, id);
      if id !in r.lru {
        RemoveAbsent(r.lru, id);
      }
  }

  /** Removing an id from both lists keeps one a prefix of the other. */
  lemma {:induction false} RemovePrefix(small: Recency, large: Recency, id: BlockID)
    requires NoRepeats(large) && small <= large
    ensures id in small ==> Remove(small, id) <= Remove(large, id)
    ensures id !in small ==> small <= Remove(large, id)
    ensures Remove(small, id) <= Remove(large, id)
  {
    RemoveFacts(large, id);
    if |small| == 0 {
    } else {
      assert small == [small[0]] + small[1..] && large == [large[0]] + large[1..];
      if large[0] != id {
        RemovePrefix(small[1..], large[1..], id);
        assert id in small <==> id in small[1..];
      }
    }
    if id !in small {
      RemoveAbsent(small, id);
    }
  }

  lemma {:induction false} RemoveAbsent(lru: Recency, id: BlockID)
    requires id !in lru
    ensures Remove(lru, id) == lru
  {
    if |lru| > 0 {
      RemoveAbsent(lru[1..], id);
    }
  }

  /** One list begins the other, and the sizes of two neighbouring caches differ by one at most. */
  ghost predicate Begins(small: Recency, large: Recency, k: nat, K: nat) {
    && NoRepeats(large) && small <= large && |small| <= k && |large| <= K
    && (K == k + 1 ==> |large| <= |small| + 1)
  }

  lemma TouchBegins(small: Recency, large: Recency, id: BlockID, k: nat, K: nat)
    requires 1 <= k <= K && Begins(small, large, k, K)
    ensures Begins(Touch(small, id, k), Touch(large, id, K), k, K)
  {
    RemovePrefix(small, large, id);
    RemoveFacts(large, id);
    RemoveFacts(small, id);
    TouchFacts(large, id, K);
    if id in small {
      assert [id] + Remove(small, id) <= [id] + Remove(large, id);
    }
  }

  lemma RemoveBegins(small: Recency, large: Recency, id: BlockID, k: nat, K: nat)
    requires 1 <= k <= K && Begins(small, large, k, K)
    ensures Begins(Remove(small, id), Remove(large, id), k, K)
  {
    RemovePrefix(small, large, id);
    RemoveFacts(large, id);
    RemoveFacts(small, id);
  }

  /** To use what is most recently used already changes nothing. */
  lemma TouchHead(lru: Recency, maxSize: nat)
    requires maxSize >= 1 && |lru| > 0
    ensures Touch(lru, lru[0], maxSize) == lru
  {
  }

  lemma ListedBegins(small: Recency, large: Recency, top: Recency, op: CacheOp, next: nat, k: nat, K: nat)
    requires 1 <= k <= K && Begins(small, large, k, K) && large <= top && InOrder(top, op, next)
    ensures Begins(Listed(small, op, next, k), Listed(large, op, next, K), k, K)
  {
    match op
    case GetOp(id) =>
      if ValidId(id, next) {
        TouchBegins(small, large, id, k, K);
      } else if id in top && |large| > 0 {
        TouchHead(large, K);
        if |small| > 0 {
          TouchHead(small, k);
        }
      }
    case PutOp(id) => TouchBegins(small, large, id, k, K);
    case AllocateOp => TouchBegins(small, large, next, k, K);
    case DeleteOp(id) => RemoveBegins(small, large, id, k, K);
  }

  /** A cache too large to be filled is one that never evicts. */
  lemma UsedIsListed(lru: Recency, op: CacheOp, next: nat, maxSize: nat)
    requires |lru| < maxSize && (op.AllocateOp? ==> next !in lru)
    ensures Listed(lru, op, next, maxSize) == Used(lru, op, next)
  {
  }

  lemma OrderlyBefore(ops: seq<CacheOp>, p: nat)
    requires Orderly(ops) && p <= |ops|
    ensures Orderly(ops[..p])
  {
    forall i | 0 <= i < p
      ensures InOrder(Recent(ops[..p][..i]), ops[..p][i], NextAfter(ops[..p][..i]))
    {
      assert ops[..p][..i] == ops[..i];
    }
  }

  /** On an orderly trace a cache of more blocks than operations holds the whole list of recent ids. */
  lemma {:induction false} LargeHoldsRecent(ops: seq<CacheOp>, K: nat)
    requires Orderly(ops) && |ops| < K
    ensures PerformAll(ops, K).lru == Recent(ops) && PerformAll(ops, K).next == NextAfter(ops)
    ensures InBounds(PerformAll(ops, K), K) && |Recent(ops)| <= |ops|
  {
    if |ops| > 0 {
      hide InOrder, Perform, InBounds, Used, Listed;
      var before, op := ops[..|ops| - 1], ops[|ops| - 1];
      OrderlyBefore(ops, |ops| - 1);
      LargeHoldsRecent(before, K);
      var r := PerformAll(before, K);
      assert InOrder(Recent(before), op, NextAfter(before));
      AllocatesNew(Recent(before), op, NextAfter(before));
      PerformInBounds(r, op, K);
      UsedIsListed(r.lru, op, r.next, K);
      UsedSize(r.lru, op, r.next);
    } else {
      assert IdSet([]) == {};
    }
  }

  lemma AllocatesNew(lru: Recency, op: CacheOp, next: nat)
    requires InOrder(lru, op, next)
    ensures op.AllocateOp? ==> next !in lru
  {
  }

  lemma UsedSize(lru: Recency, op: CacheOp, next: nat)
    ensures |Used(lru, op, next)| <= |lru| + 1
  {
    RemoveSize(lru, if op.AllocateOp? then 0 else op.id);
  }

  lemma {:induction false} RemoveSize(lru: Recency, id: BlockID)
    ensures |Remove(lru, id)| == if id in lru then |lru| - 1 else |lru|
  {
    if |lru| > 0 {
      RemoveSize(lru[1..], id);
    }
  }

  /** The two caches on the way: in bounds, one list beginning the other, and the hits in order. */
  ghost predicate Side(small: CacheRun, large: CacheRun, k: nat, K: nat) {
    && InBounds(small, k) && InBounds(large, K) && Begins(small.lru, large.lru, k, K)
    && small.next == large.next && small.hits <= large.hits
  }

  lemma SideStep(small: CacheRun, large: CacheRun, top: Recency, op: CacheOp, k: nat, K: nat)
    requires 1 <= k <= K && Side(small, large, k, K) && large.lru <= top && InOrder(top, op, large.next)
    ensures Side(Perform(small, op, k), Perform(large, op, K), k, K)
  {
    hide Perform, Listed;
    AllocatesNew(top, op, large.next);
    PerformInBounds(small, op, k);
    PerformInBounds(large, op, K);
    ListedBegins(small.lru, large.lru, top, op, large.next, k, K);
  }

  /**
   * On every orderly trace, the recency list of a cache of size k is a prefix of that of a cache
   * of size K >= k; so the larger cache never has fewer hits.
   */
  lemma {:induction false} LargerCacheIncludes(ops: seq<CacheOp>, k: nat, K: nat)
    requires 1 <= k <= K && Orderly(ops)
    ensures Side(PerformAll(ops, k), PerformAll(ops, K), k, K)
    ensures PerformAll(ops, K).lru <= Recent(ops) && PerformAll(ops, K).next == NextAfter(ops)
  {
    if |ops| > 0 {
      hide InOrder, Perform, Side;
      var before, op := ops[..|ops| - 1], ops[|ops| - 1];
      OrderlyBefore(ops, |ops| - 1);
      LargerCacheIncludes(before, k, K);
      assert InOrder(Recent(before), op, NextAfter(before));
      SideStep(PerformAll(before, k), PerformAll(before, K), Recent(before), op, k, K);
      BelowRecent(ops, K);
    } else {
      assert IdSet([]) == {};
    }
  }

  lemma BelowRecent(ops: seq<CacheOp>, K: nat)
    requires K >= 1 && Orderly(ops)
    ensures PerformAll(ops, K).lru <= Recent(ops) && PerformAll(ops, K).next == NextAfter(ops)
  {
    var top := K + |ops| + 1;
    SideAlong(ops, K, top);
    LargeHoldsRecent(ops, top);
  }

  lemma {:induction false} SideAlong(ops: seq<CacheOp>, k: nat, K: nat)
    requires 1 <= k <= K && |ops| < K && Orderly(ops)
    ensures Side(PerformAll(ops, k), PerformAll(ops, K), k, K)
  {
    if |ops| > 0 {
      hide InOrder, Perform, Side;
      var before, op := ops[..|ops| - 1], ops[|ops| - 1];
      OrderlyBefore(ops, |ops| - 1);
      SideAlong(before, k, K);
      LargeHoldsRecent(before, K);
      assert InOrder(Recent(before), op, NextAfter(before));
      SideStep(PerformAll(before, k), PerformAll(before, K), Recent(before), op, k, K);
    } else {
      assert IdSet([]) == {};
    }
  }

  // ----- And no others -----------------------------------------------------------------

  /** Some size holds exactly the most recently used id. */
  lemma {:induction false} OneHeld(ops: seq<CacheOp>, K: nat) returns (k: nat)
    requires K >= 1 && Orderly(ops) && |PerformAll(ops, K).lru| >= 1
    ensures 1 <= k <= K && |PerformAll(ops, k).lru| == 1
  {
    if |PerformAll(ops, K).lru| == 1 {
      k := K;
    } else {
      LargerCacheIncludes(ops, K, K);
      LargerCacheIncludes(ops, K - 1, K);
      k := OneHeld(ops, K - 1);
    }
  }

  /** After an allocation of a cached id, a large cache has it twice. */
  lemma RepeatSplits(before: seq<CacheOp>, ops: seq<CacheOp>, K: nat)
    requires Orderly(before) && ops == before + [AllocateOp] && K == |before| + 1
    requires NextAfter(before) in Recent(before)
    ensures !Included(ops, K, K)
  {
    LargeHoldsRecent(before, K);
    assert ops[..|ops| - 1] == before;
    var r := PerformAll(before, K);
    IdsSize(r.lru);
    var t := PerformAll(ops, K);
    assert t.lru == [r.next] + r.lru;
    var i :| 0 <= i < |r.lru| && r.lru[i] == r.next;
    assert t.lru[i + 1] == t.lru[0];
  }

  /** A get that finds an unknown id behind the head tells two caches apart. */
  lemma GetSplits(before: seq<CacheOp>, ops: seq<CacheOp>, id: BlockID) returns (k: nat, K: nat)
    requires Orderly(before) && ops == before + [GetOp(id)]
    requires !InOrder(Recent(before), GetOp(id), NextAfter(before))
    ensures 1 <= k <= K && !Included(ops, k, K)
  {
    K := |before| + 1;
    LargeHoldsRecent(before, K);
    k := OneHeld(before, K);
    LargerCacheIncludes(before, k, K);
    assert ops[..|ops| - 1] == before;
    var small, large := PerformAll(before, k), PerformAll(before, K);
    assert small.lru == [large.lru[0]];
    assert id !in small.cached && id in large.cached;
  }

  lemma {:induction false} NestedIsOrderly(ops: seq<CacheOp>)
    requires Nested(ops)
    ensures Orderly(ops)
  {
    if |ops| > 0 {
      var before, op := ops[..|ops| - 1], ops[|ops| - 1];
      forall p, k, K | 0 <= p <= |before| && 1 <= k <= K
        ensures Included(before[..p], k, K)
      {
        assert before[..p] == ops[..p];
      }
      NestedIsOrderly(before);
      assert ops == before + [op] && ops[..|ops|] == ops;
      LastInOrder(before, ops, op);
      forall i | 0 <= i < |ops|
        ensures InOrder(Recent(ops[..i]), ops[i], NextAfter(ops[..i]))
      {
        if i < |before| {
          assert before[..i] == ops[..i];
        }
      }
    }
  }

  lemma LastInOrder(before: seq<CacheOp>, ops: seq<CacheOp>, op: CacheOp)
    requires Orderly(before) && ops == before + [op]
    requires forall k, K :: 1 <= k <= K ==> Included(ops, k, K)
    ensures InOrder(Recent(before), op, NextAfter(before))
  {
    if !InOrder(Recent(before), op, NextAfter(before)) {
      if op.AllocateOp? {
        RepeatSplits(before, ops, |before| + 1);
      } else {
        var k, K := GetSplits(before, ops, op.id);
      }
      assert false;
    }
  }

  /**
   * The lists of caches of all sizes are nested, without repeats, all along a trace, if and only if
   * the trace is orderly. The condition is read off the trace, without running any cache.
   */
  lemma InclusionExactly(ops: seq<CacheOp>)
    ensures Nested(ops) <==> Orderly(ops)
  {
    if Nested(ops) {
      NestedIsOrderly(ops);
    }
    if Orderly(ops) {
      forall p, k, K | 0 <= p <= |ops| && 1 <= k <= K
        ensures Included(ops[..p], k, K)
      {
        OrderlyBefore(ops, p);
        LargerCacheIncludes(ops[..p], k, K);
      }
    }
  }

  // ----- Traces that are not orderly ---------------------------------------------------------------

  lemma OneMore(ops: seq<CacheOp>, op: CacheOp, maxSize: nat)
    ensures PerformAll(ops + [op], maxSize) == Perform(PerformAll(ops, maxSize), op, maxSize)
    ensures Recent(ops + [op]) == Used(Recent(ops), op, NextAfter(ops))
    ensures NextAfter(ops + [op]) == NextAfter(ops) + if op.AllocateOp? then 1 else 0
  {
    hide Perform, Used;
    assert (ops + [op])[..|ops + [op]| - 1] == ops;
  }

  /** An id that was put but never handed out is hit by large caches alone, and moves to the front there. */
  lemma UnknownGetBreaksInclusion()
    ensures !Nested([AllocateOp, PutOp(9), GetOp(1), GetOp(9)])
  {
    hide Perform, PerformAll, Nested;
    var ops := [AllocateOp, PutOp(9), GetOp(1), GetOp(9)];
    OneMore([], AllocateOp, 1);
    OneMore([AllocateOp], PutOp(9), 1);
    OneMore([AllocateOp, PutOp(9)], GetOp(1), 1);
    assert [] + [AllocateOp] == ops[..1] && [AllocateOp] + [PutOp(9)] == ops[..2];
    assert [AllocateOp, PutOp(9)] + [GetOp(1)] == ops[..3];
    assert Recent(ops[..1]) == [1] && Recent(ops[..2]) == [9, 1] && Remove([9, 1], 1) == [9];
    assert Recent(ops[..3]) == [1, 9];
    assert !InOrder(Recent(ops[..3]), ops[3], NextAfter(ops[..3]));
    InclusionExactly(ops);
  }

  /** A put of the id that is handed out next leaves two elements for one block. */
  lemma EarlyPutBreaksInclusion()
    ensures !Nested([PutOp(1), AllocateOp])
  {
    hide Perform, PerformAll, Nested;
    var ops := [PutOp(1), AllocateOp];
    OneMore([], PutOp(1), 1);
    assert [] + [PutOp(1)] == ops[..1];
    assert Recent(ops[..1]) == [1];
    assert !InOrder(Recent(ops[..1]), ops[1], NextAfter(ops[..1]));
    InclusionExactly(ops);
  }
}
