/**
 * The write-back LRU cache over the file. Seen from outside it is a plain map of
 * blocks: `View()` is the cached block where there is one and the block on disk
 * otherwise, and every operation acts on the view alone, whatever it evicts.
 */
module PageCache {
  import opened Bytes
  import opened FileSerializer
  import opened Lru

  datatype CacheEntry = CacheEntry(block: Block, dirty: bool)

  type Entries = map<BlockID, CacheEntry>

  /** The list and the map hold the same distinct ids, no more than `maxSize`, all of them on disk. */
  ghost predicate Consistent(cache: Entries, lru: Recency, disk: map<BlockID, Block>, maxSize: nat) {
    && NoRepeats(lru) && |lru| <= maxSize
    && (forall id :: id in lru <==> id in cache)
    && (forall id :: id in cache ==> id in disk)
    && (forall id :: id in cache && !cache[id].dirty ==> cache[id].block == disk[id])
  }

  function Overlay(cache: Entries, disk: map<BlockID, Block>): map<BlockID, Block> {
    map id | id in disk :: if id in cache then cache[id].block else disk[id]
  }

  // ----- What each change keeps, on values ---------------------------------------------

  lemma FrontFacts(cache: Entries, lru: Recency, disk: map<BlockID, Block>, maxSize: nat, id: BlockID)
    requires Consistent(cache, lru, disk, maxSize) && id in cache
    ensures Consistent(cache, [id] + Remove(lru, id), disk, maxSize)
    ensures [id] + Remove(lru, id) == Touch(lru, id, maxSize)
  {
    RemoveFacts(lru, id);
  }

  /** Setting a cached entry shows through the view at its id only. */
  lemma UpdateFacts(cache: Entries, lru: Recency, disk: map<BlockID, Block>, maxSize: nat, id: BlockID, block: Block)
    requires Consistent(cache, lru, disk, maxSize) && id in cache
    ensures Consistent(cache[id := CacheEntry(block, true)], lru, disk, maxSize)
    ensures Overlay(cache[id := CacheEntry(block, true)], disk) == Overlay(cache, disk)[id := block]
  {
  }

  lemma InsertFacts(cache: Entries, lru: Recency, disk: map<BlockID, Block>, maxSize: nat, id: BlockID,
                    entry: CacheEntry)
    requires Consistent(cache, lru, disk, maxSize) && id !in cache && id in disk && |lru| < maxSize
    requires !entry.dirty ==> disk[id] == entry.block
    ensures Consistent(cache[id := entry], [id] + lru, disk, maxSize)
    ensures Overlay(cache[id := entry], disk) == Overlay(cache, disk)[id := entry.block]
  {
  }

  /** The disk after an entry has been written back, if it had to be. */
  function WrittenBack(entry: CacheEntry, id: BlockID, disk: map<BlockID, Block>): map<BlockID, Block> {
    if entry.dirty then disk[id := entry.block] else disk
  }

  lemma EvictFacts(cache: Entries, lru: Recency, disk: map<BlockID, Block>, maxSize: nat)
    requires Consistent(cache, lru, disk, maxSize) && |lru| > 0
    ensures var id := lru[|lru| - 1]; id in cache && id in disk
    ensures var id := lru[|lru| - 1]; var disk' := WrittenBack(cache[id], id, disk);
            && Consistent(cache - {id}, lru[..|lru| - 1], disk', maxSize)
            && Overlay(cache - {id}, disk') == Overlay(cache, disk)
  {
    var id := lru[|lru| - 1];
    assert id in lru;
    forall k | k in lru[..|lru| - 1]
      ensures k in cache - {id}
    {
      assert k in lru && k != id;
    }
    forall k | k in cache - {id}
      ensures k in lru[..|lru| - 1]
    {
      assert k in lru;
    }
  }

  lemma CleanFacts(cache: Entries, lru: Recency, disk: map<BlockID, Block>, maxSize: nat, id: BlockID)
    requires Consistent(cache, lru, disk, maxSize) && id in cache
    ensures var disk' := disk[id := cache[id].block]; var cache' := cache[id := cache[id].(dirty := false)];
            Consistent(cache', lru, disk', maxSize) && Overlay(cache', disk') == Overlay(cache, disk)
  {
  }

  lemma DropFacts(cache: Entries, lru: Recency, disk: map<BlockID, Block>, maxSize: nat, id: BlockID)
    requires Consistent(cache, lru, disk, maxSize)
    ensures Consistent(cache - {id}, Remove(lru, id), disk, maxSize)
    ensures id !in cache ==> cache - {id} == cache && Remove(lru, id) == lru
  {
    RemoveFacts(lru, id);
    if id !in cache {
      RemoveAbsent(lru, id);
    }
  }

  lemma EraseFacts(cache: Entries, lru: Recency, disk: map<BlockID, Block>, maxSize: nat, id: BlockID, block: Block)
    requires Consistent(cache, lru, disk, maxSize) && id !in cache
    ensures Consistent(cache, lru, disk[id := block], maxSize)
    ensures Overlay(cache, disk[id := block]) == Overlay(cache, disk)[id := block]
  {
  }

  /** A deleted id leaves the cache, and its block the disk. */
  lemma DeleteFacts(cache: Entries, lru: Recency, disk: map<BlockID, Block>, maxSize: nat, id: BlockID, block: Block)
    requires Consistent(cache, lru, disk, maxSize)
    ensures var disk' := if id in disk then disk[id := block] else disk;
            && Consistent(cache - {id}, Remove(lru, id), disk', maxSize)
            && Overlay(cache - {id}, disk') ==
                 if id in disk then Overlay(cache, disk)[id := block] else Overlay(cache, disk)
    ensures id !in cache ==> cache - {id} == cache && Remove(lru, id) == lru
  {
    DropFacts(cache, lru, disk, maxSize, id);
    if id in disk {
      EraseFacts(cache - {id}, Remove(lru, id), disk, maxSize, id, block);
    }
  }

  ghost predicate CleanTo(cache: Entries, lru: Recency, i: int) {
    forall k :: 0 <= k < i && k < |lru| ==> lru[k] in cache && !cache[lru[k]].dirty
  }

  lemma CleanOne(cache: Entries, lru: Recency, i: nat)
    requires CleanTo(cache, lru, i) && i < |lru| && (forall id :: id in lru <==> id in cache)
    ensures lru[i] in cache
    ensures CleanTo(cache[lru[i] := cache[lru[i]].(dirty := false)], lru, i + 1)
  {
    assert lru[i] in lru;
  }

  /** When nothing is dirty the disk is the view. */
  lemma AllClean(cache: Entries, lru: Recency, disk: map<BlockID, Block>, maxSize: nat)
    requires Consistent(cache, lru, disk, maxSize)
    requires CleanTo(cache, lru, |lru|)
    ensures Overlay(cache, disk) == disk
  {
    forall id | id in cache
      ensures cache[id].block == disk[id]
    {
      assert id in lru;
    }
  }

  /** The list and the map have the same size. */
  lemma SameSize(cache: Entries, lru: Recency)
    requires NoRepeats(lru) && forall id :: id in lru <==> id in cache
    ensures |cache| == |lru|
  {
    assert cache.Keys == IdSet(lru);
    IdsSize(lru);
  }

  /** The trace of a consistent cache is in bounds, and an operation changes its list alone. */
  lemma TraceFacts(cache: Entries, lru: Recency, disk: map<BlockID, Block>, maxSize: nat, next: nat, hits: nat,
                   op: CacheOp)
    requires maxSize >= 1 && Consistent(cache, lru, disk, maxSize) && (op.AllocateOp? ==> next !in disk)
    ensures var r := CacheRun(lru, cache.Keys, next, hits);
            var lru' := Listed(lru, op, next, maxSize);
            Perform(r, op, maxSize) ==
            CacheRun(lru', IdSet(lru'), if op.AllocateOp? then next + 1 else next,
                     if op.GetOp? && op.id in cache then hits + 1 else hits)
  {
    assert cache.Keys == IdSet(lru);
    PerformInBounds(CacheRun(lru, cache.Keys, next, hits), op, maxSize);
  }

  lemma KeysAreListed(cache: Entries, lru: Recency, disk: map<BlockID, Block>, maxSize: nat)
    requires Consistent(cache, lru, disk, maxSize)
    ensures cache.Keys == IdSet(lru)
  {
  }

  class PageCache {
    var cache: Entries
    var lru: Recency
    const maxSize: nat
    const serializer: FileSerializer
    var hits: nat
    var misses: nat

    ghost predicate Valid()
      reads this, serializer
    {
      && maxSize >= 1
      && serializer.Valid() && serializer.Exact() && !serializer.closed
      && Consistent(cache, lru, serializer.Blocks(), maxSize)
    }

    ghost function View(): map<BlockID, Block>
      requires Valid()
      reads this, serializer
    {
      Overlay(cache, serializer.Blocks())
    }

    ghost function NextID(): nat
      reads this, serializer
    {
      serializer.nextID
    }

    /** What the inclusion property of Lru.dfy looks at. */
    ghost function Trace(): CacheRun
      reads this, serializer
    {
      CacheRun(lru, cache.Keys, serializer.nextID, hits)
    }

    constructor (serializer: FileSerializer, maxSize: nat)
      requires maxSize >= 1 && serializer.Valid() && serializer.Exact() && !serializer.closed
      ensures Valid() && this.serializer == serializer && this.maxSize == maxSize
      ensures View() == serializer.Blocks() && lru == [] && hits == 0 && misses == 0
    {
      this.serializer, this.maxSize := serializer, maxSize;
      cache, lru, hits, misses := map[], [], 0, 0;
    }

    method Get(id: BlockID) returns (r: Result<Block>)
      requires Valid()
      modifies this, serializer`file, serializer`nextID
      ensures Valid() && View() == old(View()) && NextID() == old(NextID())
      ensures r == if id in View() then Ok(View()[id]) else Err(InvalidBlockID)
      ensures Trace() == Perform(old(Trace()), GetOp(id), maxSize)
      ensures hits == old(hits) + (if id in old(cache) then 1 else 0) && hits + misses == old(hits + misses) + 1
      ensures if id in View() then UsedNow(old(lru), lru, id, maxSize) else lru == old(lru)
    {
      hide Perform, UsedNow, Touch, Remove, NoRepeats, BlocksOf, WriteAt, BlockAt;
      TouchFacts(lru, id, maxSize);
      TraceFacts(cache, lru, serializer.Blocks(), maxSize, serializer.nextID, hits, GetOp(id));
      if id in cache {
        MoveToFront(id);
        hits := hits + 1;
        KeysAreListed(cache, lru, serializer.Blocks(), maxSize);
        return Ok(cache[id].block);
      }
      misses := misses + 1;
      r := serializer.BlockRead(id);
      if r.Err? {
        KeysAreListed(cache, lru, serializer.Blocks(), maxSize);
        return;
      }
      AddToCache(id, r.value, false);
      KeysAreListed(cache, lru, serializer.Blocks(), maxSize);
      assert old(View())[id := r.value] == old(View());
    }

    method Put(id: BlockID, block: Block)
      requires Valid() && id in View()
      modifies this, serializer`file, serializer`nextID
      ensures Valid() && View() == old(View())[id := block] && NextID() == old(NextID())
      ensures Trace() == Perform(old(Trace()), PutOp(id), maxSize)
      ensures UsedNow(old(lru), lru, id, maxSize) && (hits, misses) == old((hits, misses))
    {
      hide Perform, UsedNow, Touch, Remove, NoRepeats, BlocksOf, WriteAt, BlockAt;
      TouchFacts(lru, id, maxSize);
      TraceFacts(cache, lru, serializer.Blocks(), maxSize, serializer.nextID, hits, PutOp(id));
      if id in cache {
        MoveToFront(id);
        UpdateFacts(cache, lru, serializer.Blocks(), maxSize, id, block);
        cache := cache[id := CacheEntry(block, true)];
        KeysAreListed(cache, lru, serializer.Blocks(), maxSize);
        return;
      }
      AddToCache(id, block, true);
      KeysAreListed(cache, lru, serializer.Blocks(), maxSize);
    }

    /** A new block goes to the file at once and into the cache as clean. */
    method Allocate(block: Block) returns (id: BlockID)
      requires Valid() && NextID() < MAX_BLOCK_ID
      modifies this, serializer`file, serializer`nextID
      ensures Valid() && id == old(NextID()) && NextID() == old(NextID()) + 1
      ensures id !in old(View()) && View() == old(View())[id := block]
      ensures Trace() == Perform(old(Trace()), AllocateOp, maxSize)
      ensures UsedNow(old(lru), lru, id, maxSize) && (hits, misses) == old((hits, misses))
    {
      hide Perform, UsedNow, Touch, Remove, NoRepeats, BlocksOf, WriteAt, BlockAt;
      TouchFacts(lru, serializer.nextID, maxSize);
      TraceFacts(cache, lru, serializer.Blocks(), maxSize, serializer.nextID, hits, AllocateOp);
      id := Write(INVALID_BLOCK_ID, block);
      EraseFacts(cache, lru, old(serializer.Blocks()), maxSize, id, block);
      AddToCache(id, block, false);
      KeysAreListed(cache, lru, serializer.Blocks(), maxSize);
    }

    /** Writes every dirty block, front to back; afterwards the file is the view. */
    method Flush()
      requires Valid()
      modifies this`cache, serializer`file, serializer`nextID
      ensures Valid() && View() == old(View()) && NextID() == old(NextID()) && lru == old(lru)
      ensures serializer.Blocks() == View()
    {
      var i := 0;
      while i < |lru|
        invariant 0 <= i <= |lru| && lru == old(lru)
        invariant Valid() && View() == old(View()) && NextID() == old(NextID())
        invariant CleanTo(cache, lru, i)
      {
        CleanOne(cache, lru, i);
        Clean(lru[i]);
        i := i + 1;
      }
      AllClean(cache, lru, serializer.Blocks(), maxSize);
    }

    method Delete(id: BlockID) returns (r: Result<()>)
      requires Valid()
      modifies this`cache, this`lru, serializer`file
      ensures Valid() && NextID() == old(NextID())
      ensures Trace() == Perform(old(Trace()), DeleteOp(id), maxSize)
      ensures Without(old(lru), lru, id)
      ensures id in old(View()) ==> r == Ok(()) && View() == old(View())[id := Zeros(BLOCK_SIZE)]
      ensures id !in old(View()) ==> r == Err(InvalidBlockID) && View() == old(View())
    {
      hide Perform, Without, Remove, NoRepeats, WriteAt, BlocksOf, BlockAt;
      RemoveIsWithout(lru, id);
      TraceFacts(cache, lru, serializer.Blocks(), maxSize, serializer.nextID, hits, DeleteOp(id));
      DeleteFacts(cache, lru, serializer.Blocks(), maxSize, id, Zeros(BLOCK_SIZE));
      if id in cache {
        lru := Remove(lru, id);
        cache := cache - {id};
      }
      r := serializer.BlockDelete(id);
      KeysAreListed(cache, lru, serializer.Blocks(), maxSize);
    }

    // ----- Internal -----------------------------------------------------------------

    /** A block goes to the file, under an id it has handed out or under the next one. */
    method Write(id: BlockID, block: Block) returns (written: BlockID)
      requires Valid() && (id in serializer.Blocks() || (id == INVALID_BLOCK_ID && NextID() < MAX_BLOCK_ID))
      modifies serializer`file, serializer`nextID
      ensures serializer.Valid() && serializer.Exact()
      ensures written == if id == INVALID_BLOCK_ID then old(NextID()) else id
      ensures serializer.Blocks() == old(serializer.Blocks())[written := block]
      ensures NextID() == if id == INVALID_BLOCK_ID then old(NextID()) + 1 else old(NextID())
    {
      var r := serializer.BlockWrite(id, block);
      written := r.value;
    }

    /** One turn of the Flush loop. */
    method Clean(id: BlockID)
      requires Valid() && id in cache
      modifies this`cache, serializer`file, serializer`nextID
      ensures Valid() && View() == old(View()) && NextID() == old(NextID())
      ensures cache == old(cache)[id := old(cache)[id].(dirty := false)]
    {
      if cache[id].dirty {
        CleanFacts(cache, lru, serializer.Blocks(), maxSize, id);
        var _ := Write(id, cache[id].block);
        cache := cache[id := cache[id].(dirty := false)];
      }
    }

    method MoveToFront(id: BlockID)
      requires Valid() && id in cache
      modifies this`lru
      ensures Valid() && lru == Touch(old(lru), id, maxSize)
    {
      FrontFacts(cache, lru, serializer.Blocks(), maxSize, id);
      lru := [id] + Remove(lru, id);
    }

    /** The id must not be cached; the block it has on disk is shadowed by `block`. */
    method AddToCache(id: BlockID, block: Block, dirty: bool)
      requires Valid() && id !in cache && id in View()
      requires !dirty ==> serializer.Blocks()[id] == block
      modifies this`cache, this`lru, serializer`file, serializer`nextID
      ensures Valid() && View() == old(View())[id := block] && NextID() == old(NextID())
      ensures lru == Touch(old(lru), id, maxSize)
    {
      MakeRoom(id);
      InsertFacts(cache, lru, serializer.Blocks(), maxSize, id, CacheEntry(block, dirty));
      cache := cache[id := CacheEntry(block, dirty)];
      lru := [id] + lru;
    }

    /** The eviction loop of addToCache; the block on disk of an id that is not cached stays. */
    method MakeRoom(ghost id: BlockID)
      requires Valid() && id !in cache && id in View()
      modifies this`cache, this`lru, serializer`file, serializer`nextID
      ensures Valid() && View() == old(View()) && NextID() == old(NextID())
      ensures lru == if |old(lru)| < maxSize then old(lru) else old(lru)[..maxSize - 1]
      ensures id !in cache && id in View() && serializer.Blocks()[id] == old(serializer.Blocks()[id])
    {
      ghost var view, block := View(), serializer.Blocks()[id];
      SameSize(cache, lru);
      while |cache| >= maxSize
        invariant |cache| == |lru| && Valid() && View() == view && NextID() == old(NextID())
        invariant lru == old(lru) || (|old(lru)| == maxSize && lru == old(lru)[..maxSize - 1])
        invariant id !in cache && id in serializer.Blocks() && serializer.Blocks()[id] == block
        decreases |lru|
      {
        Evict(id, block);
        SameSize(cache, lru);
      }
    }

    /** Drops the least recently used block, after writing it back if it is dirty. */
    method Evict(ghost keep: BlockID, ghost block: Block)
      requires Valid() && keep !in cache
      requires keep in serializer.Blocks() && serializer.Blocks()[keep] == block
      modifies this`cache, this`lru, serializer`file, serializer`nextID
      ensures Valid() && View() == old(View()) && NextID() == old(NextID())
      ensures lru == if |old(lru)| == 0 then [] else old(lru)[..|old(lru)| - 1]
      ensures keep !in cache && keep in serializer.Blocks() && serializer.Blocks()[keep] == block
    {
      hide Overlay, Consistent, BlocksOf;
      if |lru| == 0 {
        return;
      }
      var id := lru[|lru| - 1];
      EvictFacts(cache, lru, serializer.Blocks(), maxSize);
      if cache[id].dirty {
        var _ := Write(id, cache[id].block);
      }
      cache := cache - {id};
      lru := lru[..|lru| - 1];
    }
  }
}
