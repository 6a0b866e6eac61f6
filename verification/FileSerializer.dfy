/** Fixed-size blocks in one file, addressed by id: block `id` is the 4096 bytes at offset 4096 * id. */
module FileSerializer {
  import opened Bytes

  const BLOCK_SIZE: nat := 4096
  const MAX_BLOCK_ID: nat := 0xFFFF_FFFF
  const INVALID_BLOCK_ID: nat := 0

  type BlockID = nat
  type Block = b: Bytes | |b| == BLOCK_SIZE witness Zeros(BLOCK_SIZE)

  datatype Error = SerializerClosed | InvalidBlockID
  datatype Result<T> = Ok(value: T) | Err(error: Error)

  /** Copies what fits and leaves the rest zero. */
  function NewBlockFromData(data: Bytes): (b: Block)
    ensures |data| <= BLOCK_SIZE ==> b[..|data|] == data
    ensures |data| <= BLOCK_SIZE ==> b[|data|..] == Zeros(BLOCK_SIZE - |data|)
    ensures |data| > BLOCK_SIZE ==> b == data[..BLOCK_SIZE]
  {
    if |data| >= BLOCK_SIZE then data[..BLOCK_SIZE] else data + Zeros(BLOCK_SIZE - |data|)
  }

  /** A write at an offset: a gap before it reads as zeros. */
  function WriteAt(file: Bytes, offset: nat, data: Bytes): (after: Bytes)
    ensures |after| == if |file| < offset + |data| then offset + |data| else |file|
    ensures after[offset..offset + |data|] == data
    ensures forall i :: 0 <= i < |file| && !(offset <= i < offset + |data|) ==> after[i] == file[i]
    ensures |file| <= offset ==> after[|file|..offset] == Zeros(offset - |file|)
  {
    var padded := if |file| < offset then file + Zeros(offset - |file|) else file;
    padded[..offset] + data + (if offset + |data| < |padded| then padded[offset + |data|..] else [])
  }

  function BlockAt(file: Bytes, id: nat): Block
    requires (id + 1) * BLOCK_SIZE <= |file|
  {
    file[id * BLOCK_SIZE..(id + 1) * BLOCK_SIZE]
  }

  /** The next id is recovered from the size of the file, cut to 32 bits; id 0 is never used. */
  function NextID(size: nat): nat {
    var count := size / BLOCK_SIZE % (MAX_BLOCK_ID + 1);
    if count == 0 then 1 else count
  }

  function BlocksOf(file: Bytes, next: nat): map<BlockID, Block>
    requires next > 1 ==> next * BLOCK_SIZE <= |file|
  {
    map id: nat | 1 <= id < next :: BlockAt(file, id)
  }

  lemma WriteOneBlock(file: Bytes, next: nat, id: nat, block: Block)
    requires 1 <= id <= next && (next > 1 ==> next * BLOCK_SIZE <= |file|)
    ensures var after := WriteAt(file, id * BLOCK_SIZE, block);
            var next' := if id == next then next + 1 else next;
            next' * BLOCK_SIZE <= |after| && BlocksOf(after, next') == BlocksOf(file, next)[id := block]
  {
    var after := WriteAt(file, id * BLOCK_SIZE, block);
    var next' := if id == next then next + 1 else next;
    forall k: nat | 1 <= k < next' && k != id
      ensures BlockAt(after, k) == BlockAt(file, k)
    {
      assert k < id ==> (k + 1) * BLOCK_SIZE <= id * BLOCK_SIZE;
      assert k > id ==> (id + 1) * BLOCK_SIZE <= k * BLOCK_SIZE;
      forall i | k * BLOCK_SIZE <= i < (k + 1) * BLOCK_SIZE
        ensures after[i] == file[i]
      {
      }
    }
    assert BlockAt(after, id) == block;
  }

  /** A write past the last id changes no block. */
  lemma WriteBeyond(file: Bytes, next: nat, id: nat, block: Block)
    requires (next <= id || next <= 1) && (next > 1 ==> next * BLOCK_SIZE <= |file|)
    ensures var after := WriteAt(file, id * BLOCK_SIZE, block);
            (next > 1 ==> next * BLOCK_SIZE <= |after|) && BlocksOf(after, next) == BlocksOf(file, next)
  {
    var after := WriteAt(file, id * BLOCK_SIZE, block);
    forall k: nat | 1 <= k < next
      ensures BlockAt(after, k) == BlockAt(file, k)
    {
      assert (k + 1) * BLOCK_SIZE <= next * BLOCK_SIZE <= id * BLOCK_SIZE;
    }
  }

  /** One more whole block at the end, and the size tells the next id again. */
  lemma NextIsExact(size: nat, next: nat)
    requires size / BLOCK_SIZE <= MAX_BLOCK_ID && next == NextID(size) < MAX_BLOCK_ID
    ensures var after := if size < (next + 1) * BLOCK_SIZE then (next + 1) * BLOCK_SIZE else size;
            after / BLOCK_SIZE <= MAX_BLOCK_ID && NextID(after) == next + 1
  {
  }

  /** The next id after a write: a 32-bit number. */
  function NextAfterWrite(next: nat, id: BlockID): nat {
    if id == INVALID_BLOCK_ID then (next + 1) % (MAX_BLOCK_ID + 1) else next
  }

  lemma WriteFacts(file: Bytes, next: nat, id: BlockID, block: Block)
    requires next <= MAX_BLOCK_ID && (next > 1 ==> next * BLOCK_SIZE <= |file|)
    ensures var target, next' := if id == INVALID_BLOCK_ID then next else id, NextAfterWrite(next, id);
            var after := WriteAt(file, target * BLOCK_SIZE, block);
            && (next' > 1 ==> next' * BLOCK_SIZE <= |after|)
            && BlocksOf(after, next') == if 1 <= target < next' then BlocksOf(file, next)[target := block]
                                         else if next' == 0 then map[] else BlocksOf(file, next)
  {
    var target, next' := if id == INVALID_BLOCK_ID then next else id, NextAfterWrite(next, id);
    if 1 <= target < next' {
      WriteOneBlock(file, next, target, block);
    } else {
      WriteBeyond(file, next', target, block);
    }
  }

  lemma WriteIsExact(file: Bytes, next: nat, id: BlockID, block: Block)
    requires |file| / BLOCK_SIZE <= MAX_BLOCK_ID && next == NextID(|file|)
    requires 1 <= id < next || (id == INVALID_BLOCK_ID && next < MAX_BLOCK_ID)
    ensures var target := if id == INVALID_BLOCK_ID then next else id;
            var after := WriteAt(file, target * BLOCK_SIZE, block);
            |after| / BLOCK_SIZE <= MAX_BLOCK_ID && NextAfterWrite(next, id) == NextID(|after|)
  {
    if id == INVALID_BLOCK_ID {
      NextIsExact(|file|, next);
    } else {
      assert (id + 1) * BLOCK_SIZE <= next * BLOCK_SIZE;
    }
  }

  class FileSerializer {
    var file: Bytes
    var nextID: nat
    var closed: bool

    /** The blocks below the next id are in the file. */
    ghost predicate Valid()
      reads this
    {
      nextID <= MAX_BLOCK_ID && (nextID > 1 ==> nextID * BLOCK_SIZE <= |file|)
    }

    /** The file has no more blocks than ids can tell apart, and opening it again would give the same next id. */
    ghost predicate Exact()
      reads this
    {
      |file| / BLOCK_SIZE <= MAX_BLOCK_ID && nextID == NextID(|file|)
    }

    ghost function Blocks(): (m: map<BlockID, Block>)
      requires Valid()
      reads this
      ensures forall id :: id in m <==> 1 <= id < nextID
    {
      BlocksOf(file, nextID)
    }

    /** Opens a file with the given contents: a new one is empty. */
    constructor (contents: Bytes)
      ensures Valid() && !closed && file == contents && nextID == NextID(|contents|)
      ensures var count := |contents| / 4096 % 0x1_0000_0000; nextID == if count == 0 then 1 else count
      ensures Exact() <==> |contents| < (MAX_BLOCK_ID + 1) * BLOCK_SIZE
    {
      file := contents;
      closed := false;
      var count := |contents| / BLOCK_SIZE % (MAX_BLOCK_ID + 1);
      if count == 0 {
        count := 1;
      }
      nextID := count;
    }

    method BlockRead(id: BlockID) returns (r: Result<Block>)
      requires Valid()
      ensures closed ==> r == Err(SerializerClosed)
      ensures !closed ==> r == if id in Blocks() then Ok(Blocks()[id]) else Err(InvalidBlockID)
      ensures r.Ok? ==> 1 <= id < nextID && (id + 1) * 4096 <= |file| && r.value == file[id * 4096..(id + 1) * 4096]
    {
      if closed {
        return Err(SerializerClosed);
      }
      if id == INVALID_BLOCK_ID || id >= nextID {
        return Err(InvalidBlockID);
      }
      var offset := id * BLOCK_SIZE;
      r := Ok(file[offset..offset + BLOCK_SIZE]);
    }

    /**
     * Writes a block under any id, allocating the next one when the id is the invalid one. The next
     * id is a 32-bit number; after the last one it is zero, and no id is known any more.
     */
    method BlockWrite(id: BlockID, block: Block) returns (r: Result<BlockID>)
      requires Valid() && id <= MAX_BLOCK_ID
      modifies this`file, this`nextID
      ensures Valid()
      ensures closed ==> r == Err(SerializerClosed) && file == old(file) && nextID == old(nextID)
      ensures !closed ==> r == Ok(if id == INVALID_BLOCK_ID then old(nextID) else id)
      ensures !closed ==> file == WriteAt(old(file), r.value * 4096, block)
      ensures !closed ==>
                nextID == if id == INVALID_BLOCK_ID then (old(nextID) + 1) % 0x1_0000_0000 else old(nextID)
      ensures !closed ==> Blocks() == if 1 <= r.value < nextID then old(Blocks())[r.value := block]
                                      else if nextID == 0 then map[] else old(Blocks())
      ensures old(Exact()) && (id in old(Blocks()) || (id == INVALID_BLOCK_ID && old(nextID) < MAX_BLOCK_ID)) ==>
                Exact()
    {
      if closed {
        return Err(SerializerClosed);
      }
      var target := id;
      if target == INVALID_BLOCK_ID {
        target := nextID;
        nextID := (nextID + 1) % (MAX_BLOCK_ID + 1);
      }
      hide WriteAt, BlocksOf, NextID;
      WriteFacts(file, old(nextID), id, block);
      if old(Exact()) && (id in old(Blocks()) || (id == INVALID_BLOCK_ID && old(nextID) < MAX_BLOCK_ID)) {
        WriteIsExact(file, old(nextID), id, block);
      }
      file := WriteAt(file, target * BLOCK_SIZE, block);
      r := Ok(target);
    }

    /** A deleted block is filled with zeros; its id is not used again. */
    method BlockDelete(id: BlockID) returns (r: Result<()>)
      requires Valid()
      modifies this`file
      ensures Valid() && (old(Exact()) ==> Exact())
      ensures closed ==> r == Err(SerializerClosed) && file == old(file)
      ensures !closed && id !in old(Blocks()) ==> r == Err(InvalidBlockID) && file == old(file)
      ensures !closed && id in old(Blocks()) ==> r == Ok(()) && Blocks() == old(Blocks())[id := Zeros(BLOCK_SIZE)]
      ensures r.Ok? ==> 1 <= id < nextID && file == WriteAt(old(file), id * 4096, Zeros(4096))
    {
      if closed {
        return Err(SerializerClosed);
      }
      if id == INVALID_BLOCK_ID || id >= nextID {
        return Err(InvalidBlockID);
      }
      WriteOneBlock(file, nextID, id, Zeros(BLOCK_SIZE));
      file := WriteAt(file, id * BLOCK_SIZE, Zeros(BLOCK_SIZE));
      r := Ok(());
    }

    method Close()
      modifies this`closed
      ensures closed
    {
      closed := true;
    }
  }
}
