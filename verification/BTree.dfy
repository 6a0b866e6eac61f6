/**
 * The B-tree over the page cache. `tree` is the value the blocks represent; every
 * method moves it as the functions of Tree.dfy do, and what a caller sees is a map.
 */
module BTree {
  import opened Options
  import opened Bytes
  import opened FileSerializer
  import opened Lru
  import opened NodeCodec
  import opened NodeOps
  import opened PageCache
  import opened Tree
  import opened TreeOrder
  import opened TreeShape
  import opened TreeStore
  import opened TreeChain

  function EmptyTree(id: BlockID): Tree {
    Leaf(id, LeafValue([], [], INVALID_BLOCK_ID))
  }

  lemma EmptyTreeGood(id: BlockID, next: BlockID)
    requires 1 <= id < next <= MAX_BLOCK_ID + 1
    ensures Good(EmptyTree(id), 0, true, None, None, next) && Chained(EmptyTree(id), INVALID_BLOCK_ID)
    ensures Dict(Items(EmptyTree(id))) == map[]
  {
  }

  class BTree {
    const cache: PageCache
    var rootID: BlockID
    ghost var tree: Tree
    ghost var height: nat

    ghost predicate Valid()
      reads this, cache, cache.serializer
    {
      && cache.Valid() && rootID == tree.id
      && Good(tree, height, true, None, None, cache.NextID())
      && Chained(tree, INVALID_BLOCK_ID)
      && Stored(cache.View(), tree)
    }

    /** What the tree is to its users. */
    ghost function Model(): map<Bytes, Bytes>
      requires Valid()
      reads this, cache, cache.serializer
    {
      Dict(Items(tree))
    }

    constructor New(cache: PageCache)
      requires cache.Valid() && cache.NextID() < MAX_BLOCK_ID
      modifies cache, cache.serializer`file, cache.serializer`nextID
      ensures this.cache == cache && Valid() && Model() == map[]
      ensures cache.NextID() == old(cache.NextID()) + 1
    {
      hide Overlay, Consistent, Perform, BlocksOf, UsedNow, GainsPair, LosesKey, LeafCut, GainsChild, InternalCut;
      this.cache := cache;
      tree := EmptyTree(INVALID_BLOCK_ID);
      height := 0;
      rootID := INVALID_BLOCK_ID;
      new;
      var rootNode := new LeafNode(INVALID_BLOCK_ID);
      var data := rootNode.Serialize();
      rootID := cache.Allocate(NewBlockFromData(data));
      tree := EmptyTree(rootID);
      EmptyTreeGood(rootID, cache.NextID());
    }

    /** Opens the tree whose root lies in block `rootID` of the cache. */
    constructor Load(cache: PageCache, rootID: BlockID, ghost tree: Tree, ghost height: nat)
      requires cache.Valid() && rootID == tree.id
      requires Good(tree, height, true, None, None, cache.NextID())
      requires Chained(tree, INVALID_BLOCK_ID) && Stored(cache.View(), tree)
      ensures this.cache == cache && Valid() && this.tree == tree && Model() == Dict(Items(tree))
    {
      hide Overlay, Consistent, Perform, BlocksOf, UsedNow, GainsPair, LosesKey, LeafCut, GainsChild, InternalCut;
      this.cache, this.rootID, this.tree, this.height := cache, rootID, tree, height;
    }

    // ----- Get ------------------------------------------------------------------------------

    /** The value last put for the key and not since deleted, if there is one; six blocks are read at most. */
    method Get(key: Bytes) returns (r: Option<Bytes>)
      requires Valid()
      modifies cache, cache.serializer`file, cache.serializer`nextID
      ensures Valid() && tree == old(tree) && cache.NextID() == old(cache.NextID())
      ensures r == Find(Model(), key)
      ensures cache.hits + cache.misses == old(cache.hits + cache.misses) + height + 1 && height + 1 <= 6
    {
      hide Overlay, Consistent, Perform, BlocksOf, UsedNow, GainsPair, LosesKey, LeafCut, GainsChild, InternalCut;
      GoodIsReadable(tree, height, true, None, None, cache.NextID());
      HeightBound(tree, height, cache.NextID());
      r := GetAt(rootID, key, tree, height, true);
      LookupIsFind(tree, None, None, key);
    }

    method GetAt(nodeID: BlockID, key: Bytes, ghost t: Tree, ghost h: nat, ghost root: bool) returns (r: Option<Bytes>)
      requires cache.Valid() && Readable(t) && Stored(cache.View(), t) && nodeID == t.id && Filled(t, h, root)
      modifies cache, cache.serializer`file, cache.serializer`nextID
      ensures cache.Valid() && cache.View() == old(cache.View()) && cache.NextID() == old(cache.NextID())
      ensures r == Lookup(t, key)
      ensures cache.hits + cache.misses == old(cache.hits + cache.misses) + h + 1
      decreases t
    {
      hide Overlay, Consistent, Perform, BlocksOf, UsedNow, GainsPair, LosesKey, LeafCut, GainsChild, InternalCut;
      hide Readable, Filled, Stored, Lookup, Wf, UpperBound, LowerBound, DecodeLeaf, DecodeInternal;
      ReadableReads(cache.View(), t);
      LookupStep(cache.View(), t, key, h, root);
      var block := cache.Get(nodeID);
      if block.value[0] == LEAF_TAG {
        var node := DeserializeLeaf(nodeID, block.value);
        var pos := node.FindKey(key);
        if pos >= |node.keys| || node.keys[pos] != key {
          return None;
        }
        return Some(node.values[pos]);
      }
      var node := DeserializeInternal(nodeID, block.value);
      var childIdx := node.FindChild(key);
      r := GetAt(node.children[childIdx], key, t.children[childIdx], h - 1, false);
    }

    // ----- Put ------------------------------------------------------------------------------

    /** Sets the value of the key. Within the size limits nothing can fail. */
    method Put(key: Bytes, value: Bytes)
      requires Valid() && SmallPair(key, value)
      requires cache.NextID() + height + 2 <= MAX_BLOCK_ID
      modifies this, cache, cache.serializer`file, cache.serializer`nextID
      ensures Valid() && Model() == old(Model())[key := value]
      ensures (tree, cache.NextID()) == PutRoot(old(tree), key, value, old(cache.NextID()))
    {
      hide Overlay, Consistent, Perform, BlocksOf, UsedNow, GainsPair, LosesKey, LeafCut, GainsChild, InternalCut;
      hide Within, Filled, Small, RightsBelow, Chained, PutRoot, Stored;
      ghost var next, t := cache.NextID(), tree;
      ghost var h := PutRootGood(t, height, key, value, next);
      PutRootChained(t, key, value, next);
      PutRootReady(t, height, key, value, cache.View(), next);
      var newRoot, _ := PutAt(rootID, key, value, t, height, true, None, None);
      RootAfterPut(t, key, value, next, newRoot, cache.View(), cache.NextID());
      if newRoot != INVALID_BLOCK_ID {
        rootID := newRoot;
      }
      tree, height := PutRoot(t, key, value, next).0, h;
    }

    /**
     * The recursive descent. A split below the root comes back as the id of the new right
     * node and its separator; a split of the root comes back as the id of the new root.
     */
    method PutAt(nodeID: BlockID, key: Bytes, value: Bytes, ghost t: Tree, ghost h: nat, ghost root: bool,
                 ghost lo: Option<Bytes>, ghost hi: Option<Bytes>)
      returns (newID: BlockID, separator: Bytes)
      requires cache.Valid() && nodeID == t.id
      requires PutReady(t, h, root, lo, hi, key, value, cache.View(), cache.NextID(), rootID)
      modifies cache, cache.serializer`file, cache.serializer`nextID
      ensures cache.Valid() && ChangedOnly(old(cache.View()), cache.View(), Ids(t))
      ensures PutDone(t, root, key, value, old(cache.NextID()), newID, separator, cache.View(), cache.NextID())
      decreases t
    {
      hide Overlay, Consistent, Perform, BlocksOf, UsedNow, GainsPair, LosesKey, LeafCut, GainsChild, InternalCut;
      PutReads(t, h, root, lo, hi, key, value, cache.View(), cache.NextID(), rootID);
      var block := cache.Get(nodeID);
      if block.value[0] == LEAF_TAG {
        var node := DeserializeLeaf(nodeID, block.value);
        newID, separator := PutLeaf(node, key, value, t, root);
      } else {
        var node := DeserializeInternal(nodeID, block.value);
        newID, separator := PutBranch(node, key, value, t, h, root, lo, hi);
      }
    }

    /** The branch case of the descent: put into the child, then take its outcome up. */
    method PutBranch(node: InternalNode, key: Bytes, value: Bytes, ghost t: Tree, ghost h: nat, ghost root: bool,
                     ghost lo: Option<Bytes>, ghost hi: Option<Bytes>)
      returns (newID: BlockID, separator: Bytes)
      requires cache.Valid() && t.Branch?
      requires PutReady(t, h, root, lo, hi, key, value, cache.View(), cache.NextID(), rootID)
      requires node.Valid() && node.Value() == Internal(t) && node.blockID == t.id
      modifies node, cache, cache.serializer`file, cache.serializer`nextID
      ensures cache.Valid() && ChangedOnly(old(cache.View()), cache.View(), Ids(t))
      ensures PutDone(t, root, key, value, old(cache.NextID()), newID, separator, cache.View(), cache.NextID())
      decreases t, 0
    {
      hide Overlay, Consistent, Perform, BlocksOf, UsedNow, GainsPair, LosesKey, LeafCut, GainsChild, InternalCut;
      ghost var view, next := cache.View(), cache.NextID();
      var childIdx := node.FindChild(key);
      var newChild, childSeparator := PutChild(node.children[childIdx], key, value, t, h, root, lo, hi, childIdx);
      ghost var child, mid := PutTree(t.children[childIdx], key, value, next), cache.View();
      newID, separator := TakeUp(node, newChild, childSeparator, t, childIdx, child, root, lo, hi);
      ChangesNest(view, mid, cache.View(), t, childIdx);
      DoneIsDone(t, root, key, value, next, newID, separator, cache.View(), cache.NextID());
    }

    /** The recursive call on child `c`; afterwards the node itself can go on. */
    method PutChild(childID: BlockID, key: Bytes, value: Bytes, ghost t: Tree, ghost h: nat, ghost root: bool,
                    ghost lo: Option<Bytes>, ghost hi: Option<Bytes>, ghost c: nat)
      returns (newChild: BlockID, separator: Bytes)
      requires cache.Valid() && t.Branch?
      requires PutReady(t, h, root, lo, hi, key, value, cache.View(), cache.NextID(), rootID)
      requires c == UpperBound(t.keys, key) && childID == t.children[c].id
      modifies cache, cache.serializer`file, cache.serializer`nextID
      ensures cache.Valid() && ChangedOnly(old(cache.View()), cache.View(), Ids(t.children[c]))
      ensures var child := PutTree(t.children[c], key, value, old(cache.NextID()));
              && Delivers(child, newChild, separator, cache.View(), cache.NextID())
              && BranchReady(t, c, child, cache.View(), cache.NextID(), lo, hi)
              && PutTree(t, key, value, old(cache.NextID())) == Grown(t, c, child)
      ensures cache.NextID() + 2 <= MAX_BLOCK_ID
      decreases t.children
    {
      hide Overlay, Consistent, Perform, BlocksOf, UsedNow, GainsPair, LosesKey, LeafCut, GainsChild, InternalCut;
      ghost var view, next := cache.View(), cache.NextID();
      PutDescends(t, h, root, lo, hi, key, value, view, next, rootID);
      newChild, separator :=
        PutAt(childID, key, value, t.children[c], h - 1, false, Low(t.keys, c, lo), High(t.keys, c, hi));
      PutReturns(t, h, root, lo, hi, key, value, view, next, rootID, c, PutTree(t.children[c], key, value, next),
                 newChild, separator, cache.View(), cache.NextID());
    }

    /** The leaf case of the descent: insert, write back, split if full. */
    method PutLeaf(node: LeafNode, key: Bytes, value: Bytes, ghost t: Tree, ghost root: bool)
      returns (newID: BlockID, separator: Bytes)
      requires cache.Valid() && t.Leaf? && Wf(t) && |t.node.keys| < MAX_LEAF_KEYS
      requires node.Valid() && node.Value() == t.node && node.blockID == t.id
      requires t.id in cache.View() && (root <==> t.id == rootID) && t.id < cache.NextID() <= MAX_BLOCK_ID - 2
      modifies node, cache, cache.serializer`file, cache.serializer`nextID
      ensures cache.Valid() && ChangedOnly(old(cache.View()), cache.View(), {t.id})
      ensures PutDone(t, root, key, value, old(cache.NextID()), newID, separator, cache.View(), cache.NextID())
    {
      hide Overlay, Consistent, Perform, BlocksOf, UsedNow, GainsPair, LosesKey, LeafCut, GainsChild, InternalCut;
      hide DoneBy, PutDone, PutTree, SplitLeafTree, LeafInsert, EncodeLeaf, NewBlockFromData;
      ghost var u, view, next := Leaf(t.id, LeafInsert(t.node, key, value)), cache.View(), cache.NextID();
      LeafWhole(view, t, key, value, next, root);
      InsertLeaf(node, key, value);
      var full := node.IsFull();
      if full {
        newID, separator := SplitLeafUp(node, u, root);
      } else {
        newID, separator := INVALID_BLOCK_ID, [];
      }
      DoneIsDone(t, root, key, value, next, newID, separator, cache.View(), cache.NextID());
    }

    /** Inserts into the node and writes it back, cut to a block if it is overfull. */
    method InsertLeaf(node: LeafNode, key: Bytes, value: Bytes)
      requires cache.Valid() && node.Valid() && node.blockID in cache.View() && |node.keys| < MAX_LEAF_KEYS
      modifies node, cache, cache.serializer`file, cache.serializer`nextID
      ensures cache.Valid() && cache.NextID() == old(cache.NextID())
      ensures node.Value() == LeafInsert(old(node.Value()), key, value)
      ensures node.numKeys == |node.keys| == |node.values|
      ensures cache.View() == old(cache.View())[node.blockID := NewBlockFromData(EncodeLeaf(node.Value()))]
    {
      hide Overlay, Consistent, Perform, BlocksOf, UsedNow, GainsPair, LosesKey, LeafCut, GainsChild, InternalCut;
      var ok := node.Insert(key, value);
      assert ok;
      var data := node.Serialize();
      cache.Put(node.blockID, NewBlockFromData(data));
    }

    /** Splits a full leaf, and makes a new root if it was the root. */
    method SplitLeafUp(node: LeafNode, ghost u: Tree, ghost root: bool) returns (newID: BlockID, separator: Bytes)
      requires cache.Valid() && u.Leaf? && u.id in cache.View() && u.id < cache.NextID() <= MAX_BLOCK_ID - 2
      requires node.blockID == u.id && node.Value() == u.node && (root <==> u.id == rootID)
      requires node.numKeys == |node.keys| == |node.values| >= 2
      modifies node, cache, cache.serializer`file, cache.serializer`nextID
      ensures cache.Valid() && ChangedOnly(old(cache.View()), cache.View(), {u.id})
      ensures DoneBy((SplitLeafTree(u, old(cache.NextID())), old(cache.NextID()) + 1), root,
                     newID, separator, cache.View(), cache.NextID())
    {
      hide Overlay, Consistent, Perform, BlocksOf, UsedNow, GainsPair, LosesKey, LeafCut, GainsChild, InternalCut;
      ghost var next := cache.NextID();
      newID, separator := SplitLeaf(node, u);
      if node.blockID == rootID {
        newID := CreateRoot(node.blockID, newID, separator, SplitLeafTree(u, next));
        separator := [];
      }
    }

    method SplitLeaf(node: LeafNode, ghost u: Tree) returns (rightID: BlockID, separator: Bytes)
      requires cache.Valid() && u.Leaf? && u.id in cache.View() && cache.NextID() < MAX_BLOCK_ID
      requires node.blockID == u.id && node.Value() == u.node
      requires node.numKeys == |node.keys| == |node.values| >= 2
      modifies node, cache, cache.serializer`file, cache.serializer`nextID
      ensures cache.Valid() && ChangedOnly(old(cache.View()), cache.View(), {u.id})
      ensures Delivers((SplitLeafTree(u, old(cache.NextID())), old(cache.NextID()) + 1), rightID, separator,
                       cache.View(), cache.NextID())
    {
      hide Overlay, Consistent, Perform, BlocksOf, UsedNow, GainsPair, LosesKey, LeafCut, GainsChild, InternalCut;
      ghost var view := cache.View();
      rightID := cache.Allocate(Zeros(BLOCK_SIZE));
      var right := node.Split(rightID);
      separator := right.keys[0];
      var leftData := node.Serialize();
      cache.Put(node.blockID, NewBlockFromData(leftData));
      var rightData := right.Serialize();
      cache.Put(rightID, NewBlockFromData(rightData));
      LeafHalvesStored(view[rightID := Zeros(BLOCK_SIZE)], u, rightID);
    }

    /** After the child is done: take a new child in, write back, split if full. */
    method TakeUp(node: InternalNode, newChild: BlockID, childSeparator: Bytes, ghost t: Tree, ghost c: nat,
                  ghost child: (Outcome, BlockID), ghost root: bool, ghost lo: Option<Bytes>, ghost hi: Option<Bytes>)
      returns (newID: BlockID, separator: Bytes)
      requires cache.Valid() && BranchReady(t, c, child, cache.View(), cache.NextID(), lo, hi)
      requires node.Valid() && node.Value() == Internal(t) && node.blockID == t.id
      requires Delivers(child, newChild, childSeparator, cache.View(), cache.NextID())
      requires (root <==> t.id == rootID) && cache.NextID() + 2 <= MAX_BLOCK_ID
      modifies node, cache, cache.serializer`file, cache.serializer`nextID
      ensures cache.Valid() && ChangedOnly(old(cache.View()), cache.View(), {t.id})
      ensures DoneBy(Grown(t, c, child), root, newID, separator, cache.View(), cache.NextID())
    {
      hide Overlay, Consistent, Perform, BlocksOf, UsedNow, GainsPair, LosesKey, LeafCut, GainsChild, InternalCut;
      hide Stored, AllStored, DoneBy, Replaced, Below, Grown, TakeIn, Delivers, SplitReady;
      ghost var view, next := cache.View(), cache.NextID();
      WholeTaken(view, t, c, child, next, lo, hi, newChild, childSeparator, root);
      if newChild == INVALID_BLOCK_ID {
        return INVALID_BLOCK_ID, [];
      }
      HalvesTaken(view, t, c, child, next, lo, hi, root);
      newID, separator := InsertUp(node, newChild, childSeparator, TakeIn(t, c, child.0), Grown(t, c, child), root);
    }

    /** A node that takes a new child in and becomes `u`. */
    method InsertUp(node: InternalNode, newChild: BlockID, childSeparator: Bytes, ghost u: Tree,
                    ghost result: (Outcome, BlockID), ghost root: bool)
      returns (newID: BlockID, separator: Bytes)
      requires cache.Valid() && node.Valid() && node.blockID in cache.View() && |node.children| <= MAX_INTERNAL_KEYS
      requires u.Branch? && u.id == node.blockID
      requires InternalInsert(node.Value(), childSeparator, newChild) == Internal(u)
      requires TakenIn(u, result, root, cache.View()[u.id := NewBlockFromData(EncodeInternal(Internal(u)))],
               cache.NextID())
      requires (root <==> node.blockID == rootID) && cache.NextID() + 2 <= MAX_BLOCK_ID
      modifies node, cache, cache.serializer`file, cache.serializer`nextID
      ensures cache.Valid() && ChangedOnly(old(cache.View()), cache.View(), {u.id})
      ensures DoneBy(result, root, newID, separator, cache.View(), cache.NextID())
    {
      hide Overlay, Consistent, Perform, BlocksOf, UsedNow, GainsPair, LosesKey, LeafCut, GainsChild, InternalCut;
      hide DoneBy, SplitReady, SplitBranchTree, InternalInsert, EncodeInternal, NewBlockFromData;
      var ok := node.Insert(childSeparator, newChild);
      assert ok;
      var data := node.Serialize();
      cache.Put(node.blockID, NewBlockFromData(data));
      var full := node.IsFull();
      if full {
        newID, separator := SplitInternalUp(node, u, root);
      } else {
        newID, separator := INVALID_BLOCK_ID, [];
      }
    }

    /** Splits a full internal node, and makes a new root if it was the root. */
    method SplitInternalUp(node: InternalNode, ghost u: Tree, ghost root: bool)
      returns (newID: BlockID, separator: Bytes)
      requires cache.Valid() && SplitReady(u, cache.View(), cache.NextID()) && cache.NextID() + 2 <= MAX_BLOCK_ID
      requires node.blockID == u.id && node.Value() == Internal(u) && (root <==> u.id == rootID)
      modifies node, cache, cache.serializer`file, cache.serializer`nextID
      ensures cache.Valid() && ChangedOnly(old(cache.View()), cache.View(), {u.id})
      ensures DoneBy((SplitBranchTree(u, old(cache.NextID())), old(cache.NextID()) + 1), root,
                     newID, separator, cache.View(), cache.NextID())
    {
      hide Overlay, Consistent, Perform, BlocksOf, UsedNow, GainsPair, LosesKey, LeafCut, GainsChild, InternalCut;
      hide Stored, AllStored, SplitBranchTree, Below;
      ghost var next := cache.NextID();
      newID, separator := SplitInternal(node, u);
      if node.blockID == rootID {
        FreshRoot(u, next);
        newID := CreateRoot(node.blockID, newID, separator, SplitBranchTree(u, next));
        separator := [];
      }
    }

    method SplitInternal(node: InternalNode, ghost u: Tree) returns (rightID: BlockID, separator: Bytes)
      requires cache.Valid() && SplitReady(u, cache.View(), cache.NextID()) && cache.NextID() < MAX_BLOCK_ID
      requires node.blockID == u.id && node.Value() == Internal(u)
      modifies node, cache, cache.serializer`file, cache.serializer`nextID
      ensures cache.Valid() && ChangedOnly(old(cache.View()), cache.View(), {u.id})
      ensures Delivers((SplitBranchTree(u, old(cache.NextID())), old(cache.NextID()) + 1), rightID, separator,
                       cache.View(), cache.NextID())
    {
      hide Overlay, Consistent, Perform, BlocksOf, UsedNow, GainsPair, LosesKey, LeafCut, GainsChild, InternalCut;
      hide Stored, AllStored, EncodeInternal, NewBlockFromData, Below;
      ghost var view := cache.View();
      rightID := cache.Allocate(Zeros(BLOCK_SIZE));
      var right, promoted := node.Split(rightID);
      separator := promoted;
      var leftData := node.Serialize();
      cache.Put(node.blockID, NewBlockFromData(leftData));
      var rightData := right.Serialize();
      cache.Put(rightID, NewBlockFromData(rightData));
      SplitStored(view, u, rightID);
    }

    /** A new root over the two halves `o` of the old one. */
    method CreateRoot(leftID: BlockID, rightID: BlockID, separator: Bytes, ghost o: Outcome)
      returns (newRootID: BlockID)
      requires cache.Valid() && cache.NextID() < MAX_BLOCK_ID
      requires o.Halves? && leftID == o.left.id && rightID == o.right.id && separator == o.separator
      requires AllWf(Parts(o)) && AllStored(cache.View(), Parts(o))
      requires cache.NextID() !in Ids(o.left) && cache.NextID() !in Ids(o.right)
      modifies cache, cache.serializer`file, cache.serializer`nextID
      ensures cache.Valid() && ChangedOnly(old(cache.View()), cache.View(), {})
      ensures DeliversGrown((o, old(cache.NextID())), newRootID, cache.View(), cache.NextID())
    {
      hide Overlay, Consistent, Perform, BlocksOf, UsedNow, GainsPair, LosesKey, LeafCut, GainsChild, InternalCut;
      NewRootStored(cache.View(), o, cache.NextID());
      var block := RootNodeBlock(leftID, rightID, separator);
      newRootID := cache.Allocate(block);
    }

    // ----- Delete ---------------------------------------------------------------------------

    /** Removes the key; a key that is not there leaves every block as it is. */
    method Delete(key: Bytes)
      requires Valid()
      modifies this, cache, cache.serializer`file, cache.serializer`nextID
      ensures Valid() && Model() == old(Model()) - {key}
      ensures rootID == old(rootID) && tree == DeleteTree(old(tree), key) && cache.NextID() == old(cache.NextID())
      ensures key !in old(Model()) ==> cache.View() == old(cache.View())
    {
      hide Overlay, Consistent, Perform, BlocksOf, UsedNow, GainsPair, LosesKey, LeafCut, GainsChild, InternalCut;
      hide Within, Filled, Small, RightsBelow, Chained, Stored, DeleteTree, Lookup, Dict, Items, Readable, Ids;
      ghost var t, next := tree, cache.NextID();
      GoodIsReadable(t, height, true, None, None, next);
      LookupIsFind(t, None, None, key);
      DeleteGood(t, height, key, next);
      DeleteChained(t, key, INVALID_BLOCK_ID);
      DeleteKeepsId(t, key);
      DeleteAt(rootID, key, t);
      tree := DeleteTree(t, key);
    }

    method DeleteAt(nodeID: BlockID, key: Bytes, ghost t: Tree)
      requires cache.Valid() && Readable(t) && Distinct(t) && Stored(cache.View(), t) && nodeID == t.id
      modifies cache, cache.serializer`file, cache.serializer`nextID
      ensures cache.Valid() && cache.NextID() == old(cache.NextID())
      ensures ChangedOnly(old(cache.View()), cache.View(), Ids(t))
      ensures Wf(DeleteTree(t, key)) && Stored(cache.View(), DeleteTree(t, key))
      ensures Lookup(t, key) == None ==> cache.View() == old(cache.View())
      decreases t
    {
      hide Overlay, Consistent, Perform, BlocksOf, UsedNow, GainsPair, LosesKey, LeafCut, GainsChild, InternalCut;
      hide DecodeLeaf, DecodeInternal, BlockOf, NodeFits, Lookup;
      ghost var view := cache.View();
      DeleteDescends(view, t, key);
      ReadableReads(view, t);
      var block := cache.Get(nodeID);
      if block.value[0] == LEAF_TAG {
        var node := DeserializeLeaf(nodeID, block.value);
        DeleteInLeaf(node, key, t);
        return;
      }
      var node := DeserializeInternal(nodeID, block.value);
      var childIdx := node.FindChild(key);
      DeleteAt(node.children[childIdx], key, t.children[childIdx]);
      DeleteReturns(view, cache.View(), t, key);
    }

    method DeleteInLeaf(node: LeafNode, key: Bytes, ghost t: Tree)
      requires cache.Valid() && t.Leaf? && Wf(t) && Stored(cache.View(), t)
      requires node.Valid() && node.Value() == t.node && node.blockID == t.id
      modifies node, cache, cache.serializer`file, cache.serializer`nextID
      ensures cache.Valid() && cache.NextID() == old(cache.NextID())
      ensures ChangedOnly(old(cache.View()), cache.View(), Ids(t))
      ensures Wf(DeleteTree(t, key)) && Stored(cache.View(), DeleteTree(t, key))
      ensures Lookup(t, key) == None ==> cache.View() == old(cache.View())
    {
      hide Overlay, Consistent, Perform, BlocksOf, UsedNow, GainsPair, LosesKey, LeafCut, GainsChild, InternalCut;
      LeafDeleteStored(cache.View(), t, key);
      var found := node.Delete(key);
      if !found {
        return;
      }
      var data := node.Serialize();
      cache.Put(node.blockID, NewBlockFromData(data));
    }

    // ----- Scan -----------------------------------------------------------------------------

    /** The pairs of the map from `startKey` to `endKey`, both inclusive, in ascending order. */
    method Scan(startKey: Bytes, endKey: Option<Bytes>) returns (results: KeyValues)
      requires Valid()
      modifies cache, cache.serializer`file, cache.serializer`nextID
      ensures Valid() && tree == old(tree) && cache.NextID() == old(cache.NextID())
      ensures fresh(results) && SortedItems(results.items)
      ensures forall x: Item :: x in results.items <==>
                && x.0 in Model() && Model()[x.0] == x.1
                && LessEq(startKey, x.0) && (endKey.Some? ==> LessEq(x.0, endKey.value))
    {
      hide Overlay, Consistent, Perform, BlocksOf, UsedNow, GainsPair, LosesKey, LeafCut, GainsChild, InternalCut;
      hide Filled, Small, RightsBelow, Chained, Select;
      GoodIsReadable(tree, height, true, None, None, cache.NextID());
      results := new KeyValues();
      ScanAt(rootID, startKey, endKey, results, tree, None, None);
      ItemsSorted(tree, None, None);
      SelectIsExact(Items(tree), startKey, endKey);
      forall x: Item
        ensures x in Items(tree) <==> x.0 in Model() && Model()[x.0] == x.1
        ensures Wanted(x.0, startKey, endKey) <==>
                  LessEq(startKey, x.0) && (endKey.Some? ==> LessEq(x.0, endKey.value))
      {
        SortedDict(Items(tree), x);
        LessIsStrictOrder(startKey, x.0, x.0);
        if endKey.Some? {
          LessIsStrictOrder(x.0, endKey.value, x.0);
        }
      }
    }

    method ScanAt(nodeID: BlockID, startKey: Bytes, endKey: Option<Bytes>, results: KeyValues,
                  ghost t: Tree, ghost low: Option<Bytes>, ghost high: Option<Bytes>)
      requires cache.Valid() && ScanReady(t, low, high, cache.View()) && nodeID == t.id
      modifies results, cache, cache.serializer`file, cache.serializer`nextID
      ensures cache.Valid() && cache.View() == old(cache.View()) && cache.NextID() == old(cache.NextID())
      ensures results.items == old(results.items) + Select(Items(t), startKey, endKey)
      decreases t
    {
      hide Overlay, Consistent, Perform, BlocksOf, UsedNow, GainsPair, LosesKey, LeafCut, GainsChild, InternalCut;
      hide DecodeLeaf, DecodeInternal, BlockOf, NodeFits;
      ReadableReads(cache.View(), t);
      var block := cache.Get(nodeID);
      if block.value[0] == LEAF_TAG {
        var node := DeserializeLeaf(nodeID, block.value);
        ScanLeaf(node, startKey, endKey, results, t);
        return;
      }
      var node := DeserializeInternal(nodeID, block.value);
      ScanChildren(node, startKey, endKey, results, t, low, high);
    }

    method ScanLeaf(node: LeafNode, startKey: Bytes, endKey: Option<Bytes>, results: KeyValues, ghost t: Tree)
      requires t.Leaf? && Wf(t) && node.Valid() && node.Value() == t.node
      modifies results
      ensures results.items == old(results.items) + Select(Items(t), startKey, endKey)
    {
      hide Select;
      var startPos := node.FindKey(startKey);
      var i := startPos;
      while i < |node.keys|
        invariant startPos <= i <= |node.keys|
        invariant endKey.Some? ==> forall k :: startPos <= k < i ==> !Less(endKey.value, node.keys[k])
        invariant results.items == old(results.items) + Zip(node.keys[startPos..i], node.values[startPos..i])
      {
        if endKey.Some? && Less(endKey.value, node.keys[i]) {
          break;
        }
        results.Append(node.keys[i], node.values[i]);
        ZipNext(node.keys, node.values, startPos, i);
        i := i + 1;
      }
      LeafScan(t.node, startKey, endKey, i);
    }

    method ScanChildren(node: InternalNode, startKey: Bytes, endKey: Option<Bytes>, results: KeyValues,
                        ghost t: Tree, ghost low: Option<Bytes>, ghost high: Option<Bytes>)
      requires cache.Valid() && t.Branch? && ScanReady(t, low, high, cache.View())
      requires node.Valid() && node.keys == t.keys && node.children == ChildIds(t.children)
      modifies results, cache, cache.serializer`file, cache.serializer`nextID
      ensures cache.Valid() && cache.View() == old(cache.View()) && cache.NextID() == old(cache.NextID())
      ensures results.items == old(results.items) + Select(Items(t), startKey, endKey)
      decreases t, 0
    {
      hide *;
      assert Wf(t) && Within(t, low, high) by { ReadableBetween(t, low, high, cache.View()); }
      ScanDescends(t, low, high, cache.View());
      var startIdx := node.FindChild(startKey);
      EarlierChildren(t, low, high, startKey, endKey);
      var i := startIdx;
      NoChildYet(t.children, startIdx, startKey, endKey);
      while i < |node.children|
        invariant startIdx <= i <= |node.children| && AllWf(t.children[startIdx..i])
        invariant cache.Valid() && cache.View() == old(cache.View()) && cache.NextID() == old(cache.NextID())
        invariant results.items == old(results.items) + Select(AllItems(t.children[startIdx..i]), startKey, endKey)
      {
        ScanAt(node.children[i], startKey, endKey, results, t.children[i], Low(t.keys, i, low), High(t.keys, i, high));
        NextChild(t.children, startIdx, i, startKey, endKey);
        i := i + 1;
      }
      assert i == |t.children| && t.children[startIdx..i] == t.children[startIdx..];
    }
  }

  /** The slice that a scan appends to. */
  class KeyValues {
    var items: seq<Item>

    constructor ()
      ensures items == []
    {
      items := [];
    }

    method Append(key: Bytes, value: Bytes)
      modifies this
      ensures items == old(items) + [(key, value)]
    {
      items := items + [(key, value)];
    }
  }

  lemma ZipNext(keys: seq<Bytes>, values: seq<Bytes>, from: nat, i: nat)
    requires |keys| == |values| && from <= i < |keys|
    ensures Zip(keys[from..i + 1], values[from..i + 1]) == Zip(keys[from..i], values[from..i]) + [(keys[i], values[i])]
  {
  }

  method RootNodeBlock(leftID: BlockID, rightID: BlockID, separator: Bytes) returns (block: Block)
    ensures block == RootBlock(leftID, rightID, separator)
  {
    var newRoot := new InternalNode(INVALID_BLOCK_ID);
    newRoot.children := newRoot.children + [leftID, rightID];
    newRoot.keys := newRoot.keys + [separator];
    newRoot.numKeys := 1;
    assert newRoot.Value() == InternalValue([separator], [leftID, rightID]);
    var data := newRoot.Serialize();
    block := NewBlockFromData(data);
  }
}
