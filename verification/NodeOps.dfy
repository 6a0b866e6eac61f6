/**
 * What a node operation does to the sequences of a node, and the two node classes whose
 * methods do it by searching, shifting and cutting.
 */
module NodeOps {
  import opened Bytes
  import opened FileSerializer
  import opened NodeCodec

  const MAX_LEAF_KEYS: nat := 50
  const MAX_INTERNAL_KEYS: nat := 250

  // ----- Searching ------------------------------------------------------------------------

  /** How many keys, from the left, are below `key`. */
  function LowerBound(keys: seq<Bytes>, key: Bytes): (pos: nat)
    ensures pos <= |keys|
  {
    if |keys| == 0 || !Less(keys[0], key) then 0 else 1 + LowerBound(keys[1..], key)
  }

  /** How many keys, from the left, are not above `key`. */
  function UpperBound(keys: seq<Bytes>, key: Bytes): (pos: nat)
    ensures pos <= |keys|
  {
    if |keys| == 0 || !LessEq(keys[0], key) then 0 else 1 + UpperBound(keys[1..], key)
  }

  ghost predicate SplitsBelow(keys: seq<Bytes>, key: Bytes, pos: int) {
    && 0 <= pos <= |keys|
    && (forall i :: 0 <= i < pos ==> Less(keys[i], key))
    && (forall i :: pos <= i < |keys| ==> !Less(keys[i], key))
  }

  ghost predicate SplitsAbove(keys: seq<Bytes>, key: Bytes, pos: int) {
    && 0 <= pos <= |keys|
    && (forall i :: 0 <= i < pos ==> !Less(key, keys[i]))
    && (forall i :: pos <= i < |keys| ==> Less(key, keys[i]))
  }

  lemma {:induction false} LowerBoundSplits(keys: seq<Bytes>, key: Bytes)
    requires Ascending(keys)
    ensures SplitsBelow(keys, key, LowerBound(keys, key))
  {
    if |keys| > 0 {
      if Less(keys[0], key) {
        LowerBoundSplits(keys[1..], key);
        assert forall i :: 1 <= i < |keys| ==> keys[i] == keys[1..][i - 1];
      } else {
        forall i | 0 < i < |keys|
          ensures !Less(keys[i], key)
        {
          LessIsStrictOrder(keys[0], keys[i], key);
        }
      }
    }
  }

  lemma {:induction false} UpperBoundSplits(keys: seq<Bytes>, key: Bytes)
    requires Ascending(keys)
    ensures SplitsAbove(keys, key, UpperBound(keys, key))
  {
    if |keys| > 0 {
      LessIsStrictOrder(keys[0], key, key);
      if LessEq(keys[0], key) {
        UpperBoundSplits(keys[1..], key);
        assert forall i :: 1 <= i < |keys| ==> keys[i] == keys[1..][i - 1];
      } else {
        LessIsStrictOrder(key, keys[0], key);
        LessTotal(keys[0], key);
        forall i | 0 < i < |keys|
          ensures Less(key, keys[i])
        {
          LessIsStrictOrder(key, keys[0], keys[i]);
        }
      }
    }
  }

  /** A split point is unique. */
  lemma BelowIsUnique(keys: seq<Bytes>, key: Bytes, p: nat, q: nat)
    requires SplitsBelow(keys, key, p) && SplitsBelow(keys, key, q)
    ensures p == q
  {
    assert p < |keys| ==> !Less(keys[p], key);
    assert q < |keys| ==> !Less(keys[q], key);
  }

  lemma AboveIsUnique(keys: seq<Bytes>, key: Bytes, p: nat, q: nat)
    requires SplitsAbove(keys, key, p) && SplitsAbove(keys, key, q)
    ensures p == q
  {
    assert p < |keys| ==> Less(key, keys[p]);
    assert q < |keys| ==> Less(key, keys[q]);
  }

  // ----- Leaves -----------------------------------------------------------------------------

  function Inserted<T>(s: seq<T>, pos: nat, x: T): seq<T>
    requires pos <= |s|
  {
    s[..pos] + [x] + s[pos..]
  }

  function Removed<T>(s: seq<T>, pos: nat): seq<T>
    requires pos < |s|
  {
    s[..pos] + s[pos + 1..]
  }

  predicate FoundAt(keys: seq<Bytes>, key: Bytes, pos: nat) {
    pos < |keys| && keys[pos] == key
  }

  function LeafInsert(n: LeafValue, key: Bytes, value: Bytes): LeafValue
    requires |n.keys| == |n.values|
  {
    var pos := LowerBound(n.keys, key);
    if FoundAt(n.keys, key, pos) then n.(values := n.values[pos := value])
    else n.(keys := Inserted(n.keys, pos, key), values := Inserted(n.values, pos, value))
  }

  function LeafDelete(n: LeafValue, key: Bytes): LeafValue
    requires |n.keys| == |n.values|
  {
    var pos := LowerBound(n.keys, key);
    if FoundAt(n.keys, key, pos) then n.(keys := Removed(n.keys, pos), values := Removed(n.values, pos)) else n
  }

  function LeafSplit(n: LeafValue, rightID: BlockID): (LeafValue, LeafValue)
    requires |n.keys| == |n.values|
  {
    var mid := |n.keys| / 2;
    (LeafValue(n.keys[..mid], n.values[..mid], rightID), LeafValue(n.keys[mid..], n.values[mid..], n.right))
  }

  // ----- Internal nodes -----------------------------------------------------------------------

  function InternalInsert(n: InternalValue, key: Bytes, rightChild: BlockID): InternalValue
    requires |n.children| == |n.keys| + 1
  {
    var pos := UpperBound(n.keys, key);
    InternalValue(Inserted(n.keys, pos, key), Inserted(n.children, pos + 1, rightChild))
  }

  function InternalSplit(n: InternalValue): (InternalValue, Bytes, InternalValue)
    requires |n.children| == |n.keys| + 1 >= 2
  {
    var mid := |n.children| / 2;
    (InternalValue(n.keys[..mid - 1], n.children[..mid]), n.keys[mid - 1],
     InternalValue(n.keys[mid..], n.children[mid..]))
  }

  // ----- What the operations do, on keys and values ---------------------------------------------------

  /** The value stands beside the key. */
  ghost predicate Holds(n: LeafValue, key: Bytes, value: Bytes) {
    exists i :: 0 <= i < |n.keys| && i < |n.values| && n.keys[i] == key && n.values[i] == value
  }

  /** The key has the value, and every other key what it had. */
  ghost predicate GainsPair(before: LeafValue, after: LeafValue, key: Bytes, value: Bytes) {
    && after.right == before.right
    && forall k, v :: Holds(after, k, v) <==> if k == key then v == value else Holds(before, k, v)
  }

  /** The key has no value, and every other key what it had. */
  ghost predicate LosesKey(before: LeafValue, after: LeafValue, key: Bytes) {
    && after.right == before.right
    && forall k, v :: Holds(after, k, v) <==> k != key && Holds(before, k, v)
  }

  /** The halves of a leaf, the left one linked to the right one. */
  ghost predicate LeafCut(whole: LeafValue, left: LeafValue, right: LeafValue, rightID: BlockID)
    requires |whole.keys| == |whole.values|
  {
    var mid := |whole.keys| / 2;
    && left.keys == whole.keys[..mid] && left.values == whole.values[..mid] && left.right == rightID
    && right.keys == whole.keys[mid..] && right.values == whole.values[mid..] && right.right == whole.right
  }

  /** The separator comes before the first greater key, and the new child right behind it. */
  ghost predicate GainsChild(before: InternalValue, after: InternalValue, key: Bytes, child: BlockID)
    requires |before.children| == |before.keys| + 1
  {
    exists pos :: SplitsAbove(before.keys, key, pos)
                  && after.keys == before.keys[..pos] + [key] + before.keys[pos..]
                  && after.children == before.children[..pos + 1] + [child] + before.children[pos + 1..]
  }

  /** The halves of an internal node, and the key that stood between them. */
  ghost predicate InternalCut(whole: InternalValue, left: InternalValue, key: Bytes, right: InternalValue)
    requires |whole.children| == |whole.keys| + 1 >= 2
  {
    var mid := |whole.children| / 2;
    && left.children == whole.children[..mid] && left.keys == whole.keys[..mid - 1] && key == whole.keys[mid - 1]
    && right.children == whole.children[mid..] && right.keys == whole.keys[mid..]
  }

  lemma InsertedAt<T>(s: seq<T>, pos: nat, x: T)
    requires pos <= |s|
    ensures var t := Inserted(s, pos, x);
            && |t| == |s| + 1 && t[pos] == x && (forall i :: 0 <= i < pos ==> t[i] == s[i])
            && (forall i :: pos < i < |t| ==> t[i] == s[i - 1]) && (forall i :: pos <= i < |s| ==> t[i + 1] == s[i])
  {
  }

  lemma RemovedAt<T>(s: seq<T>, pos: nat)
    requires pos < |s|
    ensures var t := Removed(s, pos);
            && |t| == |s| - 1 && (forall i :: 0 <= i < pos ==> t[i] == s[i])
            && (forall i :: pos <= i < |t| ==> t[i] == s[i + 1]) && (forall i :: pos < i < |s| ==> t[i - 1] == s[i])
  {
  }

  lemma KeyIsAtBound(keys: seq<Bytes>, key: Bytes)
    requires Ascending(keys)
    ensures var pos := LowerBound(keys, key);
            && (FoundAt(keys, key, pos) <==> key in keys)
            && (forall i :: 0 <= i < pos ==> Less(keys[i], key))
            && (forall i :: 0 <= i < |keys| && keys[i] == key ==> i == pos)
            && (key !in keys ==> forall i :: pos <= i < |keys| ==> Less(key, keys[i]))
  {
    var pos := LowerBound(keys, key);
    LowerBoundSplits(keys, key);
    LessIrreflexive(key);
    if pos < |keys| {
      LessTotal(keys[pos], key);
    }
    forall i | pos < i < |keys|
      ensures Less(key, keys[i])
    {
      if keys[pos] != key {
        LessTransitive(key, keys[pos], keys[i]);
      }
    }
  }

  lemma PresentHolds(n: LeafValue, key: Bytes, value: Bytes, k: Bytes, v: Bytes)
    requires |n.keys| == |n.values| && Ascending(n.keys) && key in n.keys
    ensures Holds(LeafInsert(n, key, value), k, v) <==> if k == key then v == value else Holds(n, k, v)
  {
    var m, pos := LeafInsert(n, key, value), LowerBound(n.keys, key);
    KeyIsAtBound(n.keys, key);
    assert m.keys[pos] == key && m.values[pos] == value;
    if i: nat :| i < |n.keys| && n.keys[i] == k && n.values[i] == v && k != key {
      assert m.keys[i] == k && m.values[i] == v;
    }
  }

  lemma AbsentHolds(n: LeafValue, key: Bytes, value: Bytes, k: Bytes, v: Bytes)
    requires |n.keys| == |n.values| && Ascending(n.keys) && key !in n.keys
    ensures Holds(LeafInsert(n, key, value), k, v) <==> if k == key then v == value else Holds(n, k, v)
  {
    var m, pos := LeafInsert(n, key, value), LowerBound(n.keys, key);
    KeyIsAtBound(n.keys, key);
    InsertedAt(n.keys, pos, key);
    InsertedAt(n.values, pos, value);
    hide Inserted, Less, LowerBound;
    assert m.keys[pos] == key && m.values[pos] == value;
    if i: nat :| i < |n.keys| && n.keys[i] == k && n.values[i] == v {
      var j := if i < pos then i else i + 1;
      assert m.keys[j] == k && m.values[j] == v;
    }
    if j: nat :| j < |m.keys| && m.keys[j] == k && m.values[j] == v && j != pos {
      var i := if j < pos then j else j - 1;
      assert n.keys[i] == k && n.values[i] == v;
    }
  }

  /** After an insertion the key has the value, and every other key what it had. */
  lemma InsertHolds(n: LeafValue, key: Bytes, value: Bytes, k: Bytes, v: Bytes)
    requires |n.keys| == |n.values| && Ascending(n.keys)
    ensures Holds(LeafInsert(n, key, value), k, v) <==> if k == key then v == value else Holds(n, k, v)
  {
    if key in n.keys {
      PresentHolds(n, key, value, k, v);
    } else {
      AbsentHolds(n, key, value, k, v);
    }
  }

  lemma InsertAscends(n: LeafValue, key: Bytes, value: Bytes)
    requires |n.keys| == |n.values| && Ascending(n.keys)
    ensures Ascending(LeafInsert(n, key, value).keys)
  {
    KeyIsAtBound(n.keys, key);
    if key !in n.keys {
      InsertedAt(n.keys, LowerBound(n.keys, key), key);
    }
  }

  /** After a deletion the key has no value, and every other key what it had. */
  lemma DeleteHolds(n: LeafValue, key: Bytes, k: Bytes, v: Bytes)
    requires |n.keys| == |n.values| && Ascending(n.keys)
    ensures Holds(LeafDelete(n, key), k, v) <==> k != key && Holds(n, k, v)
  {
    var m, pos := LeafDelete(n, key), LowerBound(n.keys, key);
    KeyIsAtBound(n.keys, key);
    if key in n.keys {
      RemovedAt(n.keys, pos);
      RemovedAt(n.values, pos);
      if i: nat :| i < |n.keys| && n.keys[i] == k && n.values[i] == v && k != key {
        var j := if i < pos then i else i - 1;
        assert m.keys[j] == k && m.values[j] == v;
      }
    }
  }

  lemma DeleteAscends(n: LeafValue, key: Bytes)
    requires |n.keys| == |n.values| && Ascending(n.keys)
    ensures Ascending(LeafDelete(n, key).keys)
  {
    KeyIsAtBound(n.keys, key);
    if key in n.keys {
      RemovedAt(n.keys, LowerBound(n.keys, key));
    }
  }

  // ----- The classes ------------------------------------------------------------------------------

  /** The in-place shift that append and copy make: a free place at `pos`, then filled. */
  method Shift<T>(s: seq<T>, pos: nat, x: T) returns (r: seq<T>)
    requires pos <= |s|
    ensures r == Inserted(s, pos, x)
  {
    r := s + [x];
    r := r[..pos + 1] + r[pos..|s|];
    r := r[pos := x];
  }

  class LeafNode {
    const blockID: BlockID
    var numKeys: nat
    var keys: seq<Bytes>
    var values: seq<Bytes>
    var right: BlockID

    ghost predicate Valid()
      reads this
    {
      numKeys == |keys| == |values| && Ascending(keys)
    }

    ghost function Value(): LeafValue
      reads this
    {
      LeafValue(keys, values, right)
    }

    constructor (blockID: BlockID)
      ensures Valid() && Value() == LeafValue([], [], INVALID_BLOCK_ID) && this.blockID == blockID
    {
      this.blockID := blockID;
      numKeys, keys, values, right := 0, [], [], INVALID_BLOCK_ID;
    }

    method Serialize() returns (data: Bytes)
      requires numKeys == |keys| == |values|
      ensures data == EncodeLeaf(Value())
    {
      data := SerializeLeaf(numKeys, keys, values, right);
      assert keys[..numKeys] == keys && values[..numKeys] == values;
    }

    method IsFull() returns (full: bool)
      ensures full <==> |keys| >= MAX_LEAF_KEYS
    {
      full := |keys| >= MAX_LEAF_KEYS;
    }

    method FindKey(key: Bytes) returns (low: nat)
      requires Valid()
      ensures low == LowerBound(keys, key) && SplitsBelow(keys, key, low)
    {
      var high := |keys|;
      low := 0;
      while low < high
        invariant 0 <= low <= high <= |keys|
        invariant forall i :: 0 <= i < low ==> Less(keys[i], key)
        invariant forall i :: high <= i < |keys| ==> !Less(keys[i], key)
      {
        var mid := (low + high) / 2;
        if Less(keys[mid], key) {
          forall i | 0 <= i < mid
            ensures Less(keys[i], key)
          {
            LessTransitive(keys[i], keys[mid], key);
          }
          low := mid + 1;
        } else {
          forall i | mid < i < |keys|
            ensures !Less(keys[i], key)
          {
            LessIsStrictOrder(keys[mid], keys[i], key);
          }
          high := mid;
        }
      }
      LowerBoundSplits(keys, key);
      BelowIsUnique(keys, key, low, LowerBound(keys, key));
    }

    /** Fails, changing nothing, on a full node. */
    method Insert(key: Bytes, value: Bytes) returns (ok: bool)
      requires Valid()
      modifies this
      ensures ok == (|old(keys)| < MAX_LEAF_KEYS)
      ensures Value() == if ok then LeafInsert(old(Value()), key, value) else old(Value())
      ensures Valid() && (ok ==> GainsPair(old(Value()), Value(), key, value))
    {
      InsertAscends(Value(), key, value);
      forall k, v
        ensures Holds(LeafInsert(Value(), key, value), k, v) <==> if k == key then v == value else Holds(Value(), k, v)
      {
        InsertHolds(Value(), key, value, k, v);
      }
      hide Holds;
      var full := IsFull();
      if full {
        return false;
      }
      var pos := FindKey(key);
      if pos < |keys| && keys[pos] == key {
        values := values[pos := value];
        return true;
      }
      keys := Shift(keys, pos, key);
      values := Shift(values, pos, value);
      numKeys := numKeys + 1;
      return true;
    }

    method Delete(key: Bytes) returns (found: bool)
      requires Valid()
      modifies this
      ensures found == FoundAt(old(keys), key, LowerBound(old(keys), key))
      ensures Value() == LeafDelete(old(Value()), key)
      ensures Valid() && found == (key in old(keys)) && LosesKey(old(Value()), Value(), key)
    {
      KeyIsAtBound(keys, key);
      DeleteAscends(Value(), key);
      forall k, v
        ensures Holds(LeafDelete(Value(), key), k, v) <==> k != key && Holds(Value(), k, v)
      {
        DeleteHolds(Value(), key, k, v);
      }
      hide Holds;
      var pos := FindKey(key);
      if pos >= |keys| || keys[pos] != key {
        return false;
      }
      keys := keys[..pos] + keys[pos + 1..];
      values := values[..pos] + values[pos + 1..];
      numKeys := numKeys - 1;
      return true;
    }

    method Split(newBlockID: BlockID) returns (rightNode: LeafNode)
      requires numKeys == |keys| == |values|
      modifies this
      ensures fresh(rightNode) && rightNode.blockID == newBlockID
      ensures (Value(), rightNode.Value()) == LeafSplit(old(Value()), newBlockID)
      ensures LeafCut(old(Value()), Value(), rightNode.Value(), newBlockID)
      ensures numKeys == |keys| == |values|
      ensures rightNode.numKeys == |rightNode.keys| == |rightNode.values|
    {
      var mid := |keys| / 2;
      rightNode := new LeafNode(newBlockID);
      rightNode.right := right;
      right := newBlockID;
      assert [] + keys[mid..] == keys[mid..] && [] + values[mid..] == values[mid..];
      rightNode.keys := rightNode.keys + keys[mid..];
      rightNode.values := rightNode.values + values[mid..];
      rightNode.numKeys := |rightNode.keys|;
      keys := keys[..mid];
      values := values[..mid];
      numKeys := |keys|;
    }
  }

  class InternalNode {
    const blockID: BlockID
    var numKeys: nat
    var keys: seq<Bytes>
    var children: seq<BlockID>

    ghost predicate Valid()
      reads this
    {
      numKeys == |keys| && |children| == |keys| + 1 && Ascending(keys)
    }

    ghost function Value(): InternalValue
      reads this
    {
      InternalValue(keys, children)
    }

    constructor (blockID: BlockID)
      ensures Value() == InternalValue([], []) && numKeys == 0 && this.blockID == blockID
    {
      this.blockID := blockID;
      numKeys, keys, children := 0, [], [];
    }

    method Serialize() returns (data: Bytes)
      requires numKeys == |keys|
      ensures data == EncodeInternal(Value())
    {
      data := SerializeInternal(numKeys, keys, children);
    }

    method IsFull() returns (full: bool)
      ensures full <==> |children| >= MAX_INTERNAL_KEYS + 1
    {
      full := |children| >= MAX_INTERNAL_KEYS + 1;
    }

    method FindChild(key: Bytes) returns (low: nat)
      requires Valid()
      ensures low == UpperBound(keys, key) && SplitsAbove(keys, key, low)
    {
      var high := |keys|;
      low := 0;
      while low < high
        invariant 0 <= low <= high <= |keys|
        invariant forall i :: 0 <= i < low ==> !Less(key, keys[i])
        invariant forall i :: high <= i < |keys| ==> Less(key, keys[i])
      {
        var mid := (low + high) / 2;
        LessIsStrictOrder(keys[mid], key, key);
        LessIsStrictOrder(key, keys[mid], key);
        LessTotal(keys[mid], key);
        if LessEq(keys[mid], key) {
          forall i | 0 <= i < mid
            ensures !Less(key, keys[i])
          {
            LessIsStrictOrder(key, keys[i], keys[mid]);
          }
          low := mid + 1;
        } else {
          forall i | mid < i < |keys|
            ensures Less(key, keys[i])
          {
            LessTransitive(key, keys[mid], keys[i]);
          }
          high := mid;
        }
      }
      UpperBoundSplits(keys, key);
      AboveIsUnique(keys, key, low, UpperBound(keys, key));
    }

    method Insert(key: Bytes, rightChild: BlockID) returns (ok: bool)
      requires Valid()
      modifies this
      ensures ok == (|old(children)| < MAX_INTERNAL_KEYS + 1)
      ensures Value() == if ok then InternalInsert(old(Value()), key, rightChild) else old(Value())
      ensures numKeys == |keys| && |children| == |keys| + 1
      ensures ok ==> GainsChild(old(Value()), Value(), key, rightChild)
    {
      var full := IsFull();
      if full {
        return false;
      }
      var pos := FindChild(key);
      keys := Shift(keys, pos, key);
      children := Shift(children, pos + 1, rightChild);
      numKeys := numKeys + 1;
      return true;
    }

    method Split(newBlockID: BlockID) returns (rightNode: InternalNode, promotedKey: Bytes)
      requires |children| == |keys| + 1 >= 2
      modifies this
      ensures fresh(rightNode) && rightNode.blockID == newBlockID
      ensures (Value(), promotedKey, rightNode.Value()) == InternalSplit(old(Value()))
      ensures InternalCut(old(Value()), Value(), promotedKey, rightNode.Value())
      ensures numKeys == |keys| && rightNode.numKeys == |rightNode.keys|
    {
      var mid := |children| / 2;
      rightNode := new InternalNode(newBlockID);
      assert [] + keys[mid..] == keys[mid..] && [] + children[mid..] == children[mid..];
      rightNode.children := rightNode.children + children[mid..];
      promotedKey := keys[mid - 1];
      rightNode.keys := rightNode.keys + keys[mid..];
      rightNode.numKeys := |rightNode.keys|;
      keys := keys[..mid - 1];
      children := children[..mid];
      numKeys := |keys|;
    }
  }

  // ----- Reading a node back ------------------------------------------------------------------------

  /** Null stands for the source's error returns: too short, or not a leaf. */
  method DeserializeLeaf(blockID: BlockID, data: Bytes) returns (node: LeafNode?)
    ensures node == null <==> DecodeLeaf(data).Malformed?
    ensures node == null <==> |data| < 7 || data[0] != 1
    ensures node != null ==> fresh(node) && node.blockID == blockID && Node(node.Value()) == DecodeLeaf(data)
    ensures node != null ==> node.numKeys == |node.keys| == |node.values|
  {
    if |data| < 7 || data[0] != LEAF_TAG {
      return null;
    }
    node := new LeafNode(blockID);
    node.numKeys := FromU16(data[1..3]);
    node.right := FromU32(data[3..7]);
    node.keys, node.values := DeserializePairs(data, 7, node.numKeys);
    PairsReadAsFields(data, 7, node.numKeys);
  }

  method DeserializeInternal(blockID: BlockID, data: Bytes) returns (node: InternalNode?)
    ensures node == null <==> DecodeInternal(data).Malformed?
    ensures node == null <==> |data| < 7 || data[0] != 2
    ensures node != null ==> fresh(node) && node.blockID == blockID && Node(node.Value()) == DecodeInternal(data)
    ensures node != null ==> node.numKeys == |node.keys|
  {
    if |data| < 7 || data[0] != INTERNAL_TAG {
      return null;
    }
    node := new InternalNode(blockID);
    node.numKeys := FromU16(data[1..3]);
    var children, pos := DeserializeChildren(data, 5, FromU16(data[3..5]));
    node.children := children;
    node.keys := DeserializeFields(data, pos, node.numKeys);
    FieldsReadShort(data, pos, node.numKeys);
  }
}
