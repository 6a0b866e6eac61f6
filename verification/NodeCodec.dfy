/**
 * How a node becomes the bytes of a block and back. The encoders and decoders are
 * functions here; the loops that run them are the methods at the end.
 */
module NodeCodec {
  import opened Bytes
  import opened FileSerializer

  const LEAF_TAG: byte := 1
  const INTERNAL_TAG: byte := 2

  datatype LeafValue = LeafValue(keys: seq<Bytes>, values: seq<Bytes>, right: BlockID)
  datatype InternalValue = InternalValue(keys: seq<Bytes>, children: seq<BlockID>)

  datatype Decoded<T> = Node(node: T) | Malformed

  // ----- Little-endian integers, cut to their width as Go's conversions cut them ------

  function LowByte(n: nat): byte {
    n % 0x100
  }

  function U16(n: nat): (b: Bytes)
    ensures |b| == 2
  {
    [LowByte(n), LowByte(n / 0x100)]
  }

  function U32(n: nat): (b: Bytes)
    ensures |b| == 4
  {
    [LowByte(n), LowByte(n / 0x100), LowByte(n / 0x1_0000), LowByte(n / 0x100_0000)]
  }

  function FromU16(b: Bytes): nat
    requires |b| == 2
  {
    (b[0] as int) + 0x100 * (b[1] as int)
  }

  function FromU32(b: Bytes): nat
    requires |b| == 4
  {
    (b[0] as int) + 0x100 * (b[1] as int) + 0x1_0000 * (b[2] as int) + 0x100_0000 * (b[3] as int)
  }

  lemma U16RoundTrip(n: nat)
    requires n < 0x1_0000
    ensures FromU16(U16(n)) == n
  {
  }

  lemma U32RoundTrip(n: nat)
    requires n <= MAX_BLOCK_ID
    ensures FromU32(U32(n)) == n
  {
    var a, b, c := n / 0x100, n / 0x1_0000, n / 0x100_0000;
    assert a == 0x100 * b + a % 0x100;
    assert b == 0x100 * c + b % 0x100;
  }

  // ----- The reader: a short read of an integer leaves zero and ends the input ---------

  datatype Cursor<T> = Cursor(value: T, pos: nat)

  function Read16(data: Bytes, pos: nat): (c: Cursor<nat>)
    requires pos <= |data|
    ensures c.pos <= |data|
  {
    if pos + 2 <= |data| then Cursor(FromU16(data[pos..pos + 2]), pos + 2) else Cursor(0, |data|)
  }

  function Read32(data: Bytes, pos: nat): (c: Cursor<nat>)
    requires pos <= |data|
    ensures c.pos <= |data|
  {
    if pos + 4 <= |data| then Cursor(FromU32(data[pos..pos + 4]), pos + 4) else Cursor(0, |data|)
  }

  /** Reads into a zeroed buffer of length `n`, as much as there is. */
  function ReadBytes(data: Bytes, pos: nat, n: nat): (c: Cursor<Bytes>)
    requires pos <= |data|
    ensures c.pos <= |data|
  {
    if pos + n <= |data| then Cursor(data[pos..pos + n], pos + n)
    else Cursor(data[pos..] + Zeros(pos + n - |data|), |data|)
  }

  function ReadField(data: Bytes, pos: nat): (c: Cursor<Bytes>)
    requires pos <= |data|
    ensures c.pos <= |data|
  {
    var len := Read16(data, pos);
    ReadBytes(data, len.pos, len.value)
  }

  // ----- Leaf nodes ----------------------------------------------------------------------

  function Field(b: Bytes): Bytes {
    U16(|b|) + b
  }

  function Pairs(keys: seq<Bytes>, values: seq<Bytes>): Bytes
    requires |keys| == |values|
  {
    if |keys| == 0 then [] else Field(keys[0]) + Field(values[0]) + Pairs(keys[1..], values[1..])
  }

  function EncodeLeaf(n: LeafValue): Bytes
    requires |n.keys| == |n.values|
  {
    [LEAF_TAG] + U16(|n.keys|) + U32(n.right) + Pairs(n.keys, n.values)
  }

  function ReadPairs(data: Bytes, pos: nat, count: nat): (seq<Bytes>, seq<Bytes>)
    requires pos <= |data|
    decreases count
  {
    if count == 0 then ([], [])
    else
      var key := ReadField(data, pos);
      var value := ReadField(data, key.pos);
      var (keys, values) := ReadPairs(data, value.pos, count - 1);
      ([key.value] + keys, [value.value] + values)
  }

  function DecodeLeaf(data: Bytes): Decoded<LeafValue> {
    if |data| < 7 || data[0] != LEAF_TAG then Malformed
    else
      var (keys, values) := ReadPairs(data, 7, FromU16(data[1..3]));
      Node(LeafValue(keys, values, FromU32(data[3..7])))
  }

  // ----- Internal nodes --------------------------------------------------------------------

  function Children(ids: seq<BlockID>): Bytes {
    if |ids| == 0 then [] else U32(ids[0]) + Children(ids[1..])
  }

  function Fields(keys: seq<Bytes>): Bytes {
    if |keys| == 0 then [] else Field(keys[0]) + Fields(keys[1..])
  }

  function EncodeInternal(n: InternalValue): Bytes {
    [INTERNAL_TAG] + U16(|n.keys|) + U16(|n.children|) + Children(n.children) + Fields(n.keys)
  }

  function ReadChildren(data: Bytes, pos: nat, count: nat): (c: Cursor<seq<BlockID>>)
    requires pos <= |data|
    ensures c.pos <= |data|
    decreases count
  {
    if count == 0 then Cursor([], pos)
    else
      var child := Read32(data, pos);
      var rest := ReadChildren(data, child.pos, count - 1);
      Cursor([child.value] + rest.value, rest.pos)
  }

  function ReadFields(data: Bytes, pos: nat, count: nat): seq<Bytes>
    requires pos <= |data|
    decreases count
  {
    if count == 0 then []
    else
      var key := ReadField(data, pos);
      [key.value] + ReadFields(data, key.pos, count - 1)
  }

  function DecodeInternal(data: Bytes): Decoded<InternalValue> {
    if |data| < 7 || data[0] != INTERNAL_TAG then Malformed
    else
      var children := ReadChildren(data, 5, FromU16(data[3..5]));
      Node(InternalValue(ReadFields(data, children.pos, FromU16(data[1..3])), children.value))
  }

  // ----- From bytes back to a node -----------------------------------------------------------

  /** `data` has `part` at `pos`. */
  ghost predicate Has(data: Bytes, pos: nat, part: Bytes) {
    pos + |part| <= |data| && data[pos..pos + |part|] == part
  }

  lemma HasSplit(data: Bytes, pos: nat, a: Bytes, b: Bytes)
    requires Has(data, pos, a + b)
    ensures Has(data, pos, a) && Has(data, pos + |a|, b)
  {
    assert data[pos..pos + |a|] == data[pos..pos + |a + b|][..|a|];
    assert data[pos + |a|..pos + |a + b|] == data[pos..pos + |a + b|][|a|..];
  }

  ghost predicate Short(b: Bytes) {
    |b| < 0x1_0000
  }

  ghost predicate AllShort(s: seq<Bytes>) {
    forall i :: 0 <= i < |s| ==> Short(s[i])
  }

  /** Everything of `part` that would lie past `size` is zero. */
  ghost predicate ZeroPast(size: nat, pos: nat, part: Bytes) {
    forall i :: 0 <= i < |part| && pos + i >= size ==> part[i] == 0
  }

  /** `data` has as much of `part` at `pos` as lies before its end. */
  ghost predicate Begins(data: Bytes, pos: nat, part: Bytes) {
    forall i :: 0 <= i < |part| && pos + i < |data| ==> data[pos + i] == part[i]
  }

  /** A length field at `pos` that the end cuts in two is read as zero. */
  ghost predicate LengthWhole(size: nat, pos: nat, field: Bytes) {
    pos + 1 == size ==> field == []
  }

  /** No length of these fields, laid out from `pos` on, is cut in two unless it is zero. */
  ghost predicate LengthsWhole(size: nat, pos: nat, fields: seq<Bytes>) {
    forall i :: 0 <= i < |fields| ==> LengthWhole(size, pos + |Fields(fields[..i])|, fields[i])
  }

  function Clip(size: nat, pos: nat): (at: nat)
    ensures at <= size
  {
    if pos <= size then pos else size
  }

  lemma ZeroPastConcat(size: nat, pos: nat, a: Bytes, b: Bytes)
    ensures ZeroPast(size, pos, a + b) <==> ZeroPast(size, pos, a) && ZeroPast(size, pos + |a|, b)
  {
    if ZeroPast(size, pos, a + b) {
      assert forall i :: 0 <= i < |a| ==> (a + b)[i] == a[i];
      assert forall i :: 0 <= i < |b| ==> (a + b)[|a| + i] == b[i];
    }
  }

  lemma BeginsConcat(data: Bytes, pos: nat, a: Bytes, b: Bytes)
    requires Begins(data, pos, a + b)
    ensures Begins(data, pos, a) && Begins(data, pos + |a|, b)
  {
    assert forall i :: 0 <= i < |a| ==> (a + b)[i] == a[i];
    assert forall i :: 0 <= i < |b| ==> (a + b)[|a| + i] == b[i];
  }

  lemma BeginsHas(data: Bytes, pos: nat, part: Bytes)
    requires Begins(data, pos, part) && pos + |part| <= |data|
    ensures Has(data, pos, part)
  {
  }

  lemma LengthRead(data: Bytes, pos: nat, b: Bytes)
    requires Short(b) && Begins(data, pos, Field(b)) && pos + 2 <= |data|
    ensures Read16(data, pos) == Cursor(|b|, pos + 2)
  {
    U16RoundTrip(|b|);
    BeginsConcat(data, pos, U16(|b|), b);
    assert data[pos..pos + 2] == U16(|b|);
  }

  lemma BodyRead(data: Bytes, pos: nat, b: Bytes)
    requires Begins(data, pos, b) && pos <= |data|
    ensures var c := ReadBytes(data, pos, |b|);
            (c.value == b <==> ZeroPast(|data|, pos, b)) && c.pos == Clip(|data|, pos + |b|)
  {
    var c := ReadBytes(data, pos, |b|);
    assert forall i :: 0 <= i < |b| ==> c.value[i] == if pos + i < |data| then b[i] else 0;
    if ZeroPast(|data|, pos, b) {
      assert c.value == b;
    } else {
      var i :| 0 <= i < |b| && pos + i >= |data| && b[i] != 0;
      assert c.value[i] == 0;
    }
  }

  /** A field comes back exactly if what is cut off is zero and its length is not cut in two. */
  lemma FieldSurvives(data: Bytes, pos: nat, b: Bytes)
    requires Short(b) && Begins(data, pos, Field(b))
    ensures var c := ReadField(data, Clip(|data|, pos));
            (c.value == b <==> ZeroPast(|data|, pos, Field(b)) && LengthWhole(|data|, pos, b))
            && (c.value == b ==> c.pos == Clip(|data|, pos + |Field(b)|))
  {
    BeginsConcat(data, pos, U16(|b|), b);
    ZeroPastConcat(|data|, pos, U16(|b|), b);
    if pos + 2 <= |data| {
      LengthRead(data, pos, b);
      BodyRead(data, pos + 2, b);
    } else {
      assert data[|data|..|data|] == [];
      assert ReadField(data, Clip(|data|, pos)) == Cursor([], |data|);
      U16RoundTrip(|b|);
      if b != [] && pos >= |data| {
        assert U16(|b|)[0] != 0 || U16(|b|)[1] != 0;
      }
    }
  }

  lemma FieldsTake(fields: seq<Bytes>, i: nat)
    requires 0 < i <= |fields|
    ensures |Fields(fields[..i])| == |Field(fields[0])| + |Fields(fields[1..][..i - 1])|
  {
    assert fields[..i][1..] == fields[1..][..i - 1];
  }

  lemma LengthsWholeAfter(size: nat, pos: nat, fields: seq<Bytes>)
    requires |fields| > 0 && LengthsWhole(size, pos, fields)
    ensures LengthWhole(size, pos, fields[0]) && LengthsWhole(size, pos + |Field(fields[0])|, fields[1..])
  {
    assert LengthWhole(size, pos + |Fields(fields[..0])|, fields[0]);
    forall i | 0 <= i < |fields[1..]|
      ensures LengthWhole(size, pos + |Field(fields[0])| + |Fields(fields[1..][..i])|, fields[1..][i])
    {
      FieldsTake(fields, i + 1);
      assert LengthWhole(size, pos + |Fields(fields[..i + 1])|, fields[i + 1]);
    }
  }

  lemma LengthsWholeBefore(size: nat, pos: nat, fields: seq<Bytes>)
    requires |fields| > 0 && LengthWhole(size, pos, fields[0])
    requires LengthsWhole(size, pos + |Field(fields[0])|, fields[1..])
    ensures LengthsWhole(size, pos, fields)
  {
    forall i | 0 <= i < |fields|
      ensures LengthWhole(size, pos + |Fields(fields[..i])|, fields[i])
    {
      if i > 0 {
        FieldsTake(fields, i);
        assert LengthWhole(size, pos + |Field(fields[0])| + |Fields(fields[1..][..i - 1])|, fields[1..][i - 1]);
      }
    }
  }

  lemma LengthsWholeStep(size: nat, pos: nat, fields: seq<Bytes>)
    requires |fields| > 0
    ensures LengthsWhole(size, pos, fields) <==>
            LengthWhole(size, pos, fields[0]) && LengthsWhole(size, pos + |Field(fields[0])|, fields[1..])
  {
    hide LengthsWhole, LengthWhole;
    if LengthsWhole(size, pos, fields) {
      LengthsWholeAfter(size, pos, fields);
    }
    if LengthWhole(size, pos, fields[0]) && LengthsWhole(size, pos + |Field(fields[0])|, fields[1..]) {
      LengthsWholeBefore(size, pos, fields);
    }
  }

  lemma FieldsStep(data: Bytes, pos: nat, fields: seq<Bytes>)
    requires |fields| > 0 && pos <= |data|
    ensures var c := ReadField(data, pos);
            ReadFields(data, pos, |fields|) == fields <==>
            c.value == fields[0] && ReadFields(data, c.pos, |fields| - 1) == fields[1..]
    ensures Fields(fields) == Field(fields[0]) + Fields(fields[1..])
  {
    hide ReadField;
    var c := ReadField(data, pos);
    assert fields == [fields[0]] + fields[1..];
    assert ReadFields(data, pos, |fields|) == [c.value] + ReadFields(data, c.pos, |fields| - 1);
    assert ([c.value] + ReadFields(data, c.pos, |fields| - 1))[1..] == ReadFields(data, c.pos, |fields| - 1);
  }

  /** If the rest comes back exactly under its conditions, so does the whole list. */
  lemma FieldsSurviveStep(data: Bytes, pos: nat, fields: seq<Bytes>)
    requires |fields| > 0 && AllShort(fields) && Begins(data, pos, Fields(fields))
    requires var next := pos + |Field(fields[0])|;
             ReadFields(data, Clip(|data|, next), |fields| - 1) == fields[1..] <==>
             ZeroPast(|data|, next, Fields(fields[1..])) && LengthsWhole(|data|, next, fields[1..])
    ensures ReadFields(data, Clip(|data|, pos), |fields|) == fields <==>
            ZeroPast(|data|, pos, Fields(fields)) && LengthsWhole(|data|, pos, fields)
  {
    hide ReadField, ReadFields, Field, Fields, ZeroPast, LengthsWhole, LengthWhole, Begins, AllShort, Clip;
    assert Short(fields[0]) by { ShortAt(fields, 0); }
    FieldsStep(data, Clip(|data|, pos), fields);
    BeginsConcat(data, pos, Field(fields[0]), Fields(fields[1..]));
    ZeroPastConcat(|data|, pos, Field(fields[0]), Fields(fields[1..]));
    LengthsWholeStep(|data|, pos, fields);
    FieldSurvives(data, pos, fields[0]);
  }

  lemma ShortAt(fields: seq<Bytes>, i: nat)
    requires AllShort(fields) && i < |fields|
    ensures Short(fields[i])
  {
  }

  /** The same of a list of fields, read back one after the other. */
  lemma {:induction false} FieldsSurvive(data: Bytes, pos: nat, fields: seq<Bytes>)
    requires AllShort(fields) && Begins(data, pos, Fields(fields))
    ensures ReadFields(data, Clip(|data|, pos), |fields|) == fields <==>
            ZeroPast(|data|, pos, Fields(fields)) && LengthsWhole(|data|, pos, fields)
    decreases |fields|
  {
    if |fields| > 0 {
      hide ReadFields, Field, ZeroPast, LengthsWhole, Begins;
      BeginsConcat(data, pos, Field(fields[0]), Fields(fields[1..]));
      FieldsSurvive(data, pos + |Field(fields[0])|, fields[1..]);
      FieldsSurviveStep(data, pos, fields);
    }
  }

  /** The fields of a leaf in the order of its bytes. */
  function Alternating(keys: seq<Bytes>, values: seq<Bytes>): (fields: seq<Bytes>)
    requires |keys| == |values|
  {
    if |keys| == 0 then [] else [keys[0], values[0]] + Alternating(keys[1..], values[1..])
  }

  lemma {:induction false} PairsAreFields(keys: seq<Bytes>, values: seq<Bytes>)
    requires |keys| == |values|
    ensures |Alternating(keys, values)| == 2 * |keys| && Fields(Alternating(keys, values)) == Pairs(keys, values)
    ensures AllShort(keys) && AllShort(values) ==> AllShort(Alternating(keys, values))
  {
    if |keys| > 0 {
      var rest := Alternating(keys[1..], values[1..]);
      PairsAreFields(keys[1..], values[1..]);
      assert ([keys[0], values[0]] + rest)[1..] == [values[0]] + rest;
      assert ([values[0]] + rest)[1..] == rest;
    }
  }

  /** Reading pairs is reading twice as many fields. */
  lemma {:induction false} PairsReadAsFields(data: Bytes, pos: nat, count: nat)
    requires pos <= |data|
    ensures var (keys, values) := ReadPairs(data, pos, count);
            |keys| == |values| == count && Alternating(keys, values) == ReadFields(data, pos, 2 * count)
            && AllShort(keys) && AllShort(values)
    decreases count
  {
    if count > 0 {
      var k := ReadField(data, pos);
      var v := ReadField(data, k.pos);
      PairsReadAsFields(data, v.pos, count - 1);
      var (keys, values) := ReadPairs(data, v.pos, count - 1);
      ReadIsShort(data, pos);
      ReadIsShort(data, k.pos);
      TwoFields(data, pos, 2 * (count - 1));
      assert ([k.value] + keys)[1..] == keys && ([v.value] + values)[1..] == values;
    }
  }

  lemma ReadIsShort(data: Bytes, pos: nat)
    requires pos <= |data|
    ensures Short(ReadField(data, pos).value)
  {
  }

  lemma TwoFields(data: Bytes, pos: nat, count: nat)
    requires pos <= |data|
    ensures var k := ReadField(data, pos);
            var v := ReadField(data, k.pos);
            ReadFields(data, pos, count + 2) == [k.value, v.value] + ReadFields(data, v.pos, count)
  {
    var k := ReadField(data, pos);
    assert ReadFields(data, pos, count + 2) == [k.value] + ReadFields(data, k.pos, count + 1);
  }

  lemma {:induction false} AlternatingInjective(keys: seq<Bytes>, values: seq<Bytes>,
                                                keys': seq<Bytes>, values': seq<Bytes>)
    requires |keys| == |values| == |keys'| == |values'|
    requires Alternating(keys, values) == Alternating(keys', values')
    ensures keys == keys' && values == values'
  {
    if |keys| > 0 {
      var a, b := Alternating(keys, values), Alternating(keys', values');
      assert a[0] == b[0] && a[1] == b[1];
      assert a[2..] == Alternating(keys[1..], values[1..]) && b[2..] == Alternating(keys'[1..], values'[1..]);
      AlternatingInjective(keys[1..], values[1..], keys'[1..], values'[1..]);
      assert keys == [keys[0]] + keys[1..] && keys' == [keys'[0]] + keys'[1..];
      assert values == [values[0]] + values[1..] && values' == [values'[0]] + values'[1..];
    }
  }

  lemma PairsSurvive(data: Bytes, pos: nat, keys: seq<Bytes>, values: seq<Bytes>)
    requires |keys| == |values| && pos <= |data| && Begins(data, pos, Pairs(keys, values))
    ensures ReadPairs(data, pos, |keys|) == (keys, values) <==>
            && AllShort(keys) && AllShort(values)
            && ZeroPast(|data|, pos, Pairs(keys, values)) && LengthsWhole(|data|, pos, Alternating(keys, values))
  {
    PairsReadAsFields(data, pos, |keys|);
    PairsAreFields(keys, values);
    if AllShort(keys) && AllShort(values) {
      FieldsSurvive(data, pos, Alternating(keys, values));
      var (keys', values') := ReadPairs(data, pos, |keys|);
      if Alternating(keys', values') == Alternating(keys, values) {
        AlternatingInjective(keys', values', keys, values);
      }
    }
  }

  lemma BlockBegins(data: Bytes)
    ensures Begins(NewBlockFromData(data), 0, data)
  {
  }

  /**
   * The block is cut silently. A leaf, of whatever size, comes back from it exactly if no key and
   * no value is longer than its length field can say, all bytes that are cut off are zero, and no
   * length other than zero is cut in two.
   */
  lemma LeafSurvivesExactly(n: LeafValue)
    requires |n.keys| == |n.values| < 0x1_0000 && n.right <= MAX_BLOCK_ID
    ensures DecodeLeaf(NewBlockFromData(EncodeLeaf(n))) == Node(n) <==>
            && AllShort(n.keys) && AllShort(n.values)
            && ZeroPast(BLOCK_SIZE, 0, EncodeLeaf(n)) && LengthsWhole(BLOCK_SIZE, 7, Alternating(n.keys, n.values))
  {
    hide ReadPairs, Pairs, LengthsWhole, Alternating, AllShort;
    var block := NewBlockFromData(EncodeLeaf(n));
    var tag := [LEAF_TAG] + U16(|n.keys|);
    var head := tag + U32(n.right);
    BlockBegins(EncodeLeaf(n));
    BeginsConcat(block, 0, head, Pairs(n.keys, n.values));
    BeginsHas(block, 0, head);
    HasSplit(block, 0, tag, U32(n.right));
    HasSplit(block, 0, [LEAF_TAG], U16(|n.keys|));
    ZeroPastConcat(BLOCK_SIZE, 0, head, Pairs(n.keys, n.values));
    PairsSurvive(block, 7, n.keys, n.values);
    U16RoundTrip(|n.keys|);
    U32RoundTrip(n.right);
    assert block[0] == block[0..1][0];
  }

  /** A child id at `pos` that the end cuts in pieces is read as zero. */
  ghost predicate ChildWhole(size: nat, pos: nat, id: BlockID) {
    pos < size < pos + 4 ==> id == 0
  }

  ghost predicate ChildrenWhole(size: nat, pos: nat, ids: seq<BlockID>) {
    forall i :: 0 <= i < |ids| ==> ChildWhole(size, pos + 4 * i, ids[i])
  }

  lemma ChildSurvives(data: Bytes, pos: nat, id: BlockID)
    requires id <= MAX_BLOCK_ID && Begins(data, pos, U32(id))
    ensures var c := Read32(data, Clip(|data|, pos));
            (c.value == id <==> ZeroPast(|data|, pos, U32(id)) && ChildWhole(|data|, pos, id))
            && c.pos == Clip(|data|, pos + 4)
  {
    U32RoundTrip(id);
    if pos + 4 <= |data| {
      assert data[pos..pos + 4] == U32(id);
    } else if id == 0 {
      assert U32(0) == [0, 0, 0, 0];
    } else if pos >= |data| {
      assert ZeroPast(|data|, pos, U32(id)) ==> U32(id) == U32(0);
      U32RoundTrip(0);
    }
  }

  lemma ChildrenWholeStep(size: nat, pos: nat, ids: seq<BlockID>)
    requires |ids| > 0
    ensures ChildrenWhole(size, pos, ids) <==>
            ChildWhole(size, pos, ids[0]) && ChildrenWhole(size, pos + 4, ids[1..])
  {
    if ChildWhole(size, pos, ids[0]) && ChildrenWhole(size, pos + 4, ids[1..]) {
      forall i | 0 <= i < |ids|
        ensures ChildWhole(size, pos + 4 * i, ids[i])
      {
        assert i > 0 ==> ChildWhole(size, pos + 4 + 4 * (i - 1), ids[1..][i - 1]);
      }
    }
    if ChildrenWhole(size, pos, ids) {
      assert ChildWhole(size, pos + 4 * 0, ids[0]);
      forall i | 0 <= i < |ids[1..]|
        ensures ChildWhole(size, pos + 4 + 4 * i, ids[1..][i])
      {
        assert ChildWhole(size, pos + 4 * (i + 1), ids[i + 1]);
      }
    }
  }

  lemma {:induction false} ChildrenSurvive(data: Bytes, pos: nat, ids: seq<BlockID>)
    requires forall i :: 0 <= i < |ids| ==> ids[i] <= MAX_BLOCK_ID
    requires Begins(data, pos, Children(ids))
    ensures var c := ReadChildren(data, Clip(|data|, pos), |ids|);
            (c.value == ids <==> ZeroPast(|data|, pos, Children(ids)) && ChildrenWhole(|data|, pos, ids))
            && c.pos == Clip(|data|, pos + 4 * |ids|)
    decreases |ids|
  {
    if |ids| > 0 {
      BeginsConcat(data, pos, U32(ids[0]), Children(ids[1..]));
      ZeroPastConcat(|data|, pos, U32(ids[0]), Children(ids[1..]));
      ChildrenWholeStep(|data|, pos, ids);
      ChildSurvives(data, pos, ids[0]);
      ChildrenSurvive(data, pos + 4, ids[1..]);
      assert ids == [ids[0]] + ids[1..];
    }
  }

  lemma {:induction false} FieldsReadShort(data: Bytes, pos: nat, count: nat)
    requires pos <= |data|
    ensures |ReadFields(data, pos, count)| == count && AllShort(ReadFields(data, pos, count))
    decreases count
  {
    if count > 0 {
      FieldsReadShort(data, ReadField(data, pos).pos, count - 1);
    }
  }

  /** An internal node, of whatever size, comes back from its block exactly under the same conditions. */
  lemma InternalSurvivesExactly(n: InternalValue)
    requires |n.keys| < 0x1_0000 && |n.children| < 0x1_0000
    requires forall i :: 0 <= i < |n.children| ==> n.children[i] <= MAX_BLOCK_ID
    ensures DecodeInternal(NewBlockFromData(EncodeInternal(n))) == Node(n) <==>
            && AllShort(n.keys) && ZeroPast(BLOCK_SIZE, 0, EncodeInternal(n))
            && ChildrenWhole(BLOCK_SIZE, 5, n.children)
            && LengthsWhole(BLOCK_SIZE, 5 + 4 * |n.children|, n.keys)
  {
    hide ReadFields, ReadChildren, Fields, Children, LengthsWhole, ChildrenWhole, AllShort;
    var block := NewBlockFromData(EncodeInternal(n));
    var tag := [INTERNAL_TAG] + U16(|n.keys|);
    var head := tag + U16(|n.children|);
    var body := head + Children(n.children);
    BlockBegins(EncodeInternal(n));
    ChildrenSize(n.children);
    BeginsConcat(block, 0, body, Fields(n.keys));
    BeginsConcat(block, 0, head, Children(n.children));
    BeginsHas(block, 0, head);
    HasSplit(block, 0, tag, U16(|n.children|));
    HasSplit(block, 0, [INTERNAL_TAG], U16(|n.keys|));
    ZeroPastConcat(BLOCK_SIZE, 0, body, Fields(n.keys));
    ZeroPastConcat(BLOCK_SIZE, 0, head, Children(n.children));
    ChildrenSurvive(block, 5, n.children);
    FieldsReadShort(block, Clip(BLOCK_SIZE, 5 + 4 * |n.children|), |n.keys|);
    if AllShort(n.keys) {
      FieldsSurvive(block, 5 + 4 * |n.children|, n.keys);
    }
    U16RoundTrip(|n.keys|);
    U16RoundTrip(|n.children|);
    assert block[0] == block[0..1][0];
  }

  // ----- What fits -----------------------------------------------------------------------------

  /** Widths that the encoding can carry. */
  ghost predicate LeafFits(n: LeafValue) {
    && |n.keys| == |n.values| < 0x1_0000 && n.right <= MAX_BLOCK_ID
    && AllShort(n.keys) && AllShort(n.values)
    && |EncodeLeaf(n)| <= BLOCK_SIZE
  }

  ghost predicate InternalFits(n: InternalValue) {
    && |n.keys| < 0x1_0000 && |n.children| < 0x1_0000
    && AllShort(n.keys)
    && (forall i :: 0 <= i < |n.children| ==> n.children[i] <= MAX_BLOCK_ID)
    && |EncodeInternal(n)| <= BLOCK_SIZE
  }

  lemma {:induction false} LengthsWithin(size: nat, pos: nat, fields: seq<Bytes>)
    requires pos + |Fields(fields)| <= size
    ensures LengthsWhole(size, pos, fields)
    decreases |fields|
  {
    if |fields| > 0 {
      LengthsWithin(size, pos + |Field(fields[0])|, fields[1..]);
      LengthsWholeBefore(size, pos, fields);
    }
  }

  /** A leaf that fits in a block comes back from it unchanged. */
  lemma LeafRoundTrip(n: LeafValue)
    requires LeafFits(n)
    ensures NewBlockFromData(EncodeLeaf(n))[0] == LEAF_TAG
    ensures DecodeLeaf(NewBlockFromData(EncodeLeaf(n))) == Node(n)
  {
    hide LengthsWhole, DecodeLeaf;
    PairsAreFields(n.keys, n.values);
    LengthsWithin(BLOCK_SIZE, 7, Alternating(n.keys, n.values));
    LeafSurvivesExactly(n);
  }

  /** An internal node that fits in a block comes back from it unchanged. */
  lemma InternalRoundTrip(n: InternalValue)
    requires InternalFits(n)
    ensures NewBlockFromData(EncodeInternal(n))[0] == INTERNAL_TAG
    ensures DecodeInternal(NewBlockFromData(EncodeInternal(n))) == Node(n)
  {
    hide LengthsWhole, DecodeInternal;
    ChildrenSize(n.children);
    LengthsWithin(BLOCK_SIZE, 5 + 4 * |n.children|, n.keys);
    InternalSurvivesExactly(n);
  }

  // ----- Sizes ------------------------------------------------------------------------------

  lemma {:induction false} PairsSize(keys: seq<Bytes>, values: seq<Bytes>, bound: nat)
    requires |keys| == |values| && forall i :: 0 <= i < |keys| ==> |keys[i]| + |values[i]| <= bound
    ensures |Pairs(keys, values)| <= |keys| * (4 + bound)
  {
    if |keys| > 0 {
      PairsSize(keys[1..], values[1..], bound);
      OneMore(|keys|, 4 + bound);
    }
  }

  lemma OneMore(n: nat, m: nat)
    requires n > 0
    ensures n * m == (n - 1) * m + m
  {
  }

  lemma {:induction false} FieldsSize(keys: seq<Bytes>, bound: nat)
    requires forall i :: 0 <= i < |keys| ==> |keys[i]| <= bound
    ensures |Fields(keys)| <= |keys| * (2 + bound)
  {
    if |keys| > 0 {
      FieldsSize(keys[1..], bound);
      OneMore(|keys|, 2 + bound);
    }
  }

  lemma {:induction false} ChildrenSize(ids: seq<BlockID>)
    ensures |Children(ids)| == 4 * |ids|
  {
    if |ids| > 0 {
      ChildrenSize(ids[1..]);
    }
  }

  // ----- The loops ----------------------------------------------------------------------------

  /** Writes the first `numKeys` pairs behind the header. */
  method SerializeLeaf(numKeys: nat, keys: seq<Bytes>, values: seq<Bytes>, right: BlockID) returns (buf: Bytes)
    requires numKeys <= |keys| && numKeys <= |values|
    ensures buf == EncodeLeaf(LeafValue(keys[..numKeys], values[..numKeys], right))
  {
    buf := [LEAF_TAG] + U16(numKeys) + U32(right);
    ghost var head, ks, vs := buf, keys[..numKeys], values[..numKeys];
    var i := 0;
    while i < numKeys
      invariant 0 <= i <= numKeys
      invariant buf + Pairs(ks[i..], vs[i..]) == head + Pairs(ks, vs)
    {
      assert ks[i..][1..] == ks[i + 1..] && vs[i..][1..] == vs[i + 1..];
      buf := buf + U16(|keys[i]|) + keys[i];
      buf := buf + U16(|values[i]|) + values[i];
      i := i + 1;
    }
    assert buf + Pairs([], []) == buf;
  }

  /** The header carries `numKeys`; all children and all keys follow. */
  method SerializeInternal(numKeys: nat, keys: seq<Bytes>, children: seq<BlockID>) returns (buf: Bytes)
    ensures buf == [INTERNAL_TAG] + U16(numKeys) + U16(|children|) + Children(children) + Fields(keys)
    ensures numKeys == |keys| ==> buf == EncodeInternal(InternalValue(keys, children))
  {
    buf := [INTERNAL_TAG] + U16(numKeys) + U16(|children|);
    ghost var head := buf;
    var i := 0;
    while i < |children|
      invariant 0 <= i <= |children|
      invariant buf + Children(children[i..]) == head + Children(children)
    {
      assert children[i..][1..] == children[i + 1..];
      buf := buf + U32(children[i]);
      i := i + 1;
    }
    assert buf == head + Children(children);
    ghost var body := buf;
    i := 0;
    while i < |keys|
      invariant 0 <= i <= |keys|
      invariant buf + Fields(keys[i..]) == body + Fields(keys)
    {
      assert keys[i..][1..] == keys[i + 1..];
      buf := buf + U16(|keys[i]|) + keys[i];
      i := i + 1;
    }
  }

  function Prepend(keys: seq<Bytes>, values: seq<Bytes>, rest: (seq<Bytes>, seq<Bytes>)): (seq<Bytes>, seq<Bytes>) {
    (keys + rest.0, values + rest.1)
  }

  lemma Prepended(keys: seq<Bytes>, values: seq<Bytes>, k: Bytes, v: Bytes, rest: (seq<Bytes>, seq<Bytes>))
    ensures Prepend(keys + [k], values + [v], rest) == Prepend(keys, values, ([k] + rest.0, [v] + rest.1))
    ensures Prepend([], [], rest) == rest
  {
    assert keys + [k] + rest.0 == keys + ([k] + rest.0);
    assert values + [v] + rest.1 == values + ([v] + rest.1);
    assert [] + rest.0 == rest.0 && [] + rest.1 == rest.1;
  }

  method DeserializePairs(data: Bytes, start: nat, count: nat) returns (keys: seq<Bytes>, values: seq<Bytes>)
    requires start <= |data|
    ensures (keys, values) == ReadPairs(data, start, count)
  {
    keys, values := [], [];
    var pos: nat, i: nat := start, 0;
    Prepended([], [], [], [], ReadPairs(data, start, count));
    while i < count
      invariant 0 <= i <= count && pos <= |data|
      invariant Prepend(keys, values, ReadPairs(data, pos, count - i)) == ReadPairs(data, start, count)
    {
      ghost var before := (keys, values);
      var keyLen := Read16(data, pos);
      var key := ReadBytes(data, keyLen.pos, keyLen.value);
      var valLen := Read16(data, key.pos);
      var value := ReadBytes(data, valLen.pos, valLen.value);
      keys := keys + [key.value];
      values := values + [value.value];
      Prepended(before.0, before.1, key.value, value.value, ReadPairs(data, value.pos, count - i - 1));
      pos := value.pos;
      i := i + 1;
    }
    assert keys + [] == keys && values + [] == values;
  }

  method DeserializeChildren(data: Bytes, start: nat, count: nat) returns (children: seq<BlockID>, pos: nat)
    requires start <= |data|
    ensures Cursor(children, pos) == ReadChildren(data, start, count)
  {
    children, pos := [], start;
    var i: nat := 0;
    assert [] + ReadChildren(data, start, count).value == ReadChildren(data, start, count).value;
    while i < count
      invariant 0 <= i <= count && pos <= |data|
      invariant ReadChildren(data, start, count) ==
                Cursor(children + ReadChildren(data, pos, count - i).value, ReadChildren(data, pos, count - i).pos)
    {
      var child := Read32(data, pos);
      ghost var rest := ReadChildren(data, child.pos, count - i - 1).value;
      assert children + [child.value] + rest == children + ([child.value] + rest);
      children := children + [child.value];
      pos := child.pos;
      i := i + 1;
    }
    assert children + [] == children;
  }

  method DeserializeFields(data: Bytes, start: nat, count: nat) returns (keys: seq<Bytes>)
    requires start <= |data|
    ensures keys == ReadFields(data, start, count)
  {
    keys := [];
    var pos: nat, i: nat := start, 0;
    while i < count
      invariant 0 <= i <= count && pos <= |data|
      invariant ReadFields(data, start, count) == keys + ReadFields(data, pos, count - i)
    {
      var keyLen := Read16(data, pos);
      var key := ReadBytes(data, keyLen.pos, keyLen.value);
      keys := keys + [key.value];
      pos := key.pos;
      i := i + 1;
    }
  }
}
