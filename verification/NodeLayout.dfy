/** Which bytes stand where in an encoded node: the layout that a reader of the file relies on. */
module NodeLayout {
  import opened Bytes
  import opened FileSerializer
  import opened NodeCodec

  // ----- Integers, low byte first, and texts behind their lengths ----------------------------------------

  predicate Has16(b: Bytes, at: nat, n: nat) {
    at + 2 <= |b| && b[at] == n % 256 && b[at + 1] == n / 256 % 256
  }

  predicate Has32(b: Bytes, at: nat, n: nat) {
    && at + 4 <= |b| && b[at] == n % 256 && b[at + 1] == n / 256 % 256
    && b[at + 2] == n / 65536 % 256 && b[at + 3] == n / 16777216 % 256
  }

  /** Two bytes of length, then the text. */
  predicate HasText(b: Bytes, at: nat, t: Bytes) {
    Has16(b, at, |t|) && at + 2 + |t| <= |b| && b[at + 2..at + 2 + |t|] == t
  }

  /** What stands at `at`, and what follows it. */
  lemma Part(b: Bytes, at: nat, part: Bytes, rest: Bytes)
    requires at <= |b| && b[at..] == part + rest
    ensures at + |part| <= |b| && b[at..at + |part|] == part && b[at + |part|..] == rest
    ensures forall k :: 0 <= k < |part| ==> b[at + k] == part[k]
  {
    assert b[at..at + |part|] == b[at..][..|part|] && b[at + |part|..] == b[at..][|part|..];
    assert forall k :: 0 <= k < |part| ==> b[at + k] == b[at..][k];
  }

  lemma TagAt(b: Bytes, tag: byte, rest: Bytes)
    requires b == [tag] + rest
    ensures |b| > 0 && b[0] == tag && b[1..] == rest
  {
  }

  lemma Regroup(a: Bytes, b: Bytes, c: Bytes, d: Bytes, e: Bytes)
    ensures a + b + c == a + (b + c) && a + b + c + d == a + (b + (c + d))
    ensures a + b + c + d + e == a + (b + (c + (d + e)))
  {
  }

  lemma U16At(b: Bytes, at: nat, n: nat, rest: Bytes)
    requires at <= |b| && b[at..] == U16(n) + rest
    ensures Has16(b, at, n) && at + 2 <= |b| && b[at + 2..] == rest
  {
    Part(b, at, U16(n), rest);
    assert b[at + 0] == U16(n)[0];
  }

  lemma U32At(b: Bytes, at: nat, n: nat, rest: Bytes)
    requires at <= |b| && b[at..] == U32(n) + rest
    ensures Has32(b, at, n) && at + 4 <= |b| && b[at + 4..] == rest
  {
    Part(b, at, U32(n), rest);
    assert b[at + 0] == U32(n)[0];
  }

  lemma FieldAt(b: Bytes, at: nat, t: Bytes, rest: Bytes)
    requires at <= |b| && b[at..] == Field(t) + rest
    ensures HasText(b, at, t) && at + 2 + |t| <= |b| && b[at + 2 + |t|..] == rest
  {
    hide U16, Has16;
    assert Field(t) + rest == U16(|t|) + (t + rest);
    U16At(b, at, |t|, t + rest);
    Part(b, at + 2, t, rest);
  }

  // ----- Leaves --------------------------------------------------------------------------------------------

  /** How many bytes the first `i` pairs take. */
  ghost function PairBytes(keys: seq<Bytes>, values: seq<Bytes>, i: nat): nat
    requires |keys| == |values| && i <= |keys|
  {
    if i == 0 then 0 else 4 + |keys[0]| + |values[0]| + PairBytes(keys[1..], values[1..], i - 1)
  }

  lemma FirstPair(keys: seq<Bytes>, values: seq<Bytes>, i: nat)
    requires |keys| == |values| && i <= |keys|
    ensures keys == [] ==> Pairs(keys, values) == []
    ensures |keys| > 0 ==>
              Pairs(keys, values) == Field(keys[0]) + (Field(values[0]) + Pairs(keys[1..], values[1..]))
    ensures PairBytes(keys, values, 0) == 0
    ensures i > 0 ==>
              PairBytes(keys, values, i) == 4 + |keys[0]| + |values[0]| + PairBytes(keys[1..], values[1..], i - 1)
  {
    hide Field;
    if |keys| > 0 {
      Regroup(Field(keys[0]), Field(values[0]), Pairs(keys[1..], values[1..]), [], []);
    }
  }

  lemma {:induction false} PairsAt(b: Bytes, at: nat, keys: seq<Bytes>, values: seq<Bytes>, i: nat)
    requires |keys| == |values| && i <= |keys| && at <= |b| && b[at..] == Pairs(keys, values)
    ensures |b| == at + PairBytes(keys, values, |keys|)
    ensures i < |keys| ==>
              var k := at + PairBytes(keys, values, i);
              HasText(b, k, keys[i]) && HasText(b, k + 2 + |keys[i]|, values[i])
    decreases |keys|
  {
    hide *;
    FirstPair(keys, values, i);
    FirstPair(keys, values, |keys|);
    if |keys| > 0 {
      var v := at + 2 + |keys[0]|;
      var rest := Pairs(keys[1..], values[1..]);
      FieldAt(b, at, keys[0], Field(values[0]) + rest);
      FieldAt(b, v, values[0], rest);
      PairsAt(b, v + 2 + |values[0]|, keys[1..], values[1..], if i > 0 then i - 1 else 0);
    }
  }

  lemma LeafParts(n: LeafValue)
    requires |n.keys| == |n.values|
    ensures EncodeLeaf(n) == [1] + (U16(|n.keys|) + (U32(n.right) + Pairs(n.keys, n.values)))
  {
    hide U16, U32, Pairs;
    Regroup([1], U16(|n.keys|), U32(n.right), Pairs(n.keys, n.values), []);
  }

  lemma LeafHeader(n: LeafValue)
    requires |n.keys| == |n.values|
    ensures var b := EncodeLeaf(n);
            && |b| >= 7 && b[0] == 1 && Has16(b, 1, |n.keys|) && Has32(b, 3, n.right)
            && b[7..] == Pairs(n.keys, n.values)
  {
    var b, pairs := EncodeLeaf(n), Pairs(n.keys, n.values);
    LeafParts(n);
    hide *;
    TagAt(b, 1, U16(|n.keys|) + (U32(n.right) + pairs));
    U16At(b, 1, |n.keys|, U32(n.right) + pairs);
    U32At(b, 3, n.right, pairs);
  }

  /**
   * A leaf: the byte 1, the number of keys in two bytes, the right neighbour in four, and from
   * byte 7 on each key and its value, either behind its length in two bytes.
   */
  lemma LeafLayout(n: LeafValue, i: nat)
    requires |n.keys| == |n.values| && i <= |n.keys|
    ensures var b := EncodeLeaf(n);
            && |b| == 7 + PairBytes(n.keys, n.values, |n.keys|)
            && b[0] == 1 && Has16(b, 1, |n.keys|) && Has32(b, 3, n.right)
    ensures i < |n.keys| ==>
              var b := EncodeLeaf(n); var k := 7 + PairBytes(n.keys, n.values, i);
              HasText(b, k, n.keys[i]) && HasText(b, k + 2 + |n.keys[i]|, n.values[i])
  {
    hide *;
    LeafHeader(n);
    PairsAt(EncodeLeaf(n), 7, n.keys, n.values, i);
  }

  // ----- Internal nodes ------------------------------------------------------------------------------------

  /** How many bytes the first `i` keys take. */
  ghost function KeyBytes(keys: seq<Bytes>, i: nat): nat
    requires i <= |keys|
  {
    if i == 0 then 0 else 2 + |keys[0]| + KeyBytes(keys[1..], i - 1)
  }

  lemma FirstKey(keys: seq<Bytes>, i: nat)
    requires i <= |keys|
    ensures Fields(keys) == if keys == [] then [] else Field(keys[0]) + Fields(keys[1..])
    ensures KeyBytes(keys, 0) == 0
    ensures i > 0 ==> KeyBytes(keys, i) == 2 + |keys[0]| + KeyBytes(keys[1..], i - 1)
  {
    hide Field;
  }

  lemma {:induction false} FieldsAt(b: Bytes, at: nat, keys: seq<Bytes>, i: nat)
    requires i <= |keys| && at <= |b| && b[at..] == Fields(keys)
    ensures |b| == at + KeyBytes(keys, |keys|)
    ensures i < |keys| ==> HasText(b, at + KeyBytes(keys, i), keys[i])
    decreases |keys|
  {
    hide *;
    FirstKey(keys, i);
    FirstKey(keys, |keys|);
    if |keys| > 0 {
      FieldAt(b, at, keys[0], Fields(keys[1..]));
      FieldsAt(b, at + 2 + |keys[0]|, keys[1..], if i > 0 then i - 1 else 0);
    }
  }

  lemma {:induction false} ChildrenAt(b: Bytes, at: nat, ids: seq<BlockID>, rest: Bytes, i: nat)
    requires i <= |ids| && at <= |b| && b[at..] == Children(ids) + rest
    ensures at + 4 * |ids| <= |b| && b[at + 4 * |ids|..] == rest
    ensures i < |ids| ==> Has32(b, at + 4 * i, ids[i])
    decreases |ids|
  {
    if |ids| > 0 {
      assert Children(ids) + rest == U32(ids[0]) + (Children(ids[1..]) + rest);
      hide U32, Has32;
      U32At(b, at, ids[0], Children(ids[1..]) + rest);
      ChildrenAt(b, at + 4, ids[1..], rest, if i > 0 then i - 1 else 0);
    } else {
      assert Children(ids) + rest == rest;
    }
  }

  lemma InternalParts(n: InternalValue)
    ensures EncodeInternal(n) == [2] + (U16(|n.keys|) + (U16(|n.children|) + (Children(n.children) + Fields(n.keys))))
  {
    hide U16, Children, Fields;
    Regroup([2], U16(|n.keys|), U16(|n.children|), Children(n.children), Fields(n.keys));
  }

  /**
   * An internal node: the byte 2, the numbers of keys and of children in two bytes each, the
   * children in four bytes each, and then each key behind its length in two bytes.
   */
  lemma InternalLayout(n: InternalValue, i: nat, j: nat)
    requires i <= |n.keys| && j <= |n.children|
    ensures var b := EncodeInternal(n); var k := 5 + 4 * |n.children|;
            && |b| == k + KeyBytes(n.keys, |n.keys|)
            && b[0] == 2 && Has16(b, 1, |n.keys|) && Has16(b, 3, |n.children|)
            && (j < |n.children| ==> Has32(b, 5 + 4 * j, n.children[j]))
            && (i < |n.keys| ==> HasText(b, k + KeyBytes(n.keys, i), n.keys[i]))
  {
    var b, children, fields := EncodeInternal(n), Children(n.children), Fields(n.keys);
    InternalParts(n);
    hide *;
    TagAt(b, 2, U16(|n.keys|) + (U16(|n.children|) + (children + fields)));
    U16At(b, 1, |n.keys|, U16(|n.children|) + (children + fields));
    U16At(b, 3, |n.children|, children + fields);
    ChildrenAt(b, 5, n.children, Fields(n.keys), j);
    FieldsAt(b, 5 + 4 * |n.children|, n.keys, i);
  }

  // ----- And back: what a decoder takes from any bytes -------------------------------------------------

  /** A field that lies within the bytes was written there. */
  lemma FieldFrom(data: Bytes, at: nat, t: Bytes)
    requires at <= |data| && t == ReadField(data, at).value && at + 2 + |t| <= |data|
    ensures data[at..at + 2 + |t|] == Field(t) && ReadField(data, at).pos == at + 2 + |t|
  {
    var len := FromU16(data[at..at + 2]);
    assert data[at..at + 2] == U16(len);
    assert data[at..at + 2 + |t|] == data[at..at + 2] + data[at + 2..at + 2 + |t|];
  }

  lemma Joined(data: Bytes, a: nat, b: nat, c: nat)
    requires a <= b <= c <= |data|
    ensures data[a..b] + data[b..c] == data[a..c]
  {
  }

  lemma ReadLengths(data: Bytes, pos: nat, count: nat)
    requires pos <= |data|
    ensures |ReadPairs(data, pos, count).0| == |ReadPairs(data, pos, count).1| == count
    ensures |ReadFields(data, pos, count)| == count && |ReadChildren(data, pos, count).value| == count
    decreases count
  {
  }

  lemma FirstRead(data: Bytes, at: nat, count: nat)
    requires at <= |data| && count > 0
    ensures var (keys, values) := ReadPairs(data, at, count);
            var key := ReadField(data, at); var value := ReadField(data, key.pos);
            && |keys| == |values| == count && keys[0] == key.value && values[0] == value.value
            && (keys[1..], values[1..]) == ReadPairs(data, value.pos, count - 1)
  {
    hide ReadField;
    ReadLengths(data, at, count);
  }

  lemma PairsJoin(data: Bytes, at: nat, p: nat, q: nat, total: nat, keys: seq<Bytes>, values: seq<Bytes>)
    requires |keys| == |values| > 0 && at <= p <= q <= total <= |data|
    requires data[at..p] == Field(keys[0]) && data[p..q] == Field(values[0])
    requires data[q..total] == Pairs(keys[1..], values[1..])
    ensures data[at..total] == Pairs(keys, values)
  {
    FirstPair(keys, values, 0);
    hide Field, Pairs;
    Joined(data, p, q, total);
    Joined(data, at, p, total);
  }

  /** One more pair in front. */
  lemma PairsGrow(data: Bytes, at: nat, keys: seq<Bytes>, values: seq<Bytes>)
    requires |keys| == |values| > 0 && at <= |data|
    requires var key := ReadField(data, at); var value := ReadField(data, key.pos);
             var more := PairBytes(keys[1..], values[1..], |keys| - 1);
             && keys[0] == key.value && values[0] == value.value
             && (value.pos + more <= |data| ==> data[value.pos..value.pos + more] == Pairs(keys[1..], values[1..]))
    ensures var total := at + PairBytes(keys, values, |keys|);
            total <= |data| ==> data[at..total] == Pairs(keys, values)
  {
    hide *;
    FirstPair(keys, values, |keys|);
    var total := at + PairBytes(keys, values, |keys|);
    if total <= |data| {
      FieldFrom(data, at, keys[0]);
      var p := ReadField(data, at).pos;
      FieldFrom(data, p, values[0]);
      var q := ReadField(data, p).pos;
      assert q + PairBytes(keys[1..], values[1..], |keys| - 1) == total;
      PairsJoin(data, at, p, q, total, keys, values);
    }
  }

  /** Pairs that lie within the bytes were written there. */
  lemma {:induction false} PairsFrom(data: Bytes, at: nat, count: nat, keys: seq<Bytes>, values: seq<Bytes>)
    requires at <= |data| && (keys, values) == ReadPairs(data, at, count)
    ensures |keys| == |values| == count
    ensures var total := at + PairBytes(keys, values, count);
            total <= |data| ==> data[at..total] == Pairs(keys, values)
    decreases count
  {
    hide *;
    ReadLengths(data, at, count);
    if count == 0 {
      FirstPair(keys, values, 0);
    } else {
      FirstRead(data, at, count);
      PairsFrom(data, ReadField(data, ReadField(data, at).pos).pos, count - 1, keys[1..], values[1..]);
      PairsGrow(data, at, keys, values);
    }
  }

  lemma LeafJoin(data: Bytes, n: LeafValue, total: nat)
    requires |n.keys| == |n.values| && 7 <= total <= |data| && data[0] == 1
    requires data[1..3] == U16(|n.keys|) && data[3..7] == U32(n.right) && data[7..total] == Pairs(n.keys, n.values)
    ensures data[..total] == EncodeLeaf(n)
  {
    LeafParts(n);
    hide U16, U32, Pairs, EncodeLeaf;
    Joined(data, 3, 7, total);
    Joined(data, 1, 3, total);
    Joined(data, 0, 1, total);
  }

  lemma U16From(b: Bytes)
    requires |b| == 2
    ensures U16(FromU16(b)) == b
  {
  }

  lemma U32From(b: Bytes)
    requires |b| == 4
    ensures U32(FromU32(b)) == b
  {
    var n := FromU32(b);
    assert n / 0x100 == (b[1] as int) + 0x100 * (b[2] as int) + 0x1_0000 * (b[3] as int);
    assert n / 0x1_0000 == (b[2] as int) + 0x100 * (b[3] as int);
    assert n / 0x100_0000 == b[3] as int;
  }

  lemma LeafDecoded(data: Bytes)
    requires DecodeLeaf(data).Node?
    ensures |data| >= 7 && data[0] == 1
    ensures var n, count := DecodeLeaf(data).node, FromU16(data[1..3]);
            && (n.keys, n.values) == ReadPairs(data, 7, count) && n.right == FromU32(data[3..7])
            && |n.keys| == |n.values| == count
  {
    ReadLengths(data, 7, FromU16(data[1..3]));
  }

  /** A leaf that lies within the bytes it is read from is encoded to those bytes. */
  lemma LeafFromBytes(data: Bytes)
    requires DecodeLeaf(data).Node?
    ensures var n := DecodeLeaf(data).node;
            && |n.keys| == |n.values|
            && (|EncodeLeaf(n)| <= |data| ==> data[..|EncodeLeaf(n)|] == EncodeLeaf(n))
  {
    hide *;
    LeafDecoded(data);
    var n := DecodeLeaf(data).node;
    PairsFrom(data, 7, FromU16(data[1..3]), n.keys, n.values);
    LeafLayout(n, 0);
    if |EncodeLeaf(n)| <= |data| {
      U16From(data[1..3]);
      U32From(data[3..7]);
      LeafJoin(data, n, |EncodeLeaf(n)|);
    }
  }

  lemma FirstChildRead(data: Bytes, at: nat, count: nat)
    requires at + 4 <= |data| && count > 0
    ensures var c := ReadChildren(data, at, count); var rest := ReadChildren(data, at + 4, count - 1);
            && c.value == [FromU32(data[at..at + 4])] + rest.value && c.pos == rest.pos
            && Children(c.value) == U32(FromU32(data[at..at + 4])) + Children(rest.value)
  {
    hide FromU32, U32;
    var c := ReadChildren(data, at, count);
    assert c.value[1..] == ReadChildren(data, at + 4, count - 1).value;
  }

  /** Children that lie within the bytes were written there. */
  lemma {:induction false} ChildrenFrom(data: Bytes, at: nat, count: nat)
    requires at + 4 * count <= |data|
    ensures var c := ReadChildren(data, at, count);
            c.pos == at + 4 * count && data[at..at + 4 * count] == Children(c.value)
    decreases count
  {
    if count == 0 {
      assert data[at..at] == [];
    } else {
      hide *;
      FirstChildRead(data, at, count);
      U32From(data[at..at + 4]);
      ChildrenFrom(data, at + 4, count - 1);
      Joined(data, at, at + 4, at + 4 * count);
    }
  }

  lemma FirstFieldRead(data: Bytes, at: nat, count: nat)
    requires at <= |data| && count > 0
    ensures var keys := ReadFields(data, at, count); var key := ReadField(data, at);
            |keys| == count && keys[0] == key.value && keys[1..] == ReadFields(data, key.pos, count - 1)
  {
    hide ReadField;
    ReadLengths(data, at, count);
  }

  lemma KeysGrow(data: Bytes, at: nat, keys: seq<Bytes>)
    requires |keys| > 0 && at <= |data|
    requires var key := ReadField(data, at); var more := KeyBytes(keys[1..], |keys| - 1);
             && keys[0] == key.value
             && (key.pos + more <= |data| ==> data[key.pos..key.pos + more] == Fields(keys[1..]))
    ensures var total := at + KeyBytes(keys, |keys|); total <= |data| ==> data[at..total] == Fields(keys)
  {
    hide *;
    FirstKey(keys, |keys|);
    var total := at + KeyBytes(keys, |keys|);
    if total <= |data| {
      FieldFrom(data, at, keys[0]);
      var p := ReadField(data, at).pos;
      assert p + KeyBytes(keys[1..], |keys| - 1) == total;
      Joined(data, at, p, total);
    }
  }

  /** Keys that lie within the bytes were written there. */
  lemma {:induction false} FieldsFrom(data: Bytes, at: nat, count: nat, keys: seq<Bytes>)
    requires at <= |data| && keys == ReadFields(data, at, count)
    ensures |keys| == count
    ensures var total := at + KeyBytes(keys, count); total <= |data| ==> data[at..total] == Fields(keys)
    decreases count
  {
    hide *;
    ReadLengths(data, at, count);
    if count == 0 {
      FirstKey(keys, 0);
    } else {
      FirstFieldRead(data, at, count);
      FieldsFrom(data, ReadField(data, at).pos, count - 1, keys[1..]);
      KeysGrow(data, at, keys);
    }
  }

  lemma InternalJoin(data: Bytes, n: InternalValue, mid: nat, total: nat)
    requires 5 <= mid <= total <= |data| && data[0] == 2
    requires data[1..3] == U16(|n.keys|) && data[3..5] == U16(|n.children|)
    requires data[5..mid] == Children(n.children) && data[mid..total] == Fields(n.keys)
    ensures data[..total] == EncodeInternal(n)
  {
    InternalParts(n);
    hide U16, Children, Fields, EncodeInternal;
    Joined(data, 5, mid, total);
    Joined(data, 3, 5, total);
    Joined(data, 1, 3, total);
    Joined(data, 0, 1, total);
  }

  lemma InternalDecoded(data: Bytes)
    requires DecodeInternal(data).Node?
    ensures |data| >= 7 && data[0] == 2
    ensures var n := DecodeInternal(data).node;
            var children := ReadChildren(data, 5, FromU16(data[3..5]));
            && n.children == children.value && n.keys == ReadFields(data, children.pos, FromU16(data[1..3]))
            && |n.children| == FromU16(data[3..5]) && |n.keys| == FromU16(data[1..3])
  {
    ReadLengths(data, 5, FromU16(data[3..5]));
    ReadLengths(data, ReadChildren(data, 5, FromU16(data[3..5])).pos, FromU16(data[1..3]));
  }

  /** An internal node that lies within the bytes it is read from is encoded to those bytes. */
  lemma InternalFromBytes(data: Bytes)
    requires DecodeInternal(data).Node?
    ensures var n := DecodeInternal(data).node;
            |EncodeInternal(n)| <= |data| ==> data[..|EncodeInternal(n)|] == EncodeInternal(n)
  {
    hide *;
    InternalDecoded(data);
    var n := DecodeInternal(data).node;
    var mid := 5 + 4 * |n.children|;
    InternalLayout(n, 0, 0);
    if |EncodeInternal(n)| <= |data| {
      ChildrenFrom(data, 5, |n.children|);
      FieldsFrom(data, mid, |n.keys|, n.keys);
      U16From(data[1..3]);
      U16From(data[3..5]);
      InternalJoin(data, n, mid, |EncodeInternal(n)|);
    }
  }
}
