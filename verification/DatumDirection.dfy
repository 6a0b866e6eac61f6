/**
 * Which of two values is the smaller one: the order of Datum.dfy against plain comparison of
 * numbers, bytes, booleans and instants, of types by their rank, and of arrays and objects by
 * the first place in which they differ.
 */
module DatumDirection {
  import opened Bytes
  import opened Datum

  // ----- Values inside ------------------------------------------------------------------------

  lemma NumbersByValue(x: real, y: real)
    ensures Order(Num(Finite(x)), Num(Finite(y))) < 0 <==> x < y
    ensures Order(Num(Finite(x)), Num(Finite(y))) == 0 <==> x == y
  {
  }

  /** NaN is below everything, and the infinities enclose the finite numbers. */
  lemma NumberEnds(x: real)
    ensures Order(Num(NaN), Num(NegInf)) < 0 && Order(Num(NaN), Num(Finite(x))) < 0 && Order(Num(NaN), Num(PosInf)) < 0
    ensures Order(Num(NegInf), Num(Finite(x))) < 0 && Order(Num(NegInf), Num(PosInf)) < 0
    ensures Order(Num(Finite(x)), Num(PosInf)) < 0
    ensures Order(Num(NaN), Num(NaN)) == 0
  {
  }

  lemma FalseBelowTrue()
    ensures Order(Bool(false), Bool(true)) < 0
  {
  }

  lemma TimesByInstant(x: int, y: int, zone: int, zone': int)
    ensures Order(Time(x, zone), Time(y, zone')) < 0 <==> x < y
  {
  }

  /** At the first difference the smaller byte decides, and a proper prefix comes first. */
  ghost predicate BytesBelowAt(a: Bytes, b: Bytes, i: nat) {
    && i <= |a| && i <= |b| && a[..i] == b[..i]
    && (i == |a| < |b| || (i < |a| && i < |b| && a[i] < b[i]))
  }

  ghost predicate BytesBelow(a: Bytes, b: Bytes) {
    exists i: nat :: BytesBelowAt(a, b, i)
  }

  lemma SameStart<T>(x: seq<T>, y: seq<T>, i: nat)
    requires 0 < i <= |x| && i <= |y| && x[..i] == y[..i]
    ensures x[0] == y[0]
  {
    assert x[..i][0] == y[..i][0];
  }

  lemma {:induction false} BytesByFirstDifference(a: Bytes, b: Bytes)
    ensures Less(a, b) <==> BytesBelow(a, b)
  {
    if |a| > 0 && |b| > 0 && a[0] == b[0] {
      BytesByFirstDifference(a[1..], b[1..]);
      if BytesBelow(a[1..], b[1..]) {
        var i: nat :| BytesBelowAt(a[1..], b[1..], i);
        assert a[..i + 1] == [a[0]] + a[1..][..i] && b[..i + 1] == [b[0]] + b[1..][..i];
        assert BytesBelowAt(a, b, i + 1);
      }
      if BytesBelow(a, b) {
        var i: nat :| BytesBelowAt(a, b, i);
        assert i > 0;
        assert a[1..][..i - 1] == a[..i][1..] && b[1..][..i - 1] == b[..i][1..];
        assert BytesBelowAt(a[1..], b[1..], i - 1);
      }
    } else if BytesBelow(a, b) {
      var i: nat :| BytesBelowAt(a, b, i);
      if i > 0 {
        SameStart(a, b, i);
      }
    } else if |b| > 0 && (|a| == 0 || a[0] < b[0]) {
      assert BytesBelowAt(a, b, 0);
    }
  }

  /** Strings, binary data and the types of geometries compare as bytes. */
  lemma StringsByBytes(a: Bytes, b: Bytes, x: seq<real>, y: seq<real>)
    ensures Order(Str(a), Str(b)) < 0 <==> BytesBelow(a, b)
    ensures Order(Binary(a), Binary(b)) < 0 <==> BytesBelow(a, b)
    ensures Order(Geometry(a, x), Geometry(b, y)) < 0 <==> BytesBelow(a, b)
  {
    BytesByFirstDifference(a, b);
    BytesByFirstDifference(b, a);
  }

  // ----- Types ----------------------------------------------------------------------------------

  /** A value of each type, in the order of the types. */
  function OneOfEach(b: bool, n: Number, s: Bytes, items: seq<Datum>, keys: seq<Bytes>, fields: map<Bytes, Datum>,
                     binary: Bytes, instant: int, zone: int, geom: Bytes, at: seq<real>): seq<Datum> {
    [MinVal, Null, Bool(b), Num(n), Str(s), Array(items), Object(keys, fields), Binary(binary), Time(instant, zone),
     Geometry(geom, at), MaxVal]
  }

  /** MinVal, null, booleans, numbers, strings, arrays, objects, binary data, times, geometries, MaxVal. */
  lemma TypesAscend(b: bool, n: Number, s: Bytes, items: seq<Datum>, keys: seq<Bytes>, fields: map<Bytes, Datum>,
                    binary: Bytes, instant: int, zone: int, geom: Bytes, at: seq<real>)
    requires AllWellFormed(items) && WellFormed(Object(keys, fields))
    ensures var each := OneOfEach(b, n, s, items, keys, fields, binary, instant, zone, geom, at);
            AllWellFormed(each) && forall i, j :: 0 <= i < j < |each| ==> Order(each[i], each[j]) < 0
  {
    hide Order, NumOrder, BytesOrder;
    var each := OneOfEach(b, n, s, items, keys, fields, binary, instant, zone, geom, at);
    assert WellFormed(Array(items));
    forall i | 0 <= i < |each|
      ensures TypeOrder(each[i]) == i && WellFormed(each[i])
    {
    }
    forall i, j | 0 <= i < j < |each|
      ensures Order(each[i], each[j]) < 0
    {
      OrderByType(each[i], each[j]);
    }
  }

  // ----- Arrays ---------------------------------------------------------------------------------

  /** Level before place `i`; there the first array ends, or has the smaller item. */
  ghost predicate ItemsBelowAt(x: seq<Datum>, y: seq<Datum>, i: nat)
    requires AllWellFormed(x) && AllWellFormed(y)
  {
    && i <= |x| && i <= |y| && (forall k :: 0 <= k < i ==> Order(x[k], y[k]) == 0)
    && (i == |x| < |y| || (i < |x| && i < |y| && Order(x[i], y[i]) < 0))
  }

  ghost predicate ItemsBelow(x: seq<Datum>, y: seq<Datum>)
    requires AllWellFormed(x) && AllWellFormed(y)
  {
    exists i: nat :: ItemsBelowAt(x, y, i)
  }

  lemma ItemsBelowTail(x: seq<Datum>, y: seq<Datum>)
    requires AllWellFormed(x) && AllWellFormed(y) && |x| > 0 && |y| > 0 && Order(x[0], y[0]) == 0
    ensures AllWellFormed(x[1..]) && AllWellFormed(y[1..])
    ensures ItemsBelow(x, y) <==> ItemsBelow(x[1..], y[1..])
  {
    hide Order;
    if ItemsBelow(x[1..], y[1..]) {
      var i: nat :| ItemsBelowAt(x[1..], y[1..], i);
      assert forall k :: 0 < k < |x| ==> x[k] == x[1..][k - 1];
      assert forall k :: 0 < k < |y| ==> y[k] == y[1..][k - 1];
      assert ItemsBelowAt(x, y, i + 1);
    }
    if ItemsBelow(x, y) {
      var i: nat :| ItemsBelowAt(x, y, i);
      assert i > 0;
      assert ItemsBelowAt(x[1..], y[1..], i - 1);
    }
  }

  lemma {:induction false} ItemsByFirstDifference(x: seq<Datum>, y: seq<Datum>)
    requires AllWellFormed(x) && AllWellFormed(y)
    ensures ItemsOrder(x, y) < 0 <==> ItemsBelow(x, y)
    decreases |x|
  {
    hide Order;
    if |x| == 0 || |y| == 0 {
      if |x| < |y| {
        assert ItemsBelowAt(x, y, 0);
      }
    } else if Order(x[0], y[0]) != 0 {
      if Order(x[0], y[0]) < 0 {
        assert ItemsBelowAt(x, y, 0);
      }
    } else {
      ItemsBelowTail(x, y);
      ItemsByFirstDifference(x[1..], y[1..]);
    }
  }

  lemma ArraysByFirstDifference(x: seq<Datum>, y: seq<Datum>)
    requires AllWellFormed(x) && AllWellFormed(y)
    ensures Order(Array(x), Array(y)) < 0 <==> ItemsBelow(x, y)
  {
    ItemsByFirstDifference(x, y);
  }

  /** A proper prefix comes before the array. */
  lemma PrefixBelow(x: seq<Datum>, y: seq<Datum>)
    requires AllWellFormed(x) && AllWellFormed(y) && x < y
    ensures Order(Array(x), Array(y)) < 0
  {
    forall k | 0 <= k < |x|
      ensures Order(x[k], y[k]) == 0
    {
      TotalOrder(x[k], x[k], x[k]);
    }
    assert ItemsBelowAt(x, y, |x|);
    ArraysByFirstDifference(x, y);
  }

  // ----- Objects --------------------------------------------------------------------------------

  lemma FewerKeysBelow(a: Datum, b: Datum)
    requires WellFormed(a) && WellFormed(b) && a.Object? && b.Object? && |a.fields| < |b.fields|
    ensures Order(a, b) < 0
  {
    KeysCount(a);
    KeysCount(b);
  }

  lemma KeysCount(d: Datum)
    requires WellFormed(d) && d.Object?
    ensures |d.keys| == |d.fields|
  {
    AscendingCount(d.keys);
    assert d.fields.Keys == set k | k in d.keys;
    assert |d.fields| == |d.fields.Keys|;
  }

  lemma {:induction false} AscendingCount(keys: seq<Bytes>)
    requires Ascending(keys)
    ensures |set k | k in keys| == |keys|
  {
    if |keys| > 0 {
      var init, last := keys[..|keys| - 1], keys[|keys| - 1];
      AscendingCount(init);
      LessIrreflexive(last);
      assert keys == init + [last];
      assert (set k | k in keys) == (set k | k in init) + {last};
    }
  }

  /** The keys agree before place `i`, and there the first object has the smaller one. */
  ghost predicate KeysBelowAt(x: seq<Bytes>, y: seq<Bytes>, i: nat) {
    i < |x| && i < |y| && x[..i] == y[..i] && BytesBelow(x[i], y[i])
  }

  ghost predicate KeysBelow(x: seq<Bytes>, y: seq<Bytes>) {
    exists i: nat :: KeysBelowAt(x, y, i)
  }

  lemma {:induction false} KeysByFirstDifference(x: seq<Bytes>, y: seq<Bytes>)
    requires |x| == |y|
    ensures KeysOrder(x, y) < 0 <==> KeysBelow(x, y)
  {
    hide BytesBelow;
    if |x| > 0 {
      BytesByFirstDifference(x[0], y[0]);
      BytesOrderLaws(x[0], y[0], y[0]);
      KeysByFirstDifference(x[1..], y[1..]);
      if x[0] == y[0] {
        KeysBelowTail(x, y);
      } else {
        if BytesBelow(x[0], y[0]) {
          assert KeysBelowAt(x, y, 0);
        }
        if KeysBelow(x, y) {
          var i: nat :| KeysBelowAt(x, y, i);
          if i > 0 {
            SameStart(x, y, i);
          }
        }
      }
    }
  }

  lemma KeysBelowTail(x: seq<Bytes>, y: seq<Bytes>)
    requires |x| > 0 && |y| > 0 && x[0] == y[0]
    ensures KeysBelow(x, y) <==> KeysBelow(x[1..], y[1..])
  {
    hide BytesBelow;
    SelfNotBelow(x[0]);
    if KeysBelow(x[1..], y[1..]) {
      var i: nat :| KeysBelowAt(x[1..], y[1..], i);
      assert x[..i + 1] == [x[0]] + x[1..][..i] && y[..i + 1] == [y[0]] + y[1..][..i];
      assert KeysBelowAt(x, y, i + 1);
    }
    if KeysBelow(x, y) {
      var i: nat :| KeysBelowAt(x, y, i);
      assert i > 0;
      assert x[1..][..i - 1] == x[..i][1..] && y[1..][..i - 1] == y[..i][1..];
      assert KeysBelowAt(x[1..], y[1..], i - 1);
    }
  }

  lemma SelfNotBelow(a: Bytes)
    ensures !BytesBelow(a, a)
  {
    BytesByFirstDifference(a, a);
    LessIrreflexive(a);
  }

  /** The values agree on the first `i` keys, and there the first object has the smaller value. */
  ghost predicate ValuesBelowAt(a: Datum, b: Datum, i: nat)
    requires WellFormed(a) && WellFormed(b) && a.Object? && b.Object? && a.keys == b.keys
  {
    && i < |a.keys| && (forall j :: 0 <= j < i ==> Order(a.fields[a.keys[j]], b.fields[a.keys[j]]) == 0)
    && Order(a.fields[a.keys[i]], b.fields[a.keys[i]]) < 0
  }

  ghost predicate ValuesBelow(a: Datum, b: Datum)
    requires WellFormed(a) && WellFormed(b) && a.Object? && b.Object? && a.keys == b.keys
  {
    exists i: nat :: ValuesBelowAt(a, b, i)
  }

  lemma {:induction false} FieldsByFirstDifference(a: Datum, b: Datum, from: nat)
    requires WellFormed(a) && WellFormed(b) && a.Object? && b.Object? && a.keys == b.keys && from <= |a.keys|
    requires forall j :: 0 <= j < from ==> Order(a.fields[a.keys[j]], b.fields[a.keys[j]]) == 0
    ensures FieldsOrder(a, b, from) < 0 <==> ValuesBelow(a, b)
    decreases |a.keys| - from
  {
    hide Order;
    if from < |a.keys| {
      if Order(a.fields[a.keys[from]], b.fields[a.keys[from]]) == 0 {
        FieldsByFirstDifference(a, b, from + 1);
      } else if Order(a.fields[a.keys[from]], b.fields[a.keys[from]]) < 0 {
        assert ValuesBelowAt(a, b, from);
      }
    }
  }

  /** Fewer fields first; of as many, the first smaller key; with the same keys, the first smaller value. */
  lemma ObjectsByFirstDifference(a: Datum, b: Datum)
    requires WellFormed(a) && WellFormed(b) && a.Object? && b.Object?
    ensures Order(a, b) < 0 <==>
            || |a.fields| < |b.fields|
            || (|a.fields| == |b.fields| && KeysBelow(a.keys, b.keys))
            || (a.keys == b.keys && ValuesBelow(a, b))
  {
    KeysCount(a);
    KeysCount(b);
    if |a.keys| == |b.keys| {
      KeysByFirstDifference(a.keys, b.keys);
      KeysOrderZero(a.keys, b.keys);
      if a.keys == b.keys {
        FieldsByFirstDifference(a, b, 0);
      }
    }
  }
}
