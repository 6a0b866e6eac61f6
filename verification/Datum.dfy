/** ReQL values, their order, and the objects inside them. A string is its bytes, as Go compares them. */
module Datum {
  import opened Bytes

  /** A float64 as far as its order goes: NaN beside the ordered values. */
  datatype Number = NaN | NegInf | Finite(value: real) | PosInf

  datatype Datum =
    | MinVal
    | MaxVal
    | Null
    | Bool(boolVal: bool)
    | Num(numVal: Number)
    | Str(strVal: Bytes)
    | Array(arrayVal: seq<Datum>)
    | Object(keys: seq<Bytes>, fields: map<Bytes, Datum>)
    | Binary(binaryVal: Bytes)
    | Time(instant: int, zone: int)
    | Geometry(geomType: Bytes, coordinates: seq<real>)

  /** What ObjectData keeps: the keys are exactly the fields, sorted, each once. */
  ghost predicate KeysMatch(keys: seq<Bytes>, fields: map<Bytes, Datum>) {
    Ascending(keys) && forall k :: k in keys <==> k in fields
  }

  ghost predicate WellFormed(d: Datum)
    decreases d
  {
    match d
    case Array(items) => forall i :: 0 <= i < |items| ==> WellFormed(items[i])
    case Object(keys, fields) => KeysMatch(keys, fields) && forall k :: k in fields ==> WellFormed(fields[k])
    case _ => true
  }

  ghost predicate AllWellFormed(items: seq<Datum>) {
    forall i :: 0 <= i < |items| ==> WellFormed(items[i])
  }

  // ----- The order ---------------------------------------------------------------------------

  function TypeOrder(d: Datum): int {
    match d
    case MinVal => 0
    case Null => 1
    case Bool(_) => 2
    case Num(_) => 3
    case Str(_) => 4
    case Array(_) => 5
    case Object(_, _) => 6
    case Binary(_) => 7
    case Time(_, _) => 8
    case Geometry(_, _) => 9
    case MaxVal => 10
  }

  function Sign(less: bool, greater: bool): int {
    if less then -1 else if greater then 1 else 0
  }

  function NumLess(a: Number, b: Number): bool {
    match (a, b)
    case (Finite(x), Finite(y)) => x < y
    case (NegInf, Finite(_)) => true
    case (NegInf, PosInf) => true
    case (Finite(_), PosInf) => true
    case _ => false
  }

  /** NaN equals itself and is below every number. */
  function NumOrder(a: Number, b: Number): int {
    Sign(NumLess(a, b) || (a.NaN? && !b.NaN?), NumLess(b, a) || (b.NaN? && !a.NaN?))
  }

  function BytesOrder(a: Bytes, b: Bytes): int {
    Sign(Less(a, b), Less(b, a))
  }

  function KeysOrder(x: seq<Bytes>, y: seq<Bytes>): int
    requires |x| == |y|
  {
    if |x| == 0 then 0
    else if BytesOrder(x[0], y[0]) != 0 then BytesOrder(x[0], y[0])
    else KeysOrder(x[1..], y[1..])
  }

  /** The order of all values: first by type, then by value. */
  ghost function Order(a: Datum, b: Datum): int
    requires WellFormed(a) && WellFormed(b)
    decreases a, 2, 0
  {
    match (a, b)
    case (Bool(x), Bool(y)) => Sign(!x && y, x && !y)
    case (Num(x), Num(y)) => NumOrder(x, y)
    case (Str(x), Str(y)) => BytesOrder(x, y)
    case (Array(x), Array(y)) => ItemsOrder(x, y)
    case (Object(_, _), Object(_, _)) => ObjectOrder(a, b)
    case (Binary(x), Binary(y)) => BytesOrder(x, y)
    case (Time(x, _), Time(y, _)) => Sign(x < y, x > y)
    case (Geometry(x, _), Geometry(y, _)) => BytesOrder(x, y)
    case _ => Sign(TypeOrder(a) < TypeOrder(b), TypeOrder(a) > TypeOrder(b))
  }

  /** Item by item; of two with a common start the shorter is smaller. */
  ghost function ItemsOrder(x: seq<Datum>, y: seq<Datum>): int
    requires AllWellFormed(x) && AllWellFormed(y)
    decreases x, 0, 0
  {
    if |x| == 0 || |y| == 0 then Sign(|x| < |y|, |x| > |y|)
    else if Order(x[0], y[0]) != 0 then Order(x[0], y[0])
    else ItemsOrder(x[1..], y[1..])
  }

  /** Fewer keys first, then the keys, then the values in the order of the keys. */
  ghost function ObjectOrder(a: Datum, b: Datum): int
    requires WellFormed(a) && WellFormed(b) && a.Object? && b.Object?
    decreases a, 1, 0
  {
    if |a.keys| != |b.keys| then Sign(|a.keys| < |b.keys|, |a.keys| > |b.keys|)
    else if KeysOrder(a.keys, b.keys) != 0 then KeysOrder(a.keys, b.keys)
    else KeysOrderZero(a.keys, b.keys); FieldsOrder(a, b, 0)
  }

  ghost function FieldsOrder(a: Datum, b: Datum, i: nat): int
    requires WellFormed(a) && WellFormed(b) && a.Object? && b.Object? && a.keys == b.keys && i <= |a.keys|
    decreases a, 0, |a.keys| - i
  {
    if i == |a.keys| then 0
    else
      var k := a.keys[i];
      if Order(a.fields[k], b.fields[k]) != 0 then Order(a.fields[k], b.fields[k])
      else FieldsOrder(a, b, i + 1)
  }

  // ----- The leaves of the order ------------------------------------------------------------------

  lemma BytesOrderLaws(a: Bytes, b: Bytes, c: Bytes)
    ensures BytesOrder(a, b) == 0 <==> a == b
    ensures BytesOrder(a, b) == -BytesOrder(b, a)
    ensures Chain(BytesOrder(a, b), BytesOrder(b, c), BytesOrder(a, c))
  {
    LessIsStrictOrder(a, b, c);
    LessIsStrictOrder(a, c, b);
    LessIsStrictOrder(b, c, a);
    LessIsStrictOrder(c, b, a);
    LessTotal(a, b);
    LessTotal(b, c);
  }

  lemma {:induction false} KeysOrderZero(x: seq<Bytes>, y: seq<Bytes>)
    requires |x| == |y|
    ensures KeysOrder(x, y) == 0 <==> x == y
  {
    if |x| > 0 {
      BytesOrderLaws(x[0], y[0], y[0]);
      KeysOrderZero(x[1..], y[1..]);
      assert x == [x[0]] + x[1..] && y == [y[0]] + y[1..];
    }
  }

  lemma {:induction false} KeysOrderFlips(x: seq<Bytes>, y: seq<Bytes>)
    requires |x| == |y|
    ensures KeysOrder(x, y) == -KeysOrder(y, x)
  {
    if |x| > 0 {
      BytesOrderLaws(x[0], y[0], y[0]);
      KeysOrderFlips(x[1..], y[1..]);
    }
  }

  lemma {:induction false} KeysOrderChains(x: seq<Bytes>, y: seq<Bytes>, z: seq<Bytes>)
    requires |x| == |y| == |z|
    ensures Chain(KeysOrder(x, y), KeysOrder(y, z), KeysOrder(x, z))
  {
    if |x| > 0 {
      BytesOrderLaws(x[0], y[0], z[0]);
      KeysOrderChains(x[1..], y[1..], z[1..]);
    }
  }

  /** How two comparisons in a row compose: transitivity, and equality only where both are. */
  ghost predicate Chain(ab: int, bc: int, ac: int) {
    ab <= 0 && bc <= 0 ==> ac <= 0 && (ac == 0 <==> ab == 0 && bc == 0)
  }

  // ----- The order is total ----------------------------------------------------------------------

  /** Swapping the operands swaps the sign, so any two values are comparable. */
  lemma {:induction false} OrderFlips(a: Datum, b: Datum)
    requires WellFormed(a) && WellFormed(b)
    ensures Order(a, b) == -Order(b, a) && -1 <= Order(a, b) <= 1
    decreases a, 2, 0
  {
    match (a, b)
    case (Str(x), Str(y)) => BytesOrderLaws(x, y, y);
    case (Binary(x), Binary(y)) => BytesOrderLaws(x, y, y);
    case (Geometry(x, _), Geometry(y, _)) => BytesOrderLaws(x, y, y);
    case (Array(x), Array(y)) => ItemsFlip(x, y);
    case (Object(_, _), Object(_, _)) =>
      if |a.keys| == |b.keys| {
        KeysOrderFlips(a.keys, b.keys);
        KeysOrderSign(a.keys, b.keys);
        KeysOrderZero(a.keys, b.keys);
        if a.keys == b.keys {
          FieldsFlip(a, b, 0);
        }
      }
    case _ =>
  }

  lemma {:induction false} KeysOrderSign(x: seq<Bytes>, y: seq<Bytes>)
    requires |x| == |y|
    ensures -1 <= KeysOrder(x, y) <= 1
  {
    if |x| > 0 {
      KeysOrderSign(x[1..], y[1..]);
    }
  }

  lemma {:induction false} ItemsFlip(x: seq<Datum>, y: seq<Datum>)
    requires AllWellFormed(x) && AllWellFormed(y)
    ensures ItemsOrder(x, y) == -ItemsOrder(y, x) && -1 <= ItemsOrder(x, y) <= 1
    decreases x, 0, 0
  {
    if |x| > 0 && |y| > 0 {
      OrderFlips(x[0], y[0]);
      ItemsFlip(x[1..], y[1..]);
    }
  }

  lemma {:induction false} FieldsFlip(a: Datum, b: Datum, i: nat)
    requires WellFormed(a) && WellFormed(b) && a.Object? && b.Object? && a.keys == b.keys && i <= |a.keys|
    ensures FieldsOrder(a, b, i) == -FieldsOrder(b, a, i) && -1 <= FieldsOrder(a, b, i) <= 1
    decreases a, 0, |a.keys| - i
  {
    if i < |a.keys| {
      OrderFlips(a.fields[a.keys[i]], b.fields[a.keys[i]]);
      FieldsFlip(a, b, i + 1);
    }
  }

  /** The order is transitive, and two equal steps are the only way to an equal end. */
  lemma {:induction false} OrderChains(a: Datum, b: Datum, c: Datum)
    requires WellFormed(a) && WellFormed(b) && WellFormed(c)
    ensures Chain(Order(a, b), Order(b, c), Order(a, c))
    decreases a, 2, 0
  {
    if TypeOrder(a) == TypeOrder(b) == TypeOrder(c) {
      match a
      case Str(x) => BytesOrderLaws(x, b.strVal, c.strVal);
      case Binary(x) => BytesOrderLaws(x, b.binaryVal, c.binaryVal);
      case Geometry(x, _) => BytesOrderLaws(x, b.geomType, c.geomType);
      case Array(x) => ItemsChain(x, b.arrayVal, c.arrayVal);
      case Object(_, _) => ObjectsChain(a, b, c);
      case _ =>
    } else {
      OrderByType(a, b);
      OrderByType(b, c);
      OrderByType(a, c);
    }
  }

  lemma OrderByType(a: Datum, b: Datum)
    requires WellFormed(a) && WellFormed(b)
    ensures TypeOrder(a) != TypeOrder(b) ==>
              Order(a, b) == Sign(TypeOrder(a) < TypeOrder(b), TypeOrder(a) > TypeOrder(b))
  {
  }

  lemma {:induction false} ItemsChain(x: seq<Datum>, y: seq<Datum>, z: seq<Datum>)
    requires AllWellFormed(x) && AllWellFormed(y) && AllWellFormed(z)
    ensures Chain(ItemsOrder(x, y), ItemsOrder(y, z), ItemsOrder(x, z))
    decreases x, 0, 0
  {
    if |x| > 0 && |y| > 0 && |z| > 0 {
      OrderChains(x[0], y[0], z[0]);
      ItemsChain(x[1..], y[1..], z[1..]);
    }
  }

  lemma {:induction false} ObjectsChain(a: Datum, b: Datum, c: Datum)
    requires WellFormed(a) && WellFormed(b) && WellFormed(c) && a.Object? && b.Object? && c.Object?
    ensures Chain(ObjectOrder(a, b), ObjectOrder(b, c), ObjectOrder(a, c))
    decreases a, 1, 0
  {
    if |a.keys| == |b.keys| == |c.keys| {
      KeysOrderChains(a.keys, b.keys, c.keys);
      KeysOrderZero(a.keys, b.keys);
      KeysOrderZero(b.keys, c.keys);
      KeysOrderZero(a.keys, c.keys);
      if a.keys == b.keys == c.keys {
        FieldsChain(a, b, c, 0);
      }
    }
  }

  lemma {:induction false} FieldsChain(a: Datum, b: Datum, c: Datum, i: nat)
    requires WellFormed(a) && WellFormed(b) && WellFormed(c) && a.Object? && b.Object? && c.Object?
    requires a.keys == b.keys == c.keys && i <= |a.keys|
    ensures Chain(FieldsOrder(a, b, i), FieldsOrder(b, c, i), FieldsOrder(a, c, i))
    decreases a, 0, |a.keys| - i
  {
    if i < |a.keys| {
      var k := a.keys[i];
      OrderChains(a.fields[k], b.fields[k], c.fields[k]);
      FieldsChain(a, b, c, i + 1);
    }
  }

  // ----- When two values compare equal ---------------------------------------------------------------

  /** A value without what the order does not look at: time zones and coordinates. */
  function Visible(d: Datum): Datum
    decreases d
  {
    match d
    case Array(items) => Array(seq(|items|, i requires 0 <= i < |items| => Visible(items[i])))
    case Object(keys, fields) => Object(keys, map k | k in fields :: Visible(fields[k]))
    case Time(instant, _) => Time(instant, 0)
    case Geometry(geomType, _) => Geometry(geomType, [])
    case _ => d
  }

  /** Two values compare equal exactly when they differ in nothing but zones and coordinates. */
  lemma {:induction false} EqualIffVisibleEqual(a: Datum, b: Datum)
    requires WellFormed(a) && WellFormed(b)
    ensures Order(a, b) == 0 <==> Visible(a) == Visible(b)
    decreases a, 2, 0
  {
    if TypeOrder(a) != TypeOrder(b) {
      OrderByType(a, b);
    } else {
      match a
      case Str(x) => BytesOrderLaws(x, b.strVal, b.strVal);
      case Binary(x) => BytesOrderLaws(x, b.binaryVal, b.binaryVal);
      case Geometry(x, _) => BytesOrderLaws(x, b.geomType, b.geomType);
      case Array(x) => ItemsEqual(x, b.arrayVal);
      case Object(_, _) => ObjectsEqual(a, b);
      case _ =>
    }
  }

  ghost predicate SameItems(x: seq<Datum>, y: seq<Datum>) {
    |x| == |y| && forall i :: 0 <= i < |x| ==> Visible(x[i]) == Visible(y[i])
  }

  lemma {:induction false} ItemsEqual(x: seq<Datum>, y: seq<Datum>)
    requires AllWellFormed(x) && AllWellFormed(y)
    ensures ItemsOrder(x, y) == 0 <==> SameItems(x, y)
    ensures ItemsOrder(x, y) == 0 <==> Visible(Array(x)) == Visible(Array(y))
    decreases x, 0, 0
  {
    if |x| > 0 && |y| > 0 {
      EqualIffVisibleEqual(x[0], y[0]);
      ItemsEqual(x[1..], y[1..]);
      assert SameItems(x, y) <==> Visible(x[0]) == Visible(y[0]) && SameItems(x[1..], y[1..]) by {
        assert forall i :: 0 < i < |x| ==> x[i] == x[1..][i - 1];
        assert forall i :: 0 < i < |y| ==> y[i] == y[1..][i - 1];
      }
    }
    VisibleItems(x, y);
  }

  lemma VisibleItems(x: seq<Datum>, y: seq<Datum>)
    ensures SameItems(x, y) <==> Visible(Array(x)) == Visible(Array(y))
  {
    var vx, vy := Visible(Array(x)).arrayVal, Visible(Array(y)).arrayVal;
    assert |vx| == |x| && |vy| == |y|;
    assert forall i :: 0 <= i < |x| ==> vx[i] == Visible(x[i]);
    assert forall i :: 0 <= i < |y| ==> vy[i] == Visible(y[i]);
    assert vx == vy ==> SameItems(x, y);
    assert SameItems(x, y) ==> vx == vy;
  }

  ghost predicate SameFields(a: Datum, b: Datum, i: nat)
    requires WellFormed(a) && WellFormed(b) && a.Object? && b.Object? && a.keys == b.keys
  {
    forall j :: i <= j < |a.keys| ==> Visible(a.fields[a.keys[j]]) == Visible(b.fields[a.keys[j]])
  }

  lemma {:induction false} ObjectsEqual(a: Datum, b: Datum)
    requires WellFormed(a) && WellFormed(b) && a.Object? && b.Object?
    ensures ObjectOrder(a, b) == 0 <==> Visible(a) == Visible(b)
    decreases a, 1, 0
  {
    if |a.keys| == |b.keys| {
      KeysOrderZero(a.keys, b.keys);
      if a.keys == b.keys {
        FieldsEqual(a, b, 0);
        var va, vb := Visible(a).fields, Visible(b).fields;
        assert forall k :: k in a.fields <==> k in b.fields;
        assert va == vb ==> SameFields(a, b, 0) by {
          assert forall j :: 0 <= j < |a.keys| ==> va[a.keys[j]] == Visible(a.fields[a.keys[j]]);
          assert forall j :: 0 <= j < |a.keys| ==> vb[a.keys[j]] == Visible(b.fields[a.keys[j]]);
        }
        assert SameFields(a, b, 0) ==> va == vb by {
          forall k | k in a.fields && SameFields(a, b, 0)
            ensures va[k] == vb[k]
          {
            var j :| 0 <= j < |a.keys| && a.keys[j] == k;
          }
        }
      }
    }
  }

  lemma {:induction false} FieldsEqual(a: Datum, b: Datum, i: nat)
    requires WellFormed(a) && WellFormed(b) && a.Object? && b.Object? && a.keys == b.keys && i <= |a.keys|
    ensures FieldsOrder(a, b, i) == 0 <==> SameFields(a, b, i)
    decreases a, 0, |a.keys| - i
  {
    if i < |a.keys| {
      EqualIffVisibleEqual(a.fields[a.keys[i]], b.fields[a.keys[i]]);
      FieldsEqual(a, b, i + 1);
    }
  }

  /** No time and no geometry anywhere inside. */
  ghost predicate Plain(d: Datum)
    decreases d
  {
    match d
    case Array(items) => forall i :: 0 <= i < |items| ==> Plain(items[i])
    case Object(_, fields) => forall k :: k in fields ==> Plain(fields[k])
    case Time(_, _) => false
    case Geometry(_, _) => false
    case _ => true
  }

  lemma {:induction false} PlainIsVisible(d: Datum)
    requires Plain(d)
    ensures Visible(d) == d
    decreases d
  {
    match d
    case Array(items) =>
      forall i | 0 <= i < |items|
        ensures Visible(items[i]) == items[i]
      {
        PlainIsVisible(items[i]);
      }
      assert Visible(d).arrayVal == items;
    case Object(_, fields) =>
      forall k | k in fields
        ensures Visible(fields[k]) == fields[k]
      {
        PlainIsVisible(fields[k]);
      }
      assert Visible(d).fields == fields;
    case _ =>
  }

  /** Without times and geometries the order tells any two values apart. */
  lemma EqualIffSame(a: Datum, b: Datum)
    requires WellFormed(a) && WellFormed(b) && Plain(a) && Plain(b)
    ensures Order(a, b) == 0 <==> a == b
  {
    EqualIffVisibleEqual(a, b);
    PlainIsVisible(a);
    PlainIsVisible(b);
  }

  /** Reflexive, antisymmetric in sign, transitive, total. */
  lemma TotalOrder(a: Datum, b: Datum, c: Datum)
    requires WellFormed(a) && WellFormed(b) && WellFormed(c)
    ensures Order(a, a) == 0
    ensures Order(a, b) == -Order(b, a)
    ensures Order(a, b) <= 0 && Order(b, c) <= 0 ==> Order(a, c) <= 0
    ensures Order(a, b) <= 0 || Order(b, a) <= 0
  {
    EqualIffVisibleEqual(a, a);
    OrderFlips(a, b);
    OrderChains(a, b, c);
  }
}
