/** The comparison code of datum.go with its loops, and the mutable objects. */
module DatumCode {
  import opened Bytes
  import opened Datum

  // ----- Compare -------------------------------------------------------------------------------

  method CompareTypes(a: Datum, b: Datum) returns (r: int)
    ensures r == Sign(TypeOrder(a) < TypeOrder(b), TypeOrder(a) > TypeOrder(b))
  {
    if TypeOrder(a) < TypeOrder(b) {
      return -1;
    }
    if TypeOrder(a) > TypeOrder(b) {
      return 1;
    }
    return 0;
  }

  method CompareNumbers(x: Number, y: Number) returns (r: int)
    ensures r == NumOrder(x, y)
  {
    if NumLess(x, y) {
      return -1;
    }
    if NumLess(y, x) {
      return 1;
    }
    if x.NaN? && y.NaN? {
      return 0;
    }
    if x.NaN? {
      return -1;
    }
    if y.NaN? {
      return 1;
    }
    return 0;
  }

  method CompareStrings(x: Bytes, y: Bytes) returns (r: int)
    ensures r == BytesOrder(x, y)
  {
    if Less(x, y) {
      return -1;
    }
    if Less(y, x) {
      return 1;
    }
    return 0;
  }

  /** The first difference decides, as the recursive order of byte strings says. */
  method CompareBytes(a: Bytes, b: Bytes) returns (r: int)
    ensures r == BytesOrder(a, b)
  {
    var minLen := |a|;
    if |b| < minLen {
      minLen := |b|;
    }
    var i := 0;
    while i < minLen
      invariant 0 <= i <= minLen
      invariant a[..i] == b[..i]
    {
      if a[i] < b[i] {
        FirstDifference(a, b, i);
        return -1;
      }
      if a[i] > b[i] {
        FirstDifference(b, a, i);
        FirstDifference(a, b, i);
        return 1;
      }
      i := i + 1;
    }
    FirstDifference(a, b, i);
    FirstDifference(b, a, i);
    if |a| < |b| {
      return -1;
    }
    if |a| > |b| {
      return 1;
    }
    return 0;
  }

  lemma {:induction false} FirstDifference(a: Bytes, b: Bytes, i: nat)
    requires i <= |a| && i <= |b| && a[..i] == b[..i]
    ensures Less(a, b) <==> Less(a[i..], b[i..])
    ensures Less(b, a) <==> Less(b[i..], a[i..])
  {
    if i > 0 {
      assert a[0] == a[..i][0] && b[0] == b[..i][0];
      assert a[1..][..i - 1] == a[..i][1..] && b[1..][..i - 1] == b[..i][1..];
      FirstDifference(a[1..], b[1..], i - 1);
      assert a[1..][i - 1..] == a[i..] && b[1..][i - 1..] == b[i..];
    } else {
      assert a[0..] == a && b[0..] == b;
    }
  }

  method Compare(a: Datum, b: Datum) returns (r: int)
    requires WellFormed(a) && WellFormed(b)
    ensures r == Order(a, b)
    decreases a, 2
  {
    if TypeOrder(a) != TypeOrder(b) {
      OrderByType(a, b);
      r := CompareTypes(a, b);
      return;
    }
    match a {
      case MinVal => r := 0;
      case MaxVal => r := 0;
      case Null => r := 0;
      case Bool(x) =>
        if x == b.boolVal {
          return 0;
        }
        if !x {
          return -1;
        }
        return 1;
      case Num(x) => r := CompareNumbers(x, b.numVal);
      case Str(x) => r := CompareStrings(x, b.strVal);
      case Array(x) => r := CompareArrays(x, b.arrayVal);
      case Object(_, _) => r := CompareObjects(a, b);
      case Binary(x) => r := CompareBytes(x, b.binaryVal);
      case Time(x, _) =>
        if x < b.instant {
          return -1;
        }
        if x > b.instant {
          return 1;
        }
        return 0;
      case Geometry(x, _) => r := CompareStrings(x, b.geomType);
    }
  }

  method CompareArrays(a: seq<Datum>, b: seq<Datum>) returns (r: int)
    requires AllWellFormed(a) && AllWellFormed(b)
    ensures r == ItemsOrder(a, b)
    decreases a, 0
  {
    var minLen := |a|;
    if |b| < minLen {
      minLen := |b|;
    }
    var i := 0;
    assert a[0..] == a && b[0..] == b;
    while i < minLen
      invariant 0 <= i <= minLen
      invariant ItemsOrder(a, b) == ItemsOrder(a[i..], b[i..])
    {
      var cmp := Compare(a[i], b[i]);
      if cmp != 0 {
        return cmp;
      }
      assert a[i..][1..] == a[i + 1..] && b[i..][1..] == b[i + 1..];
      i := i + 1;
    }
    if |a| < |b| {
      return -1;
    }
    if |a| > |b| {
      return 1;
    }
    return 0;
  }

  method CompareObjects(a: Datum, b: Datum) returns (r: int)
    requires WellFormed(a) && WellFormed(b) && a.Object? && b.Object?
    ensures r == ObjectOrder(a, b)
    decreases a, 1
  {
    if |a.keys| < |b.keys| {
      return -1;
    }
    if |a.keys| > |b.keys| {
      return 1;
    }
    r := CompareKeys(a.keys, b.keys);
    KeysOrderZero(a.keys, b.keys);
    if r != 0 {
      return;
    }
    var i := 0;
    while i < |a.keys|
      invariant 0 <= i <= |a.keys| && r == 0
      invariant FieldsOrder(a, b, 0) == FieldsOrder(a, b, i)
    {
      var key := a.keys[i];
      var cmp := Compare(a.fields[key], b.fields[key]);
      if cmp != 0 {
        return cmp;
      }
      i := i + 1;
    }
  }

  method CompareKeys(x: seq<Bytes>, y: seq<Bytes>) returns (r: int)
    requires |x| == |y|
    ensures r == KeysOrder(x, y)
  {
    var i := 0;
    assert x[0..] == x && y[0..] == y;
    while i < |x|
      invariant 0 <= i <= |x|
      invariant KeysOrder(x, y) == KeysOrder(x[i..], y[i..])
    {
      if Less(x[i], y[i]) {
        return -1;
      }
      if Less(y[i], x[i]) {
        return 1;
      }
      assert x[i..][1..] == x[i + 1..] && y[i..][1..] == y[i + 1..];
      i := i + 1;
    }
    return 0;
  }

  // ----- Sorting keys ----------------------------------------------------------------------------

  ghost predicate NonDescending(keys: seq<Bytes>) {
    forall i, j :: 0 <= i < j < |keys| ==> !Less(keys[j], keys[i])
  }

  /** What the library sort promises: the same keys, in order. */
  method SortStrings(keys: seq<Bytes>) returns (sorted: seq<Bytes>)
    ensures NonDescending(sorted) && multiset(sorted) == multiset(keys)
  {
    sorted := [];
    var i := 0;
    while i < |keys|
      invariant 0 <= i <= |keys|
      invariant NonDescending(sorted) && multiset(sorted) == multiset(keys[..i])
    {
      sorted := InsertString(sorted, keys[i]);
      assert keys[..i + 1] == keys[..i] + [keys[i]];
      i := i + 1;
    }
    assert keys[..i] == keys;
  }

  method InsertString(keys: seq<Bytes>, key: Bytes) returns (longer: seq<Bytes>)
    requires NonDescending(keys)
    ensures NonDescending(longer) && multiset(longer) == multiset(keys) + multiset{key}
  {
    var i := |keys|;
    while i > 0 && Less(key, keys[i - 1])
      invariant 0 <= i <= |keys|
      invariant forall j :: i <= j < |keys| ==> Less(key, keys[j])
    {
      i := i - 1;
    }
    InsertedInOrder(keys, key, i);
    assert keys == keys[..i] + keys[i..];
    longer := keys[..i] + [key] + keys[i..];
  }

  lemma InsertedInOrder(keys: seq<Bytes>, key: Bytes, i: nat)
    requires NonDescending(keys) && i <= |keys|
    requires i > 0 ==> !Less(key, keys[i - 1])
    requires forall j :: i <= j < |keys| ==> Less(key, keys[j])
    ensures NonDescending(keys[..i] + [key] + keys[i..])
  {
    var all := keys[..i] + [key] + keys[i..];
    forall a, b | 0 <= a < b < |all|
      ensures !Less(all[b], all[a])
    {
      if b == i && a < i - 1 {
        LessTotal(keys[a], keys[i - 1]);
        LessIsStrictOrder(key, keys[a], keys[i - 1]);
      }
      if a == i {
        LessIsStrictOrder(key, keys[b - 1], key);
      }
    }
  }

  /** Distinct keys in order are strictly ascending. */
  lemma DistinctAscend(keys: seq<Bytes>)
    requires NonDescending(keys) && forall i, j :: 0 <= i < j < |keys| ==> keys[i] != keys[j]
    ensures Ascending(keys)
  {
    forall i, j | 0 <= i < j < |keys|
      ensures Less(keys[i], keys[j])
    {
      LessTotal(keys[i], keys[j]);
    }
  }

  lemma {:induction false} OnceEach(keys: seq<Bytes>)
    requires forall k :: multiset(keys)[k] <= 1
    ensures forall i, j :: 0 <= i < j < |keys| ==> keys[i] != keys[j]
  {
    forall i, j | 0 <= i < j < |keys|
      ensures keys[i] != keys[j]
    {
      assert keys == keys[..i] + [keys[i]] + keys[i + 1..j] + [keys[j]] + keys[j + 1..];
      assert multiset(keys)[keys[i]] >= multiset{keys[i]}[keys[i]] + multiset{keys[j]}[keys[i]];
    }
  }

  lemma {:induction false} AscendingOnce(keys: seq<Bytes>, k: Bytes)
    requires Ascending(keys)
    ensures multiset(keys)[k] <= 1 && (multiset(keys)[k] == 1 <==> k in keys)
  {
    if |keys| > 0 {
      var last := |keys| - 1;
      AscendingOnce(keys[..last], k);
      LessIrreflexive(k);
      assert keys == keys[..last] + [keys[last]];
      assert k == keys[last] ==> k !in keys[..last];
    }
  }

  /** Every field has one place in the keys, in whatever order. */
  ghost predicate OnePlaceEach(keys: seq<Bytes>, fields: map<Bytes, Datum>) {
    forall k :: multiset(keys)[k] == if k in fields then 1 else 0
  }

  lemma OneMorePlace(keys: seq<Bytes>, fields: map<Bytes, Datum>, key: Bytes, val: Datum)
    requires OnePlaceEach(keys, fields) && key !in fields
    ensures OnePlaceEach(keys + [key], fields[key := val])
  {
  }

  lemma MatchHasPlaces(keys: seq<Bytes>, fields: map<Bytes, Datum>)
    requires KeysMatch(keys, fields)
    ensures OnePlaceEach(keys, fields)
  {
    forall k
      ensures multiset(keys)[k] == if k in fields then 1 else 0
    {
      AscendingOnce(keys, k);
    }
  }

  lemma SortedMatch(keys: seq<Bytes>, fields: map<Bytes, Datum>)
    requires NonDescending(keys) && OnePlaceEach(keys, fields)
    ensures KeysMatch(keys, fields)
  {
    OnceEach(keys);
    DistinctAscend(keys);
    assert forall k :: k in keys <==> k in multiset(keys);
  }

  ghost predicate SameSet(x: seq<Bytes>, y: seq<Bytes>) {
    forall k :: k in x <==> k in y
  }

  lemma HeadOff(keys: seq<Bytes>)
    requires Ascending(keys) && |keys| > 0
    ensures Ascending(keys[1..]) && forall k :: k in keys[1..] <==> k in keys && k != keys[0]
  {
    LessIrreflexive(keys[0]);
    assert keys == [keys[0]] + keys[1..];
  }

  lemma SameFirst(x: seq<Bytes>, y: seq<Bytes>)
    requires Ascending(x) && Ascending(y) && SameSet(x, y) && |x| > 0 && |y| > 0
    ensures x[0] == y[0]
  {
    assert x[0] in y && y[0] in x;
    LessIsStrictOrder(x[0], y[0], x[0]);
  }

  lemma HasFirst(x: seq<Bytes>)
    requires |x| > 0
    ensures x[0] in x
  {
  }

  lemma {:induction false} SameList(x: seq<Bytes>, y: seq<Bytes>)
    requires Ascending(x) && Ascending(y) && SameSet(x, y)
    ensures x == y
  {
    if |x| == 0 {
      if |y| > 0 {
        HasFirst(y);
      }
    } else {
      assert x[0] in y;
      SameFirst(x, y);
      HeadOff(x);
      HeadOff(y);
      SameList(x[1..], y[1..]);
      assert x == [x[0]] + x[1..] && y == [y[0]] + y[1..];
    }
  }

  /** The fields leave no choice in the keys: whatever the order of sets and deletes, it is one list. */
  lemma KeysDetermined(keys: seq<Bytes>, keys': seq<Bytes>, fields: map<Bytes, Datum>)
    requires KeysMatch(keys, fields) && KeysMatch(keys', fields)
    ensures keys == keys'
  {
    SameList(keys, keys');
  }

  // ----- Objects -----------------------------------------------------------------------------------

  class ObjectData {
    var fields: map<Bytes, Datum>
    var keys: seq<Bytes>

    ghost predicate Valid()
      reads this
    {
      KeysMatch(keys, fields)
    }

    /** From a map, whose keys the source visits in no particular order. */
    constructor FromMap(m: map<Bytes, Datum>)
      ensures Valid() && fields == m
    {
      fields, keys := map[], [];
      new;
      var rest := m.Keys;
      while rest != {}
        invariant rest <= m.Keys && fields.Keys == m.Keys - rest
        invariant forall k :: k in fields ==> fields[k] == m[k]
        invariant OnePlaceEach(keys, fields)
      {
        var k :| k in rest;
        OneMorePlace(keys, fields, k, m[k]);
        fields := fields[k := m[k]];
        keys := keys + [k];
        rest := rest - {k};
      }
      keys := SortStrings(keys);
      SortedMatch(keys, fields);
    }

    method Get(key: Bytes) returns (val: Datum, ok: bool)
      ensures ok == (key in fields)
      ensures val == if ok then fields[key] else MinVal
    {
      if key in fields {
        return fields[key], true;
      }
      return MinVal, false;
    }

    method Set(key: Bytes, val: Datum)
      requires Valid()
      modifies this
      ensures Valid() && fields == old(fields)[key := val]
      ensures key in old(fields) ==> keys == old(keys)
    {
      if key !in fields {
        MatchHasPlaces(keys, fields);
        OneMorePlace(keys, fields, key, val);
        keys := keys + [key];
        keys := SortStrings(keys);
        SortedMatch(keys, fields[key := val]);
      }
      fields := fields[key := val];
    }

    /** Takes the key out of the fields and its place out of the keys. */
    method Delete(key: Bytes)
      requires Valid()
      modifies this
      ensures Valid() && fields == old(fields) - {key}
    {
      if key in fields {
        fields := fields - {key};
        var i := IndexOf(keys, key);
        DeletedKey(keys, i);
        keys := keys[..i] + keys[i + 1..];
      }
    }

    method Values() returns (vals: seq<Datum>)
      requires Valid()
      ensures |vals| == |keys| && forall i :: 0 <= i < |keys| ==> vals[i] == fields[keys[i]]
    {
      vals := [];
      for i := 0 to |keys|
        invariant |vals| == i && forall j :: 0 <= j < i ==> vals[j] == fields[keys[j]]
      {
        vals := vals + [fields[keys[i]]];
      }
    }
  }

  method IndexOf(keys: seq<Bytes>, key: Bytes) returns (i: nat)
    requires key in keys
    ensures i < |keys| && keys[i] == key && key !in keys[..i]
  {
    i := 0;
    while keys[i] != key
      invariant i < |keys| && key !in keys[..i]
      decreases |keys| - i
    {
      assert keys[..i + 1] == keys[..i] + [keys[i]];
      assert keys == keys[..i] + [keys[i]] + keys[i + 1..];
      i := i + 1;
    }
  }

  lemma DeletedKey(keys: seq<Bytes>, i: nat)
    requires Ascending(keys) && i < |keys|
    ensures var rest := keys[..i] + keys[i + 1..];
            Ascending(rest) && forall k :: k in rest <==> k in keys && k != keys[i]
  {
    LessIrreflexive(keys[i]);
    assert keys == keys[..i] + [keys[i]] + keys[i + 1..];
    assert keys[i] !in keys[..i] && keys[i] !in keys[i + 1..];
  }
}
