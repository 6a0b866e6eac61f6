/** The operators of the evaluator that rest on the order of values. */
module Operators {
  import opened Bytes
  import opened Datum
  import opened DatumCode

  /** A missing field reads as the zero datum, which is MinVal. */
  function Field(doc: Datum, field: Bytes): Datum {
    if doc.Object? && field in doc.fields then doc.fields[field] else MinVal
  }

  lemma FieldWellFormed(doc: Datum, field: Bytes)
    requires WellFormed(doc)
    ensures WellFormed(Field(doc, field))
  {
  }

  // ----- orderBy --------------------------------------------------------------------------------

  /** The strings of the key argument; anything else in it is passed over. */
  function FieldNames(key: Datum): seq<Bytes> {
    match key
    case Array(items) => Strings(items)
    case Str(s) => [s]
    case _ => []
  }

  function Strings(items: seq<Datum>): seq<Bytes> {
    if |items| == 0 then []
    else
      var last := items[|items| - 1];
      Strings(items[..|items| - 1]) + (if last.Str? then [last.strVal] else [])
  }

  method ExtractFields(key: Datum) returns (fields: seq<Bytes>)
    ensures fields == FieldNames(key)
  {
    fields := [];
    if key.Array? {
      var items := key.arrayVal;
      for i := 0 to |items|
        invariant fields == Strings(items[..i])
      {
        assert items[..i + 1][..i] == items[..i];
        if items[i].Str? {
          fields := fields + [items[i].strVal];
        }
      }
      assert items[..|items|] == items;
    } else if key.Str? {
      fields := [key.strVal];
    }
  }

  /** The first field in which two documents differ decides. */
  ghost function RowOrder(fields: seq<Bytes>, x: Datum, y: Datum): int
    requires WellFormed(x) && WellFormed(y)
  {
    if |fields| == 0 then 0
    else if Order(Field(x, fields[0]), Field(y, fields[0])) != 0 then Order(Field(x, fields[0]), Field(y, fields[0]))
    else RowOrder(fields[1..], x, y)
  }

  method RowLess(fields: seq<Bytes>, x: Datum, y: Datum) returns (less: bool)
    requires WellFormed(x) && WellFormed(y)
    ensures less <==> RowOrder(fields, x, y) < 0
  {
    assert fields[0..] == fields;
    for i := 0 to |fields|
      invariant RowOrder(fields, x, y) == RowOrder(fields[i..], x, y)
    {
      assert fields[i..][1..] == fields[i + 1..];
      var vi, vj := MinVal, MinVal;
      if x.Object? && fields[i] in x.fields {
        vi := x.fields[fields[i]];
      }
      if y.Object? && fields[i] in y.fields {
        vj := y.fields[fields[i]];
      }
      var cmp := Compare(vi, vj);
      if cmp != 0 {
        return cmp < 0;
      }
    }
    return false;
  }

  lemma {:induction false} RowOrderLaws(fields: seq<Bytes>, x: Datum, y: Datum, z: Datum)
    requires WellFormed(x) && WellFormed(y) && WellFormed(z)
    ensures RowOrder(fields, x, x) == 0
    ensures RowOrder(fields, x, y) == -RowOrder(fields, y, x)
    ensures Chain(RowOrder(fields, x, y), RowOrder(fields, y, z), RowOrder(fields, x, z))
  {
    if |fields| > 0 {
      FieldWellFormed(x, fields[0]);
      FieldWellFormed(y, fields[0]);
      FieldWellFormed(z, fields[0]);
      hide Order, Field, WellFormed;
      var a, b, c := Field(x, fields[0]), Field(y, fields[0]), Field(z, fields[0]);
      TotalOrder(a, b, c);
      OrderChains(a, b, c);
      RowOrderLaws(fields[1..], x, y, z);
    }
  }

  /** What the library sort needs of its comparison: a strict weak order. */
  lemma StrictWeakOrder(fields: seq<Bytes>, x: Datum, y: Datum, z: Datum)
    requires WellFormed(x) && WellFormed(y) && WellFormed(z)
    ensures !(RowOrder(fields, x, x) < 0)
    ensures RowOrder(fields, x, y) < 0 ==> !(RowOrder(fields, y, x) < 0)
    ensures RowOrder(fields, x, y) < 0 && RowOrder(fields, y, z) < 0 ==> RowOrder(fields, x, z) < 0
    ensures RowOrder(fields, x, y) < 0 ==> RowOrder(fields, x, z) < 0 || RowOrder(fields, z, y) < 0
  {
    RowOrderLaws(fields, x, y, z);
    RowOrderLaws(fields, z, x, y);
    RowOrderLaws(fields, y, z, x);
    RowOrderLaws(fields, x, z, y);
  }

  /** A document without the field comes before, or level with, every other document. */
  lemma MissingComesFirst(field: Bytes, x: Datum, y: Datum)
    requires WellFormed(x) && WellFormed(y) && !(x.Object? && field in x.fields)
    ensures RowOrder([field], x, y) <= 0
    ensures y.Object? && field in y.fields && !y.fields[field].MinVal? ==> RowOrder([field], x, y) < 0
  {
    OrderByType(Field(x, field), Field(y, field));
    assert [field][1..] == [];
  }

  ghost predicate InOrder(fields: seq<Bytes>, rows: seq<Datum>)
    requires AllWellFormed(rows)
  {
    forall i, j :: 0 <= i < j < |rows| ==> RowOrder(fields, rows[i], rows[j]) <= 0
  }

  /** In order, but for the one row that is still moving forward. */
  ghost predicate InOrderBut(fields: seq<Bytes>, rows: seq<Datum>, hole: int)
    requires AllWellFormed(rows)
  {
    forall i, j :: 0 <= i < j < |rows| && j != hole ==> RowOrder(fields, rows[i], rows[j]) <= 0
  }

  function Swapped(rows: seq<Datum>, i: nat): seq<Datum>
    requires 1 <= i < |rows|
  {
    rows[i := rows[i - 1]][i - 1 := rows[i]]
  }

  lemma SwapKeepsOrder(fields: seq<Bytes>, rows: seq<Datum>, i: nat)
    requires AllWellFormed(rows) && 1 <= i < |rows| && InOrderBut(fields, rows, i)
    requires RowOrder(fields, rows[i], rows[i - 1]) < 0
    ensures AllWellFormed(Swapped(rows, i)) && InOrderBut(fields, Swapped(rows, i), i - 1)
    ensures multiset(Swapped(rows, i)) == multiset(rows)
  {
  }

  lemma HoleCloses(fields: seq<Bytes>, rows: seq<Datum>, i: nat)
    requires AllWellFormed(rows) && i < |rows| && InOrderBut(fields, rows, i)
    requires i > 0 ==> RowOrder(fields, rows[i], rows[i - 1]) >= 0
    ensures InOrder(fields, rows)
  {
    forall a | 0 <= a < i
      ensures RowOrder(fields, rows[a], rows[i]) <= 0
    {
      RowOrderLaws(fields, rows[i - 1], rows[i], rows[i]);
      RowOrderLaws(fields, rows[a], rows[i - 1], rows[i]);
    }
  }

  /** Sorts in place; the source hands this to the library, here it is insertion. */
  method SortSlice(arr: array<Datum>, fields: seq<Bytes>)
    requires AllWellFormed(arr[..])
    modifies arr
    ensures multiset(arr[..]) == multiset(old(arr[..]))
    ensures AllWellFormed(arr[..]) && InOrder(fields, arr[..])
  {
    var n := 0;
    while n < arr.Length
      invariant 0 <= n <= arr.Length
      invariant multiset(arr[..]) == multiset(old(arr[..])) && AllWellFormed(arr[..])
      invariant AllWellFormed(arr[..n]) && InOrder(fields, arr[..n])
    {
      Insert(arr, fields, n);
      n := n + 1;
    }
    assert arr[..n] == arr[..];
  }

  /** Moves row `n` forward to its place among the rows before it. */
  method Insert(arr: array<Datum>, fields: seq<Bytes>, n: nat)
    requires n < arr.Length && AllWellFormed(arr[..])
    requires AllWellFormed(arr[..n]) && InOrder(fields, arr[..n])
    modifies arr
    ensures multiset(arr[..]) == multiset(old(arr[..])) && AllWellFormed(arr[..])
    ensures AllWellFormed(arr[..n + 1]) && InOrder(fields, arr[..n + 1])
  {
    var i := n;
    assert arr[..n + 1][..n] == arr[..n];
    RowsAddHole(fields, arr[..n + 1]);
    while i > 0
      invariant 0 <= i <= n
      invariant AllWellFormed(arr[..]) && AllWellFormed(arr[..n + 1])
      invariant multiset(arr[..]) == multiset(old(arr[..]))
      invariant InOrderBut(fields, arr[..n + 1], i)
    {
      var less := RowLess(fields, arr[i], arr[i - 1]);
      if !less {
        break;
      }
      ghost var before := arr[..];
      SwapKeepsOrder(fields, arr[..n + 1], i);
      ghost var rows := Swapped(arr[..n + 1], i);
      arr[i], arr[i - 1] := arr[i - 1], arr[i];
      assert arr[..n + 1] == rows;
      assert arr[..] == Swapped(before, i);
      SwapKeepsRows(before, i);
      i := i - 1;
    }
    HoleCloses(fields, arr[..n + 1], i);
  }

  lemma SwapKeepsRows(rows: seq<Datum>, i: nat)
    requires AllWellFormed(rows) && 1 <= i < |rows|
    ensures AllWellFormed(Swapped(rows, i)) && multiset(Swapped(rows, i)) == multiset(rows)
  {
  }

  lemma RowsAddHole(fields: seq<Bytes>, rows: seq<Datum>)
    requires |rows| > 0 && AllWellFormed(rows) && InOrder(fields, rows[..|rows| - 1])
    ensures InOrderBut(fields, rows, |rows| - 1)
  {
    var init := rows[..|rows| - 1];
    assert forall i :: 0 <= i < |init| ==> init[i] == rows[i];
  }

  // ----- What the sorted rows are, on the key and the documents ------------------------------------------

  /** What a row is sorted by: the value of a field, or MinVal where it is no object or lacks it. */
  function SortValue(doc: Datum, name: Bytes): Datum {
    match doc
    case Object(_, fields) => if name in fields then fields[name] else MinVal
    case _ => MinVal
  }

  lemma SortValueIsField(doc: Datum, name: Bytes)
    requires WellFormed(doc)
    ensures WellFormed(SortValue(doc, name)) && SortValue(doc, name) == Field(doc, name)
  {
  }

  ghost predicate NoGreater(name: Bytes, x: Datum, y: Datum)
    requires WellFormed(x) && WellFormed(y)
  {
    SortValueIsField(x, name);
    SortValueIsField(y, name);
    Order(SortValue(x, name), SortValue(y, name)) <= 0
  }

  ghost predicate Level(name: Bytes, x: Datum, y: Datum)
    requires WellFormed(x) && WellFormed(y)
  {
    SortValueIsField(x, name);
    SortValueIsField(y, name);
    Order(SortValue(x, name), SortValue(y, name)) == 0
  }

  /** The rows ascend by this one field. */
  ghost predicate AscendBy(name: Bytes, rows: seq<Datum>)
    requires AllWellFormed(rows)
  {
    forall i, j :: 0 <= i < j < |rows| ==> NoGreater(name, rows[i], rows[j])
  }

  /** The strings before place `q` do not tell the two rows apart. */
  ghost predicate LevelBefore(items: seq<Datum>, q: int, x: Datum, y: Datum)
    requires WellFormed(x) && WellFormed(y) && q <= |items|
  {
    forall p :: 0 <= p < q && items[p].Str? ==> Level(items[p].strVal, x, y)
  }

  /** Each string orders the rows that the strings before it leave level. */
  ghost predicate AscendByAll(items: seq<Datum>, rows: seq<Datum>)
    requires AllWellFormed(rows)
  {
    forall i, j, q :: 0 <= i < j < |rows| && 0 <= q < |items| && items[q].Str?
                      && LevelBefore(items, q, rows[i], rows[j]) ==>
      NoGreater(items[q].strVal, rows[i], rows[j])
  }

  /** The order of rows decides as the fields do one after the other. */
  lemma {:induction false} RowOrderDecides(fields: seq<Bytes>, x: Datum, y: Datum, q: nat)
    requires WellFormed(x) && WellFormed(y) && RowOrder(fields, x, y) <= 0 && q < |fields|
    requires forall p :: 0 <= p < q ==> Level(fields[p], x, y)
    ensures NoGreater(fields[q], x, y)
  {
    SortValueIsField(x, fields[0]);
    SortValueIsField(y, fields[0]);
    if q > 0 {
      assert Level(fields[0], x, y);
      forall p | 0 <= p < q - 1
        ensures Level(fields[1..][p], x, y)
      {
        assert fields[1..][p] == fields[p + 1];
      }
      RowOrderDecides(fields[1..], x, y, q - 1);
    }
  }

  /** The strings of a list: the one at place `q` comes after those before it. */
  lemma {:induction false} StringsAt(items: seq<Datum>, q: nat)
    requires q < |items| && items[q].Str?
    ensures var before := Strings(items[..q]);
            |before| < |Strings(items)| && Strings(items)[..|before|] == before
            && Strings(items)[|before|] == items[q].strVal
  {
    if q == |items| - 1 {
    } else {
      var init := items[..|items| - 1];
      StringsAt(init, q);
      assert init[..q] == items[..q];
      assert Strings(items)[..|Strings(init)|] == Strings(init);
    }
  }

  lemma {:induction false} StringsAreItems(items: seq<Datum>, x: Datum, y: Datum)
    requires WellFormed(x) && WellFormed(y) && LevelBefore(items, |items|, x, y)
    ensures forall p :: 0 <= p < |Strings(items)| ==> Level(Strings(items)[p], x, y)
  {
    if |items| > 0 {
      var last := |items| - 1;
      assert forall p :: 0 <= p < last ==> items[..last][p] == items[p];
      StringsAreItems(items[..last], x, y);
    }
  }

  /** Rows in the order of the list's strings ascend as the list says. */
  lemma InOrderAscends(items: seq<Datum>, rows: seq<Datum>)
    requires AllWellFormed(rows) && InOrder(Strings(items), rows)
    ensures AscendByAll(items, rows)
  {
    hide RowOrder, Level, NoGreater, Strings;
    forall i, j, q | 0 <= i < j < |rows| && 0 <= q < |items| && items[q].Str?
                     && LevelBefore(items, q, rows[i], rows[j])
      ensures NoGreater(items[q].strVal, rows[i], rows[j])
    {
      var before := Strings(items[..q]);
      StringsAt(items, q);
      assert forall p :: 0 <= p < q ==> items[..q][p] == items[p];
      StringsAreItems(items[..q], rows[i], rows[j]);
      assert forall p :: 0 <= p < |before| ==> Strings(items)[p] == before[p];
      RowOrderDecides(Strings(items), rows[i], rows[j], |before|);
    }
  }

  lemma InOrderOfOne(name: Bytes, rows: seq<Datum>)
    requires AllWellFormed(rows) && InOrder([name], rows)
    ensures AscendBy(name, rows)
  {
    hide RowOrder, Level, NoGreater;
    forall i, j | 0 <= i < j < |rows|
      ensures NoGreater(name, rows[i], rows[j])
    {
      RowOrderDecides([name], rows[i], rows[j], 0);
    }
  }

  /** Without a string in the key nothing is sorted. */
  lemma {:induction false} NoStrings(items: seq<Datum>)
    requires forall q :: 0 <= q < |items| ==> !items[q].Str?
    ensures Strings(items) == []
  {
    if |items| > 0 {
      var last := |items| - 1;
      assert forall p :: 0 <= p < last ==> items[..last][p] == items[p];
      NoStrings(items[..last]);
    }
  }

  /** The rows of the argument, sorted in place; without a usable field they stay as they are. */
  method OrderBy(arr: array<Datum>, key: Datum)
    requires AllWellFormed(arr[..])
    modifies arr
    ensures multiset(arr[..]) == multiset(old(arr[..]))
    ensures AllWellFormed(arr[..]) && InOrder(FieldNames(key), arr[..])
    ensures key.Str? ==> AscendBy(key.strVal, arr[..])
    ensures key.Array? ==> AscendByAll(key.arrayVal, arr[..])
    ensures key.Array? && (forall q :: 0 <= q < |key.arrayVal| ==> !key.arrayVal[q].Str?) ==> arr[..] == old(arr[..])
    ensures !key.Str? && !key.Array? ==> arr[..] == old(arr[..])
  {
    var fields := ExtractFields(key);
    if key.Array? && forall q :: 0 <= q < |key.arrayVal| ==> !key.arrayVal[q].Str? {
      NoStrings(key.arrayVal);
    }
    if |fields| == 0 {
      if key.Array? {
        InOrderAscends(key.arrayVal, arr[..]);
      }
      return;
    }
    SortSlice(arr, fields);
    if key.Array? {
      InOrderAscends(key.arrayVal, arr[..]);
    } else {
      InOrderOfOne(key.strVal, arr[..]);
    }
  }

  // ----- min and max ------------------------------------------------------------------------------

  /** The values that take part: the documents, or, given a field, its values where it is there. */
  function Candidates(docs: seq<Datum>, field: Bytes): seq<Datum> {
    if |docs| == 0 then []
    else
      var last := docs[|docs| - 1];
      var rest := Candidates(docs[..|docs| - 1], field);
      if field == [] then rest + [last]
      else if last.Object? && field in last.fields then rest + [last.fields[field]]
      else rest
  }

  lemma {:induction false} CandidatesWellFormed(docs: seq<Datum>, field: Bytes)
    requires AllWellFormed(docs)
    ensures AllWellFormed(Candidates(docs, field))
  {
    if |docs| > 0 {
      CandidatesWellFormed(docs[..|docs| - 1], field);
    }
  }

  /** The first of the smallest values. */
  ghost predicate IsFirstMin(values: seq<Datum>, r: Datum)
    requires AllWellFormed(values) && WellFormed(r)
  {
    exists i :: IsFirstMinAt(values, r, i)
  }

  ghost predicate IsFirstMinAt(values: seq<Datum>, r: Datum, i: int)
    requires AllWellFormed(values) && WellFormed(r)
  {
    && 0 <= i < |values| && values[i] == r
    && (forall j :: 0 <= j < |values| ==> Order(r, values[j]) <= 0)
    && (forall j :: 0 <= j < i ==> Order(r, values[j]) < 0)
  }

  ghost predicate IsFirstMax(values: seq<Datum>, r: Datum)
    requires AllWellFormed(values) && WellFormed(r)
  {
    exists i :: IsFirstMaxAt(values, r, i)
  }

  ghost predicate IsFirstMaxAt(values: seq<Datum>, r: Datum, i: int)
    requires AllWellFormed(values) && WellFormed(r)
  {
    && 0 <= i < |values| && values[i] == r
    && (forall j :: 0 <= j < |values| ==> Order(r, values[j]) >= 0)
    && (forall j :: 0 <= j < i ==> Order(r, values[j]) > 0)
  }

  lemma MinStep(values: seq<Datum>, r: Datum, v: Datum)
    requires AllWellFormed(values) && WellFormed(r) && WellFormed(v) && IsFirstMin(values, r)
    ensures AllWellFormed(values + [v])
    ensures IsFirstMin(values + [v], if Order(v, r) < 0 then v else r)
  {
    var i :| IsFirstMinAt(values, r, i);
    var all := values + [v];
    OrderFlips(v, r);
    if Order(v, r) < 0 {
      forall j | 0 <= j < |values|
        ensures Order(v, all[j]) < 0
      {
        OrderChains(v, r, values[j]);
      }
      TotalOrder(v, v, v);
      assert IsFirstMinAt(all, v, |values|);
    } else {
      assert IsFirstMinAt(all, r, i);
    }
  }

  lemma MaxStep(values: seq<Datum>, r: Datum, v: Datum)
    requires AllWellFormed(values) && WellFormed(r) && WellFormed(v) && IsFirstMax(values, r)
    ensures AllWellFormed(values + [v])
    ensures IsFirstMax(values + [v], if Order(v, r) > 0 then v else r)
  {
    var i :| IsFirstMaxAt(values, r, i);
    var all := values + [v];
    OrderFlips(v, r);
    if Order(v, r) > 0 {
      forall j | 0 <= j < |values|
        ensures Order(v, all[j]) > 0
      {
        OrderFlips(r, values[j]);
        OrderFlips(v, values[j]);
        OrderChains(values[j], r, v);
      }
      TotalOrder(v, v, v);
      assert IsFirstMaxAt(all, v, |values|);
    } else {
      assert IsFirstMaxAt(all, r, i);
    }
  }

  lemma OneIsExtreme(v: Datum)
    requires WellFormed(v)
    ensures AllWellFormed([v]) && IsFirstMin([v], v) && IsFirstMax([v], v)
  {
    TotalOrder(v, v, v);
    assert IsFirstMinAt([v], v, 0) && IsFirstMaxAt([v], v, 0);
  }

  // ----- The same on the documents ---------------------------------------------------------------------

  /** Without a field every document takes part, with one those objects that have it. */
  predicate TakesPart(doc: Datum, field: Bytes) {
    field == [] || (doc.Object? && field in doc.fields)
  }

  function Measured(doc: Datum, field: Bytes): Datum
    requires TakesPart(doc, field)
  {
    if field == [] then doc else doc.fields[field]
  }

  /** Document `i` takes part, with the value `r`; no document has a smaller one, and no earlier one as small a one. */
  ghost predicate LeastAt(docs: seq<Datum>, field: Bytes, r: Datum, i: int)
    requires AllWellFormed(docs) && WellFormed(r)
  {
    && 0 <= i < |docs| && TakesPart(docs[i], field) && Measured(docs[i], field) == r
    && forall j :: 0 <= j < |docs| && TakesPart(docs[j], field) ==>
         Order(r, Measured(docs[j], field)) <= 0 && (j < i ==> Order(r, Measured(docs[j], field)) < 0)
  }

  ghost predicate GreatestAt(docs: seq<Datum>, field: Bytes, r: Datum, i: int)
    requires AllWellFormed(docs) && WellFormed(r)
  {
    && 0 <= i < |docs| && TakesPart(docs[i], field) && Measured(docs[i], field) == r
    && forall j :: 0 <= j < |docs| && TakesPart(docs[j], field) ==>
         Order(r, Measured(docs[j], field)) >= 0 && (j < i ==> Order(r, Measured(docs[j], field)) > 0)
  }

  /** The value of the first document with the least value, or null when no document takes part. */
  ghost predicate LeastOf(docs: seq<Datum>, field: Bytes, r: Datum)
    requires AllWellFormed(docs) && WellFormed(r)
  {
    if exists j :: 0 <= j < |docs| && TakesPart(docs[j], field) then exists i :: LeastAt(docs, field, r, i)
    else r == Null
  }

  ghost predicate GreatestOf(docs: seq<Datum>, field: Bytes, r: Datum)
    requires AllWellFormed(docs) && WellFormed(r)
  {
    if exists j :: 0 <= j < |docs| && TakesPart(docs[j], field) then exists i :: GreatestAt(docs, field, r, i)
    else r == Null
  }

  /** The place of a document's value among the candidates: as many as take part before it. */
  lemma {:induction false} CandidateOf(docs: seq<Datum>, field: Bytes, j: nat)
    requires j < |docs| && TakesPart(docs[j], field)
    ensures var c := |Candidates(docs[..j], field)|;
            c < |Candidates(docs, field)| && Candidates(docs, field)[c] == Measured(docs[j], field)
  {
    if j < |docs| - 1 {
      CandidateOf(docs[..|docs| - 1], field, j);
      assert docs[..|docs| - 1][..j] == docs[..j];
    }
  }

  /** And every candidate is a document's. */
  lemma {:induction false} DocumentOf(docs: seq<Datum>, field: Bytes, c: nat) returns (j: nat)
    requires c < |Candidates(docs, field)|
    ensures j < |docs| && TakesPart(docs[j], field) && |Candidates(docs[..j], field)| == c
  {
    var last := |docs| - 1;
    if c < |Candidates(docs[..last], field)| {
      j := DocumentOf(docs[..last], field, c);
      assert docs[..last][..j] == docs[..j];
    } else {
      j := last;
    }
  }

  /** Earlier documents have earlier places. */
  lemma {:induction false} CandidatesAscend(docs: seq<Datum>, field: Bytes, i: nat, j: nat)
    requires i < j <= |docs| && TakesPart(docs[i], field)
    ensures |Candidates(docs[..i], field)| < |Candidates(docs[..j], field)|
  {
    var front := docs[..j];
    assert front[..j - 1] == docs[..j - 1] && front[j - 1] == docs[j - 1];
    if i < j - 1 {
      CandidatesAscend(docs, field, i, j - 1);
    }
  }

  lemma NoCandidates(docs: seq<Datum>, field: Bytes)
    ensures Candidates(docs, field) == [] <==> !exists j :: 0 <= j < |docs| && TakesPart(docs[j], field)
  {
    hide Candidates;
    if j: nat :| j < |docs| && TakesPart(docs[j], field) {
      CandidateOf(docs, field, j);
    }
    if Candidates(docs, field) != [] {
      var j := DocumentOf(docs, field, 0);
    }
  }

  lemma FirstMinIsLeast(docs: seq<Datum>, field: Bytes, r: Datum)
    requires AllWellFormed(docs) && WellFormed(r) && AllWellFormed(Candidates(docs, field))
    requires if Candidates(docs, field) == [] then r == Null else IsFirstMin(Candidates(docs, field), r)
    ensures LeastOf(docs, field, r)
  {
    hide Candidates, Order;
    NoCandidates(docs, field);
    if Candidates(docs, field) != [] {
      var c: nat :| IsFirstMinAt(Candidates(docs, field), r, c);
      var i := DocumentOf(docs, field, c);
      CandidateOf(docs, field, i);
      forall j: nat | j < |docs| && TakesPart(docs[j], field)
        ensures Order(r, Measured(docs[j], field)) <= 0 && (j < i ==> Order(r, Measured(docs[j], field)) < 0)
      {
        CandidateOf(docs, field, j);
        if j < i {
          CandidatesAscend(docs, field, j, i);
        }
      }
      assert LeastAt(docs, field, r, i);
    }
  }

  lemma FirstMaxIsGreatest(docs: seq<Datum>, field: Bytes, r: Datum)
    requires AllWellFormed(docs) && WellFormed(r) && AllWellFormed(Candidates(docs, field))
    requires if Candidates(docs, field) == [] then r == Null else IsFirstMax(Candidates(docs, field), r)
    ensures GreatestOf(docs, field, r)
  {
    hide Candidates, Order;
    NoCandidates(docs, field);
    if Candidates(docs, field) != [] {
      var c: nat :| IsFirstMaxAt(Candidates(docs, field), r, c);
      var i := DocumentOf(docs, field, c);
      CandidateOf(docs, field, i);
      forall j: nat | j < |docs| && TakesPart(docs[j], field)
        ensures Order(r, Measured(docs[j], field)) >= 0 && (j < i ==> Order(r, Measured(docs[j], field)) > 0)
      {
        CandidateOf(docs, field, j);
        if j < i {
          CandidatesAscend(docs, field, j, i);
        }
      }
      assert GreatestAt(docs, field, r, i);
    }
  }

  method Min(docs: seq<Datum>, field: Bytes) returns (r: Datum)
    requires AllWellFormed(docs)
    ensures AllWellFormed(Candidates(docs, field)) && WellFormed(r)
    ensures if Candidates(docs, field) == [] then r == Null else IsFirstMin(Candidates(docs, field), r)
    ensures LeastOf(docs, field, r)
  {
    var minVal, first := MinVal, true;
    for i := 0 to |docs|
      invariant AllWellFormed(Candidates(docs[..i], field)) && WellFormed(minVal)
      invariant first <==> Candidates(docs[..i], field) == []
      invariant !first ==> IsFirstMin(Candidates(docs[..i], field), minVal)
    {
      ghost var so := Candidates(docs[..i], field);
      assert docs[..i + 1][..i] == docs[..i];
      var v := docs[i];
      if field != [] {
        if docs[i].Object? {
          if field in docs[i].fields {
            v := docs[i].fields[field];
          } else {
            continue;
          }
        } else {
          continue;
        }
      }
      var less := false;
      if !first {
        var cmp := Compare(v, minVal);
        less := cmp < 0;
        MinStep(so, minVal, v);
      }
      OneIsExtreme(v);
      assert first ==> so + [v] == [v];
      if first || less {
        minVal := v;
        first := false;
      }
    }
    assert docs[..|docs|] == docs;
    r := if first then Null else minVal;
    FirstMinIsLeast(docs, field, r);
  }

  method Max(docs: seq<Datum>, field: Bytes) returns (r: Datum)
    requires AllWellFormed(docs)
    ensures AllWellFormed(Candidates(docs, field)) && WellFormed(r)
    ensures if Candidates(docs, field) == [] then r == Null else IsFirstMax(Candidates(docs, field), r)
    ensures GreatestOf(docs, field, r)
  {
    var maxVal, first := MinVal, true;
    for i := 0 to |docs|
      invariant AllWellFormed(Candidates(docs[..i], field)) && WellFormed(maxVal)
      invariant first <==> Candidates(docs[..i], field) == []
      invariant !first ==> IsFirstMax(Candidates(docs[..i], field), maxVal)
    {
      ghost var so := Candidates(docs[..i], field);
      assert docs[..i + 1][..i] == docs[..i];
      var v := docs[i];
      if field != [] {
        if docs[i].Object? {
          if field in docs[i].fields {
            v := docs[i].fields[field];
          } else {
            continue;
          }
        } else {
          continue;
        }
      }
      var greater := false;
      if !first {
        var cmp := Compare(v, maxVal);
        greater := cmp > 0;
        MaxStep(so, maxVal, v);
      }
      OneIsExtreme(v);
      assert first ==> so + [v] == [v];
      if first || greater {
        maxVal := v;
        first := false;
      }
    }
    assert docs[..|docs|] == docs;
    r := if first then Null else maxVal;
    FirstMaxIsGreatest(docs, field, r);
  }
}
