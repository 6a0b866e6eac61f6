/** The group operator: one group a key, in the order in which the keys are first seen. */
module Group {
  import opened Bytes
  import opened Datum
  import opened DatumCode

  /** The JSON text of a value comes from a library: any function from values to bytes. */
  type Marshal = Datum -> Bytes

  function Ascii(s: string): (b: Bytes)
    requires forall i :: 0 <= i < |s| ==> s[i] as int < 128
    ensures |b| == |s| && forall i :: 0 <= i < |s| ==> b[i] == s[i] as int
  {
    seq(|s|, i requires 0 <= i < |s| => s[i] as int)
  }

  const NULL_KEY: Bytes := Ascii("null")
  const GROUP_KEY: Bytes := Ascii("group")
  const VALUES_KEY: Bytes := Ascii("values")

  function GroupKey(doc: Datum, field: Bytes, marshal: Marshal): Bytes {
    if field != [] && doc.Object? && field in doc.fields then marshal(doc.fields[field]) else NULL_KEY
  }

  function DocKeys(docs: seq<Datum>, field: Bytes, marshal: Marshal): (keys: seq<Bytes>)
    ensures |keys| == |docs| && forall i :: 0 <= i < |docs| ==> keys[i] == GroupKey(docs[i], field, marshal)
  {
    seq(|docs|, i requires 0 <= i < |docs| => GroupKey(docs[i], field, marshal))
  }

  /** Each key once, at its first occurrence. */
  function FirstSeen(keys: seq<Bytes>): seq<Bytes> {
    if |keys| == 0 then []
    else
      var last := keys[|keys| - 1];
      var seen := FirstSeen(keys[..|keys| - 1]);
      if last in seen then seen else seen + [last]
  }

  /** The elements of `docs` whose key is `key`, in their order. */
  function Members(docs: seq<Datum>, keys: seq<Bytes>, key: Bytes): seq<Datum>
    requires |docs| == |keys|
  {
    if |docs| == 0 then []
    else
      var last := |docs| - 1;
      Members(docs[..last], keys[..last], key) + (if keys[last] == key then [docs[last]] else [])
  }

  // ----- What the groups are --------------------------------------------------------------------

  ghost predicate FirstAt(keys: seq<Bytes>, key: Bytes, p: int) {
    0 <= p < |keys| && keys[p] == key && key !in keys[..p]
  }

  /** Exactly the keys, each once, ordered by their first occurrences. */
  lemma {:induction false} FirstSeenOrder(keys: seq<Bytes>)
    ensures forall k :: k in FirstSeen(keys) <==> k in keys
    ensures forall i, j :: 0 <= i < j < |FirstSeen(keys)| ==> FirstSeen(keys)[i] != FirstSeen(keys)[j]
    ensures forall i, j, p, q ::
              (0 <= i < j < |FirstSeen(keys)|
                 && FirstAt(keys, FirstSeen(keys)[i], p) && FirstAt(keys, FirstSeen(keys)[j], q))
              ==> p < q
  {
    if |keys| > 0 {
      var init, last := keys[..|keys| - 1], keys[|keys| - 1];
      FirstSeenOrder(init);
      assert keys == init + [last];
      var seen := FirstSeen(keys);
      forall i, j, p, q | 0 <= i < j < |seen| && FirstAt(keys, seen[i], p) && FirstAt(keys, seen[j], q)
        ensures p < q
      {
        assert seen[i] in FirstSeen(init);
        FirstInInit(keys, seen[i], p);
        if q < |init| {
          assert seen[j] in init by { assert init[q] == seen[j]; }
          FirstInInit(keys, seen[j], q);
        }
      }
    }
  }

  lemma FirstInInit(keys: seq<Bytes>, key: Bytes, p: int)
    requires |keys| > 0 && key in keys[..|keys| - 1] && FirstAt(keys, key, p)
    ensures FirstAt(keys[..|keys| - 1], key, p)
  {
    var init := keys[..|keys| - 1];
    var i :| 0 <= i < |init| && init[i] == key;
    forall j | 0 <= j < p
      ensures keys[j] != key
    {
      assert keys[..p][j] in keys[..p];
    }
    assert init[..p] == keys[..p];
  }

  /** Where a key occurs, in ascending order. */
  ghost function Places(keys: seq<Bytes>, key: Bytes): seq<nat> {
    if |keys| == 0 then []
    else
      var last := |keys| - 1;
      Places(keys[..last], key) + (if keys[last] == key then [last] else [])
  }

  /** A group holds the documents at exactly the places of its key, in input order. */
  lemma {:induction false} MembersKeepOrder(docs: seq<Datum>, keys: seq<Bytes>, key: Bytes)
    requires |docs| == |keys|
    ensures var places := Places(keys, key);
            && |places| == |Members(docs, keys, key)|
            && (forall i, j :: 0 <= i < j < |places| ==> places[i] < places[j])
            && (forall i :: 0 <= i < |places| ==> places[i] < |docs| && docs[places[i]] == Members(docs, keys, key)[i])
            && (forall p: nat :: p in places <==> p < |keys| && keys[p] == key)
  {
    if |docs| > 0 {
      var last := |docs| - 1;
      MembersKeepOrder(docs[..last], keys[..last], key);
      var before := Places(keys[..last], key);
      forall p: nat
        ensures p in Places(keys, key) <==> p < |keys| && keys[p] == key
      {
        assert p in before <==> p < last && keys[..last][p] == key;
      }
    }
  }

  ghost function Together(docs: seq<Datum>, keys: seq<Bytes>, groups: seq<Bytes>): multiset<Datum>
    requires |docs| == |keys|
  {
    if |groups| == 0 then multiset{}
    else Together(docs, keys, groups[..|groups| - 1]) + multiset(Members(docs, keys, groups[|groups| - 1]))
  }

  lemma OneMoreMember(docs: seq<Datum>, keys: seq<Bytes>, key: Bytes)
    requires |docs| == |keys| > 0
    ensures var last := |docs| - 1;
            multiset(Members(docs, keys, key)) ==
            multiset(Members(docs[..last], keys[..last], key))
              + OneIf(keys[last] == key, docs[last])
  {
  }

  function OneIf(present: bool, doc: Datum): multiset<Datum> {
    if present then multiset{doc} else multiset{}
  }

  lemma {:induction false} OneMoreDoc(docs: seq<Datum>, keys: seq<Bytes>, groups: seq<Bytes>)
    requires |docs| == |keys| > 0 && forall i, j :: 0 <= i < j < |groups| ==> groups[i] != groups[j]
    ensures var last := |docs| - 1;
            Together(docs, keys, groups) ==
            Together(docs[..last], keys[..last], groups) + OneIf(keys[last] in groups, docs[last])
  {
    if |groups| > 0 {
      var last := |docs| - 1;
      var init, g := groups[..|groups| - 1], groups[|groups| - 1];
      OneMoreDoc(docs, keys, init);
      OneMoreMember(docs, keys, g);
      hide Members, OneIf;
      LastGroup(groups, keys[last], docs[last]);
      Regroup(Together(docs[..last], keys[..last], init), OneIf(keys[last] in init, docs[last]),
              multiset(Members(docs[..last], keys[..last], g)), OneIf(keys[last] == g, docs[last]));
    }
  }

  lemma LastGroup(groups: seq<Bytes>, key: Bytes, doc: Datum)
    requires |groups| > 0 && forall i, j :: 0 <= i < j < |groups| ==> groups[i] != groups[j]
    ensures var init, g := groups[..|groups| - 1], groups[|groups| - 1];
            OneIf(key in groups, doc) == OneIf(key in init, doc) + OneIf(key == g, doc)
  {
    var init, g := groups[..|groups| - 1], groups[|groups| - 1];
    assert groups == init + [g];
    assert g !in init;
  }

  lemma Regroup(a: multiset<Datum>, x: multiset<Datum>, b: multiset<Datum>, y: multiset<Datum>)
    ensures (a + x) + (b + y) == (a + b) + (x + y)
  {
  }

  lemma {:induction false} NoSuchKey(docs: seq<Datum>, keys: seq<Bytes>, key: Bytes)
    requires |docs| == |keys| && key !in keys
    ensures Members(docs, keys, key) == []
  {
    if |docs| > 0 {
      var last := |docs| - 1;
      assert keys == keys[..last] + [keys[last]];
      NoSuchKey(docs[..last], keys[..last], key);
    }
  }

  lemma NewKeyAddsNothing(docs: seq<Datum>, keys: seq<Bytes>, key: Bytes)
    requires |docs| == |keys| && key !in keys
    ensures Together(docs, keys, FirstSeen(keys) + [key]) == Together(docs, keys, FirstSeen(keys))
  {
    NoSuchKey(docs, keys, key);
    assert (FirstSeen(keys) + [key])[..|FirstSeen(keys)|] == FirstSeen(keys);
  }

  lemma EachOnce(keys: seq<Bytes>)
    ensures forall k :: k in FirstSeen(keys) <==> k in keys
    ensures forall i, j :: 0 <= i < j < |FirstSeen(keys)| ==> FirstSeen(keys)[i] != FirstSeen(keys)[j]
  {
    FirstSeenOrder(keys);
  }

  /** The groups together are exactly the input: no document is lost, none is in two groups. */
  lemma {:induction false} GroupsPartition(docs: seq<Datum>, keys: seq<Bytes>)
    requires |docs| == |keys|
    ensures Together(docs, keys, FirstSeen(keys)) == multiset(docs)
  {
    hide Members;
    if |docs| > 0 {
      var last := |docs| - 1;
      var init, before := keys[..last], FirstSeen(keys[..last]);
      GroupsPartition(docs[..last], init);
      assert Together(docs[..last], init, FirstSeen(keys)) == Together(docs[..last], init, before) by {
        if keys[last] !in before {
          EachOnce(init);
          NewKeyAddsNothing(docs[..last], init, keys[last]);
        }
      }
      LastDoc(docs, keys);
      assert docs == docs[..last] + [docs[last]];
    }
  }

  lemma LastDoc(docs: seq<Datum>, keys: seq<Bytes>)
    requires |docs| == |keys| > 0
    ensures var last := |docs| - 1;
            Together(docs, keys, FirstSeen(keys)) ==
            Together(docs[..last], keys[..last], FirstSeen(keys)) + multiset{docs[last]}
  {
    hide Members, Together, FirstSeen;
    EachOnce(keys);
    OneMoreDoc(docs, keys, FirstSeen(keys));
    assert keys[|keys| - 1] in keys;
  }

  // ----- What the result is, on the documents -------------------------------------------------------

  /** An object of just a text under "group" and a list under "values". */
  ghost predicate IsGroup(d: Datum) {
    && d.Object? && d.keys == [Ascii("group"), Ascii("values")] && d.fields.Keys == {Ascii("group"), Ascii("values")}
    && d.fields[Ascii("group")].Str? && d.fields[Ascii("values")].Array?
  }

  ghost function TextOf(group: Datum): Bytes
    requires IsGroup(group)
  {
    group.fields[Ascii("group")].strVal
  }

  ghost function ValuesOf(group: Datum): seq<Datum>
    requires IsGroup(group)
  {
    group.fields[Ascii("values")].arrayVal
  }

  /** An object that has the non-empty field stands under its value's text, any other document under "null". */
  ghost predicate StandsUnder(doc: Datum, field: Bytes, marshal: Marshal, text: Bytes) {
    match doc
    case Object(_, fields) => text == if field != [] && field in fields then marshal(fields[field]) else Ascii("null")
    case _ => text == Ascii("null")
  }

  ghost function Gathered(groups: seq<Datum>): multiset<Datum>
    requires forall i :: 0 <= i < |groups| ==> IsGroup(groups[i])
  {
    if |groups| == 0 then multiset{}
    else Gathered(groups[..|groups| - 1]) + multiset(ValuesOf(groups[|groups| - 1]))
  }

  /** Groups of different texts, no group empty, each document under its text, and together the input. */
  ghost predicate Grouped(docs: seq<Datum>, field: Bytes, marshal: Marshal, groups: seq<Datum>) {
    && (forall i :: 0 <= i < |groups| ==> IsGroup(groups[i]) && ValuesOf(groups[i]) != [])
    && (forall i, j :: 0 <= i < j < |groups| ==> TextOf(groups[i]) != TextOf(groups[j]))
    && (forall i, k :: 0 <= i < |groups| && 0 <= k < |ValuesOf(groups[i])| ==>
          StandsUnder(ValuesOf(groups[i])[k], field, marshal, TextOf(groups[i])))
    && Gathered(groups) == multiset(docs)
  }

  // ----- The code ---------------------------------------------------------------------------------

  /** {"group": key, "values": values} */
  function GroupObject(key: Bytes, values: seq<Datum>): Datum {
    Object([GROUP_KEY, VALUES_KEY], map[GROUP_KEY := Str(key), VALUES_KEY := Array(values)])
  }

  lemma GroupObjectIsGroup(key: Bytes, values: seq<Datum>)
    ensures var group := GroupObject(key, values);
            IsGroup(group) && TextOf(group) == key && ValuesOf(group) == values
  {
    assert Ascii("group")[0] != Ascii("values")[0];
  }

  /** The objects of these keys, in this order. */
  ghost predicate ObjectsOf(docs: seq<Datum>, keys: seq<Bytes>, order: seq<Bytes>, groups: seq<Datum>)
    requires |docs| == |keys|
  {
    && |groups| == |order|
    && forall i :: 0 <= i < |order| ==> groups[i] == GroupObject(order[i], Members(docs, keys, order[i]))
  }

  lemma {:induction false} GatheredIsTogether(docs: seq<Datum>, keys: seq<Bytes>, order: seq<Bytes>, groups: seq<Datum>)
    requires |docs| == |keys| && ObjectsOf(docs, keys, order, groups)
    ensures forall i :: 0 <= i < |groups| ==> IsGroup(groups[i])
    ensures Gathered(groups) == Together(docs, keys, order)
  {
    hide Members, IsGroup, GroupObject, ValuesOf, TextOf;
    forall i | 0 <= i < |groups|
      ensures IsGroup(groups[i])
    {
      GroupObjectIsGroup(order[i], Members(docs, keys, order[i]));
    }
    if |groups| > 0 {
      var last := |groups| - 1;
      GatheredIsTogether(docs, keys, order[..last], groups[..last]);
      GroupObjectIsGroup(order[last], Members(docs, keys, order[last]));
    }
  }

  lemma KeyStands(doc: Datum, field: Bytes, marshal: Marshal)
    ensures StandsUnder(doc, field, marshal, GroupKey(doc, field, marshal))
  {
  }

  /** What one group of the result holds. */
  lemma MembersStand(docs: seq<Datum>, field: Bytes, marshal: Marshal, key: Bytes)
    requires key in DocKeys(docs, field, marshal)
    ensures var members := Members(docs, DocKeys(docs, field, marshal), key);
            && members != []
            && forall k :: 0 <= k < |members| ==> StandsUnder(members[k], field, marshal, key)
  {
    hide Members, Places, StandsUnder, GroupKey;
    var keys := DocKeys(docs, field, marshal);
    var members, places := Members(docs, keys, key), Places(keys, key);
    MembersKeepOrder(docs, keys, key);
    forall k | 0 <= k < |members|
      ensures StandsUnder(members[k], field, marshal, key)
    {
      assert places[k] in places;
      KeyStands(docs[places[k]], field, marshal);
    }
    var p: nat :| p < |keys| && keys[p] == key;
    assert p in places;
  }

  /** The objects of the keys seen first are the groups of the documents. */
  lemma ObjectsAreGroups(docs: seq<Datum>, field: Bytes, marshal: Marshal, groups: seq<Datum>)
    requires var keys := DocKeys(docs, field, marshal); ObjectsOf(docs, keys, FirstSeen(keys), groups)
    ensures Grouped(docs, field, marshal, groups)
  {
    var keys := DocKeys(docs, field, marshal);
    var order := FirstSeen(keys);
    hide Members, FirstSeen, Together, Gathered, IsGroup, GroupObject, ValuesOf, TextOf, StandsUnder, GroupKey, DocKeys;
    GroupsPartition(docs, keys);
    GatheredIsTogether(docs, keys, order, groups);
    EachOnce(keys);
    forall i | 0 <= i < |groups|
      ensures TextOf(groups[i]) == order[i] && ValuesOf(groups[i]) != []
      ensures forall k :: 0 <= k < |ValuesOf(groups[i])| ==>
                StandsUnder(ValuesOf(groups[i])[k], field, marshal, TextOf(groups[i]))
    {
      assert order[i] in order;
      MembersStand(docs, field, marshal, order[i]);
      GroupObjectIsGroup(order[i], Members(docs, keys, order[i]));
    }
  }

  method MakeGroup(key: Bytes, values: seq<Datum>) returns (d: Datum)
    ensures d == GroupObject(key, values)
  {
    var fields := map[GROUP_KEY := Str(key), VALUES_KEY := Array(values)];
    var obj := new ObjectData.FromMap(fields);
    assert GROUP_KEY[0] < VALUES_KEY[0];
    KeysDetermined(obj.keys, [GROUP_KEY, VALUES_KEY], fields);
    d := Object(obj.keys, obj.fields);
  }

  ghost predicate GroupsSoFar(groups: map<Bytes, seq<Datum>>, order: seq<Bytes>, docs: seq<Datum>, keys: seq<Bytes>)
    requires |docs| == |keys|
  {
    && order == FirstSeen(keys)
    && (forall k :: k in groups <==> k in order)
    && (forall k :: k in groups ==> groups[k] == Members(docs, keys, k))
  }

  lemma NoGroups(docs: seq<Datum>, keys: seq<Bytes>)
    requires docs == [] && keys == []
    ensures GroupsSoFar(map[], [], docs, keys)
  {
  }

  lemma OneMoreGrouped(groups: map<Bytes, seq<Datum>>, order: seq<Bytes>, docs: seq<Datum>, keys: seq<Bytes>)
    requires |docs| == |keys| > 0
    requires GroupsSoFar(groups, order, docs[..|docs| - 1], keys[..|keys| - 1])
    ensures var key, doc := keys[|keys| - 1], docs[|docs| - 1];
            var so := if key in groups then groups[key] else [];
            GroupsSoFar(groups[key := so + [doc]], if key in groups then order else order + [key], docs, keys)
  {
    var key := keys[|keys| - 1];
    if key !in groups {
      FirstSeenOrder(keys[..|keys| - 1]);
      NoSuchKey(docs[..|docs| - 1], keys[..|keys| - 1], key);
    }
  }

  method KeyOf(doc: Datum, field: Bytes, marshal: Marshal) returns (key: Bytes)
    ensures key == GroupKey(doc, field, marshal) && StandsUnder(doc, field, marshal, key)
  {
    key := NULL_KEY;
    if field != [] && doc.Object? {
      if field in doc.fields {
        key := marshal(doc.fields[field]);
      }
    }
  }

  /** The map of groups and the order of its keys. */
  method Collect(docs: seq<Datum>, field: Bytes, marshal: Marshal)
    returns (groups: map<Bytes, seq<Datum>>, order: seq<Bytes>)
    ensures GroupsSoFar(groups, order, docs, DocKeys(docs, field, marshal))
  {
    groups, order := map[], [];
    ghost var keys := DocKeys(docs, field, marshal);
    hide FirstSeen, Members, GroupKey, DocKeys, GroupsSoFar;
    NoGroups(docs[..0], keys[..0]);
    for i := 0 to |docs|
      invariant GroupsSoFar(groups, order, docs[..i], keys[..i])
    {
      var key := KeyOf(docs[i], field, marshal);
      ghost var docs', keys' := docs[..i + 1], keys[..i + 1];
      assert docs'[..|docs'| - 1] == docs[..i] && keys'[..|keys'| - 1] == keys[..i];
      OneMoreGrouped(groups, order, docs', keys');
      if key !in groups {
        order := order + [key];
        assert [] + [docs[i]] == [docs[i]];
        groups := groups[key := [docs[i]]];
      } else {
        groups := groups[key := groups[key] + [docs[i]]];
      }
    }
    assert docs[..|docs|] == docs && keys[..|docs|] == keys;
  }

  /** One object a key: the key's text and the documents with that key. */
  method GroupBy(docs: seq<Datum>, field: Bytes, marshal: Marshal) returns (result: seq<Datum>)
    ensures var keys := DocKeys(docs, field, marshal);
            && |result| == |FirstSeen(keys)|
            && forall i :: 0 <= i < |result| ==>
                 result[i] == GroupObject(FirstSeen(keys)[i], Members(docs, keys, FirstSeen(keys)[i]))
    ensures Grouped(docs, field, marshal, result)
  {
    var groups, order := Collect(docs, field, marshal);
    hide FirstSeen, Members, GroupKey, DocKeys, GroupObject, Grouped;
    result := [];
    for i := 0 to |order|
      invariant |result| == i
      invariant forall k :: 0 <= k < i ==>
                  result[k] == GroupObject(order[k], Members(docs, DocKeys(docs, field, marshal), order[k]))
    {
      assert order[i] in order;
      var group := MakeGroup(order[i], groups[order[i]]);
      result := result + [group];
    }
    ObjectsAreGroups(docs, field, marshal, result);
  }
}
