/**
 * What ParseReQL accepts, exactly: a text parses to a value if and only if it is, but for
 * space around it, the text of a written query with that value.
 */
module ReqlTheorems {
  import opened Options
  import opened Reql
  import opened ReqlReads
  import opened ReqlSound
  import opened ReqlText

  // ----- Space around a text -------------------------------------------------------------------------------

  predicate AsciiSpace(c: char) {
    c as int in {9, 10, 11, 12, 13, 32}
  }

  predicate AsciiBlank(w: string) {
    forall i :: 0 <= i < |w| ==> AsciiSpace(w[i])
  }

  /** The text has no space around it. */
  predicate Tight(t: string) {
    t != "" && !AsciiSpace(t[0]) && !AsciiSpace(t[|t| - 1])
  }

  lemma {:induction false} TrimsLeft(w: string, t: string)
    requires AsciiBlank(w) && (t != "" ==> !AsciiSpace(t[0]))
    ensures TrimLeft(w + t) == t
    decreases |w|
  {
    if |w| > 0 {
      assert (w + t)[1..] == w[1..] + t;
      TrimsLeft(w[1..], t);
    } else {
      assert w + t == t;
    }
  }

  lemma {:induction false} TrimsRight(t: string, w: string)
    requires AsciiBlank(w) && (t != "" ==> !AsciiSpace(t[|t| - 1]))
    ensures TrimRight(t + w) == t
    decreases |w|
  {
    if |w| > 0 {
      assert (t + w)[..|t + w| - 1] == t + w[..|w| - 1];
      TrimsRight(t, w[..|w| - 1]);
    } else {
      assert t + w == t;
    }
  }

  lemma Trims(before: string, t: string, after: string)
    requires AsciiBlank(before) && AsciiBlank(after) && Tight(t)
    ensures Trim(before + t + after) == t
  {
    hide TrimLeft, TrimRight;
    assert before + t + after == before + (t + after);
    assert (t + after)[0] == t[0];
    TrimsLeft(before, t + after);
    TrimsRight(t, after);
  }

  lemma {:induction false} LeftTrimmed(s: string) returns (w: string)
    ensures AsciiBlank(w) && s == w + TrimLeft(s)
    ensures TrimLeft(s) != "" ==> !AsciiSpace(TrimLeft(s)[0])
  {
    w := "";
    if |s| > 0 && IsAsciiSpace(s[0]) {
      w := LeftTrimmed(s[1..]);
      w := [s[0]] + w;
    }
  }

  lemma {:induction false} RightTrimmed(s: string) returns (w: string)
    ensures AsciiBlank(w) && s == TrimRight(s) + w
    ensures var t := TrimRight(s); t != "" ==> t[0] == s[0] && !AsciiSpace(t[|t| - 1])
  {
    w := "";
    if |s| > 0 && IsAsciiSpace(s[|s| - 1]) {
      w := RightTrimmed(s[..|s| - 1]);
      w := w + [s[|s| - 1]];
    }
  }

  /** What trimming takes away is space, and what it leaves has none around it. */
  lemma Trimmed(s: string) returns (before: string, after: string)
    ensures AsciiBlank(before) && AsciiBlank(after) && s == before + Trim(s) + after
    ensures Trim(s) != "" ==> Tight(Trim(s))
  {
    hide TrimLeft, TrimRight;
    before := LeftTrimmed(s);
    after := RightTrimmed(TrimLeft(s));
  }

  lemma NotBlank(t: string, k: nat)
    requires k < |t| && !AsciiSpace(t[k])
    ensures Trim(t) != ""
  {
    hide TrimLeft, TrimRight;
    var before, after := Trimmed(t);
    var left := |t| - |after|;
    assert forall i :: 0 <= i < |before| ==> t[i] == before[i];
    assert forall i :: left <= i < |t| ==> t[i] == after[i - left];
    assert left == |before| + |Trim(t)|;
  }

  // ----- Which texts parse, and to what ------------------------------------------------------------------------

  /** A query that stands alone; space behind it belongs to it only where the parser reads on. */
  ghost predicate IsQuery(env: Env, q: Item) {
    && IsExpression(q.arg) && ItemFits(env, q, "") && (q.after == "" || ReadsOn(q.arg)) && Tight(ItemText(q))
  }

  ghost predicate IsWritten(env: Env, text: string, v: Value, before: string, q: Item, after: string) {
    && AsciiBlank(before) && AsciiBlank(after) && IsQuery(env, q)
    && text == before + ItemText(q) + after && ValueOf(env, q.arg) == v
  }

  /** The text, but for space around it, is a query of this value. */
  ghost predicate Writes(env: Env, text: string, v: Value) {
    exists before, q, after :: IsWritten(env, text, v, before, q, after)
  }

  /** The text of a query, with space around it, parses to the query's value. */
  lemma RoundTrip(env: Env, before: string, q: Item, after: string)
    requires AsciiBlank(before) && AsciiBlank(after) && IsQuery(env, q)
    ensures Parse(env, before + ItemText(q) + after) == Some(ValueOf(env, q.arg))
  {
    hide ItemText, ArgFits, ValueOf, IsExpression, Expression, ReadsOn, ArgText, ArgValue, Trim, From, Skip;
    var s := ItemText(q);
    Trims(before, s, after);
    WholeText(s);
    ItemReads(env, s, 0, q, "");
    ItemEnds(q, s);
    assert s[|s|..] == "" && Trim("") == "" by { TrimNothing(); }
  }

  lemma TrimNothing()
    ensures Trim("") == ""
  {
  }

  lemma WholeText(s: string)
    ensures From(s, 0, s + "")
  {
    assert s + "" == s && s[0..] == s;
  }

  lemma ItemEnds(q: Item, s: string)
    requires s == ItemText(q) && (q.after == "" || ReadsOn(q.arg)) && Blank(q.after)
    ensures EndOf(q.arg, s, |q.before| + |ArgText(q.arg)|) == |s|
  {
    hide ReadsOn, ArgText;
    var e := |q.before| + |ArgText(q.arg)|;
    assert s[e..] == q.after;
    assert q.after + "" == q.after;
    Past(s, e, q.after, "");
  }

  /** Whatever parses is a query of that value. */
  lemma OnlyQueriesParse(env: Env, text: string)
    requires Parse(env, text).Some?
    ensures Writes(env, text, Parse(env, text).value)
  {
    var s := Trim(text);
    var n := Expression(env, s, 0).next;
    hide ItemText, ItemFits, ValueOf, IsExpression, Expression, ReadsOn, Trim;
    var before, after := Trimmed(text);
    if n < |s| {
      NotBlank(s[n..], |s| - n - 1);
    }
    var q := ExpressionFound(env, s, 0);
    assert s[0..n] == s && s[n..] == "";
    assert IsWritten(env, text, ValueOf(env, q.arg), before, q, after);
  }

  /** The accepted texts and their values, exactly. */
  lemma ExactLanguage(env: Env, text: string, v: Value)
    ensures Parse(env, text) == Some(v) <==> Writes(env, text, v)
  {
    hide Parse, IsQuery;
    if Writes(env, text, v) {
      var before, q, after :| IsWritten(env, text, v, before, q, after);
      RoundTrip(env, before, q, after);
    }
    if Parse(env, text) == Some(v) {
      OnlyQueriesParse(env, text);
    }
  }

  /** No text can be read in two ways. */
  lemma Unambiguous(env: Env, text: string, v: Value, w: Value)
    requires Writes(env, text, v) && Writes(env, text, w)
    ensures v == w
  {
    ExactLanguage(env, text, v);
    ExactLanguage(env, text, w);
  }

  // ----- One query in full -------------------------------------------------------------------------------------

  function OneArg(name: string, a: Arg): CallText {
    CallText("", "", name, "", [Item("", a, "")], "", true)
  }

  lemma OneArgText(name: string, a: Arg)
    ensures AfterDot(OneArg(name, a)) == name + ("(" + (ArgText(a) + ")"))
  {
    hide ArgText;
    var i := Item("", a, "");
    assert MoreItems([i][1..]) == "";
    assert ItemsText([i]) == ArgText(a);
    assert ListText([i], "", ')', true) == ArgText(a) + ")";
  }

  lemma OneArgFits(env: Env, name: string, a: Arg, rest: string)
    requires ArgFits(env, a, ")" + rest) && IsName(name) && MethodId(env, name) != 0
    ensures CallFits(env, OneArg(name, a), rest)
  {
    hide ArgFits;
    var i := Item("", a, "");
    assert MoreItems([i][1..]) == "";
    assert "" + (")" + rest) == ")" + rest;
    assert ItemsFit(env, [i], ")" + rest);
  }

  function Letter(): Arg {
    AText([Plain('t')], false)
  }

  lemma LetterIs(env: Env, rest: string)
    ensures ArgText(Letter()) == "\"t\"" && ValueOf(env, Letter()) == Text("t") && ArgFits(env, Letter(), rest)
  {
    assert [Plain('t')][1..] == [];
    assert PiecesText([Plain('t')]) == "t" && PiecesValue([Plain('t')], false) == "t";
  }

  function GetQuery(t: string): Item {
    Item("", AChain([OneArg("table", Letter()), OneArg("get", ADecimal(t))]), "")
  }

  lemma Spelled(t: string)
    ensures "table" + ("(" + ("\"t\"" + ")")) == "table(\"t\")" && "get" + ("(" + (t + ")")) == "get(" + t + ")"
    ensures "r." + ("table(\"t\")" + ("." + ("get(" + t + ")"))) == "r.table(\"t\").get(" + t + ")"
  {
  }

  lemma GetText(env: Env, t: string)
    ensures ItemText(GetQuery(t)) == "r.table(\"t\").get(" + t + ")"
  {
    var table, get := OneArg("table", Letter()), OneArg("get", ADecimal(t));
    OneArgText("table", Letter());
    OneArgText("get", ADecimal(t));
    LetterIs(env, "");
    hide AfterDot, MoreCalls, ChainText, Letter;
    Spelled(t);
    TwoCalls(env, table, get);
    var chain := "r." + ChainText([table, get]);
    assert "" + (chain + "") == chain;
  }

  lemma GetIsQuery(env: Env, t: string)
    requires IsDecimal(t) && env.parseFloat(t).Some? && MethodId(env, "table") != 0 && MethodId(env, "get") != 0
    ensures IsQuery(env, GetQuery(t))
  {
    GetFits(env, t);
    GetText(env, t);
    hide ItemText, ItemFits;
    var text := "r.table(\"t\").get(" + t + ")";
    assert text[|text| - 1] == ')' && text[0] == 'r';
  }

  lemma GetFits(env: Env, t: string)
    requires IsDecimal(t) && env.parseFloat(t).Some? && MethodId(env, "table") != 0 && MethodId(env, "get") != 0
    ensures ItemFits(env, GetQuery(t), "")
  {
    var table, get := OneArg("table", Letter()), OneArg("get", ADecimal(t));
    LetterIs(env, ")" + (MoreCalls([get]) + ""));
    assert ArgFits(env, ADecimal(t), ")" + "");
    OneArgFits(env, "table", Letter(), MoreCalls([get]) + "");
    OneArgFits(env, "get", ADecimal(t), "");
    hide AfterDot, MoreCalls, ChainText, CallFits, ChainFits, Letter, IsDecimal;
    TwoCalls(env, table, get);
    assert "" + "" == "";
  }

  lemma GetValue(env: Env, t: string, f: real)
    requires env.parseFloat(t) == Some(f)
    ensures ValueOf(env, GetQuery(t).arg) ==
            List([Int(MethodId(env, "get")), List([Int(MethodId(env, "table")), Text("t")]), Number(f)])
  {
    var table, get := OneArg("table", Letter()), OneArg("get", ADecimal(t));
    LetterIs(env, "");
    ValuesOfOne(env, "table", Letter());
    ValuesOfOne(env, "get", ADecimal(t));
    Nested(Int(MethodId(env, "get")), Int(MethodId(env, "table")), Text("t"), Number(f));
    hide AfterDot, MoreCalls, ChainText, TermValue, ChainFits, Letter, ValuesOf, MethodId, CallFits;
    TwoCalls(env, table, get);
  }

  lemma Nested(a: Value, b: Value, c: Value, d: Value)
    ensures [a, List([b] + [c])] + [d] == [a, List([b, c]), d]
  {
    assert [b] + [c] == [b, c];
  }

  lemma ValuesOfOne(env: Env, name: string, a: Arg)
    ensures ValuesOf(env, OneArg(name, a).args) == [ValueOf(env, a)]
  {
    hide ValueOf;
    assert [Item("", a, "")][1..] == [];
  }

  /** A number with a point in a query: the document with this key. */
  lemma GetByDecimal(env: Env, t: string, f: real)
    requires IsDecimal(t) && env.parseFloat(t) == Some(f) && MethodId(env, "table") != 0 && MethodId(env, "get") != 0
    ensures Parse(env, "r.table(\"t\").get(" + t + ")") ==
            Some(List([Int(MethodId(env, "get")), List([Int(MethodId(env, "table")), Text("t")]), Number(f)]))
  {
    GetIsQuery(env, t);
    GetValue(env, t, f);
    GetText(env, t);
    hide GetQuery, ItemText, ValueOf, Parse, IsQuery, IsDecimal;
    var text := "r.table(\"t\").get(" + t + ")";
    RoundTrip(env, "", GetQuery(t), "");
    assert "" + text + "" == text;
  }

  lemma TwoCalls(env: Env, a: CallText, b: CallText)
    requires b.dot == ""
    ensures MoreCalls([b]) == "." + AfterDot(b) && ChainText([a, b]) == AfterDot(a) + ("." + AfterDot(b))
    ensures TermValue(env, [a, b]) ==
            List([Int(MethodId(env, b.name)), List([Int(MethodId(env, a.name))] + ValuesOf(env, a.args))]
                   + ValuesOf(env, b.args))
    ensures CallFits(env, a, MoreCalls([b]) + "") && CallFits(env, b, "") ==> ChainFits(env, [a, b], "")
  {
    hide AfterDot, CallFits, ValuesOf;
    assert [b][1..] == [] && [a, b][1..] == [b] && [a, b][..1] == [a];
    assert MoreCalls([b][1..]) + "" == "";
    assert CallFits(env, b, "") ==> CallsFit(env, [b], "") by {
      assert Blank("") && CallsFit(env, [b][1..], "");
    }
  }

  // ----- What is refused ---------------------------------------------------------------------------------------

  /** A query with more than space behind it. */
  lemma TrailingRefused(env: Env, before: string, q: Item, rest: string, after: string)
    requires AsciiBlank(before) && AsciiBlank(after) && IsExpression(q.arg) && ItemFits(env, q, rest)
    requires Tight(ItemText(q) + rest) && !Blank(rest)
    ensures Parse(env, before + (ItemText(q) + rest) + after) == None
  {
    hide ItemText, ItemFits, ValueOf, IsExpression, Expression, ArgValue, Trim, ReadsOn, ArgText, Skip;
    var s, e := ItemText(q) + rest, |ItemText(q)|;
    Trims(before, s, after);
    assert s[0..] == s && s[e..] == rest;
    ItemReads(env, s, 0, q, rest);
    var n := Expression(env, s, 0).next;
    SomethingLeft(s, n, e, rest);
  }

  lemma SomethingLeft(s: string, n: nat, e: nat, rest: string)
    requires n <= |s| && e <= |s| && s[e..] == rest && !Blank(rest) && Skip(s, n) == Skip(s, e)
    ensures Trim(s[n..]) != ""
  {
    hide Trim;
    var k := Skip(s, e);
    SkippedIsBlank(s, e);
    SkippedIsBlank(s, n);
    assert s[e..|s|] == rest;
    assert s[n..][k - n] == s[k];
    NotBlank(s[n..], k - n);
  }

  /** A chain in which the first unknown name comes after the calls given. */
  lemma UnknownMethodRefused(env: Env, before: string, calls: seq<CallText>, dot: string, lead: string, name: string,
                             tail: string, after: string)
    requires AsciiBlank(before) && AsciiBlank(after) && Blank(dot) && Blank(lead)
    requires IsName(name) && EndsName(tail) && MethodId(env, name) == 0
    requires var rest := if calls == [] then lead + (name + tail) else dot + ("." + (lead + (name + tail)));
             && Tight("r." + (ChainText(calls) + rest))
             && (calls != [] ==>
                   CallFits(env, calls[0], MoreCalls(calls[1..]) + rest) && CallsFit(env, calls[1..], rest))
    ensures var rest := if calls == [] then lead + (name + tail) else dot + ("." + (lead + (name + tail)));
            Parse(env, before + ("r." + (ChainText(calls) + rest)) + after) == None
  {
    var rest := if calls == [] then lead + (name + tail) else dot + ("." + (lead + (name + tail)));
    var s := "r." + (ChainText(calls) + rest);
    assert s[2..] == ChainText(calls) + rest && s[0] == 'r' && s[1] == '.';
    hide *;
    TrimsOf(before, s, after);
    FromIs(s, 2, ChainText(calls) + rest);
    if calls == [] {
      NoChain(calls);
      assert "" + rest == rest;
      UnknownCall(env, s, 2, lead, name, tail);
      FirstCallFails(env, s);
    } else {
      LaterCallFails(env, s, calls, dot, lead, name, tail);
    }
    ChainRefused(env, s);
    ParseFails(env, before + s + after, s);
  }

  lemma LaterCallFails(env: Env, s: string, calls: seq<CallText>, dot: string, lead: string, name: string, tail: string)
    requires Blank(dot) && Blank(lead) && IsName(name) && EndsName(tail) && MethodId(env, name) == 0
    requires var rest := dot + ("." + (lead + (name + tail)));
             && calls != [] && From(s, 2, ChainText(calls) + rest)
             && CallFits(env, calls[0], MoreCalls(calls[1..]) + rest) && CallsFit(env, calls[1..], rest)
    ensures |s| >= 2 && RChain(env, s, 0) == Fail
  {
    hide *;
    var rest := dot + ("." + (lead + (name + tail)));
    var e := 2 + |ChainText(calls)|;
    var d := e + |dot|;
    Ends(s, 2, ChainText(calls), rest);
    RChainRuns(env, s, 0, calls, rest);
    Past(s, e, dot, "." + (lead + (name + tail)));
    Ends(s, d, ".", lead + (name + tail));
    Here(s, d);
    UnknownCall(env, s, d + 1, lead, name, tail);
    NextCallFails(env, s, e, d, TermValue(env, calls));
  }

  lemma TrimsOf(before: string, t: string, after: string)
    requires AsciiBlank(before) && AsciiBlank(after) && Tight(t)
    ensures Trim(before + t + after) == t && t != ""
  {
    Trims(before, t, after);
  }

  lemma FromIs(s: string, p: nat, t: string)
    requires p <= |s| && s[p..] == t
    ensures From(s, p, t)
  {
  }

  lemma NoChain(calls: seq<CallText>)
    requires calls == []
    ensures ChainText(calls) == ""
  {
  }

  lemma UnknownCall(env: Env, s: string, p: nat, lead: string, name: string, tail: string)
    requires Blank(lead) && IsName(name) && EndsName(tail) && MethodId(env, name) == 0
    requires From(s, p, lead + (name + tail))
    ensures p <= |s| && Call(env, s, p) == Fail
  {
    hide ArgList, Identifier, IsName, EndsName, Skip;
    MethodReads(s, p, lead, name, tail);
  }

  lemma FirstCallFails(env: Env, s: string)
    requires |s| >= 2 && Call(env, s, 2) == Fail
    ensures RChain(env, s, 0) == Fail
  {
    hide Call;
  }

  lemma NextCallFails(env: Env, s: string, e: nat, d: nat, term: Value)
    requires e <= d < |s| && Skip(s, e) == Skip(s, d) == d && s[d] == '.' && Call(env, s, d + 1) == Fail
    ensures Chain(env, s, e, term) == Fail
  {
    hide Call, Skip;
  }

  lemma ChainRefused(env: Env, s: string)
    requires |s| >= 2 && s[0] == 'r' && s[1] == '.' && RChain(env, s, 0) == Fail
    ensures Expression(env, s, 0) == Fail
  {
    hide RChain;
  }

  lemma ParseFails(env: Env, text: string, s: string)
    requires Trim(text) == s && Expression(env, s, 0) == Fail
    ensures Parse(env, text) == None
  {
    hide Trim, Expression;
  }
}
