/**
 * The parser takes in nothing but written queries: for whatever it accepts there is a
 * tree with that text and that value. With ReqlReads this says exactly which texts parse,
 * and to what.
 */
module ReqlSound {
  import opened Options
  import opened Parser
  import opened Reql
  import opened ReqlReads
  import opened ReqlText

  // ----- Pieces of the text ------------------------------------------------------------------------------

  lemma Join(s: string, a: nat, b: nat, c: nat)
    requires a <= b <= c <= |s|
    ensures s[a..b] + s[b..c] == s[a..c] && s[a..b] + s[b..] == s[a..]
  {
  }

  lemma First(s: string, a: nat, b: nat)
    requires a < b <= |s|
    ensures s[a..b] == [s[a]] + s[a + 1..b] && s[a..] == [s[a]] + s[a + 1..]
  {
  }

  lemma Last(s: string, a: nat, b: nat)
    requires a <= b < |s|
    ensures s[a..b + 1] == s[a..b] + [s[b]] && s[b..] == [s[b]] + s[b + 1..]
  {
  }

  lemma {:induction false} SkippedIsBlank(s: string, p: nat)
    requires p <= |s|
    ensures Blank(s[p..Skip(s, p)]) && (Skip(s, p) < |s| ==> !IsSpace(s[Skip(s, p)]))
    decreases |s| - p
  {
    if p < |s| && IsSpace(s[p]) {
      SkippedIsBlank(s, p + 1);
      First(s, p, Skip(s, p));
    }
  }

  lemma {:induction false} NameFound(s: string, p: nat)
    requires p <= |s|
    ensures forall i :: p <= i < NameEnd(s, p) ==> NameByte(s[i])
    ensures EndsName(s[NameEnd(s, p)..])
    decreases |s| - p
  {
    if p < |s| && IsNameChar(s[p]) {
      NameFound(s, p + 1);
    }
  }

  lemma IdentifierFound(s: string, p: nat)
    requires Identifier(s, p).Ok? && Skip(s, p) == p <= |s|
    ensures var r := Identifier(s, p);
            p < r.next && r.value == s[p..r.next] && IsName(r.value) && EndsName(s[r.next..])
  {
    hide IsNameChar, NameByte;
    NameFound(s, p);
  }

  // ----- Strings and numbers --------------------------------------------------------------------------------

  lemma {:induction false} DoubleQuotedFound(s: string, p: nat, sofar: string) returns (pieces: seq<Piece>)
    requires DoubleQuoted(s, p, sofar).Ok?
    ensures var r := DoubleQuoted(s, p, sofar);
            && r.value == sofar + PiecesValue(pieces, false) && PiecesFit(pieces, false)
            && s[p..r.next] == PiecesText(pieces) + ['"']
    decreases |s| - p
  {
    var r := DoubleQuoted(s, p, sofar);
    if s[p] == '"' {
      pieces := [];
      assert sofar + "" == sofar && s[p..p + 1] == [s[p]];
    } else {
      var piece := if s[p] == '\\' then Escape(s[p + 1]) else Plain(s[p]);
      var q := p + |PieceText(piece)|;
      var more := DoubleQuotedFound(s, q, sofar + PieceValue(piece, false));
      pieces := [piece] + more;
      OnePiece(s, p, piece, more, '"', r.next);
      assert PiecesValue(pieces, false) == PieceValue(piece, false) + PiecesValue(more, false) by {
        assert pieces[1..] == more;
      }
    }
  }

  lemma {:induction false} SingleQuotedFound(s: string, p: nat, sofar: string) returns (pieces: seq<Piece>)
    requires SingleQuoted(s, p, sofar).Ok?
    ensures var r := SingleQuoted(s, p, sofar);
            && r.value == sofar + PiecesValue(pieces, true) && PiecesFit(pieces, true)
            && s[p..r.next] == PiecesText(pieces) + ['\'']
    decreases |s| - p
  {
    var r := SingleQuoted(s, p, sofar);
    if s[p] == '\'' {
      pieces := [];
      assert sofar + "" == sofar && s[p..p + 1] == [s[p]];
    } else {
      var piece := if s[p] == '\\' then Escape(s[p + 1]) else Plain(s[p]);
      var q := p + |PieceText(piece)|;
      var more := SingleQuotedFound(s, q, sofar + PieceValue(piece, true));
      pieces := [piece] + more;
      OnePiece(s, p, piece, more, '\'', r.next);
      assert PiecesValue(pieces, true) == PieceValue(piece, true) + PiecesValue(more, true) by {
        assert pieces[1..] == more;
      }
    }
  }

  lemma OnePiece(s: string, p: nat, piece: Piece, more: seq<Piece>, quote: char, e: nat)
    requires var q := p + |PieceText(piece)|;
             q <= e <= |s| && s[q..e] == PiecesText(more) + [quote] && s[p..q] == PieceText(piece)
    ensures s[p..e] == PiecesText([piece] + more) + [quote]
  {
    assert ([piece] + more)[1..] == more;
    Join(s, p, p + |PieceText(piece)|, e);
  }

  /** A quoted text, from its opening quote on. */
  lemma QuotedFound(s: string, p: nat, single: bool) returns (pieces: seq<Piece>)
    requires p < |s| && s[p] == QuoteOf(single)
    requires (if single then SingleQuoted(s, p + 1, "") else DoubleQuoted(s, p + 1, "")).Ok?
    ensures var r := if single then SingleQuoted(s, p + 1, "") else DoubleQuoted(s, p + 1, "");
            && r.value == PiecesValue(pieces, single) && PiecesFit(pieces, single)
            && s[p..r.next] == QuotedText(pieces, single)
  {
    hide SingleQuoted, DoubleQuoted, PiecesText, PiecesValue, PiecesFit;
    var r := if single then SingleQuoted(s, p + 1, "") else DoubleQuoted(s, p + 1, "");
    if single {
      pieces := SingleQuotedFound(s, p + 1, "");
    } else {
      pieces := DoubleQuotedFound(s, p + 1, "");
    }
    assert "" + PiecesValue(pieces, single) == PiecesValue(pieces, single);
    First(s, p, r.next);
  }

  lemma {:induction false} NumberFound(s: string, p: nat)
    requires p <= |s|
    ensures DigitsAndPoints(s[p..NumberEnd(s, p)]) && EndsNumber(s[NumberEnd(s, p)..])
    decreases |s| - p
  {
    if p < |s| && (IsDigit(s[p]) || s[p] == '.') {
      NumberFound(s, p + 1);
      First(s, p, NumberEnd(s, p));
    }
  }

  /** Digits are zeros and then a number without leading ones. */
  lemma {:induction false} DigitsSplit(t: string) returns (zeros: nat, magnitude: nat)
    requires |t| > 0 && AllDigits(t)
    ensures t == ZeroText(zeros) + NatText(magnitude)
  {
    var d := DigitOf(t[|t| - 1]);
    assert t == t[..|t| - 1] + [DigitChar(d)];
    if |t| == 1 {
      zeros, magnitude := 0, d;
    } else {
      var z, m := DigitsSplit(t[..|t| - 1]);
      if m == 0 {
        zeros, magnitude := z + 1, d;
        assert ZeroText(z) + "0" == ZeroText(z + 1);
      } else {
        zeros, magnitude := z, 10 * m + d;
        assert (10 * m + d) / 10 == m && (10 * m + d) % 10 == d;
      }
    }
  }

  /** Which number a text of digits and points writes. */
  lemma NumberWritten(env: Env, t: string, rest: string) returns (a: Arg)
    requires |t| > 0 && (t[0] == '-' || IsDigit(t[0])) && DigitsAndPoints(if t[0] == '-' then t[1..] else t)
    requires NumberOf(env, t).Some? && EndsNumber(rest)
    ensures ArgText(a) == t && ArgFits(env, a, rest) && ValueOf(env, a) == Number(NumberOf(env, t).value)
    ensures !a.ARow? && !a.ASpaced?
  {
    if '.' in t || t == "-" {
      a := ADecimal(t);
    } else {
      var negative := t[0] == '-';
      var digits := if negative then t[1..] else t;
      assert AllDigits(digits) by {
        forall i | 0 <= i < |digits|
          ensures IsDigit(digits[i])
        {
          assert digits[i] in t;
        }
      }
      assert |digits| > 0 by {
        assert t == [t[0]] + t[1..];
      }
      hide NumberOf;
      var zeros, magnitude := DigitsSplit(digits);
      a := AInt(negative, zeros, magnitude);
      assert t == Sign(negative) + digits;
      NumberOfInt(env, negative, zeros, magnitude);
    }
  }

  lemma NumberOfInt(env: Env, negative: bool, zeros: nat, magnitude: nat)
    ensures var n, t := Signed(negative, magnitude), IntText(negative, zeros, magnitude);
            NumberOf(env, t) == if IsInt64(n) then Some(env.toFloat(n)) else env.parseFloat(t)
  {
    hide IntText, ParseInt;
    IntShape(negative, zeros, magnitude);
    ParseIntReads(negative, zeros, magnitude);
  }

  lemma ParseNumberFound(env: Env, s: string, p: nat) returns (a: Arg)
    requires p < |s| && (s[p] == '-' || IsDigit(s[p])) && ParseNumber(env, s, p).Ok?
    ensures var r := ParseNumber(env, s, p);
            ArgText(a) == s[p..r.next] && ArgFits(env, a, s[r.next..]) && ValueOf(env, a) == r.value
    ensures !a.ARow? && !a.ASpaced?
  {
    var e := ParseNumber(env, s, p).next;
    if s[p] == '-' {
      NumberFound(s, p + 1);
      First(s, p, e);
    } else {
      NumberFound(s, p);
      assert e > p;
    }
    hide NumberOf, DigitsAndPoints, EndsNumber, NumberEnd, ArgText, ArgFits, ValueOf;
    assert s[p..e][0] == s[p];
    a := NumberWritten(env, s[p..e], s[e..]);
  }

  // ----- Arguments --------------------------------------------------------------------------------------

  /** The item is what the parser took in from `p` on, and it may stand there. */
  ghost predicate Found(env: Env, i: Item, s: string, p: nat, r: Parsed<Value>) {
    && r.Ok? && p <= r.next <= |s| && ItemText(i) == s[p..r.next] && ItemFits(env, i, s[r.next..])
    && ValueOf(env, i.arg) == r.value && (i.after == "" || ReadsOn(i.arg))
  }

  /** The argument stands at `q` and ends at `e`; behind it the parser passed over space at most. */
  ghost predicate FoundAt(env: Env, a: Arg, s: string, q: nat, e: nat, r: Parsed<Value>) {
    && r.Ok? && q <= e <= r.next <= |s| && ArgText(a) == s[q..e] && ArgFits(env, a, s[e..])
    && ValueOf(env, a) == r.value && Blank(s[e..r.next]) && (e == r.next || ReadsOn(a))
  }

  lemma ItemFound(env: Env, s: string, p: nat, q: nat, e: nat, a: Arg, r: Parsed<Value>) returns (i: Item)
    requires p <= q <= |s| && Blank(s[p..q]) && FoundAt(env, a, s, q, e, r)
    ensures i == Item(s[p..q], a, s[e..r.next]) && Found(env, i, s, p, r)
  {
    hide ArgText, ArgFits, ValueOf, ReadsOn;
    i := Item(s[p..q], a, s[e..r.next]);
    Join(s, e, r.next, |s|);
    Join(s, q, e, r.next);
    Join(s, p, q, r.next);
  }

  /** Space behind an item counts as its own. */
  lemma ItemWidened(env: Env, i: Item, s: string, p: nat, m: nat, k: nat) returns (wide: Item)
    requires p <= m <= k <= |s| && Blank(s[m..k]) && ItemText(i) == s[p..m] && ItemFits(env, i, s[m..])
    ensures wide == i.(after := i.after + s[m..k])
    ensures ItemText(wide) == s[p..k] && ItemFits(env, wide, s[k..])
  {
    hide ArgText, ArgFits;
    wide := i.(after := i.after + s[m..k]);
    Join(s, p, m, k);
    Join(s, m, k, |s|);
    assert s[k..|s|] == s[k..];
    assert wide.after + s[k..] == i.after + s[m..];
    assert ItemText(wide) == ItemText(i) + s[m..k];
  }

  /** What Expect makes of the bracket: it closes, or neither is it there. */
  lemma CloseFound(s: string, n: nat, close: char)
    requires n <= |s| && Skip(s, n) == n && close in {')', ']', '}'}
    ensures var e := Expect(s, n, close); var closed := n < |s| && s[n] == close;
            && e == (if closed then n + 1 else n) && Closing(close, closed) == s[n..e]
            && (closed || Next(s[e..]) != close)
            && Closing(close, closed) + s[e..] == s[n..]
    ensures Next(s[n..]) == Peek(s, n)
  {
    PeekInside(s, n, s[n..]);
    Join(s, n, Expect(s, n, close), |s|);
    if n < |s| && s[n] == close {
      Last(s, n, n);
    } else {
      assert s[n..n] == "";
    }
  }

  lemma ParensFit(env: Env, item: Item, closed: bool, rest: string)
    requires IsExpression(item.arg) && ItemFits(env, item, Closing(')', closed) + rest)
    requires closed || Next(rest) != ')'
    ensures var a := AParens(item, closed);
            && ArgFits(env, a, rest) && ArgText(a) == "(" + (ItemText(item) + Closing(')', closed))
            && ValueOf(env, a) == ValueOf(env, item.arg)
  {
  }

  lemma {:induction false} ParensFound(env: Env, s: string, p: nat) returns (item: Item, closed: bool)
    requires p < |s| && s[p] == '(' && Parenthesized(env, s, p).Ok?
    ensures var r := Parenthesized(env, s, p); var a := AParens(item, closed);
            ArgText(a) == s[p..r.next] && ArgFits(env, a, s[r.next..]) && ValueOf(env, a) == r.value
    decreases |s| + 1 - p, 0
  {
    var m := Expression(env, s, p + 1).next;
    var k, e := Skip(s, m), Expect(s, m, ')');
    SkippedIsBlank(s, m);
    SkipIdempotent(s, m);
    CloseFound(s, k, ')');
    hide Expression, ItemText, ItemFits, ValueOf, Skip, Blank, Peek, ArgText, ArgFits, ReadsOn, IsExpression;
    var i := ExpressionFound(env, s, p + 1);
    item := ItemWidened(env, i, s, p + 1, m, k);
    closed := k < |s| && s[k] == ')';
    ParensFit(env, item, closed, s[e..]);
    Join(s, p + 1, k, e);
    First(s, p, e);
  }

  /** An argument, from its first byte on. */
  lemma {:induction false} ArgFoundAt(env: Env, s: string, q: nat) returns (a: Arg, e: nat)
    requires q < |s| && !IsSpace(s[q]) && ArgValue(env, s, q).Ok?
    ensures FoundAt(env, a, s, q, e, ArgValue(env, s, q))
    ensures s[q] != 'r' || At(s, q, "r.") ==> IsExpression(a)
    decreases |s| + 1 - q, 5
  {
    hide DoubleQuoted, SingleQuoted, Object, Bracketed, Parenthesized, ParseNumber, RChain, NamedValue;
    hide ArgValue, PiecesText, PiecesFit, PiecesValue, IntText, ListText, FieldListText, ChainText, TermValue, Float;
    hide ValuesOf, FieldsOf, ItemText, ListFits, ItemFits, FieldsFit, ChainFits, Skip, Peek, EndsNumber;
    ArgValueAt(env, s, q);
    e := ArgValue(env, s, q).next;
    assert s[e..e] == "";
    if s[q] == '"' || s[q] == '\'' {
      var pieces := QuotedFound(s, q, s[q] == '\'');
      a := AText(pieces, s[q] == '\'');
    } else if s[q] == '{' {
      var fields, pad, closed := ObjectFound(env, s, q);
      a := AObject(fields, pad, closed);
      First(s, q, e);
    } else if s[q] == '[' {
      var items, pad, closed := BracketedFound(env, s, q, ']');
      a := AArray(items, pad, closed);
      First(s, q, e);
    } else if s[q] == '(' {
      var item, closed := ParensFound(env, s, q);
      a := AParens(item, closed);
    } else if s[q] == '-' || IsDigit(s[q]) {
      a := ParseNumberFound(env, s, q);
    } else if s[q] == 't' || s[q] == 'f' {
      a := ABool(At(s, q, "true"));
    } else if s[q] == 'n' {
      a := ANull;
    } else if At(s, q, "r.") {
      var calls;
      calls, e := RChainFound(env, s, q);
      a := AChain(calls);
      Join(s, q, q + 2, e);
    } else if At(s, q, "row") {
      a := ARow;
    } else {
      a, e := NamedFound(env, s, q);
    }
  }

  lemma {:induction false} ArgFound(env: Env, s: string, p: nat) returns (i: Item)
    requires p <= |s| && ArgValue(env, s, p).Ok?
    ensures Found(env, i, s, p, ArgValue(env, s, p))
    ensures var q := Skip(s, p); q < |s| && (s[q] != 'r' || At(s, q, "r.") ==> IsExpression(i.arg))
    decreases |s| + 1 - p, 6
  {
    var q := Skip(s, p);
    SkippedIsBlank(s, p);
    SkipIdempotent(s, p);
    ArgSkips(env, s, p, q);
    NothingAtEnd(env, s, p);
    hide ArgValue, Found, FoundAt, Skip, IsSpace, Blank, IsExpression;
    var a, e := ArgFoundAt(env, s, q);
    i := ItemFound(env, s, p, q, e, a, ArgValue(env, s, q));
  }

  lemma NothingAtEnd(env: Env, s: string, p: nat)
    requires p <= |s| && (ArgValue(env, s, p).Ok? || Expression(env, s, p).Ok?)
    ensures Skip(s, p) < |s|
  {
  }

  /** A name that opens nothing else is `r` with space before its dot. */
  lemma {:induction false} NamedFound(env: Env, s: string, q: nat) returns (a: Arg, e: nat)
    requires q < |s| && !IsSpace(s[q]) && s[q] !in {'t', 'f', 'n'} && !At(s, q, "r.") && NamedValue(env, s, q).Ok?
    ensures FoundAt(env, a, s, q, e, NamedValue(env, s, q)) && s[q] == 'r'
    decreases |s| + 1 - q, 4
  {
    var d := Skip(s, q + 1);
    OnlyR(env, s, q);
    SkippedIsBlank(s, q + 1);
    hide *;
    var calls;
    calls, e := RChainFound(env, s, d);
    a := ASpaced(s[q + 1..d], s[d + 1], calls);
    SpacedText(s, q, d, e, ChainText(calls));
    SpacedFits(env, s[q + 1..d], s[d + 1], calls, s[e..], s[q..e]);
    SpacedFound(env, a, s, q, e, RChain(env, s, d));
  }

  lemma SpacedText(s: string, q: nat, d: nat, e: nat, chain: string)
    requires q + 1 < d && d + 2 <= e <= |s| && s[q] == 'r' && s[d] == '.' && chain == s[d + 2..e]
    ensures s[q..e] == ['r'] + (s[q + 1..d] + (['.', s[d + 1]] + chain))
  {
    First(s, q, e);
    Join(s, q + 1, d, e);
    Join(s, d, d + 2, e);
    assert s[d..d + 2] == ['.', s[d + 1]];
  }

  lemma OnlyR(env: Env, s: string, q: nat)
    requires q < |s| && !IsSpace(s[q]) && s[q] !in {'t', 'f', 'n'} && !At(s, q, "r.") && NamedValue(env, s, q).Ok?
    ensures var d := Skip(s, q + 1);
            && s[q] == 'r' && q + 1 < d < |s| && s[d] == '.' && NamedValue(env, s, q) == RChain(env, s, d)
  {
    hide RChain, Identifier;
    IdentifierFound(s, q);
    assert Identifier(s, q).value[0] == s[q];
    Letters(s, q);
  }

  lemma SpacedFits(env: Env, space: string, passed: char, calls: seq<CallText>, rest: string, t: string)
    requires space != "" && Blank(space) && |calls| > 0 && ChainFits(env, calls, rest)
    requires t == ['r'] + (space + (['.', passed] + ChainText(calls)))
    ensures var a := ASpaced(space, passed, calls);
            ArgFits(env, a, rest) && ArgText(a) == t && ValueOf(env, a) == TermValue(env, calls) && ReadsOn(a)
  {
    hide Blank, ChainFits, ChainText, TermValue;
  }

  lemma SpacedFound(env: Env, a: Arg, s: string, q: nat, e: nat, r: Parsed<Value>)
    requires r.Ok? && q <= e <= r.next <= |s| && ArgText(a) == s[q..e] && ArgFits(env, a, s[e..])
    requires ValueOf(env, a) == r.value && Blank(s[e..r.next]) && ReadsOn(a)
    ensures FoundAt(env, a, s, q, e, r)
  {
  }

  lemma {:induction false} ExpressionFound(env: Env, s: string, p: nat) returns (i: Item)
    requires p <= |s| && Expression(env, s, p).Ok?
    ensures Found(env, i, s, p, Expression(env, s, p)) && IsExpression(i.arg)
    decreases |s| + 1 - p, 7
  {
    var q := Skip(s, p);
    SkippedIsBlank(s, p);
    SkipIdempotent(s, p);
    ArgSkips(env, s, p, q);
    NothingAtEnd(env, s, p);
    ExpressionAt(env, s, q);
    ExpressionHasNoR(env, s, q);
    hide ArgValue, Expression, Found, Skip, IsSpace, Blank, IsExpression;
    i := ArgFound(env, s, p);
  }

  lemma ExpressionHasNoR(env: Env, s: string, q: nat)
    requires q < |s| && !IsSpace(s[q]) && Expression(env, s, q).Ok?
    ensures s[q] != 'r' || At(s, q, "r.")
  {
    hide RChain, Parenthesized, DoubleQuoted, SingleQuoted, Object, Bracketed, ParseNumber;
    StaysPut(s, q);
    Letters(s, q);
    if s[q] == 'r' && Identifier(s, q).Ok? {
      IdentifierFound(s, q);
      assert Identifier(s, q).value[0] == s[q];
    }
  }

  // ----- Lists --------------------------------------------------------------------------------------------

  ghost predicate ItemsFound(env: Env, items: seq<Item>, s: string, p: nat, sofar: seq<Value>,
                             r: Parsed<seq<Value>>) {
    && r.Ok? && p <= r.next <= |s| && |items| > 0 && r.value == sofar + ValuesOf(env, items)
    && ItemsText(items) == s[p..r.next] && ItemsFit(env, items, s[r.next..])
    && Skip(s, r.next) == r.next && Peek(s, r.next) != ','
  }

  /** An argument and the space behind it. */
  lemma {:induction false} WideFound(env: Env, s: string, p: nat) returns (i: Item)
    requires p <= |s| && ArgValue(env, s, p).Ok?
    ensures var r := ArgValue(env, s, p); var k := Skip(s, r.next);
            && p <= k <= |s| && ItemText(i) == s[p..k] && ItemFits(env, i, s[k..]) && ValueOf(env, i.arg) == r.value
    decreases |s| + 1 - p, 7
  {
    var m := ArgValue(env, s, p).next;
    SkippedIsBlank(s, m);
    hide ArgValue, Skip, Blank, ItemText, ItemFits, ValueOf, ReadsOn;
    i := ArgFound(env, s, p);
    i := ItemWidened(env, i, s, p, m, Skip(s, m));
  }

  lemma PeekIs(s: string, p: nat)
    requires p <= |s|
    ensures Peek(s, p) == if Skip(s, p) < |s| then s[Skip(s, p)] else '\0'
  {
  }

  lemma {:induction false} FindItems(env: Env, s: string, p: nat, sofar: seq<Value>) returns (items: seq<Item>)
    requires p <= |s| && Items(env, s, p, sofar).Ok?
    ensures ItemsFound(env, items, s, p, sofar, Items(env, s, p, sofar))
    decreases |s| + 1 - p, 8
  {
    hide *;
    ItemsStep(env, s, p, sofar);
    var v, m := ArgValue(env, s, p).value, ArgValue(env, s, p).next;
    var k := Skip(s, m);
    SkipIdempotent(s, m);
    PeekIs(s, m);
    var i := WideFound(env, s, p);
    if Peek(s, m) == ',' {
      var more := FindItems(env, s, k + 1, sofar + [v]);
      items := [i] + more;
      MoreFound(env, s, p, k, i, more, sofar, Items(env, s, k + 1, sofar + [v]));
    } else {
      items := [i];
      OneFound(env, s, p, k, i, sofar);
    }
  }

  lemma OneFits(env: Env, i: Item, rest: string)
    requires ItemFits(env, i, rest)
    ensures ItemsFit(env, [i], rest) && ItemsText([i]) == ItemText(i) && ValuesOf(env, [i]) == [ValueOf(env, i.arg)]
  {
    hide ItemFits, ItemText, ValueOf;
    assert [i][1..] == [] && "" + rest == rest && ItemText(i) + "" == ItemText(i);
    assert MoreItems([]) == "";
  }

  lemma OneFound(env: Env, s: string, p: nat, k: nat, i: Item, sofar: seq<Value>)
    requires p <= k <= |s| && ItemText(i) == s[p..k] && ItemFits(env, i, s[k..]) && Skip(s, k) == k
    requires Peek(s, k) != ','
    ensures ItemsFound(env, [i], s, p, sofar, Ok(sofar + [ValueOf(env, i.arg)], k))
  {
    hide ItemText, ItemFits, ValueOf, Skip, Peek, ItemsText, ValuesOf, ItemsFit;
    OneFits(env, i, s[k..]);
  }

  lemma Append(sofar: seq<Value>, v: Value, more: seq<Value>)
    ensures (sofar + [v]) + more == sofar + ([v] + more)
  {
  }

  lemma CommaJoin(s: string, p: nat, k: nat, n: nat, more: string)
    requires p <= k < n <= |s| && s[k] == ',' && more == s[k + 1..n]
    ensures s[p..k] + ("," + more) == s[p..n] && ("," + more) + s[n..] == s[k..]
  {
    First(s, k, n);
    Join(s, p, k, n);
    Join(s, k, n, |s|);
  }

  lemma MoreFound(env: Env, s: string, p: nat, k: nat, i: Item, more: seq<Item>, sofar: seq<Value>,
                  r: Parsed<seq<Value>>)
    requires p <= k < |s| && ItemText(i) == s[p..k] && ItemFits(env, i, s[k..]) && s[k] == ','
    requires ItemsFound(env, more, s, k + 1, sofar + [ValueOf(env, i.arg)], r)
    ensures ItemsFound(env, [i] + more, s, p, sofar, r)
  {
    hide ItemText, ItemFits, ValueOf, Skip, Peek, ItemsText, ValuesOf, ItemsFit, MoreItems;
    NoItems(env, more);
    CommaJoin(s, p, k, r.next, ItemsText(more));
    MoreFit(env, i, more, s[r.next..]);
    Append(sofar, ValueOf(env, i.arg), ValuesOf(env, more));
  }

  lemma MoreFit(env: Env, i: Item, more: seq<Item>, rest: string)
    requires ItemFits(env, i, MoreItems(more) + rest) && ItemsFit(env, more, rest)
    ensures ItemsFit(env, [i] + more, rest) && ItemsText([i] + more) == ItemText(i) + MoreItems(more)
    ensures ValuesOf(env, [i] + more) == [ValueOf(env, i.arg)] + ValuesOf(env, more)
  {
    hide ItemText, ItemFits, ValueOf, MoreItems;
    assert ([i] + more)[1..] == more;
  }

  lemma FirstOf(env: Env, items: seq<Item>)
    requires |items| > 0
    ensures ItemsText(items) == ItemText(items[0]) + MoreItems(items[1..])
    ensures ValuesOf(env, items) == [ValueOf(env, items[0].arg)] + ValuesOf(env, items[1..])
  {
  }

  lemma ListFitsIs(env: Env, items: seq<Item>, pad: string, close: char, closed: bool, rest: string)
    requires if items == [] then Blank(pad) && closed
             else ItemsFit(env, items, Closing(close, closed) + rest) && CloseFits(close, closed, rest)
    ensures ListFits(env, items, pad, close, closed, rest)
    ensures ListText(items, pad, close, closed)
              == (if items == [] then pad else ItemsText(items)) + Closing(close, closed)
  {
  }

  lemma {:induction false} BracketedFound(env: Env, s: string, p: nat, close: char)
    returns (items: seq<Item>, pad: string, closed: bool)
    requires p < |s| && close in {')', ']'} && Bracketed(env, s, p, close).Ok?
    ensures var r := Bracketed(env, s, p, close);
            && p < r.next <= |s| && ListText(items, pad, close, closed) == s[p + 1..r.next]
            && ListFits(env, items, pad, close, closed, s[r.next..]) && ValuesOf(env, items) == r.value
    decreases |s| + 1 - p, 0
  {
    var q := Skip(s, p + 1);
    hide Items, Skip, ItemsText, ItemsFit, Peek, ListFits, ListText, Blank, IsSpace;
    if q < |s| && s[q] == close {
      SkippedIsBlank(s, p + 1);
      items, pad, closed := [], s[p + 1..q], true;
      Last(s, p + 1, q);
      ListFitsIs(env, items, pad, close, closed, s[q + 1..]);
    } else {
      hide ValuesOf;
      var r := Items(env, s, p + 1, []);
      items := FindItems(env, s, p + 1, []);
      assert [] + ValuesOf(env, items) == ValuesOf(env, items);
      pad, closed := "", r.next < |s| && s[r.next] == close;
      CloseFound(s, r.next, close);
      var e := Expect(s, r.next, close);
      Join(s, p + 1, r.next, e);
      ListFitsIs(env, items, pad, close, closed, s[e..]);
    }
  }

  // ----- Objects ------------------------------------------------------------------------------------------

  lemma KeyFound(s: string, p: nat) returns (lead: string, k: Key)
    requires p <= |s| && ParseKey(s, p).Ok?
    ensures var q := Skip(s, p); var r := ParseKey(s, p);
            && q <= r.next <= |s| && lead == s[p..q] && Blank(lead) && KeyText(k) == s[q..r.next]
            && KeyFits(k, s[r.next..]) && KeyOf(k) == r.value
  {
    var q := Skip(s, p);
    SkippedIsBlank(s, p);
    SkipIdempotent(s, p);
    lead := s[p..q];
    hide Skip, Identifier, DoubleQuoted, SingleQuoted, PiecesText, PiecesFit, PiecesValue, Blank;
    if q < |s| && (s[q] == '"' || s[q] == '\'') {
      var pieces := QuotedFound(s, q, s[q] == '\'');
      k := Quoted(pieces, s[q] == '\'');
    } else {
      IdentifierFound(s, q);
      k := Bare(Identifier(s, q).value);
    }
  }

  /** One field up to the next byte that is no space. */
  lemma {:induction false} FieldFound(env: Env, s: string, p: nat) returns (f: FieldItem)
    requires p <= |s| && ParseKey(s, p).Ok? && ArgValue(env, s, Expect(s, ParseKey(s, p).next, ':')).Ok?
    ensures var v := ArgValue(env, s, Expect(s, ParseKey(s, p).next, ':')); var k := Skip(s, v.next);
            && p <= k <= |s| && FieldText(f) == s[p..k] && FieldFits(env, f, s[k..])
            && KeyOf(f.key) == ParseKey(s, p).value && ValueOf(env, f.item.arg) == v.value
    decreases |s| + 1 - p, 8
  {
    var n := ParseKey(s, p).next;
    var g, x := Skip(s, n), Expect(s, n, ':');
    SkippedIsBlank(s, n);
    ColonFound(s, n);
    hide ParseKey, ArgValue, Skip, Blank, ItemText, ItemFits, ValueOf, KeyText, KeyFits, KeyOf, Expect;
    var k := Skip(s, ArgValue(env, s, x).next);
    var lead, key := KeyFound(s, p);
    var item := WideFound(env, s, x);
    f := FieldItem(lead, key, s[n..g], x != g, item);
    Join(s, x, k, |s|);
    Join(s, g, x, |s|);
    Join(s, n, g, |s|);
    Join(s, g, x, k);
    Join(s, n, g, k);
    Join(s, Skip(s, p), n, k);
    Join(s, p, Skip(s, p), k);
  }

  lemma ColonFound(s: string, n: nat)
    requires n <= |s|
    ensures var g, x := Skip(s, n), Expect(s, n, ':');
            g <= x <= |s| && Closing(':', x != g) == s[g..x]
  {
    hide Skip;
  }

  ghost predicate FieldsFound(env: Env, fields: seq<FieldItem>, s: string, p: nat, sofar: map<string, Value>,
                              r: Parsed<map<string, Value>>) {
    && r.Ok? && p <= r.next <= |s| && |fields| > 0 && r.value == FieldsOf(env, fields, sofar)
    && FieldsText(fields) == s[p..r.next] && FieldsFit(env, fields, s[r.next..])
    && Skip(s, r.next) == r.next && Peek(s, r.next) != ','
  }

  lemma {:induction false} FindFields(env: Env, s: string, p: nat, sofar: map<string, Value>)
    returns (fields: seq<FieldItem>)
    requires p <= |s| && Fields(env, s, p, sofar).Ok?
    ensures FieldsFound(env, fields, s, p, sofar, Fields(env, s, p, sofar))
    decreases |s| + 1 - p, 9
  {
    hide *;
    FieldsStep(env, s, p, sofar);
    var key := ParseKey(s, p);
    var v := ArgValue(env, s, Expect(s, key.next, ':'));
    var k := Skip(s, v.next);
    var longer := sofar[key.value := v.value];
    SkipIdempotent(s, v.next);
    PeekIs(s, v.next);
    var f := FieldFound(env, s, p);
    if Peek(s, v.next) == ',' {
      var more := FindFields(env, s, k + 1, longer);
      fields := [f] + more;
      MoreFieldsFound(env, s, p, k, f, more, sofar, Fields(env, s, k + 1, longer));
    } else {
      fields := [f];
      OneFieldFound(env, s, p, k, f, sofar);
    }
  }

  lemma OneFieldFits(env: Env, f: FieldItem, rest: string, sofar: map<string, Value>)
    requires FieldFits(env, f, rest)
    ensures FieldsFit(env, [f], rest) && FieldsText([f]) == FieldText(f)
    ensures FieldsOf(env, [f], sofar) == sofar[KeyOf(f.key) := ValueOf(env, f.item.arg)]
  {
    hide FieldFits, FieldText, ValueOf, KeyOf;
    assert [f][1..] == [] && "" + rest == rest && FieldText(f) + "" == FieldText(f);
    assert MoreFields([]) == "";
    NoFields(env, [], sofar[KeyOf(f.key) := ValueOf(env, f.item.arg)]);
    FirstFieldOf(env, [f], sofar);
  }

  lemma OneFieldFound(env: Env, s: string, p: nat, k: nat, f: FieldItem, sofar: map<string, Value>)
    requires p <= k <= |s| && FieldText(f) == s[p..k] && FieldFits(env, f, s[k..]) && Skip(s, k) == k
    requires Peek(s, k) != ','
    ensures FieldsFound(env, [f], s, p, sofar, Ok(sofar[KeyOf(f.key) := ValueOf(env, f.item.arg)], k))
  {
    hide FieldText, FieldFits, ValueOf, KeyOf, Skip, Peek, FieldsText, FieldsOf, FieldsFit;
    OneFieldFits(env, f, s[k..], sofar);
  }

  lemma MoreFieldsFound(env: Env, s: string, p: nat, k: nat, f: FieldItem, more: seq<FieldItem>,
                        sofar: map<string, Value>, r: Parsed<map<string, Value>>)
    requires p <= k < |s| && FieldText(f) == s[p..k] && FieldFits(env, f, s[k..]) && s[k] == ','
    requires FieldsFound(env, more, s, k + 1, sofar[KeyOf(f.key) := ValueOf(env, f.item.arg)], r)
    ensures FieldsFound(env, [f] + more, s, p, sofar, r)
  {
    hide FieldText, FieldFits, ValueOf, KeyOf, Skip, Peek, FieldsText, FieldsOf, FieldsFit, MoreFields;
    NoFields(env, more, sofar);
    CommaJoin(s, p, k, r.next, FieldsText(more));
    MoreFieldsFit(env, f, more, s[r.next..], sofar);
  }

  lemma MoreFieldsFit(env: Env, f: FieldItem, more: seq<FieldItem>, rest: string, sofar: map<string, Value>)
    requires FieldFits(env, f, MoreFields(more) + rest) && FieldsFit(env, more, rest)
    ensures FieldsFit(env, [f] + more, rest) && FieldsText([f] + more) == FieldText(f) + MoreFields(more)
    ensures FieldsOf(env, [f] + more, sofar)
              == FieldsOf(env, more, sofar[KeyOf(f.key) := ValueOf(env, f.item.arg)])
  {
    hide FieldText, FieldFits, ValueOf, KeyOf, MoreFields;
    assert ([f] + more)[1..] == more;
  }

  lemma FirstFieldOf(env: Env, fields: seq<FieldItem>, sofar: map<string, Value>)
    requires |fields| > 0
    ensures FieldsText(fields) == FieldText(fields[0]) + MoreFields(fields[1..])
    ensures FieldsOf(env, fields, sofar)
              == FieldsOf(env, fields[1..], sofar[KeyOf(fields[0].key) := ValueOf(env, fields[0].item.arg)])
  {
  }

  lemma ObjectFits(env: Env, fields: seq<FieldItem>, pad: string, closed: bool, rest: string)
    requires if fields == [] then Blank(pad) && closed
             else FieldsFit(env, fields, Closing('}', closed) + rest) && CloseFits('}', closed, rest)
    ensures ArgFits(env, AObject(fields, pad, closed), rest)
  {
  }

  lemma {:induction false} ObjectFound(env: Env, s: string, p: nat)
    returns (fields: seq<FieldItem>, pad: string, closed: bool)
    requires p < |s| && Object(env, s, p).Ok?
    ensures var r := Object(env, s, p);
            && p < r.next <= |s| && FieldListText(fields, pad, closed) == s[p + 1..r.next]
            && ArgFits(env, AObject(fields, pad, closed), s[r.next..]) && FieldsOf(env, fields, map[]) == r.value
    decreases |s| + 1 - p, 0
  {
    var q := Skip(s, p + 1);
    hide Fields, Skip, FieldsText, FieldsFit, Peek, ArgFits, Blank;
    if q < |s| && s[q] == '}' {
      SkippedIsBlank(s, p + 1);
      fields, pad, closed := [], s[p + 1..q], true;
      Last(s, p + 1, q);
      ObjectFits(env, fields, pad, closed, s[q + 1..]);
    } else {
      hide FieldsOf;
      var r := Fields(env, s, p + 1, map[]);
      fields := FindFields(env, s, p + 1, map[]);
      pad, closed := "", r.next < |s| && s[r.next] == '}';
      CloseFound(s, r.next, '}');
      var e := Expect(s, r.next, '}');
      Join(s, p + 1, r.next, e);
      ObjectFits(env, fields, pad, closed, s[e..]);
    }
  }

  // ----- Chains -------------------------------------------------------------------------------------------

  /** One call, from behind its dot on. */
  lemma {:induction false} CallFound(env: Env, s: string, p: nat, dot: string) returns (c: CallText)
    requires p <= |s| + 1 && Call(env, s, p).Ok?
    ensures var r := Call(env, s, p);
            && p < r.next <= |s| && c.dot == dot && AfterDot(c) == s[p..r.next] && CallFits(env, c, s[r.next..])
            && r.value == (TermOf(env, c.name), ValuesOf(env, c.args))
    decreases |s| + 1 - p, 2
  {
    var q := Skip(s, p);
    var name := Identifier(s, q);
    var b := Skip(s, name.next);
    assert p <= |s|;
    SkippedIsBlank(s, p);
    SkipIdempotent(s, p);
    IdentifierFound(s, q);
    SkippedIsBlank(s, name.next);
    hide Bracketed, Identifier, Skip, Blank, TermOf, ListText, ListFits, ValuesOf, IsName, EndsName;
    var args, pad, closed := BracketedFound(env, s, b, ')');
    var e := Bracketed(env, s, b, ')').next;
    c := CallText(dot, s[p..q], name.value, s[name.next..b], args, pad, closed);
    First(s, b, e);
    Join(s, name.next, b, e);
    Join(s, q, name.next, e);
    Join(s, p, q, e);
  }

  /** The calls of a chain that the loop takes in, and where the last one ends. */
  ghost predicate CallsFound(env: Env, calls: seq<CallText>, s: string, p: nat, e: nat, term: Value, r: Parsed<Value>) {
    && r.Ok? && p <= e <= r.next <= |s| && MoreCalls(calls) == s[p..e] && CallsFit(env, calls, s[e..])
    && r.value == Nest(env, term, calls) && Blank(s[e..r.next]) && Next(s[e..]) != '.'
  }

  lemma {:induction false} FindCalls(env: Env, s: string, p: nat, term: Value) returns (calls: seq<CallText>, e: nat)
    requires p <= |s| && Chain(env, s, p, term).Ok?
    ensures CallsFound(env, calls, s, p, e, term, Chain(env, s, p, term))
    decreases |s| + 1 - p, 3
  {
    SkippedIsBlank(s, p);
    var d := Skip(s, p);
    if Peek(s, p) != '.' {
      calls, e := [], p;
      PeekInside(s, p, s[p..]);
      assert s[p..p] == "";
    } else {
      hide Call, Blank, AfterDot, CallFits, ValuesOf, TermOf, CallsFound, CallsFit, MoreCalls, Nest;
      var call := Call(env, s, d + 1);
      var longer := List([Int(call.value.0), term] + call.value.1);
      assert Chain(env, s, p, term) == Chain(env, s, call.next, longer);
      hide Chain, Skip, Peek;
      var c := CallFound(env, s, d + 1, s[p..d]);
      var more;
      more, e := FindCalls(env, s, call.next, longer);
      calls := [c] + more;
      OneCallFound(env, s, p, d, call.next, e, c, more, term, Chain(env, s, p, term));
    }
  }

  lemma OneCallFound(env: Env, s: string, p: nat, d: nat, n: nat, e: nat, c: CallText, more: seq<CallText>,
                     term: Value, r: Parsed<Value>)
    requires p <= d < n <= |s| && s[d] == '.' && c.dot == s[p..d] && Blank(c.dot)
    requires AfterDot(c) == s[d + 1..n] && CallFits(env, c, s[n..])
    requires CallsFound(env, more, s, n, e, List([Int(TermOf(env, c.name)), term] + ValuesOf(env, c.args)), r)
    ensures CallsFound(env, [c] + more, s, p, e, term, r)
  {
    hide Blank, AfterDot, CallFits, ValuesOf, TermOf, Peek;
    var calls := [c] + more;
    assert calls[1..] == more;
    MoreCallsIs(calls);
    NestIs(env, term, calls);
    Join(s, n, e, |s|);
    Join(s, d + 1, n, e);
    First(s, d, e);
    Join(s, p, d, e);
  }

  lemma {:induction false} RChainFound(env: Env, s: string, p: nat) returns (calls: seq<CallText>, e: nat)
    requires p < |s| && RChain(env, s, p).Ok?
    ensures var r := RChain(env, s, p);
            && |calls| > 0 && p + 2 <= e <= r.next <= |s| && ChainText(calls) == s[p + 2..e]
            && ChainFits(env, calls, s[e..]) && TermValue(env, calls) == r.value && Blank(s[e..r.next])
    decreases |s| + 1 - p, 1
  {
    hide Call, Blank, AfterDot, CallFits, ValuesOf, TermOf, TermValue, CallsFit, MoreCalls, Nest, Chain, Peek;
    var call := Call(env, s, p + 2);
    var first := List([Int(call.value.0)] + call.value.1);
    var c := CallFound(env, s, p + 2, "");
    var more;
    more, e := FindCalls(env, s, call.next, first);
    calls := [c] + more;
    assert calls[1..] == more;
    ChainTextIs(calls);
    NestIsTerm(env, calls);
    Join(s, call.next, e, |s|);
    Join(s, p + 2, call.next, e);
  }
}
