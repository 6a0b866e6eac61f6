/**
 * Written queries read back: whatever the space, the quoting and the brackets that were
 * chosen, the parser takes in exactly the text of the tree and gives the tree's value.
 */
module ReqlReads {
  import opened Options
  import opened Parser
  import opened Reql
  import opened ReqlText

  // ----- Positions in the text ---------------------------------------------------------------------------

  ghost predicate From(s: string, p: nat, t: string) {
    p <= |s| && s[p..] == t
  }

  lemma Cut(s: string, p: nat, a: string, b: string, rest: string)
    requires From(s, p, (a + b) + rest)
    ensures From(s, p, a + (b + rest)) && From(s, p + |a|, b + rest)
    ensures p + |a| <= |s| && s[p..p + |a|] == a && (|a| > 0 ==> p < |s| && s[p] == a[0])
  {
    assert (a + b) + rest == a + (b + rest);
    var t := a + (b + rest);
    assert t[..|a|] == a && t[|a|..] == b + rest;
    assert s[p..][..|a|] == s[p..p + |a|] && s[p..][|a|..] == s[p + |a|..];
    if |a| > 0 {
      assert s[p] == s[p..][0] == t[0];
    }
  }

  /** The text of a leaf, and what follows. */
  lemma Ends(s: string, p: nat, a: string, rest: string)
    requires From(s, p, a + rest)
    ensures From(s, p + |a|, rest) && p + |a| <= |s| && s[p..p + |a|] == a && At(s, p, a)
    ensures |a| > 0 ==> p < |s| && s[p] == a[0]
    ensures p + |a| < |s| <==> rest != ""
    ensures rest != "" ==> s[p + |a|] == rest[0]
  {
    assert a + "" == a && "" + rest == rest;
    Cut(s, p, a, "", rest);
    if p + |a| < |s| {
      assert s[p + |a|] == s[p + |a|..][0];
    }
  }

  lemma {:induction false} SkipInside(s: string, p: nat, t: string, k: nat)
    requires From(s, p, t) && k <= |t|
    ensures Skip(s, p + k) == p + Skip(t, k)
    decreases |t| - k
  {
    if k < |t| {
      assert s[p + k] == s[p..][k];
      SkipInside(s, p, t, k + 1);
    }
  }

  lemma {:induction false} NextIsPeek(t: string, k: nat)
    requires k <= |t|
    ensures Next(t[k..]) == Peek(t, k)
    decreases |t| - k
  {
    if k < |t| && IsSpace(t[k]) {
      NextIsPeek(t, k + 1);
      assert t[k..][1..] == t[k + 1..];
    }
  }

  lemma PeekInside(s: string, p: nat, t: string)
    requires From(s, p, t)
    ensures Peek(s, p) == Next(t) && Skip(s, p) == p + Skip(t, 0)
  {
    SkipInside(s, p, t, 0);
    NextIsPeek(t, 0);
    assert t[0..] == t;
    if Skip(t, 0) < |t| {
      assert s[p..][Skip(t, 0)] == s[p + Skip(t, 0)];
    }
  }

  lemma StaysPut(s: string, p: nat)
    requires p < |s| && !IsSpace(s[p])
    ensures Skip(s, p) == p && Peek(s, p) == s[p]
  {
  }

  lemma Here(s: string, p: nat)
    requires p < |s| && s[p] in {'.', ',', ':', '(', ')', ']', '}'}
    ensures Skip(s, p) == p && Peek(s, p) == s[p]
  {
  }

  lemma {:induction false} SkipsBlank(s: string, p: nat, w: string)
    requires At(s, p, w) && Blank(w)
    ensures Skip(s, p) == Skip(s, p + |w|) && Peek(s, p) == Peek(s, p + |w|)
    decreases |w|
  {
    if |w| > 0 {
      assert s[p] == s[p..p + |w|][0] == w[0];
      assert s[p + 1..p + |w|] == s[p..p + |w|][1..] == w[1..];
      SkipsBlank(s, p + 1, w[1..]);
    }
  }

  /** Past space. */
  lemma Past(s: string, p: nat, w: string, rest: string)
    requires From(s, p, w + rest) && Blank(w)
    ensures From(s, p + |w|, rest) && p + |w| <= |s|
    ensures Skip(s, p) == Skip(s, p + |w|) && Peek(s, p) == Peek(s, p + |w|)
  {
    Ends(s, p, w, rest);
    SkipsBlank(s, p, w);
  }

  // ----- Names, strings and numbers ----------------------------------------------------------------------

  lemma {:induction false} NameReads(s: string, p: nat, name: string, rest: string)
    requires From(s, p, name + rest) && (forall i :: 0 <= i < |name| ==> IsNameChar(name[i])) && EndsName(rest)
    ensures NameEnd(s, p) == p + |name|
    decreases |name|
  {
    Ends(s, p, name, rest);
    if |name| > 0 {
      assert [name[0]] + name[1..] == name;
      Cut(s, p, [name[0]], name[1..], rest);
      NameReads(s, p + 1, name[1..], rest);
    }
  }

  lemma IdentifierReads(s: string, p: nat, name: string, rest: string)
    requires From(s, p, name + rest) && IsName(name) && EndsName(rest)
    ensures p < |s| && !IsSpace(s[p]) && Identifier(s, p) == Ok(name, p + |name|)
  {
    Ends(s, p, name, rest);
    assert IsNameChar(name[0]);
    NameReads(s, p, name, rest);
  }

  lemma DoubleStep(s: string, p: nat, piece: Piece, sofar: string)
    requires At(s, p, PieceText(piece)) && PieceFits(piece, false)
    ensures DoubleQuoted(s, p, sofar) == DoubleQuoted(s, p + |PieceText(piece)|, sofar + PieceValue(piece, false))
  {
    assert s[p] == s[p..p + |PieceText(piece)|][0];
    if piece.Escape? {
      assert s[p + 1] == s[p..p + 2][1];
    }
  }

  lemma SingleStep(s: string, p: nat, piece: Piece, sofar: string)
    requires At(s, p, PieceText(piece)) && PieceFits(piece, true)
    ensures SingleQuoted(s, p, sofar) == SingleQuoted(s, p + |PieceText(piece)|, sofar + PieceValue(piece, true))
  {
    assert s[p] == s[p..p + |PieceText(piece)|][0];
    if piece.Escape? {
      assert s[p + 1] == s[p..p + 2][1];
    }
  }

  /** From behind the opening quote to behind the closing one. */
  lemma {:induction false} DoubleQuotedReads(s: string, p: nat, pieces: seq<Piece>, rest: string, sofar: string)
    requires From(s, p, (PiecesText(pieces) + ['"']) + rest) && PiecesFit(pieces, false)
    ensures DoubleQuoted(s, p, sofar) == Ok(sofar + PiecesValue(pieces, false), p + |PiecesText(pieces)| + 1)
    decreases |pieces|
  {
    hide From, PieceText, PieceValue, PieceFits, At;
    Cut(s, p, PiecesText(pieces), ['"'], rest);
    if |pieces| == 0 {
      Ends(s, p, ['"'], rest);
      assert sofar + "" == sofar;
    } else {
      var head, tail := PieceText(pieces[0]), PiecesText(pieces[1..]);
      var text := PieceValue(pieces[0], false);
      assert PiecesText(pieces) + ['"'] == head + (tail + ['"']);
      Cut(s, p, head, tail + ['"'], rest);
      Ends(s, p, head, (tail + ['"']) + rest);
      hide DoubleQuoted;
      DoubleStep(s, p, pieces[0], sofar);
      DoubleQuotedReads(s, p + |head|, pieces[1..], rest, sofar + text);
      assert sofar + PiecesValue(pieces, false) == (sofar + text) + PiecesValue(pieces[1..], false);
    }
  }

  lemma {:induction false} SingleQuotedReads(s: string, p: nat, pieces: seq<Piece>, rest: string, sofar: string)
    requires From(s, p, (PiecesText(pieces) + ['\'']) + rest) && PiecesFit(pieces, true)
    ensures SingleQuoted(s, p, sofar) == Ok(sofar + PiecesValue(pieces, true), p + |PiecesText(pieces)| + 1)
    decreases |pieces|
  {
    hide From, PieceText, PieceValue, PieceFits, At;
    Cut(s, p, PiecesText(pieces), ['\''], rest);
    if |pieces| == 0 {
      Ends(s, p, ['\''], rest);
      assert sofar + "" == sofar;
    } else {
      var head, tail := PieceText(pieces[0]), PiecesText(pieces[1..]);
      var text := PieceValue(pieces[0], true);
      assert PiecesText(pieces) + ['\''] == head + (tail + ['\'']);
      Cut(s, p, head, tail + ['\''], rest);
      Ends(s, p, head, (tail + ['\'']) + rest);
      hide SingleQuoted;
      SingleStep(s, p, pieces[0], sofar);
      SingleQuotedReads(s, p + |head|, pieces[1..], rest, sofar + text);
      assert sofar + PiecesValue(pieces, true) == (sofar + text) + PiecesValue(pieces[1..], true);
    }
  }

  /** A quoted text at `p`, as ArgValue, Literal and ParseKey take it. */
  lemma QuotedReads(s: string, p: nat, pieces: seq<Piece>, single: bool, rest: string)
    requires From(s, p, QuotedText(pieces, single) + rest) && PiecesFit(pieces, single)
    ensures p < |s| && !IsSpace(s[p]) && s[p] == QuoteOf(single)
    ensures (if single then SingleQuoted(s, p + 1, "") else DoubleQuoted(s, p + 1, ""))
              == Ok(PiecesValue(pieces, single), p + |QuotedText(pieces, single)|)
  {
    hide From, SingleQuoted, DoubleQuoted, PiecesText, PiecesValue, PiecesFit;
    var q := [QuoteOf(single)];
    Cut(s, p, q, PiecesText(pieces) + q, rest);
    assert "" + PiecesValue(pieces, single) == PiecesValue(pieces, single);
    if single {
      SingleQuotedReads(s, p + 1, pieces, rest, "");
    } else {
      DoubleQuotedReads(s, p + 1, pieces, rest, "");
    }
  }

  lemma {:induction false} DigitsRead(s: string, p: nat, t: string, rest: string)
    requires From(s, p, t + rest) && DigitsAndPoints(t) && EndsNumber(rest)
    ensures NumberEnd(s, p) == p + |t|
    decreases |t|
  {
    Ends(s, p, t, rest);
    if |t| > 0 {
      assert [t[0]] + t[1..] == t;
      Cut(s, p, [t[0]], t[1..], rest);
      DigitsRead(s, p + 1, t[1..], rest);
    }
  }

  lemma NumberReads(env: Env, s: string, p: nat, t: string, rest: string)
    requires From(s, p, t + rest) && EndsNumber(rest) && |t| > 0 && (t[0] == '-' || IsDigit(t[0]))
    requires DigitsAndPoints(if t[0] == '-' then t[1..] else t)
    ensures p < |s| && s[p] == t[0]
    ensures ParseNumber(env, s, p) ==
            match NumberOf(env, t)
            case Some(f) => Ok(Number(f), p + |t|)
            case None => Fail
  {
    hide NumberOf, IsDigit, From, DigitsAndPoints, EndsNumber, NumberEnd;
    Ends(s, p, t, rest);
    if t[0] == '-' {
      assert t == "-" + t[1..];
      Cut(s, p, "-", t[1..], rest);
      DigitsRead(s, p + 1, t[1..], rest);
    } else {
      DigitsRead(s, p, t, rest);
    }
  }

  lemma {:induction false} NatTextReads(n: nat)
    ensures NatOf(NatText(n)) == n
  {
    if n < 10 {
      assert NatOf([]) == 0 && [DigitChar(n)][..0] == [];
    } else {
      NatTextReads(n / 10);
      var t := NatText(n);
      assert t[..|t| - 1] == NatText(n / 10);
    }
  }

  lemma {:induction false} ZerosReadAsNothing(zeros: nat, t: string)
    requires AllDigits(t)
    ensures AllDigits(ZeroText(zeros) + t) && NatOf(ZeroText(zeros) + t) == NatOf(t)
    decreases zeros + |t|
  {
    var all := ZeroText(zeros) + t;
    if |t| > 0 {
      ZerosReadAsNothing(zeros, t[..|t| - 1]);
      assert all[..|all| - 1] == ZeroText(zeros) + t[..|t| - 1];
    } else if zeros > 0 {
      ZerosReadAsNothing(zeros - 1, "");
      assert all[..|all| - 1] == ZeroText(zeros - 1) + "";
    }
  }

  /** A whole number reads back, leading zeros and all, or is out of range. */
  lemma ParseIntReads(negative: bool, zeros: nat, magnitude: nat)
    ensures var n := Signed(negative, magnitude);
            ParseInt(IntText(negative, zeros, magnitude)) == if IsInt64(n) then Some(n) else None
  {
    var digits := ZeroText(zeros) + NatText(magnitude);
    var t := IntText(negative, zeros, magnitude);
    NatTextReads(magnitude);
    ZerosReadAsNothing(zeros, NatText(magnitude));
    assert if negative then t[0] == '-' && t[1..] == digits else IsDigit(t[0]) && t == digits;
  }

  lemma IntShape(negative: bool, zeros: nat, magnitude: nat)
    ensures var t := IntText(negative, zeros, magnitude);
            && |t| > 0 && (t[0] == '-' || IsDigit(t[0])) && '.' !in t
            && DigitsAndPoints(if t[0] == '-' then t[1..] else t)
  {
    var t := IntText(negative, zeros, magnitude);
    var digits := ZeroText(zeros) + NatText(magnitude);
    assert forall i :: 0 <= i < |digits| ==> IsDigit(digits[i]);
    assert if negative then t[0] == '-' && t[1..] == digits else IsDigit(t[0]) && t == digits;
  }

  lemma IntReads(env: Env, s: string, p: nat, negative: bool, zeros: nat, magnitude: nat, rest: string)
    requires var a := AInt(negative, zeros, magnitude); From(s, p, ArgText(a) + rest) && ArgFits(env, a, rest)
    ensures var a := AInt(negative, zeros, magnitude);
            && p < |s| && (s[p] == '-' || IsDigit(s[p]))
            && ParseNumber(env, s, p) == Ok(ValueOf(env, a), p + |ArgText(a)|)
  {
    hide IntText, NatOf, ParseInt, From, ParseNumber, NumberEnd;
    var t := IntText(negative, zeros, magnitude);
    IntShape(negative, zeros, magnitude);
    ParseIntReads(negative, zeros, magnitude);
    NumberReads(env, s, p, t, rest);
  }

  lemma DecimalReads(env: Env, s: string, p: nat, text: string, rest: string)
    requires From(s, p, text + rest) && ArgFits(env, ADecimal(text), rest)
    ensures p < |s| && (s[p] == '-' || IsDigit(s[p]))
    ensures ParseNumber(env, s, p) == Ok(ValueOf(env, ADecimal(text)), p + |text|)
  {
    hide From, ParseNumber, NumberEnd, NatOf;
    NumberReads(env, s, p, text, rest);
    if text == "-" {
      assert text[1..] == "";
    }
  }

  lemma BoolReads(s: string, p: nat, b: bool, rest: string)
    requires From(s, p, (if b then "true" else "false") + rest)
    ensures p < |s| && s[p] in {'t', 'f'} && ParseBoolean(s, p) == Ok(Boolean(b), p + if b then 4 else 5)
  {
    Ends(s, p, if b then "true" else "false", rest);
    if p + 4 <= |s| {
      assert s[p..p + 4][0] == s[p];
    }
  }

  // ----- Arguments --------------------------------------------------------------------------------------

  /** The value, and a cursor that has only space before `e`. */
  ghost predicate Reads(r: Parsed<Value>, value: Value, s: string, e: nat) {
    r.Ok? && r.value == value && r.next <= |s| && Skip(s, r.next) == Skip(s, e)
  }

  /** Where the parser leaves an argument whose text ends at `e`. */
  function EndOf(a: Arg, s: string, e: nat): nat {
    if ReadsOn(a) then Skip(s, e) else e
  }

  /** The first byte of a written argument: it is no space and closes nothing. */
  lemma ArgStarts(env: Env, a: Arg, rest: string)
    requires ArgFits(env, a, rest)
    ensures |ArgText(a)| > 0 && !IsSpace(ArgText(a)[0]) && ArgText(a)[0] !in {',', ')', ']', '}', ':', '.'}
  {
    match a
    case AInt(negative, zeros, magnitude) => IntShape(negative, zeros, magnitude);
    case _ =>
  }

  lemma ArgSkips(env: Env, s: string, p: nat, q: nat)
    requires p <= |s| && q <= |s| && Skip(s, p) == Skip(s, q)
    ensures ArgValue(env, s, p) == ArgValue(env, s, q) && Expression(env, s, p) == Expression(env, s, q)
  {
  }

  /** ArgValue where no space is to be skipped. */
  lemma ArgValueAt(env: Env, s: string, p: nat)
    requires p < |s| && !IsSpace(s[p])
    ensures ArgValue(env, s, p) ==
            if s[p] == '"' then AsText(DoubleQuoted(s, p + 1, ""))
            else if s[p] == '\'' then AsText(SingleQuoted(s, p + 1, ""))
            else if s[p] == '{' then AsDict(Object(env, s, p))
            else if s[p] == '[' then AsList(Bracketed(env, s, p, ']'))
            else if s[p] == '(' then Parenthesized(env, s, p)
            else if s[p] == '-' || IsDigit(s[p]) then ParseNumber(env, s, p)
            else if s[p] == 't' || s[p] == 'f' then ParseBoolean(s, p)
            else if s[p] == 'n' then ParseNull(s, p)
            else if At(s, p, "r.") then RChain(env, s, p)
            else if At(s, p, "row") then Ok(ROW, p + 3)
            else NamedValue(env, s, p)
  {
    hide DoubleQuoted, SingleQuoted, Object, Bracketed, Parenthesized, ParseNumber, ParseBoolean, ParseNull;
    hide RChain, NamedValue;
    StaysPut(s, p);
  }

  /** Expression where no space is to be skipped: all but the row and the spaced chain read as in ArgValue. */
  lemma ExpressionAt(env: Env, s: string, p: nat)
    requires p < |s| && !IsSpace(s[p])
    ensures s[p] != 'r' || At(s, p, "r.") ==>
              (Expression(env, s, p).Ok? || ArgValue(env, s, p).Ok? ==> Expression(env, s, p) == ArgValue(env, s, p))
  {
    hide DoubleQuoted, SingleQuoted, Object, Bracketed, Parenthesized, ParseNumber, ParseBoolean, ParseNull, RChain;
    StaysPut(s, p);
    Letters(s, p);
  }

  predicate IsLeaf(a: Arg) {
    a.ANull? || a.ABool? || a.AInt? || a.ADecimal? || a.AText? || a.ARow?
  }

  lemma LeafReads(env: Env, s: string, p: nat, a: Arg, rest: string)
    requires IsLeaf(a) && ArgFits(env, a, rest) && From(s, p, ArgText(a) + rest)
    ensures ArgValue(env, s, p) == Ok(ValueOf(env, a), p + |ArgText(a)|)
  {
    hide DoubleQuoted, SingleQuoted, Object, Bracketed, Parenthesized, ParseNumber, ParseBoolean, RChain, NamedValue;
    hide Skip, ArgValue, From, At, QuotedText, IntText, PiecesValue, IsSpace, PiecesFit, EndsNumber, IsDecimal, Float;
    ArgStarts(env, a, rest);
    Ends(s, p, ArgText(a), rest);
    ArgValueAt(env, s, p);
    match a
    case ANull => NullReads(s, p, rest);
    case ABool(b) => BoolReads(s, p, b, rest);
    case AInt(negative, zeros, magnitude) => IntReads(env, s, p, negative, zeros, magnitude, rest);
    case ADecimal(text) => DecimalReads(env, s, p, text, rest);
    case AText(pieces, single) => QuotedReads(s, p, pieces, single, rest);
    case ARow => RowReads(s, p, rest);
  }

  lemma NullReads(s: string, p: nat, rest: string)
    requires From(s, p, "null" + rest)
    ensures p < |s| && s[p] == 'n' && ParseNull(s, p) == Ok(Nil, p + 4)
  {
    Ends(s, p, "null", rest);
  }

  lemma {:induction false} ArgReads(env: Env, s: string, p: nat, a: Arg, rest: string)
    requires ArgFits(env, a, rest) && From(s, p, ArgText(a) + rest)
    ensures ArgValue(env, s, p) == Ok(ValueOf(env, a), EndOf(a, s, p + |ArgText(a)|))
    decreases a, 4
  {
    hide ArgFits, From, ValueOf, ArgText, ArgValue;
    match a
    case AParens(_, _) => ParensArgReads(env, s, p, a, rest);
    case AArray(_, _, _) => ArrayArgReads(env, s, p, a, rest);
    case AObject(_, _, _) => ObjectArgReads(env, s, p, a, rest);
    case AChain(_) => ChainArgReads(env, s, p, a, rest);
    case ASpaced(_, _, _) => SpacedArgReads(env, s, p, a, rest);
    case _ => LeafReads(env, s, p, a, rest);
  }

  lemma {:induction false} ParensArgReads(env: Env, s: string, p: nat, a: Arg, rest: string)
    requires a.AParens? && ArgFits(env, a, rest) && From(s, p, ArgText(a) + rest)
    ensures ArgValue(env, s, p) == Ok(ValueOf(env, a), EndOf(a, s, p + |ArgText(a)|))
    decreases a, 3
  {
    hide Parenthesized, Skip, ArgValue, From, At, ItemText, ItemFits, IsExpression, Closing, Next;
    var t := ItemText(a.item) + Closing(')', a.closed);
    Cut(s, p, "(", t, rest);
    ArgValueAt(env, s, p);
    ParensRead(env, s, p, a.item, a.closed, rest);
  }

  lemma {:induction false} ArrayArgReads(env: Env, s: string, p: nat, a: Arg, rest: string)
    requires a.AArray? && ArgFits(env, a, rest) && From(s, p, ArgText(a) + rest)
    ensures ArgValue(env, s, p) == Ok(ValueOf(env, a), EndOf(a, s, p + |ArgText(a)|))
    decreases a, 3
  {
    hide Bracketed, Skip, ArgValue, From, At, ListText, ListFits, ValuesOf;
    Cut(s, p, "[", ListText(a.items, a.pad, ']', a.closed), rest);
    ArgValueAt(env, s, p);
    ListReads(env, s, p, a.items, a.pad, ']', a.closed, rest);
  }

  lemma {:induction false} ObjectArgReads(env: Env, s: string, p: nat, a: Arg, rest: string)
    requires a.AObject? && ArgFits(env, a, rest) && From(s, p, ArgText(a) + rest)
    ensures ArgValue(env, s, p) == Ok(ValueOf(env, a), EndOf(a, s, p + |ArgText(a)|))
    decreases a, 3
  {
    hide Object, Skip, ArgValue, From, At, FieldListText, FieldsOf, ArgFits;
    Cut(s, p, "{", FieldListText(a.fields, a.pad, a.closed), rest);
    ArgValueAt(env, s, p);
    ObjectReads(env, s, p, a.fields, a.pad, a.closed, rest);
  }

  lemma {:induction false} ChainArgReads(env: Env, s: string, p: nat, a: Arg, rest: string)
    requires a.AChain? && ArgFits(env, a, rest) && From(s, p, ArgText(a) + rest)
    ensures ArgValue(env, s, p) == Ok(ValueOf(env, a), EndOf(a, s, p + |ArgText(a)|))
    decreases a, 3
  {
    hide RChain, Skip, ArgValue, From, At, ChainText, TermValue, ChainFits;
    Cut(s, p, "r.", ChainText(a.calls), rest);
    Ends(s, p, "r.", ChainText(a.calls) + rest);
    ArgValueAt(env, s, p);
    RChainReads(env, s, p, a.calls, rest);
  }

  lemma {:induction false} SpacedArgReads(env: Env, s: string, p: nat, a: Arg, rest: string)
    requires a.ASpaced? && ArgFits(env, a, rest) && From(s, p, ArgText(a) + rest)
    ensures ArgValue(env, s, p) == Ok(ValueOf(env, a), EndOf(a, s, p + |ArgText(a)|))
    decreases a, 3
  {
    hide NamedValue, Skip, ArgValue, From, At, ArgText, TermValue, ChainFits, Blank;
    SpacedReads(env, s, p, a.space, a.passed, a.calls, rest);
    ArgValueAt(env, s, p);
  }

  lemma RowReads(s: string, p: nat, rest: string)
    requires From(s, p, "row" + rest)
    ensures p < |s| && s[p] == 'r' && !At(s, p, "r.") && At(s, p, "row")
  {
    Ends(s, p, "row", rest);
    Letters(s, p);
    assert s[p..p + 3][1] == s[p + 1];
  }

  /** A closing bracket, or none. */
  lemma CloseReads(s: string, n: nat, e: nat, close: char, closed: bool, rest: string)
    requires n <= |s| && Skip(s, n) == Skip(s, e) && From(s, e, Closing(close, closed) + rest)
    requires !IsSpace(close) && (closed || Next(rest) != close)
    ensures Expect(s, n, close) == if closed then e + 1 else Skip(s, e)
  {
    if closed {
      Ends(s, e, [close], rest);
    } else {
      assert "" + rest == rest;
      PeekInside(s, e, rest);
    }
  }

  lemma ClosingLength(close: char, closed: bool)
    ensures |Closing(close, closed)| == if closed then 1 else 0
  {
  }

  /** Where an item begins, after its space, nothing is closed. */
  lemma ItemStarts(env: Env, s: string, p: nat, i: Item, rest: string)
    requires ItemFits(env, i, rest) && From(s, p, ItemText(i) + rest)
    ensures Skip(s, p) == p + |i.before| < |s| && s[Skip(s, p)] !in {',', ')', ']', '}', ':', '.'}
    ensures !IsSpace(s[Skip(s, p)])
  {
    hide From, ArgText, ArgFits, IsSpace, Skip, Blank;
    var q := p + |i.before|;
    Cut(s, p, i.before, ArgText(i.arg) + i.after, rest);
    Past(s, p, i.before, (ArgText(i.arg) + i.after) + rest);
    Cut(s, q, ArgText(i.arg), i.after, rest);
    ArgStarts(env, i.arg, i.after + rest);
    StaysPut(s, q);
  }

  /** Only a chain begins with an `r`. */
  lemma OnlyChainsBeginWithR(env: Env, a: Arg, rest: string)
    requires ArgFits(env, a, rest) && IsExpression(a) && |ArgText(a)| > 0 && ArgText(a)[0] == 'r'
    ensures a.AChain?
  {
    match a
    case AInt(negative, zeros, magnitude) => IntShape(negative, zeros, magnitude);
    case _ =>
  }

  /** What both may be reads the same as an expression and as an argument. */
  lemma ReadsTheSame(env: Env, s: string, p: nat, a: Arg, rest: string)
    requires ArgFits(env, a, rest) && IsExpression(a) && From(s, p, ArgText(a) + rest) && ArgValue(env, s, p).Ok?
    ensures Expression(env, s, p) == ArgValue(env, s, p)
  {
    hide From, At, ChainText, ArgValue, Expression, ArgFits, IsSpace;
    ArgStarts(env, a, rest);
    Ends(s, p, ArgText(a), rest);
    if ArgText(a)[0] == 'r' {
      OnlyChainsBeginWithR(env, a, rest);
      Cut(s, p, "r.", ChainText(a.calls), rest);
      Ends(s, p, "r.", ChainText(a.calls) + rest);
    }
    ExpressionAt(env, s, p);
  }

  /** Where the argument of an item begins and ends. */
  lemma ItemParts(env: Env, s: string, p: nat, i: Item, rest: string)
    requires ItemFits(env, i, rest) && From(s, p, ItemText(i) + rest)
    ensures var q := p + |i.before|; var e := q + |ArgText(i.arg)|;
            && p <= q <= e <= |s| && Skip(s, p) == Skip(s, q)
            && From(s, q, ArgText(i.arg) + (i.after + rest)) && ArgFits(env, i.arg, i.after + rest)
            && Skip(s, e) == Skip(s, p + |ItemText(i)|) == Skip(s, Skip(s, e))
  {
    hide ArgText, Skip, ArgFits, From, Blank, Peek;
    var q := p + |i.before|;
    var e := q + |ArgText(i.arg)|;
    Cut(s, p, i.before, ArgText(i.arg) + i.after, rest);
    Past(s, p, i.before, (ArgText(i.arg) + i.after) + rest);
    Cut(s, q, ArgText(i.arg), i.after, rest);
    Past(s, e, i.after, rest);
    SkipIdempotent(s, e);
  }

  lemma {:induction false} ItemReads(env: Env, s: string, p: nat, i: Item, rest: string)
    requires ItemFits(env, i, rest) && From(s, p, ItemText(i) + rest)
    ensures p <= |s| && Reads(ArgValue(env, s, p), ValueOf(env, i.arg), s, p + |ItemText(i)|)
    ensures ArgValue(env, s, p).next == EndOf(i.arg, s, p + |i.before| + |ArgText(i.arg)|)
    ensures IsExpression(i.arg) ==> Expression(env, s, p) == ArgValue(env, s, p)
    decreases i, 0
  {
    hide ArgValue, Expression, ArgText, ItemText, Skip, ArgFits, ItemFits, ValueOf, From, IsExpression, ReadsOn;
    var q := p + |i.before|;
    ItemParts(env, s, p, i, rest);
    ArgReads(env, s, q, i.arg, i.after + rest);
    ArgSkips(env, s, p, q);
    if IsExpression(i.arg) {
      ReadsTheSame(env, s, q, i.arg, i.after + rest);
    }
  }

  lemma {:induction false} ParensRead(env: Env, s: string, p: nat, item: Item, closed: bool, rest: string)
    requires p < |s| && IsExpression(item.arg) && ItemFits(env, item, Closing(')', closed) + rest)
    requires closed || Next(rest) != ')'
    requires From(s, p + 1, (ItemText(item) + Closing(')', closed)) + rest)
    ensures var e := p + 1 + |ItemText(item) + Closing(')', closed)|;
            Parenthesized(env, s, p) == Ok(ValueOf(env, item.arg), if closed then e else Skip(s, e))
    decreases item, 1
  {
    hide Expression, ItemText, ItemFits, ValueOf, From, Skip, Peek, IsExpression, ArgText, ArgValue, Expect;
    var e := p + 1 + |ItemText(item)|;
    Cut(s, p + 1, ItemText(item), Closing(')', closed), rest);
    ItemReads(env, s, p + 1, item, Closing(')', closed) + rest);
    CloseReads(s, Expression(env, s, p + 1).next, e, ')', closed, rest);
  }

  // ----- Lists --------------------------------------------------------------------------------------------

  /** The first item, and what follows it: nothing, or a comma and more items. */
  lemma ItemsParts(env: Env, s: string, p: nat, items: seq<Item>, rest: string)
    requires |items| > 0 && ItemsFit(env, items, rest) && From(s, p, ItemsText(items) + rest) && Next(rest) != ','
    ensures var i, more := items[0], MoreItems(items[1..]); var e := p + |ItemText(i)|;
            && e <= |s| && ItemFits(env, i, more + rest) && ItemsFit(env, items[1..], rest)
            && From(s, p, ItemText(i) + (more + rest)) && (Peek(s, e) == ',' <==> |items| > 1)
    ensures |items| == 1 ==> |ItemsText(items)| == |ItemText(items[0])|
    ensures |items| > 1 ==>
              var e := p + |ItemText(items[0])|;
              && Skip(s, e) == e && From(s, e + 1, ItemsText(items[1..]) + rest)
              && |ItemsText(items)| == |ItemText(items[0])| + 1 + |ItemsText(items[1..])|
  {
    hide *;
    var text, more := ItemText(items[0]), MoreItems(items[1..]);
    FirstItem(env, items, rest);
    NoItems(env, items[1..]);
    Cut(s, p, text, more, rest);
    PeekInside(s, p + |text|, more + rest);
    if |items| == 1 {
      assert "" + rest == rest;
    } else {
      CommaFirst(ItemsText(items[1..]), rest);
      Cut(s, p + |text|, ",", ItemsText(items[1..]), rest);
    }
  }

  lemma {:induction false} ItemsRead(env: Env, s: string, p: nat, items: seq<Item>, rest: string, sofar: seq<Value>)
    requires |items| > 0 && ItemsFit(env, items, rest) && From(s, p, ItemsText(items) + rest) && Next(rest) != ','
    ensures p <= |s|
    ensures Items(env, s, p, sofar) == Ok(sofar + ValuesOf(env, items), Skip(s, p + |ItemsText(items)|))
    decreases items, 1
  {
    hide *;
    var v := ValueOf(env, items[0].arg);
    var e := p + |ItemText(items[0])|;
    ItemsParts(env, s, p, items, rest);
    FirstItem(env, items, rest);
    ItemReads(env, s, p, items[0], MoreItems(items[1..]) + rest);
    ItemsTurn(env, s, p, sofar, v, e);
    if |items| == 1 {
      NoItems(env, items[1..]);
      assert [v] + [] == [v];
    } else {
      ItemsRead(env, s, e + 1, items[1..], rest, sofar + [v]);
      assert sofar + ([v] + ValuesOf(env, items[1..])) == (sofar + [v]) + ValuesOf(env, items[1..]);
    }
  }

  lemma FirstItem(env: Env, items: seq<Item>, rest: string)
    requires |items| > 0 && ItemsFit(env, items, rest)
    ensures ItemFits(env, items[0], MoreItems(items[1..]) + rest) && ItemsFit(env, items[1..], rest)
    ensures ItemsText(items) == ItemText(items[0]) + MoreItems(items[1..])
    ensures ValuesOf(env, items) == [ValueOf(env, items[0].arg)] + ValuesOf(env, items[1..])
  {
  }

  lemma NoItems(env: Env, items: seq<Item>)
    ensures MoreItems(items) == if |items| == 0 then "" else "," + ItemsText(items)
    ensures |items| == 0 ==> ValuesOf(env, items) == []
  {
  }

  lemma CommaFirst(t: string, rest: string)
    ensures Next(("," + t) + rest) == ',' && Skip(("," + t) + rest, 0) == 0
  {
  }

  /** One turn of the loop, once the value is known. */
  lemma ItemsTurn(env: Env, s: string, p: nat, sofar: seq<Value>, v: Value, e: nat)
    requires p <= |s| && Reads(ArgValue(env, s, p), v, s, e)
    ensures Items(env, s, p, sofar) ==
            if Peek(s, e) == ',' then Items(env, s, Skip(s, e) + 1, sofar + [v]) else Ok(sofar + [v], Skip(s, e))
  {
    hide Items, ArgValue, Skip;
    ItemsStep(env, s, p, sofar);
  }

  lemma {:induction false} ListReads(env: Env, s: string, p: nat, items: seq<Item>, pad: string, close: char,
                                     closed: bool, rest: string)
    requires p < |s| && close in {')', ']'} && ListFits(env, items, pad, close, closed, rest)
    requires From(s, p + 1, ListText(items, pad, close, closed) + rest)
    ensures var e := p + 1 + |ListText(items, pad, close, closed)|;
            Bracketed(env, s, p, close) == Ok(ValuesOf(env, items), if closed then e else Skip(s, e))
    decreases items, 3
  {
    hide *;
    if items == [] {
      BlankListReads(env, s, p, items, pad, close, closed, rest);
    } else {
      FullListReads(env, s, p, items, pad, close, closed, rest);
    }
  }

  lemma BlankListReads(env: Env, s: string, p: nat, items: seq<Item>, pad: string, close: char, closed: bool,
                       rest: string)
    requires p < |s| && close in {')', ']'} && ListFits(env, items, pad, close, closed, rest) && items == []
    requires From(s, p + 1, ListText(items, pad, close, closed) + rest)
    ensures closed
    ensures Bracketed(env, s, p, close) == Ok(ValuesOf(env, items), p + 1 + |ListText(items, pad, close, closed)|)
  {
    hide *;
    NoItems(env, items);
    BlankList(env, items, pad, close, closed, rest);
    Cut(s, p + 1, pad, [close], rest);
    Past(s, p + 1, pad, [close] + rest);
    Ends(s, p + 1 + |pad|, [close], rest);
    EmptyBrackets(env, s, p, close, p + 1 + |pad|);
  }

  lemma {:induction false} FullListReads(env: Env, s: string, p: nat, items: seq<Item>, pad: string, close: char,
                                         closed: bool, rest: string)
    requires p < |s| && close in {')', ']'} && ListFits(env, items, pad, close, closed, rest) && items != []
    requires From(s, p + 1, ListText(items, pad, close, closed) + rest)
    ensures var e := p + 1 + |ListText(items, pad, close, closed)|;
            Bracketed(env, s, p, close) == Ok(ValuesOf(env, items), if closed then e else Skip(s, e))
    decreases items, 2
  {
    hide *;
    var ending := Closing(close, closed);
    var e := p + 1 + |ItemsText(items)|;
    FullList(env, items, pad, close, closed, rest);
    ClosingLength(close, closed);
    Cut(s, p + 1, ItemsText(items), ending, rest);
    ItemsRead(env, s, p + 1, items, ending + rest, []);
    assert [] + ValuesOf(env, items) == ValuesOf(env, items);
    ItemsStart(env, s, p + 1, items, ending + rest);
    FullBrackets(env, s, p, close, closed, ValuesOf(env, items), e, rest);
  }

  lemma ItemsStart(env: Env, s: string, p: nat, items: seq<Item>, rest: string)
    requires |items| > 0 && ItemsFit(env, items, rest) && From(s, p, ItemsText(items) + rest)
    ensures Skip(s, p) < |s| && s[Skip(s, p)] !in {',', ')', ']', '}', ':', '.'}
  {
    hide *;
    FirstItem(env, items, rest);
    Cut(s, p, ItemText(items[0]), MoreItems(items[1..]), rest);
    ItemStarts(env, s, p, items[0], MoreItems(items[1..]) + rest);
  }

  lemma BlankList(env: Env, items: seq<Item>, pad: string, close: char, closed: bool, rest: string)
    requires items == [] && ListFits(env, items, pad, close, closed, rest)
    ensures closed && Blank(pad) && ListText(items, pad, close, closed) == pad + [close]
  {
  }

  lemma FullList(env: Env, items: seq<Item>, pad: string, close: char, closed: bool, rest: string)
    requires items != [] && close in {')', ']'} && ListFits(env, items, pad, close, closed, rest)
    ensures ListText(items, pad, close, closed) == ItemsText(items) + Closing(close, closed)
    ensures ItemsFit(env, items, Closing(close, closed) + rest) && Next(Closing(close, closed) + rest) != ','
    ensures closed || Next(rest) != close
  {
    hide ItemsFit, ItemsText;
    if !closed {
      assert "" + rest == rest;
    }
  }

  lemma EmptyBrackets(env: Env, s: string, p: nat, close: char, e: nat)
    requires p < |s| && e < |s| && Skip(s, p + 1) == Skip(s, e) && close in {')', ']'} && s[e] == close
    ensures Bracketed(env, s, p, close) == Ok([], e + 1)
  {
    hide Items;
    StaysPut(s, e);
  }

  lemma FullBrackets(env: Env, s: string, p: nat, close: char, closed: bool, values: seq<Value>, e: nat, rest: string)
    requires p < |s| && Skip(s, p + 1) < |s| && s[Skip(s, p + 1)] != close && close in {')', ']'}
    requires From(s, e, Closing(close, closed) + rest) && (closed || Next(rest) != close)
    requires Items(env, s, p + 1, []) == Ok(values, Skip(s, e))
    ensures Bracketed(env, s, p, close) == Ok(values, if closed then e + 1 else Skip(s, e))
  {
    hide Items, Skip, Peek, From;
    SkipIdempotent(s, e);
    CloseReads(s, Skip(s, e), e, close, closed, rest);
  }

  // ----- Objects ------------------------------------------------------------------------------------------

  lemma KeyReads(s: string, p: nat, k: Key, rest: string)
    requires KeyFits(k, rest) && From(s, p, KeyText(k) + rest)
    ensures p < |s| && !IsSpace(s[p]) && s[p] !in {',', ')', ']', '}', ':'}
    ensures ParseKey(s, p) == Ok(KeyOf(k), p + |KeyText(k)|)
  {
    match k
    case Bare(name) =>
      IdentifierReads(s, p, name, rest);
      StaysPut(s, p);
    case Quoted(pieces, single) =>
      QuotedReads(s, p, pieces, single, rest);
      StaysPut(s, p);
  }

  /** The colon behind a key, or none: either way the value comes next. */
  lemma ColonReads(env: Env, s: string, n: nat, gap: string, colon: bool, item: Item, rest: string)
    requires Blank(gap) && ItemFits(env, item, rest)
    requires From(s, n, gap + (Closing(':', colon) + (ItemText(item) + rest)))
    ensures var c := n + |gap| + |Closing(':', colon)|;
            && From(s, c, ItemText(item) + rest)
            && Expect(s, n, ':') <= |s| && Skip(s, Expect(s, n, ':')) == Skip(s, c)
  {
    hide From, ItemText, ItemFits, Skip, Blank, Peek;
    var g := n + |gap|;
    var text := ItemText(item) + rest;
    Past(s, n, gap, Closing(':', colon) + text);
    if colon {
      Ends(s, g, ":", text);
      Here(s, g);
    } else {
      assert "" + text == text;
      ItemStarts(env, s, g, item, rest);
      SkipIdempotent(s, g);
    }
  }

  /** The parts of one field, in the words of the functions. */
  lemma FieldParts(env: Env, f: FieldItem, rest: string)
    requires FieldFits(env, f, rest)
    ensures var value := f.gap + (Closing(':', f.colon) + (ItemText(f.item) + rest));
            && FieldText(f) + rest == f.lead + (KeyText(f.key) + value)
            && KeyFits(f.key, value)
    ensures Blank(f.lead) && Blank(f.gap) && ItemFits(env, f.item, rest)
    ensures |FieldText(f)| == |f.lead| + |KeyText(f.key)| + |f.gap| + |Closing(':', f.colon)| + |ItemText(f.item)|
  {
    hide ItemText, KeyText, KeyFits, ItemFits, Blank;
    var value := f.gap + (Closing(':', f.colon) + (ItemText(f.item) + rest));
    assert FieldText(f) + rest == f.lead + (KeyText(f.key) + value);
  }

  lemma {:induction false} FieldReads(env: Env, s: string, p: nat, f: FieldItem, rest: string)
    requires FieldFits(env, f, rest) && From(s, p, FieldText(f) + rest)
    ensures p <= |s| && Skip(s, p) < |s| && s[Skip(s, p)] != '}'
    ensures ParseKey(s, p).Ok? && ParseKey(s, p).value == KeyOf(f.key)
    ensures var i := Expect(s, ParseKey(s, p).next, ':');
            i <= |s| && Reads(ArgValue(env, s, i), ValueOf(env, f.item.arg), s, p + |FieldText(f)|)
    decreases f, 0
  {
    hide *;
    var value := f.gap + (Closing(':', f.colon) + (ItemText(f.item) + rest));
    var k := p + |f.lead|;
    var g := k + |KeyText(f.key)|;
    var c := g + |f.gap| + |Closing(':', f.colon)|;
    FieldParts(env, f, rest);
    Past(s, p, f.lead, KeyText(f.key) + value);
    KeyReads(s, k, f.key, value);
    StaysPut(s, k);
    KeySkips(s, p);
    Ends(s, k, KeyText(f.key), value);
    ColonReads(env, s, g, f.gap, f.colon, f.item, rest);
    ItemReads(env, s, c, f.item, rest);
    ArgSkips(env, s, Expect(s, g, ':'), c);
  }

  /** The first field, and what follows it: nothing, or a comma and more fields. */
  lemma FieldsParts(env: Env, s: string, p: nat, fields: seq<FieldItem>, rest: string)
    requires |fields| > 0 && FieldsFit(env, fields, rest) && From(s, p, FieldsText(fields) + rest)
    requires Next(rest) != ','
    ensures var f, more := fields[0], MoreFields(fields[1..]); var e := p + |FieldText(f)|;
            && e <= |s| && FieldFits(env, f, more + rest) && FieldsFit(env, fields[1..], rest)
            && From(s, p, FieldText(f) + (more + rest)) && (Peek(s, e) == ',' <==> |fields| > 1)
    ensures |fields| == 1 ==> |FieldsText(fields)| == |FieldText(fields[0])|
    ensures |fields| > 1 ==>
              var e := p + |FieldText(fields[0])|;
              && Skip(s, e) == e && From(s, e + 1, FieldsText(fields[1..]) + rest)
              && |FieldsText(fields)| == |FieldText(fields[0])| + 1 + |FieldsText(fields[1..])|
  {
    hide *;
    var text, more := FieldText(fields[0]), MoreFields(fields[1..]);
    FirstField(env, fields, rest, map[]);
    NoFields(env, fields[1..], map[]);
    Cut(s, p, text, more, rest);
    PeekInside(s, p + |text|, more + rest);
    if |fields| == 1 {
      assert "" + rest == rest;
    } else {
      CommaFirst(FieldsText(fields[1..]), rest);
      Cut(s, p + |text|, ",", FieldsText(fields[1..]), rest);
    }
  }

  lemma {:induction false} FieldsRead(env: Env, s: string, p: nat, fields: seq<FieldItem>, rest: string,
                                      sofar: map<string, Value>)
    requires |fields| > 0 && FieldsFit(env, fields, rest) && From(s, p, FieldsText(fields) + rest)
    requires Next(rest) != ','
    ensures p <= |s| && Skip(s, p) < |s| && s[Skip(s, p)] != '}'
    ensures Fields(env, s, p, sofar) == Ok(FieldsOf(env, fields, sofar), Skip(s, p + |FieldsText(fields)|))
    decreases fields, 1
  {
    hide *;
    var f := fields[0];
    var v := ValueOf(env, f.item.arg);
    var longer := sofar[KeyOf(f.key) := v];
    var e := p + |FieldText(f)|;
    FieldsParts(env, s, p, fields, rest);
    FirstField(env, fields, rest, sofar);
    FieldReads(env, s, p, f, MoreFields(fields[1..]) + rest);
    FieldsTurn(env, s, p, sofar, KeyOf(f.key), v, e);
    if |fields| == 1 {
      NoFields(env, fields[1..], longer);
    } else {
      FieldsRead(env, s, e + 1, fields[1..], rest, longer);
    }
  }

  lemma FirstField(env: Env, fields: seq<FieldItem>, rest: string, sofar: map<string, Value>)
    requires |fields| > 0 && FieldsFit(env, fields, rest)
    ensures FieldFits(env, fields[0], MoreFields(fields[1..]) + rest) && FieldsFit(env, fields[1..], rest)
    ensures FieldsText(fields) == FieldText(fields[0]) + MoreFields(fields[1..])
    ensures FieldsOf(env, fields, sofar)
              == FieldsOf(env, fields[1..], sofar[KeyOf(fields[0].key) := ValueOf(env, fields[0].item.arg)])
  {
  }

  lemma NoFields(env: Env, fields: seq<FieldItem>, sofar: map<string, Value>)
    ensures MoreFields(fields) == if |fields| == 0 then "" else "," + FieldsText(fields)
    ensures |fields| == 0 ==> FieldsOf(env, fields, sofar) == sofar
  {
  }

  /** One turn of the loop over fields, once the key and the value are known. */
  lemma FieldsTurn(env: Env, s: string, p: nat, sofar: map<string, Value>, key: string, v: Value, e: nat)
    requires p <= |s| && ParseKey(s, p).Ok? && ParseKey(s, p).value == key
    requires var i := Expect(s, ParseKey(s, p).next, ':'); i <= |s| && Reads(ArgValue(env, s, i), v, s, e)
    ensures Fields(env, s, p, sofar) ==
            if Peek(s, e) == ',' then Fields(env, s, Skip(s, e) + 1, sofar[key := v])
            else Ok(sofar[key := v], Skip(s, e))
  {
    hide Fields, ArgValue, Skip, ParseKey, Expect;
    FieldsStep(env, s, p, sofar);
  }

  lemma {:induction false} ObjectReads(env: Env, s: string, p: nat, fields: seq<FieldItem>, pad: string, closed: bool,
                                       rest: string)
    requires p < |s| && ArgFits(env, AObject(fields, pad, closed), rest)
    requires From(s, p + 1, FieldListText(fields, pad, closed) + rest)
    ensures var e := p + 1 + |FieldListText(fields, pad, closed)|;
            Object(env, s, p) == Ok(FieldsOf(env, fields, map[]), if closed then e else Skip(s, e))
    decreases fields, 3
  {
    hide *;
    if fields == [] {
      BlankObjectReads(env, s, p, fields, pad, closed, rest);
    } else {
      FullObjectReads(env, s, p, fields, pad, closed, rest);
    }
  }

  lemma BlankObjectReads(env: Env, s: string, p: nat, fields: seq<FieldItem>, pad: string, closed: bool, rest: string)
    requires p < |s| && ArgFits(env, AObject(fields, pad, closed), rest) && fields == []
    requires From(s, p + 1, FieldListText(fields, pad, closed) + rest)
    ensures closed
    ensures Object(env, s, p) == Ok(FieldsOf(env, fields, map[]), p + 1 + |FieldListText(fields, pad, closed)|)
  {
    hide *;
    NoFields(env, fields, map[]);
    BlankObject(env, fields, pad, closed, rest);
    Cut(s, p + 1, pad, ['}'], rest);
    Past(s, p + 1, pad, ['}'] + rest);
    Ends(s, p + 1 + |pad|, ['}'], rest);
    EmptyObject(env, s, p, p + 1 + |pad|);
  }

  lemma {:induction false} FullObjectReads(env: Env, s: string, p: nat, fields: seq<FieldItem>, pad: string,
                                           closed: bool, rest: string)
    requires p < |s| && ArgFits(env, AObject(fields, pad, closed), rest) && fields != []
    requires From(s, p + 1, FieldListText(fields, pad, closed) + rest)
    ensures var e := p + 1 + |FieldListText(fields, pad, closed)|;
            Object(env, s, p) == Ok(FieldsOf(env, fields, map[]), if closed then e else Skip(s, e))
    decreases fields, 2
  {
    hide *;
    var ending := Closing('}', closed);
    FullFields(env, fields, pad, closed, rest);
    ClosingLength('}', closed);
    Cut(s, p + 1, FieldsText(fields), ending, rest);
    FieldsRead(env, s, p + 1, fields, ending + rest, map[]);
    FullObject(env, s, p, closed, FieldsOf(env, fields, map[]), p + 1 + |FieldsText(fields)|, rest);
  }

  lemma BlankObject(env: Env, fields: seq<FieldItem>, pad: string, closed: bool, rest: string)
    requires fields == [] && ArgFits(env, AObject(fields, pad, closed), rest)
    ensures closed && Blank(pad) && FieldListText(fields, pad, closed) == pad + ['}']
  {
  }

  lemma FullFields(env: Env, fields: seq<FieldItem>, pad: string, closed: bool, rest: string)
    requires fields != [] && ArgFits(env, AObject(fields, pad, closed), rest)
    ensures FieldListText(fields, pad, closed) == FieldsText(fields) + Closing('}', closed)
    ensures FieldsFit(env, fields, Closing('}', closed) + rest) && Next(Closing('}', closed) + rest) != ','
    ensures closed || Next(rest) != '}'
  {
    hide FieldsFit, FieldsText;
    if !closed {
      assert "" + rest == rest;
    }
  }

  lemma EmptyObject(env: Env, s: string, p: nat, e: nat)
    requires p < |s| && e < |s| && Skip(s, p + 1) == Skip(s, e) && s[e] == '}'
    ensures Object(env, s, p) == Ok(map[], e + 1)
  {
    hide Fields;
    StaysPut(s, e);
  }

  lemma FullObject(env: Env, s: string, p: nat, closed: bool, fields: map<string, Value>, e: nat, rest: string)
    requires p < |s| && Skip(s, p + 1) < |s| && s[Skip(s, p + 1)] != '}'
    requires From(s, e, Closing('}', closed) + rest) && (closed || Next(rest) != '}')
    requires Fields(env, s, p + 1, map[]) == Ok(fields, Skip(s, e))
    ensures Object(env, s, p) == Ok(fields, if closed then e + 1 else Skip(s, e))
  {
    hide Fields, Skip, Peek, From;
    SkipIdempotent(s, e);
    CloseReads(s, Skip(s, e), e, '}', closed, rest);
  }

  // ----- Chains -------------------------------------------------------------------------------------------

  /** The parts of one call, from behind its dot on. */
  lemma CallParts(env: Env, c: CallText, rest: string)
    requires CallFits(env, c, rest)
    ensures var list := ListText(c.args, c.pad, ')', c.closed);
            && AfterDot(c) + rest == c.lead + (c.name + (c.gap + ("(" + (list + rest))))
            && |AfterDot(c)| == |c.lead| + |c.name| + |c.gap| + 1 + |list|
    ensures Blank(c.lead) && Blank(c.gap) && IsName(c.name) && TermOf(env, c.name) != 0
    ensures ListFits(env, c.args, c.pad, ')', c.closed, rest)
  {
    hide ListText, Blank, IsName, ListFits;
    var list := ListText(c.args, c.pad, ')', c.closed);
    assert AfterDot(c) + rest == c.lead + (c.name + (c.gap + ("(" + (list + rest))));
  }

  /** A gap that ends in a bracket ends a name. */
  lemma GapEndsName(gap: string, rest: string)
    requires Blank(gap)
    ensures EndsName(gap + ("(" + rest))
  {
    if gap != "" {
      assert IsSpace(gap[0]);
    }
  }

  /** A method name, and the position behind it. */
  lemma MethodReads(s: string, p: nat, lead: string, name: string, rest: string)
    requires Blank(lead) && IsName(name) && EndsName(rest) && From(s, p, lead + (name + rest))
    ensures p <= |s| && Identifier(s, Skip(s, p)) == Ok(name, p + |lead| + |name|)
    ensures From(s, p + |lead| + |name|, rest)
  {
    hide From, Identifier, Skip, Blank, IsName, EndsName;
    Past(s, p, lead, name + rest);
    IdentifierReads(s, p + |lead|, name, rest);
    StaysPut(s, p + |lead|);
    Ends(s, p + |lead|, name, rest);
  }

  lemma {:induction false} CallReads(env: Env, s: string, p: nat, c: CallText, rest: string)
    requires CallFits(env, c, rest) && From(s, p, AfterDot(c) + rest)
    ensures p <= |s|
    ensures var e := p + |AfterDot(c)|;
            Call(env, s, p) == Ok((TermOf(env, c.name), ValuesOf(env, c.args)), if c.closed then e else Skip(s, e))
    decreases c, 0
  {
    hide *;
    var list := ListText(c.args, c.pad, ')', c.closed);
    var g := p + |c.lead| + |c.name|;
    var b := g + |c.gap|;
    CallParts(env, c, rest);
    GapEndsName(c.gap, list + rest);
    MethodReads(s, p, c.lead, c.name, c.gap + ("(" + (list + rest)));
    Past(s, g, c.gap, "(" + (list + rest));
    Ends(s, b, "(", list + rest);
    Here(s, b);
    ListReads(env, s, b, c.args, c.pad, ')', c.closed, rest);
    CallIs(env, s, p, c.name, g, b);
  }

  lemma CallIs(env: Env, s: string, p: nat, name: string, g: nat, b: nat)
    requires p <= |s| && Identifier(s, Skip(s, p)) == Ok(name, g) && TermOf(env, name) != 0
    requires g <= b < |s| && Skip(s, g) == Skip(s, b) && s[b] == '(' && Skip(s, b) == b
    requires Bracketed(env, s, b, ')').Ok?
    ensures var args := Bracketed(env, s, b, ')');
            Call(env, s, p) == Ok((TermOf(env, name), args.value), args.next)
  {
    hide Bracketed, Identifier, TermOf;
  }

  /** Wrapping the term in one call after the other. */
  function Nest(env: Env, term: Value, calls: seq<CallText>): Value
    decreases |calls|
  {
    if |calls| == 0 then term
    else Nest(env, List([Int(TermOf(env, calls[0].name)), term] + ValuesOf(env, calls[0].args)), calls[1..])
  }

  /** The loop takes in the calls that are written, one after the other. */
  lemma {:induction false} ChainRuns(env: Env, s: string, p: nat, calls: seq<CallText>, rest: string, term: Value)
    requires CallsFit(env, calls, rest) && From(s, p, MoreCalls(calls) + rest)
    ensures p + |MoreCalls(calls)| <= |s| && From(s, p + |MoreCalls(calls)|, rest)
    ensures Chain(env, s, p, term) == Chain(env, s, p + |MoreCalls(calls)|, Nest(env, term, calls))
    decreases calls, 1
  {
    hide *;
    MoreCallsIs(calls);
    NestIs(env, term, calls);
    if |calls| == 0 {
      assert "" + rest == rest;
      Ends(s, p, "", rest);
    } else {
      var c, more := calls[0], MoreCalls(calls[1..]);
      var d := p + |c.dot|;
      var e := d + 1 + |AfterDot(c)|;
      FirstCall(env, calls, rest);
      Cut(s, p, c.dot, "." + (AfterDot(c) + more), rest);
      Past(s, p, c.dot, ("." + (AfterDot(c) + more)) + rest);
      Cut(s, d, ".", AfterDot(c) + more, rest);
      Cut(s, d + 1, AfterDot(c), more, rest);
      CallReads(env, s, d + 1, c, more + rest);
      Here(s, d);
      var longer := List([Int(TermOf(env, c.name)), term] + ValuesOf(env, c.args));
      ChainTurn(env, s, p, d, term, e);
      ChainRuns(env, s, e, calls[1..], rest, longer);
    }
  }

  lemma MoreCallsIs(calls: seq<CallText>)
    ensures MoreCalls(calls) ==
            if |calls| == 0 then "" else calls[0].dot + ("." + (AfterDot(calls[0]) + MoreCalls(calls[1..])))
  {
  }

  lemma NestIs(env: Env, term: Value, calls: seq<CallText>)
    ensures Nest(env, term, calls) ==
            if |calls| == 0 then term
            else Nest(env, List([Int(TermOf(env, calls[0].name)), term] + ValuesOf(env, calls[0].args)), calls[1..])
  {
  }

  lemma FirstCall(env: Env, calls: seq<CallText>, rest: string)
    requires |calls| > 0 && CallsFit(env, calls, rest)
    ensures Blank(calls[0].dot) && CallFits(env, calls[0], MoreCalls(calls[1..]) + rest)
    ensures CallsFit(env, calls[1..], rest)
  {
  }

  /** One turn of the loop over calls. */
  lemma ChainTurn(env: Env, s: string, p: nat, d: nat, term: Value, e: nat)
    requires p <= d < |s| && Skip(s, p) == Skip(s, d) == d && Peek(s, p) == '.' && e <= |s|
    requires Call(env, s, d + 1).Ok? && Call(env, s, d + 1).next in {e, Skip(s, e)}
    ensures var call := Call(env, s, d + 1).value;
            Chain(env, s, p, term) == Chain(env, s, e, List([Int(call.0), term] + call.1))
  {
    hide Call;
    ChainSkips(env, s, e, List([Int(Call(env, s, d + 1).value.0), term] + Call(env, s, d + 1).value.1));
  }

  /** A chain from its `r.` on, as far as its calls are known. */
  lemma {:induction false} RChainRuns(env: Env, s: string, p: nat, calls: seq<CallText>, rest: string)
    requires |calls| > 0 && p < |s| && From(s, p + 2, ChainText(calls) + rest)
    requires CallFits(env, calls[0], MoreCalls(calls[1..]) + rest) && CallsFit(env, calls[1..], rest)
    ensures var e := p + 2 + |ChainText(calls)|;
            e <= |s| && From(s, e, rest) && RChain(env, s, p) == Chain(env, s, e, TermValue(env, calls))
    decreases calls, 2
  {
    hide *;
    var c := calls[0];
    var first := List([Int(TermOf(env, c.name))] + ValuesOf(env, c.args));
    var rest' := MoreCalls(calls[1..]);
    var e := p + 2 + |AfterDot(c)|;
    ChainTextIs(calls);
    Cut(s, p + 2, AfterDot(c), rest', rest);
    CallReads(env, s, p + 2, c, rest' + rest);
    RChainStep(env, s, p, e);
    ChainRuns(env, s, e, calls[1..], rest, first);
    NestIsTerm(env, calls);
  }

  lemma ChainTextIs(calls: seq<CallText>)
    requires |calls| > 0
    ensures ChainText(calls) == AfterDot(calls[0]) + MoreCalls(calls[1..])
  {
  }

  lemma RChainStep(env: Env, s: string, p: nat, e: nat)
    requires p + 2 <= |s| && e <= |s| && Call(env, s, p + 2).Ok? && Call(env, s, p + 2).next in {e, Skip(s, e)}
    ensures var first := Call(env, s, p + 2).value;
            RChain(env, s, p) == Chain(env, s, e, List([Int(first.0)] + first.1))
  {
    hide Call, Chain;
    ChainSkips(env, s, e, List([Int(Call(env, s, p + 2).value.0)] + Call(env, s, p + 2).value.1));
  }

  lemma {:induction false} RChainReads(env: Env, s: string, p: nat, calls: seq<CallText>, rest: string)
    requires |calls| > 0 && p < |s| && From(s, p + 2, ChainText(calls) + rest) && ChainFits(env, calls, rest)
    ensures RChain(env, s, p) == Ok(TermValue(env, calls), Skip(s, p + 2 + |ChainText(calls)|))
    decreases calls, 3
  {
    hide RChain, Call, ChainText, TermValue, CallFits, CallsFit, From, Skip, Peek, MoreCalls;
    var e := p + 2 + |ChainText(calls)|;
    RChainRuns(env, s, p, calls, rest);
    PeekInside(s, e, rest);
  }

  /** Space between `r` and its dot: then the byte behind the dot is passed over unseen. */
  lemma {:induction false} SpacedReads(env: Env, s: string, p: nat, space: string, passed: char, calls: seq<CallText>,
                                       rest: string)
    requires space != "" && Blank(space) && |calls| > 0 && ChainFits(env, calls, rest)
    requires From(s, p, ArgText(ASpaced(space, passed, calls)) + rest)
    ensures p < |s| && s[p] == 'r' && !At(s, p, "r.") && !At(s, p, "row")
    ensures NamedValue(env, s, p) ==
            Ok(TermValue(env, calls), Skip(s, p + |ArgText(ASpaced(space, passed, calls))|))
    decreases calls, 4
  {
    hide *;
    var d := p + 1 + |space|;
    SpacedIs(space, passed, calls);
    SpacedParts(s, p, space, passed, ChainText(calls), rest);
    Here(s, d);
    RChainReads(env, s, d, calls, rest);
    NamedIsChain(env, s, p, d);
  }

  lemma SpacedIs(space: string, passed: char, calls: seq<CallText>)
    ensures ArgText(ASpaced(space, passed, calls)) == "r" + (space + (['.', passed] + ChainText(calls)))
  {
  }

  lemma SpacedParts(s: string, p: nat, space: string, passed: char, chain: string, rest: string)
    requires space != "" && Blank(space) && From(s, p, ("r" + (space + (['.', passed] + chain))) + rest)
    ensures var d := p + 1 + |space|;
            && p < d < |s| && s[d] == '.' && From(s, d + 2, chain + rest) && Skip(s, p + 1) == Skip(s, d)
    ensures Identifier(s, p) == Ok("r", p + 1) && s[p] == 'r' && !At(s, p, "r.") && !At(s, p, "row")
  {
    hide From, Skip, Blank, Identifier, At, Peek;
    var dotted := ['.', passed] + chain;
    Cut(s, p, "r", space + dotted, rest);
    Cut(s, p + 1, space, dotted, rest);
    Past(s, p + 1, space, dotted + rest);
    Cut(s, p + 1 + |space|, ['.', passed], chain, rest);
    LoneR(s, p, space, dotted + rest);
  }

  lemma NamedIsChain(env: Env, s: string, p: nat, d: nat)
    requires p < d < |s| && Identifier(s, p) == Ok("r", p + 1) && s[d] == '.' && Skip(s, p + 1) == Skip(s, d) == d
    ensures NamedValue(env, s, p) == RChain(env, s, d)
  {
    hide RChain, Identifier, Skip;
  }

  lemma LoneR(s: string, p: nat, space: string, rest: string)
    requires From(s, p, "r" + (space + rest)) && space != "" && Blank(space)
    ensures p < |s| && s[p] == 'r' && !At(s, p, "r.") && !At(s, p, "row")
    ensures Identifier(s, p) == Ok("r", p + 1)
  {
    assert IsSpace(space[0]);
    Ends(s, p, "r", space + rest);
    Letters(s, p);
    IdentifierReads(s, p, "r", space + rest);
  }

  /** Wrapping from the inside out gives the term whose last call is outermost. */
  lemma {:induction false} NestIsTerm(env: Env, calls: seq<CallText>)
    requires |calls| > 0
    ensures Nest(env, List([Int(TermOf(env, calls[0].name))] + ValuesOf(env, calls[0].args)), calls[1..])
              == TermValue(env, calls)
    decreases |calls|
  {
    if |calls| > 1 {
      var init, last := calls[..|calls| - 1], calls[|calls| - 1];
      NestIsTerm(env, init);
      assert calls[1..] == init[1..] + [last];
      NestLast(env, List([Int(TermOf(env, calls[0].name))] + ValuesOf(env, calls[0].args)), init[1..], last);
    }
  }

  lemma {:induction false} NestLast(env: Env, term: Value, calls: seq<CallText>, last: CallText)
    ensures Nest(env, term, calls + [last])
              == List([Int(TermOf(env, last.name)), Nest(env, term, calls)] + ValuesOf(env, last.args))
    decreases |calls|
  {
    if |calls| == 0 {
      assert calls + [last] == [last];
      assert Nest(env, List([Int(TermOf(env, last.name)), term] + ValuesOf(env, last.args)), [last][1..])
          == List([Int(TermOf(env, last.name)), term] + ValuesOf(env, last.args));
    } else {
      assert (calls + [last])[1..] == calls[1..] + [last];
      NestLast(env, List([Int(TermOf(env, calls[0].name)), term] + ValuesOf(env, calls[0].args)), calls[1..], last);
    }
  }
}
