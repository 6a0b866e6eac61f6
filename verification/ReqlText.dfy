/**
 * Queries as they are written: syntax trees with the space, the quoting and the brackets
 * that were chosen, the text of a tree, and the value it stands for. Brackets that the
 * parser does not insist on may be missing, and so may the colon behind a key.
 */
module ReqlText {
  import opened Options
  import opened Reql

  datatype Arg =
    | ANull
    | ABool(b: bool)
    | AInt(negative: bool, zeros: nat, magnitude: nat)
    | ADecimal(text: string)
    | AText(pieces: seq<Piece>, single: bool)
    | ARow
    | AParens(item: Item, closed: bool)
    | AArray(items: seq<Item>, pad: string, closed: bool)
    | AObject(fields: seq<FieldItem>, pad: string, closed: bool)
    | AChain(calls: seq<CallText>)
    | ASpaced(space: string, passed: char, calls: seq<CallText>)

  /** A byte between quotes, behind a backslash or not. */
  datatype Piece = Plain(c: char) | Escape(c: char)

  datatype Item = Item(before: string, arg: Arg, after: string)

  datatype FieldItem = FieldItem(lead: string, key: Key, gap: string, colon: bool, item: Item)

  datatype Key = Bare(name: string) | Quoted(pieces: seq<Piece>, single: bool)

  /** `.name(args)`; `dot` stands before the dot, `lead` behind it, `pad` in empty brackets. */
  datatype CallText =
    CallText(dot: string, lead: string, name: string, gap: string, args: seq<Item>, pad: string, closed: bool)

  // ----- Text ------------------------------------------------------------------------------------

  function DigitChar(d: nat): char
    requires d < 10
  {
    ('0' as int + d) as char
  }

  function NatText(n: nat): (t: string)
    ensures |t| > 0 && AllDigits(t)
  {
    if n < 10 then [DigitChar(n)] else NatText(n / 10) + [DigitChar(n % 10)]
  }

  function ZeroText(n: nat): (t: string)
    ensures |t| == n && AllDigits(t)
  {
    seq(n, _ => '0')
  }

  function Sign(negative: bool): string {
    if negative then "-" else ""
  }

  function IntText(negative: bool, zeros: nat, magnitude: nat): string {
    Sign(negative) + (ZeroText(zeros) + NatText(magnitude))
  }

  function QuoteOf(single: bool): char {
    if single then '\'' else '"'
  }

  function PieceText(p: Piece): string {
    match p
    case Plain(c) => [c]
    case Escape(c) => ['\\', c]
  }

  function PiecesText(pieces: seq<Piece>): string {
    if |pieces| == 0 then "" else PieceText(pieces[0]) + PiecesText(pieces[1..])
  }

  function QuotedText(pieces: seq<Piece>, single: bool): string {
    [QuoteOf(single)] + (PiecesText(pieces) + [QuoteOf(single)])
  }

  function KeyText(k: Key): string {
    match k
    case Bare(name) => name
    case Quoted(pieces, single) => QuotedText(pieces, single)
  }

  function Closing(close: char, closed: bool): string {
    if closed then [close] else ""
  }

  function ArgText(a: Arg): string
    decreases a, 2
  {
    match a
    case ANull => "null"
    case ABool(b) => if b then "true" else "false"
    case AInt(negative, zeros, magnitude) => IntText(negative, zeros, magnitude)
    case ADecimal(text) => text
    case AText(pieces, single) => QuotedText(pieces, single)
    case ARow => "row"
    case AParens(item, closed) => "(" + (ItemText(item) + Closing(')', closed))
    case AArray(items, pad, closed) => "[" + ListText(items, pad, ']', closed)
    case AObject(fields, pad, closed) => "{" + FieldListText(fields, pad, closed)
    case AChain(calls) => "r." + ChainText(calls)
    case ASpaced(space, passed, calls) => "r" + (space + (['.', passed] + ChainText(calls)))
  }

  function ItemText(i: Item): string
    decreases i, 0
  {
    i.before + (ArgText(i.arg) + i.after)
  }

  /** Values with commas between them, from behind the opening bracket on. */
  function ListText(items: seq<Item>, pad: string, close: char, closed: bool): string
    decreases items, 3
  {
    (if items == [] then pad else ItemsText(items)) + Closing(close, closed)
  }

  function ItemsText(items: seq<Item>): string
    decreases items, 1
  {
    if |items| == 0 then "" else ItemText(items[0]) + MoreItems(items[1..])
  }

  function MoreItems(items: seq<Item>): string
    decreases items, 2
  {
    if |items| == 0 then "" else "," + ItemsText(items)
  }

  function FieldListText(fields: seq<FieldItem>, pad: string, closed: bool): string
    decreases fields, 3
  {
    (if fields == [] then pad else FieldsText(fields)) + Closing('}', closed)
  }

  function FieldsText(fields: seq<FieldItem>): string
    decreases fields, 1
  {
    if |fields| == 0 then "" else FieldText(fields[0]) + MoreFields(fields[1..])
  }

  function MoreFields(fields: seq<FieldItem>): string
    decreases fields, 2
  {
    if |fields| == 0 then "" else "," + FieldsText(fields)
  }

  function FieldText(f: FieldItem): string
    decreases f, 0
  {
    f.lead + (KeyText(f.key) + (f.gap + (Closing(':', f.colon) + ItemText(f.item))))
  }

  /** A chain from behind its first dot on. */
  function ChainText(calls: seq<CallText>): string
    decreases calls, 2
  {
    if |calls| == 0 then "" else AfterDot(calls[0]) + MoreCalls(calls[1..])
  }

  function MoreCalls(calls: seq<CallText>): string
    decreases calls, 1
  {
    if |calls| == 0 then "" else calls[0].dot + ("." + (AfterDot(calls[0]) + MoreCalls(calls[1..])))
  }

  function AfterDot(c: CallText): string
    decreases c, 0
  {
    c.lead + (c.name + (c.gap + ("(" + ListText(c.args, c.pad, ')', c.closed))))
  }

  // ----- Meaning ------------------------------------------------------------------------------------

  function Float(env: Env, text: string): real {
    match env.parseFloat(text)
    case Some(f) => f
    case None => 0.0
  }

  /** 0 is no method. */
  function MethodId(env: Env, name: string): int {
    if name in env.methods then env.methods[name] else 0
  }

  function Signed(negative: bool, magnitude: nat): int {
    if negative then 0 - magnitude else magnitude
  }

  predicate IsInt64(n: int) {
    -0x8000_0000_0000_0000 <= n < 0x8000_0000_0000_0000
  }

  /** In single quotes a backslash only takes the next byte as it is; in double quotes unknown ones stay. */
  function PieceValue(p: Piece, single: bool): string {
    match p
    case Plain(c) => [c]
    case Escape(c) =>
      if single || c in {'"', '\\'} then [c]
      else if c == 'n' then "\n"
      else if c == 't' then "\t"
      else if c == 'r' then "\r"
      else ['\\', c]
  }

  function PiecesValue(pieces: seq<Piece>, single: bool): string {
    if |pieces| == 0 then "" else PieceValue(pieces[0], single) + PiecesValue(pieces[1..], single)
  }

  /** A whole number is converted as such if it fits in 64 bits; all others go by their text. */
  function ValueOf(env: Env, a: Arg): Value
    decreases a, 2
  {
    match a
    case ANull => Nil
    case ABool(b) => Boolean(b)
    case AInt(negative, zeros, magnitude) =>
      var n := Signed(negative, magnitude);
      Number(if IsInt64(n) then env.toFloat(n) else Float(env, IntText(negative, zeros, magnitude)))
    case ADecimal(text) => Number(Float(env, text))
    case AText(pieces, single) => Text(PiecesValue(pieces, single))
    case ARow => Dict(map["$reql_type$" := Text("BINARY"), "data" := List([Int(110)])])
    case AParens(item, _) => ValueOf(env, item.arg)
    case AArray(items, _, _) => List(ValuesOf(env, items))
    case AObject(fields, _, _) => Dict(FieldsOf(env, fields, map[]))
    case AChain(calls) => TermValue(env, calls)
    case ASpaced(_, _, calls) => TermValue(env, calls)
  }

  function ValuesOf(env: Env, items: seq<Item>): seq<Value>
    decreases items, 1
  {
    if |items| == 0 then [] else [ValueOf(env, items[0].arg)] + ValuesOf(env, items[1..])
  }

  function KeyOf(k: Key): string {
    match k
    case Bare(name) => name
    case Quoted(pieces, single) => PiecesValue(pieces, single)
  }

  /** The last of equal keys wins. */
  function FieldsOf(env: Env, fields: seq<FieldItem>, sofar: map<string, Value>): map<string, Value>
    decreases fields, 1
  {
    if |fields| == 0 then sofar
    else FieldsOf(env, fields[1..], sofar[KeyOf(fields[0].key) := ValueOf(env, fields[0].item.arg)])
  }

  /** The last call is outermost: its id, the term of the calls before it, its arguments. */
  function TermValue(env: Env, calls: seq<CallText>): Value
    decreases calls, 1
  {
    if |calls| == 0 then Nil
    else
      var last := calls[|calls| - 1];
      var id, args := Int(MethodId(env, last.name)), ValuesOf(env, last.args);
      if |calls| == 1 then List([id] + args) else List([id, TermValue(env, calls[..|calls| - 1])] + args)
  }

  // ----- What may be written where -----------------------------------------------------------------------

  /** Space in Latin-1: tab, line feed, vertical tab, form feed, return, space, next line, no-break space. */
  predicate SpaceByte(c: char) {
    c as int in {9, 10, 11, 12, 13, 32, 133, 160}
  }

  predicate DigitByte(c: char) {
    48 <= c as int <= 57
  }

  /** Letters in Latin-1, digits and the underscore. */
  predicate NameByte(c: char) {
    var n := c as int;
    || 48 <= n <= 57 || 65 <= n <= 90 || n == 95 || 97 <= n <= 122
    || n in {170, 181, 186} || 192 <= n <= 214 || 216 <= n <= 246 || 248 <= n <= 255
  }

  predicate Blank(w: string) {
    forall i :: 0 <= i < |w| ==> SpaceByte(w[i])
  }

  predicate IsName(t: string) {
    |t| > 0 && forall i :: 0 <= i < |t| ==> NameByte(t[i])
  }

  predicate DigitsAndPoints(t: string) {
    forall i :: 0 <= i < |t| ==> DigitByte(t[i]) || t[i] == '.'
  }

  /** The next byte that is no space, or 0. */
  function Next(rest: string): char {
    if rest == "" then '\0' else if SpaceByte(rest[0]) then Next(rest[1..]) else rest[0]
  }

  /** A number that is no whole number: with a point, or the bare sign. */
  predicate IsDecimal(t: string) {
    && |t| > 0 && (t[0] == '-' || DigitByte(t[0])) && ('.' in t || t == "-")
    && DigitsAndPoints(if t[0] == '-' then t[1..] else t)
  }

  predicate EndsNumber(rest: string) {
    rest != "" ==> !DigitByte(rest[0]) && rest[0] != '.'
  }

  predicate EndsName(rest: string) {
    rest != "" ==> !NameByte(rest[0])
  }

  predicate PieceFits(p: Piece, single: bool) {
    p.Plain? ==> p.c != '\\' && p.c != QuoteOf(single)
  }

  predicate PiecesFit(pieces: seq<Piece>, single: bool) {
    forall i :: 0 <= i < |pieces| ==> PieceFits(pieces[i], single)
  }

  /** A query may be all but the row, and a chain only with its dot right behind the `r`. */
  predicate IsExpression(a: Arg) {
    !a.ARow? && !a.ASpaced?
  }

  /** Behind these the parser passes over space. */
  predicate ReadsOn(a: Arg) {
    match a
    case AParens(_, closed) => !closed
    case AArray(_, _, closed) => !closed
    case AObject(_, _, closed) => !closed
    case AChain(_) => true
    case ASpaced(_, _, _) => true
    case _ => false
  }

  /** A closing bracket may be missing where neither it nor a comma follows. */
  predicate CloseFits(close: char, closed: bool, rest: string) {
    closed || (Next(rest) != close && Next(rest) != ',')
  }

  /** The tree is written rightly where `rest` follows: names are known, and nothing of `rest` would be taken in. */
  predicate ArgFits(env: Env, a: Arg, rest: string)
    decreases a, 2
  {
    match a
    case AInt(negative, zeros, magnitude) =>
      && EndsNumber(rest)
      && (IsInt64(Signed(negative, magnitude)) || env.parseFloat(IntText(negative, zeros, magnitude)).Some?)
    case ADecimal(text) => IsDecimal(text) && env.parseFloat(text).Some? && EndsNumber(rest)
    case AText(pieces, single) => PiecesFit(pieces, single)
    case AParens(item, closed) =>
      && IsExpression(item.arg) && ItemFits(env, item, Closing(')', closed) + rest)
      && (closed || Next(rest) != ')')
    case AArray(items, pad, closed) => ListFits(env, items, pad, ']', closed, rest)
    case AObject(fields, pad, closed) =>
      if fields == [] then Blank(pad) && closed
      else FieldsFit(env, fields, Closing('}', closed) + rest) && CloseFits('}', closed, rest)
    case AChain(calls) => |calls| > 0 && ChainFits(env, calls, rest)
    case ASpaced(space, _, calls) => space != "" && Blank(space) && |calls| > 0 && ChainFits(env, calls, rest)
    case _ => true
  }

  predicate ItemFits(env: Env, i: Item, rest: string)
    decreases i, 0
  {
    Blank(i.before) && Blank(i.after) && ArgFits(env, i.arg, i.after + rest)
  }

  predicate ListFits(env: Env, items: seq<Item>, pad: string, close: char, closed: bool, rest: string)
    decreases items, 2
  {
    if items == [] then Blank(pad) && closed
    else ItemsFit(env, items, Closing(close, closed) + rest) && CloseFits(close, closed, rest)
  }

  predicate ItemsFit(env: Env, items: seq<Item>, rest: string)
    decreases items, 1
  {
    |items| > 0 ==> ItemFits(env, items[0], MoreItems(items[1..]) + rest) && ItemsFit(env, items[1..], rest)
  }

  predicate KeyFits(k: Key, rest: string) {
    match k
    case Bare(name) => IsName(name) && EndsName(rest)
    case Quoted(pieces, single) => PiecesFit(pieces, single)
  }

  predicate FieldFits(env: Env, f: FieldItem, rest: string)
    decreases f, 0
  {
    && Blank(f.lead) && Blank(f.gap) && KeyFits(f.key, f.gap + (Closing(':', f.colon) + (ItemText(f.item) + rest)))
    && ItemFits(env, f.item, rest)
  }

  predicate FieldsFit(env: Env, fields: seq<FieldItem>, rest: string)
    decreases fields, 1
  {
    |fields| > 0 ==> FieldFits(env, fields[0], MoreFields(fields[1..]) + rest) && FieldsFit(env, fields[1..], rest)
  }

  predicate CallFits(env: Env, c: CallText, rest: string)
    decreases c, 0
  {
    && Blank(c.lead) && Blank(c.gap) && IsName(c.name) && MethodId(env, c.name) != 0
    && ListFits(env, c.args, c.pad, ')', c.closed, rest)
  }

  /** Further calls of a chain. */
  predicate CallsFit(env: Env, calls: seq<CallText>, rest: string)
    decreases calls, 1
  {
    |calls| > 0 ==>
      && Blank(calls[0].dot) && CallFits(env, calls[0], MoreCalls(calls[1..]) + rest)
      && CallsFit(env, calls[1..], rest)
  }

  predicate ChainFits(env: Env, calls: seq<CallText>, rest: string)
    requires |calls| > 0
    decreases calls, 2
  {
    && CallFits(env, calls[0], MoreCalls(calls[1..]) + rest) && CallsFit(env, calls[1..], rest)
    && Next(rest) != '.'
  }

  // ----- Every text can be written ------------------------------------------------------------------------

  /** Which bytes are put behind a backslash. */
  function PiecesOf(text: string, single: bool): seq<Piece> {
    if |text| == 0 then []
    else
      var c := text[0];
      [if c == '\\' || c == QuoteOf(single) then Escape(c) else Plain(c)] + PiecesOf(text[1..], single)
  }

  lemma {:induction false} PiecesOfText(text: string, single: bool)
    ensures PiecesFit(PiecesOf(text, single), single)
    ensures PiecesValue(PiecesOf(text, single), single) == text
  {
    if |text| > 0 {
      PiecesOfText(text[1..], single);
      assert PiecesOf(text, single)[1..] == PiecesOf(text[1..], single);
    }
  }
}
