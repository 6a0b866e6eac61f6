/**
 * What the text parser of ReQL computes, as functions of the text and a position. A char
 * stands for a byte. Positions only grow, and never pass the end but in a branch that fails.
 */
module Reql {
  import opened Options

  datatype Value =
    | Nil
    | Boolean(b: bool)
    | Number(f: real)
    | Int(i: int)
    | Text(s: string)
    | List(items: seq<Value>)
    | Dict(fields: map<string, Value>)

  /** The library's number conversions, and the table of method names; 0 is no term. */
  datatype Env = Env(parseFloat: string -> Option<real>, toFloat: int -> real, methods: map<string, int>)

  datatype Parsed<T> = Ok(value: T, next: nat) | Fail

  function TermOf(env: Env, name: string): int {
    if name in env.methods then env.methods[name] else 0
  }

  const IMPLICIT_VAR := 110

  const ROW: Value :=
    Dict(map["$reql_type$" := Text("BINARY"), "data" := List([Int(IMPLICIT_VAR)])])

  // ----- Characters: unicode.IsSpace, IsLetter and IsDigit on one byte -------------------------

  predicate IsSpace(c: char) {
    '\t' <= c <= '\r' || c == ' ' || c as int == 0x85 || c as int == 0xA0
  }

  predicate IsDigit(c: char) {
    '0' <= c <= '9'
  }

  predicate IsLetter(c: char) {
    || 'a' <= c <= 'z' || 'A' <= c <= 'Z'
    || c as int in {0xAA, 0xB5, 0xBA}
    || (0xC0 <= c as int <= 0xFF && c as int !in {0xD7, 0xF7})
  }

  predicate IsNameChar(c: char) {
    IsLetter(c) || IsDigit(c) || c == '_'
  }

  // ----- Scanning ---------------------------------------------------------------------------------

  function Skip(s: string, p: nat): (q: nat)
    ensures p <= q && (p <= |s| ==> q <= |s|)
    decreases |s| - p
  {
    if p < |s| && IsSpace(s[p]) then Skip(s, p + 1) else p
  }

  /** The next byte that is not space, or 0 at the end. */
  function Peek(s: string, p: nat): char {
    if Skip(s, p) < |s| then s[Skip(s, p)] else '\0'
  }

  /** Past the byte if it comes next; otherwise only past the space. */
  function Expect(s: string, p: nat, c: char): (q: nat)
    ensures p <= q && (p <= |s| ==> q <= |s|)
  {
    if Skip(s, p) < |s| && s[Skip(s, p)] == c then Skip(s, p) + 1 else Skip(s, p)
  }

  function NameEnd(s: string, p: nat): (q: nat)
    ensures p <= q && (p <= |s| ==> q <= |s|)
    decreases |s| - p
  {
    if p < |s| && IsNameChar(s[p]) then NameEnd(s, p + 1) else p
  }

  function Identifier(s: string, p: nat): (r: Parsed<string>)
    ensures r.Ok? ==> p < r.next <= |s| && |r.value| > 0
  {
    var q := Skip(s, p);
    var e := NameEnd(s, q);
    if e == q then Fail else Ok(s[q..e], e)
  }

  // ----- Literals -----------------------------------------------------------------------------------

  function Escaped(c: char): string {
    match c
    case '"' => "\""
    case '\\' => "\\"
    case 'n' => "\n"
    case 't' => "\t"
    case 'r' => "\r"
    case _ => ['\\', c]
  }

  /** From behind the opening quote. */
  function DoubleQuoted(s: string, p: nat, sofar: string): (r: Parsed<string>)
    ensures r.Ok? ==> p < r.next <= |s|
    decreases |s| - p
  {
    if p >= |s| then Fail
    else if s[p] == '\\' then
      if p + 1 >= |s| then Fail else DoubleQuoted(s, p + 2, sofar + Escaped(s[p + 1]))
    else if s[p] == '"' then Ok(sofar, p + 1)
    else DoubleQuoted(s, p + 1, sofar + [s[p]])
  }

  function SingleQuoted(s: string, p: nat, sofar: string): (r: Parsed<string>)
    ensures r.Ok? ==> p < r.next <= |s|
    decreases |s| - p
  {
    if p >= |s| then Fail
    else if s[p] == '\\' then
      if p + 1 >= |s| then Fail else SingleQuoted(s, p + 2, sofar + [s[p + 1]])
    else if s[p] == '\'' then Ok(sofar, p + 1)
    else SingleQuoted(s, p + 1, sofar + [s[p]])
  }

  function NumberEnd(s: string, p: nat): (q: nat)
    ensures p <= q && (p <= |s| ==> q <= |s|)
    decreases |s| - p
  {
    if p < |s| && (IsDigit(s[p]) || s[p] == '.') then NumberEnd(s, p + 1) else p
  }

  predicate AllDigits(t: string) {
    forall i :: 0 <= i < |t| ==> IsDigit(t[i])
  }

  function DigitOf(c: char): nat
    requires IsDigit(c)
  {
    c as int - '0' as int
  }

  function NatOf(t: string): nat
    requires AllDigits(t)
  {
    if |t| == 0 then 0 else NatOf(t[..|t| - 1]) * 10 + DigitOf(t[|t| - 1])
  }

  const MAX_INT64 := 0x7FFF_FFFF_FFFF_FFFF

  /** strconv.ParseInt in base 10 for 64 bits: out of range is an error. */
  function ParseInt(t: string): Option<int> {
    var negative := |t| > 0 && t[0] == '-';
    var digits := if negative then t[1..] else t;
    if |digits| == 0 || !AllDigits(digits) then None
    else
      var n: int := if negative then 0 - NatOf(digits) else NatOf(digits);
      if -MAX_INT64 - 1 <= n <= MAX_INT64 then Some(n) else None
  }

  function NumberOf(env: Env, t: string): Option<real> {
    if '.' in t then env.parseFloat(t)
    else
      match ParseInt(t)
      case Some(i) => Some(env.toFloat(i))
      case None => env.parseFloat(t)
  }

  function ParseNumber(env: Env, s: string, p: nat): (r: Parsed<Value>)
    requires p < |s| && (s[p] == '-' || IsDigit(s[p]))
    ensures r.Ok? ==> p < r.next <= |s|
  {
    var e := NumberEnd(s, if s[p] == '-' then p + 1 else p);
    match NumberOf(env, s[p..e])
    case Some(f) => Ok(Number(f), e)
    case None => Fail
  }

  predicate At(s: string, p: nat, t: string) {
    p + |t| <= |s| && s[p..p + |t|] == t
  }

  function ParseBoolean(s: string, p: nat): (r: Parsed<Value>)
    ensures r.Ok? ==> p < r.next <= |s|
  {
    if At(s, p, "true") then Ok(Boolean(true), p + 4)
    else if At(s, p, "false") then Ok(Boolean(false), p + 5)
    else Fail
  }

  function ParseNull(s: string, p: nat): (r: Parsed<Value>)
    ensures r.Ok? ==> p < r.next <= |s|
  {
    if At(s, p, "null") then Ok(Nil, p + 4) else Fail
  }

  function AsText(r: Parsed<string>): Parsed<Value> {
    match r
    case Ok(t, next) => Ok(Text(t), next)
    case Fail => Fail
  }

  function AsList(r: Parsed<seq<Value>>): Parsed<Value> {
    match r
    case Ok(items, next) => Ok(List(items), next)
    case Fail => Fail
  }

  function AsDict(r: Parsed<map<string, Value>>): Parsed<Value> {
    match r
    case Ok(fields, next) => Ok(Dict(fields), next)
    case Fail => Fail
  }

  // ----- Expressions ----------------------------------------------------------------------------------

  function Expression(env: Env, s: string, p: nat): (r: Parsed<Value>)
    requires p <= |s|
    ensures r.Ok? ==> p < r.next <= |s|
    decreases |s| + 1 - p, 3
  {
    var q := Skip(s, p);
    if q + 1 < |s| && s[q] == 'r' && s[q + 1] == '.' then RChain(env, s, q)
    else if q < |s| && s[q] == '(' then Parenthesized(env, s, q)
    else Literal(env, s, q)
  }

  function Parenthesized(env: Env, s: string, p: nat): (r: Parsed<Value>)
    requires p < |s|
    ensures r.Ok? ==> p < r.next <= |s|
    decreases |s| + 1 - p, 0
  {
    match Expression(env, s, p + 1)
    case Ok(v, next) => Ok(v, Expect(s, next, ')'))
    case Fail => Fail
  }

  /** A chain, from its `r.` on; two bytes are passed over unseen. */
  function RChain(env: Env, s: string, p: nat): (r: Parsed<Value>)
    requires p < |s|
    ensures r.Ok? ==> p < r.next <= |s|
    decreases |s| + 1 - p, 1
  {
    match Call(env, s, p + 2)
    case Ok((id, args), next) => Chain(env, s, next, List([Int(id)] + args))
    case Fail => Fail
  }

  /** A known method name and its arguments. */
  function Call(env: Env, s: string, p: nat): (r: Parsed<(int, seq<Value>)>)
    requires p <= |s| + 1
    ensures r.Ok? ==> p < r.next <= |s|
    decreases |s| + 1 - p, 5
  {
    match Identifier(s, Skip(s, p))
    case Ok(name, afterName) =>
      (match ArgList(env, s, afterName)
       case Ok(args, next) => if TermOf(env, name) == 0 then Fail else Ok((TermOf(env, name), args), next)
       case Fail => Fail)
    case Fail => Fail
  }

  /** Further calls take the term so far as their first argument. */
  function Chain(env: Env, s: string, p: nat, term: Value): (r: Parsed<Value>)
    requires p <= |s|
    ensures r.Ok? ==> p <= r.next <= |s|
    decreases |s| + 1 - p, 0
  {
    if Peek(s, p) != '.' then Ok(term, Skip(s, p))
    else
      match Call(env, s, Skip(s, p) + 1)
      case Ok((id, args), next) => Chain(env, s, next, List([Int(id), term] + args))
      case Fail => Fail
  }

  function ArgList(env: Env, s: string, p: nat): (r: Parsed<seq<Value>>)
    requires p <= |s|
    ensures r.Ok? ==> p < r.next <= |s|
    decreases |s| + 1 - p, 1
  {
    if Peek(s, p) != '(' then Fail else Bracketed(env, s, Skip(s, p), ')')
  }

  /** Values between an opening bracket at `p` and the closing one, which may be missing after a value. */
  function Bracketed(env: Env, s: string, p: nat, close: char): (r: Parsed<seq<Value>>)
    requires p < |s|
    ensures r.Ok? ==> p < r.next <= |s|
    decreases |s| + 1 - p, 0
  {
    var q := Skip(s, p + 1);
    if q < |s| && s[q] == close then Ok([], q + 1)
    else
      match Items(env, s, p + 1, [])
      case Ok(items, next) => Ok(items, Expect(s, next, close))
      case Fail => Fail
  }

  function Items(env: Env, s: string, p: nat, sofar: seq<Value>): (r: Parsed<seq<Value>>)
    requires p <= |s|
    ensures r.Ok? ==> p < r.next <= |s|
    decreases |s| + 1 - p, 4
  {
    match ArgValue(env, s, p)
    case Ok(v, next) =>
      if Peek(s, next) == ',' then Items(env, s, Skip(s, next) + 1, sofar + [v])
      else Ok(sofar + [v], Skip(s, next))
    case Fail => Fail
  }

  function ArgValue(env: Env, s: string, p: nat): (r: Parsed<Value>)
    requires p <= |s|
    ensures r.Ok? ==> p < r.next <= |s|
    decreases |s| + 1 - p, 3
  {
    var q := Skip(s, p);
    if q == |s| then Fail
    else if s[q] == '"' then AsText(DoubleQuoted(s, q + 1, ""))
    else if s[q] == '\'' then AsText(SingleQuoted(s, q + 1, ""))
    else if s[q] == '{' then AsDict(Object(env, s, q))
    else if s[q] == '[' then AsList(Bracketed(env, s, q, ']'))
    else if s[q] == '(' then Parenthesized(env, s, q)
    else if s[q] == '-' || IsDigit(s[q]) then ParseNumber(env, s, q)
    else if s[q] == 't' || s[q] == 'f' then ParseBoolean(s, q)
    else if s[q] == 'n' then ParseNull(s, q)
    else if At(s, q, "r.") then RChain(env, s, q)
    else if At(s, q, "row") then Ok(ROW, q + 3)
    else NamedValue(env, s, q)
  }

  /** A name that is a value: of these only `r`, some space and a dot gets past the cases above. */
  function NamedValue(env: Env, s: string, p: nat): (r: Parsed<Value>)
    requires p < |s|
    ensures r.Ok? ==> p < r.next <= |s|
    decreases |s| + 1 - p, 2
  {
    match Identifier(s, p)
    case Ok(name, next) =>
      if name == "true" then Ok(Boolean(true), next)
      else if name == "false" then Ok(Boolean(false), next)
      else if name == "null" then Ok(Nil, next)
      else if name == "r" && Peek(s, next) == '.' then RChain(env, s, Skip(s, next))
      else Fail
    case Fail => Fail
  }

  function Object(env: Env, s: string, p: nat): (r: Parsed<map<string, Value>>)
    requires p < |s|
    ensures r.Ok? ==> p < r.next <= |s|
    decreases |s| + 1 - p, 0
  {
    var q := Skip(s, p + 1);
    if q < |s| && s[q] == '}' then Ok(map[], q + 1)
    else
      match Fields(env, s, p + 1, map[])
      case Ok(fields, next) => Ok(fields, Expect(s, next, '}'))
      case Fail => Fail
  }

  function ParseKey(s: string, p: nat): (r: Parsed<string>)
    requires p <= |s|
    ensures r.Ok? ==> p < r.next <= |s|
  {
    var q := Skip(s, p);
    if q < |s| && s[q] == '"' then DoubleQuoted(s, q + 1, "")
    else if q < |s| && s[q] == '\'' then SingleQuoted(s, q + 1, "")
    else Identifier(s, q)
  }

  /** A later value for the same key wins. */
  function Fields(env: Env, s: string, p: nat, sofar: map<string, Value>): (r: Parsed<map<string, Value>>)
    requires p <= |s|
    ensures r.Ok? ==> p < r.next <= |s|
    decreases |s| + 1 - p, 4
  {
    match ParseKey(s, p)
    case Ok(key, afterKey) =>
      (match ArgValue(env, s, Expect(s, afterKey, ':'))
       case Ok(v, next) =>
         if Peek(s, next) == ',' then Fields(env, s, Skip(s, next) + 1, sofar[key := v])
         else Ok(sofar[key := v], Skip(s, next))
       case Fail => Fail)
    case Fail => Fail
  }

  function Literal(env: Env, s: string, p: nat): (r: Parsed<Value>)
    requires p <= |s|
    ensures r.Ok? ==> p < r.next <= |s|
    decreases |s| + 1 - p, 2
  {
    var q := Skip(s, p);
    if q == |s| then Fail
    else if s[q] == '"' then AsText(DoubleQuoted(s, q + 1, ""))
    else if s[q] == '\'' then AsText(SingleQuoted(s, q + 1, ""))
    else if s[q] == '{' then AsDict(Object(env, s, q))
    else if s[q] == '[' then AsList(Bracketed(env, s, q, ']'))
    else if s[q] == '-' || IsDigit(s[q]) then ParseNumber(env, s, q)
    else if s[q] == 't' || s[q] == 'f' then ParseBoolean(s, q)
    else if s[q] == 'n' then ParseNull(s, q)
    else LiteralName(s, q)
  }

  function LiteralName(s: string, p: nat): (r: Parsed<Value>)
    ensures r.Ok? ==> p < r.next <= |s|
  {
    match Identifier(s, p)
    case Ok("true", next) => Ok(Boolean(true), next)
    case Ok("false", next) => Ok(Boolean(false), next)
    case Ok("null", next) => Ok(Nil, next)
    case _ => Fail
  }

  // ----- The whole text --------------------------------------------------------------------------------

  predicate IsAsciiSpace(c: char) {
    '\t' <= c <= '\r' || c == ' '
  }

  function TrimLeft(s: string): (t: string) {
    if |s| > 0 && IsAsciiSpace(s[0]) then TrimLeft(s[1..]) else s
  }

  function TrimRight(s: string): (t: string) {
    if |s| > 0 && IsAsciiSpace(s[|s| - 1]) then TrimRight(s[..|s| - 1]) else s
  }

  /** strings.TrimSpace, for ASCII space. */
  function Trim(s: string): string {
    TrimRight(TrimLeft(s))
  }

  function Parse(env: Env, text: string): Option<Value> {
    var s := Trim(text);
    if s == "" then None
    else
      match Expression(env, s, 0)
      case Ok(v, next) => if Trim(s[next..]) == "" then Some(v) else None
      case Fail => None
  }
}
