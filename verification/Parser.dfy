/**
 * The cursor-based parser. Every method advances `pos` and gives what the function of the
 * same name in Reql.dfy gives; on every input it ends, and never reads past the end.
 */
module Parser {
  import opened Options
  import opened Reql

  /** None stands for an error return; what the cursor is then, nobody looks at. */
  ghost predicate Agrees<T>(r: Option<T>, pos: nat, parsed: Parsed<T>) {
    match parsed
    case Ok(value, next) => r == Some(value) && pos == next
    case Fail => r == None
  }

  function Map<T, U>(r: Option<T>, f: T -> U): Option<U> {
    match r
    case Some(v) => Some(f(v))
    case None => None
  }

  class Parser {
    const env: Env
    const input: string
    var pos: nat

    constructor (env: Env, input: string)
      ensures this.env == env && this.input == input && pos == 0
    {
      this.env, this.input, pos := env, input, 0;
    }

    method SkipWhitespace()
      modifies this
      ensures pos == Skip(input, old(pos))
    {
      while pos < |input| && IsSpace(input[pos])
        invariant Skip(input, pos) == Skip(input, old(pos))
      {
        pos := pos + 1;
      }
    }

    method PeekByte() returns (c: char)
      modifies this
      ensures pos == Skip(input, old(pos)) && c == Peek(input, old(pos))
      ensures c == if pos < |input| then input[pos] else '\0'
    {
      SkipWhitespace();
      if pos >= |input| {
        return '\0';
      }
      return input[pos];
    }

    method Advance() returns (c: char)
      requires pos < |input|
      modifies this
      ensures pos == old(pos) + 1 && c == input[old(pos)]
    {
      c := input[pos];
      pos := pos + 1;
    }

    /** The source returns an error that no caller looks at. */
    method ExpectByte(c: char) returns (ok: bool)
      modifies this
      ensures pos == Expect(input, old(pos), c)
    {
      SkipWhitespace();
      if pos >= |input| {
        return false;
      }
      if input[pos] != c {
        return false;
      }
      pos := pos + 1;
      return true;
    }

    method ParseIdentifier() returns (r: Option<string>)
      modifies this
      ensures Agrees(r, pos, Identifier(input, old(pos))) && old(pos) <= pos
    {
      SkipWhitespace();
      var start := pos;
      while pos < |input| && (IsLetter(input[pos]) || IsDigit(input[pos]) || input[pos] == '_')
        invariant start <= pos && (start <= |input| ==> pos <= |input|)
        invariant NameEnd(input, pos) == NameEnd(input, start)
      {
        pos := pos + 1;
      }
      if pos == start {
        return None;
      }
      return Some(input[start..pos]);
    }

    method ParseString() returns (r: Option<string>)
      requires pos < |input|
      modifies this
      ensures Agrees(r, pos, DoubleQuoted(input, old(pos) + 1, ""))
    {
      var _ := Advance();
      var sb := "";
      while pos < |input|
        invariant DoubleQuoted(input, pos, sb) == DoubleQuoted(input, old(pos) + 1, "")
        decreases |input| - pos
      {
        var c := input[pos];
        if c == '\\' {
          pos := pos + 1;
          if pos >= |input| {
            return None;
          }
          var escaped := input[pos];
          match escaped {
            case '"' => sb := sb + "\"";
            case '\\' => sb := sb + "\\";
            case 'n' => sb := sb + "\n";
            case 't' => sb := sb + "\t";
            case 'r' => sb := sb + "\r";
            case _ => sb := sb + ['\\', escaped];
          }
          pos := pos + 1;
        } else if c == '"' {
          pos := pos + 1;
          return Some(sb);
        } else {
          sb := sb + [c];
          pos := pos + 1;
        }
      }
      return None;
    }

    method ParseSingleQuotedString() returns (r: Option<string>)
      requires pos < |input|
      modifies this
      ensures Agrees(r, pos, SingleQuoted(input, old(pos) + 1, ""))
    {
      var _ := Advance();
      var sb := "";
      while pos < |input|
        invariant SingleQuoted(input, pos, sb) == SingleQuoted(input, old(pos) + 1, "")
        decreases |input| - pos
      {
        var c := input[pos];
        if c == '\\' {
          pos := pos + 1;
          if pos >= |input| {
            return None;
          }
          sb := sb + [input[pos]];
          pos := pos + 1;
        } else if c == '\'' {
          pos := pos + 1;
          return Some(sb);
        } else {
          sb := sb + [c];
          pos := pos + 1;
        }
      }
      return None;
    }

    method ParseNumberValue() returns (r: Option<Value>)
      requires pos < |input| && (input[pos] == '-' || IsDigit(input[pos]))
      modifies this
      ensures Agrees(r, pos, ParseNumber(env, input, old(pos)))
    {
      var start := pos;
      var c := PeekByte();
      if c == '-' {
        var _ := Advance();
      }
      while pos < |input| && (IsDigit(input[pos]) || input[pos] == '.')
        invariant start <= pos <= |input|
        invariant NumberEnd(input, pos) == NumberEnd(input, if input[start] == '-' then start + 1 else start)
      {
        pos := pos + 1;
      }
      var numStr := input[start..pos];
      if '.' in numStr {
        var f := env.parseFloat(numStr);
        return Map(f, x => Number(x));
      }
      var i := ParseInt(numStr);
      if i == None {
        var f := env.parseFloat(numStr);
        return Map(f, x => Number(x));
      }
      return Some(Number(env.toFloat(i.value)));
    }

    method ParseBooleanValue() returns (r: Option<Value>)
      modifies this
      ensures Agrees(r, pos, ParseBoolean(input, old(pos)))
    {
      if pos + 4 <= |input| && input[pos..pos + 4] == "true" {
        pos := pos + 4;
        return Some(Boolean(true));
      }
      if pos + 5 <= |input| && input[pos..pos + 5] == "false" {
        pos := pos + 5;
        return Some(Boolean(false));
      }
      return None;
    }

    method ParseNullValue() returns (r: Option<Value>)
      modifies this
      ensures Agrees(r, pos, ParseNull(input, old(pos)))
    {
      if pos + 4 <= |input| && input[pos..pos + 4] == "null" {
        pos := pos + 4;
        return Some(Nil);
      }
      return None;
    }

    method ParseExpression() returns (r: Option<Value>)
      requires pos <= |input|
      modifies this
      ensures Agrees(r, pos, Expression(env, input, old(pos)))
      decreases |input| + 1 - pos, 3
    {
      SkipWhitespace();
      if pos + 1 < |input| && input[pos] == 'r' && input[pos + 1] == '.' {
        r := ParseRChain();
        return;
      }
      SkipIdempotent(input, old(pos));
      var c := PeekByte();
      if c == '(' {
        r := ParseParenthesized();
        return;
      }
      r := ParseLiteral();
    }

    method ParseParenthesized() returns (r: Option<Value>)
      requires pos < |input| && input[pos] == '('
      modifies this
      ensures Agrees(r, pos, Parenthesized(env, input, old(pos)))
      decreases |input| + 1 - pos, 0
    {
      var _ := Advance();
      var expr := ParseExpression();
      if expr == None {
        return None;
      }
      var _ := ExpectByte(')');
      return expr;
    }

    method ParseRChain() returns (r: Option<Value>)
      requires pos < |input|
      modifies this
      ensures Agrees(r, pos, RChain(env, input, old(pos)))
      decreases |input| + 1 - pos, 1
    {
      hide Call, Identifier, ArgList;
      pos := pos + 2;
      var call := ParseCall();
      if call == None {
        return None;
      }
      var term := List([Int(call.value.0)] + call.value.1);
      assert RChain(env, input, old(pos)) == Chain(env, input, pos, term);
      SkipIdempotent(input, pos);
      ChainSkips(env, input, pos, term);
      var c := PeekByte();
      while c == '.'
        invariant pos <= |input| && Skip(input, pos) == pos && c == Peek(input, pos) && pos > old(pos)
        invariant Chain(env, input, pos, term) == RChain(env, input, old(pos))
        decreases |input| - pos
      {
        var _ := Advance();
        var next := ParseCall();
        if next == None {
          return None;
        }
        term := List([Int(next.value.0), term] + next.value.1);
        SkipIdempotent(input, pos);
        ChainSkips(env, input, pos, term);
        c := PeekByte();
      }
      return Some(term);
    }

    /** A method name, its arguments and its term id; the source has this twice. */
    method ParseCall() returns (r: Option<(int, seq<Value>)>)
      requires pos <= |input| + 1
      modifies this
      ensures Agrees(r, pos, Call(env, input, old(pos)))
      decreases |input| + 1 - pos, 5
    {
      SkipWhitespace();
      var method' := ParseIdentifier();
      if method' == None {
        return None;
      }
      var args := ParseArgList();
      if args == None {
        return None;
      }
      var termID := if method'.value in env.methods then env.methods[method'.value] else 0;
      if termID == 0 {
        return None;
      }
      return Some((termID, args.value));
    }

    method ParseArgList() returns (r: Option<seq<Value>>)
      requires pos <= |input|
      modifies this
      ensures Agrees(r, pos, ArgList(env, input, old(pos)))
      decreases |input| + 1 - pos, 1
    {
      SkipWhitespace();
      SkipIdempotent(input, old(pos));
      var c := PeekByte();
      if c != '(' {
        return None;
      }
      r := ParseItems(')');
    }

    /** The loop over values up to `close`, which the source has once for arguments and once for arrays. */
    method ParseItems(close: char) returns (r: Option<seq<Value>>)
      requires pos < |input|
      modifies this
      ensures Agrees(r, pos, Bracketed(env, input, old(pos), close))
      decreases |input| + 1 - pos, 0
    {
      hide Items, ArgValue, Skip, Peek;
      var _ := Advance();
      ghost var start := pos;
      SkipWhitespace();
      SkipIdempotent(input, start);
      var c := PeekByte();
      if pos < |input| && c == close {
        var _ := Advance();
        return Some([]);
      }
      var items: seq<Value> := [];
      ItemsSkip(env, input, start, items);
      while true
        invariant old(pos) < pos <= |input|
        invariant Items(env, input, start, []) == Items(env, input, pos, items)
        decreases |input| - pos
      {
        ItemsStep(env, input, pos, items);
        var item := ParseArgValue();
        if item == None {
          return None;
        }
        items := items + [item.value];
        SkipIdempotent(input, pos);
        SkipWhitespace();
        c := PeekByte();
        if c == ',' {
          var _ := Advance();
          continue;
        }
        break;
      }
      var _ := ExpectByte(close);
      return Some(items);
    }

    method ParseArgValue() returns (r: Option<Value>)
      requires pos <= |input|
      modifies this
      ensures Agrees(r, pos, ArgValue(env, input, old(pos)))
      decreases |input| + 1 - pos, 3
    {
      hide DoubleQuoted, SingleQuoted, Object, Bracketed, Parenthesized, ParseNumber, ParseBoolean;
      hide ParseNull, RChain, NamedValue, Identifier;
      SkipWhitespace();
      SkipIdempotent(input, old(pos));
      var c := PeekByte();
      if pos == |input| {
        var _ := ParseIdentifier();
        return None;
      }
      Letters(input, pos);
      if c == '"' {
        var t := ParseString();
        r := Map(t, x => Text(x));
      } else if c == '\'' {
        var t := ParseSingleQuotedString();
        r := Map(t, x => Text(x));
      } else if c == '{' {
        var fields := ParseObject();
        r := Map(fields, x => Dict(x));
      } else if c == '[' {
        var items := ParseItems(']');
        r := Map(items, x => List(x));
      } else if c == '(' {
        r := ParseParenthesized();
      } else if c == '-' || ('0' <= c <= '9') {
        r := ParseNumberValue();
      } else if c == 't' || c == 'f' {
        r := ParseBooleanValue();
      } else if c == 'n' {
        r := ParseNullValue();
      } else if c == 'r' && pos + 1 < |input| && input[pos + 1] == '.' {
        r := ParseRChain();
      } else if c == 'r' && pos + 2 < |input| && input[pos + 1] == 'o' && input[pos + 2] == 'w' {
        pos := pos + 3;
        r := Some(ROW);
      } else {
        r := ParseNamedValue();
      }
    }

    method ParseNamedValue() returns (r: Option<Value>)
      requires pos < |input|
      modifies this
      ensures Agrees(r, pos, NamedValue(env, input, old(pos)))
      decreases |input| + 1 - pos, 2
    {
      var ident := ParseIdentifier();
      if ident == None {
        return None;
      }
      if ident.value == "true" {
        return Some(Boolean(true));
      } else if ident.value == "false" {
        return Some(Boolean(false));
      } else if ident.value == "null" {
        return Some(Nil);
      } else if ident.value == "r" {
        var c := PeekByte();
        if c == '.' {
          r := ParseRChain();
          return;
        }
        return None;
      }
      return None;
    }

    method ParseObject() returns (r: Option<map<string, Value>>)
      requires pos < |input|
      modifies this
      ensures Agrees(r, pos, Object(env, input, old(pos)))
      decreases |input| + 1 - pos, 0
    {
      hide Fields, ArgValue, Skip, ParseKey;
      var _ := Advance();
      ghost var start := pos;
      SkipWhitespace();
      SkipIdempotent(input, start);
      var c := PeekByte();
      if c == '}' {
        var _ := Advance();
        return Some(map[]);
      }
      var fields: map<string, Value> := map[];
      FieldsSkip(env, input, start, fields);
      while true
        invariant old(pos) < pos <= |input|
        invariant Fields(env, input, start, map[]) == Fields(env, input, pos, fields)
        decreases |input| - pos
      {
        FieldsStep(env, input, pos, fields);
        var key := ParseObjectKey();
        if key == None {
          return None;
        }
        SkipIdempotent(input, pos);
        SkipWhitespace();
        var _ := ExpectByte(':');
        var value := ParseArgValue();
        if value == None {
          return None;
        }
        fields := fields[key.value := value.value];
        SkipIdempotent(input, pos);
        SkipWhitespace();
        c := PeekByte();
        if c == ',' {
          var _ := Advance();
          continue;
        }
        break;
      }
      var _ := ExpectByte('}');
      return Some(fields);
    }

    method ParseObjectKey() returns (r: Option<string>)
      requires pos <= |input|
      modifies this
      ensures Agrees(r, pos, ParseKey(input, old(pos)))
    {
      var c := PeekByte();
      if pos < |input| && c == '"' {
        r := ParseString();
      } else if pos < |input| && c == '\'' {
        r := ParseSingleQuotedString();
      } else {
        r := ParseIdentifier();
      }
    }

    method ParseLiteral() returns (r: Option<Value>)
      requires pos <= |input|
      modifies this
      ensures Agrees(r, pos, Literal(env, input, old(pos)))
      decreases |input| + 1 - pos, 2
    {
      SkipWhitespace();
      SkipIdempotent(input, old(pos));
      var c := PeekByte();
      if pos == |input| {
        var _ := ParseIdentifier();
        return None;
      }
      if c == '"' {
        var t := ParseString();
        r := Map(t, x => Text(x));
      } else if c == '\'' {
        var t := ParseSingleQuotedString();
        r := Map(t, x => Text(x));
      } else if c == '{' {
        var fields := ParseObject();
        r := Map(fields, x => Dict(x));
      } else if c == '[' {
        var items := ParseItems(']');
        r := Map(items, x => List(x));
      } else if c == '-' || ('0' <= c <= '9') {
        r := ParseNumberValue();
      } else if c == 't' || c == 'f' {
        r := ParseBooleanValue();
      } else if c == 'n' {
        r := ParseNullValue();
      } else {
        r := ParseLiteralName();
      }
    }

    method ParseLiteralName() returns (r: Option<Value>)
      modifies this
      ensures Agrees(r, pos, LiteralName(input, old(pos)))
    {
      var ident := ParseIdentifier();
      if ident == None {
        return None;
      }
      match ident.value {
        case "true" => return Some(Boolean(true));
        case "false" => return Some(Boolean(false));
        case "null" => return Some(Nil);
        case _ => return None;
      }
    }
  }

  /** Parses a whole text; on every input this ends. */
  method ParseReQL(env: Env, text: string) returns (r: Option<Value>)
    ensures r == Parse(env, text)
  {
    var input := TrimSpace(text);
    if input == "" {
      return None;
    }
    var p := new Parser(env, input);
    r := p.ParseExpression();
    if r == None {
      return None;
    }
    if p.pos < |p.input| {
      var remaining := TrimSpace(p.input[p.pos..]);
      if remaining != "" {
        return None;
      }
    }
  }

  method TrimSpace(s: string) returns (t: string)
    ensures t == Trim(s)
  {
    t := s;
    while |t| > 0 && IsAsciiSpace(t[0])
      invariant TrimLeft(t) == TrimLeft(s)
    {
      t := t[1..];
    }
    ghost var left := t;
    while |t| > 0 && IsAsciiSpace(t[|t| - 1])
      invariant TrimRight(t) == TrimRight(left)
    {
      t := t[..|t| - 1];
    }
  }

  // ----- Skipping space twice is skipping it once ------------------------------------------------

  lemma {:induction false} SkipIdempotent(s: string, p: nat)
    ensures Skip(s, Skip(s, p)) == Skip(s, p) && Peek(s, Skip(s, p)) == Peek(s, p)
    ensures forall c :: Expect(s, Skip(s, p), c) == Expect(s, p, c)
    decreases |s| - p
  {
    if p < |s| && IsSpace(s[p]) {
      SkipIdempotent(s, p + 1);
    }
  }

  /** The two texts that the dispatch looks for byte by byte. */
  lemma Letters(s: string, p: nat)
    ensures At(s, p, "r.") <==> p + 1 < |s| && s[p] == 'r' && s[p + 1] == '.'
    ensures At(s, p, "row") <==> p + 2 < |s| && s[p] == 'r' && s[p + 1] == 'o' && s[p + 2] == 'w'
  {
    if p + 1 < |s| {
      assert s[p..p + 2] == [s[p], s[p + 1]];
    }
    if p + 2 < |s| {
      assert s[p..p + 3] == [s[p], s[p + 1], s[p + 2]];
    }
  }

  lemma ChainSkips(env: Env, s: string, p: nat, term: Value)
    requires p <= |s|
    ensures Chain(env, s, Skip(s, p), term) == Chain(env, s, p, term)
  {
    SkipIdempotent(s, p);
  }

  lemma ItemsSkip(env: Env, s: string, p: nat, sofar: seq<Value>)
    requires p <= |s|
    ensures Items(env, s, Skip(s, p), sofar) == Items(env, s, p, sofar)
  {
    SkipIdempotent(s, p);
  }

  /** One turn of the loop over values. */
  lemma ItemsStep(env: Env, s: string, p: nat, sofar: seq<Value>)
    requires p <= |s|
    ensures match ArgValue(env, s, p)
            case Fail => Items(env, s, p, sofar) == Fail
            case Ok(v, next) =>
              Items(env, s, p, sofar) ==
              if Peek(s, next) == ',' then Items(env, s, Skip(s, next) + 1, sofar + [v])
              else Ok(sofar + [v], Skip(s, next))
  {
  }

  lemma KeySkips(s: string, p: nat)
    requires p <= |s|
    ensures ParseKey(s, Skip(s, p)) == ParseKey(s, p)
  {
    SkipIdempotent(s, p);
  }

  lemma FieldsSkip(env: Env, s: string, p: nat, sofar: map<string, Value>)
    requires p <= |s|
    ensures Fields(env, s, Skip(s, p), sofar) == Fields(env, s, p, sofar)
  {
    KeySkips(s, p);
    hide ParseKey, Skip;
  }

  /** One turn of the loop over fields. */
  lemma FieldsStep(env: Env, s: string, p: nat, sofar: map<string, Value>)
    requires p <= |s|
    ensures match ParseKey(s, p)
            case Fail => Fields(env, s, p, sofar) == Fail
            case Ok(key, afterKey) =>
              match ArgValue(env, s, Expect(s, afterKey, ':'))
              case Fail => Fields(env, s, p, sofar) == Fail
              case Ok(v, next) =>
                Fields(env, s, p, sofar) ==
                if Peek(s, next) == ',' then Fields(env, s, Skip(s, next) + 1, sofar[key := v])
                else Ok(sofar[key := v], Skip(s, next))
  {
    hide ParseKey, ArgValue, Expect, Peek, Skip;
  }
}
