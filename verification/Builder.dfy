/** ParseCondition (internal/expr/builder.go): the parser for expressions with ?
    placeholders. Same shape as memdb's, but with its own idea of a primary. */
module Builder {
  import opened Base
  import opened Values
  import opened Ast
  import opened Lexer
  import opened Parser

  /** The builder's tokens: ValueRef is "?", and a leading '#' makes a word. */
  function Kind(tok: string): Class {
    if tok == "" then End
    else if tok[0] == '?' then ValueRef
    else if tok[0] == '#' then Word
    else if IsIdentStart(tok[0]) then
      match KeywordOf(ToUpper(tok))
      case Some(OR) => Key(OR)
      case Some(AND) => Key(AND)
      case Some(NOT) => Key(NOT)
      case _ => Word
    else if tok == "(" then LParen
    else if tok == ")" then RParen
    else if tok == "," then Comma
    else
      match ParseCompareOp(tok)
      case Some(op) => Op(op)
      case None => Junk
  }

  function NextKind(ts: seq<string>): (c: Class)
    ensures c != End ==> ts != []
  {
    Kind(Peek(ts))
  }

  /** A phrase, the tokens after it, and how many arguments are used up. */
  datatype Built<+T> = Built(value: T, rest: seq<string>, used: nat) | Rejected

  function TrimHash(tok: string): string {
    if tok != "" && tok[0] == '#' then tok[1..] else tok
  }

  function BuildOr(ts: seq<string>, args: seq<AttributeValue>, k: nat): (r: Built<Node>)
    ensures r.Built? ==> |r.rest| < |ts| && (k <= |args| ==> r.used <= |args|)
    decreases |ts|, 7
  {
    match BuildAnd(ts, args, k)
    case Rejected => Rejected
    case Built(left, rest, k') => BuildOrTail(left, rest, args, k')
  }

  function BuildOrTail(left: Node, ts: seq<string>, args: seq<AttributeValue>, k: nat): (r: Built<Node>)
    ensures r.Built? ==> |r.rest| <= |ts| && (k <= |args| ==> r.used <= |args|)
    decreases |ts|, 6
  {
    if NextKind(ts) == Key(OR) then
      match BuildAnd(ts[1..], args, k)
      case Rejected => Rejected
      case Built(right, rest, k') => BuildOrTail(OrNode(left, right), rest, args, k')
    else Built(left, ts, k)
  }

  function BuildAnd(ts: seq<string>, args: seq<AttributeValue>, k: nat): (r: Built<Node>)
    ensures r.Built? ==> |r.rest| < |ts| && (k <= |args| ==> r.used <= |args|)
    decreases |ts|, 5
  {
    match BuildNot(ts, args, k)
    case Rejected => Rejected
    case Built(left, rest, k') => BuildAndTail(left, rest, args, k')
  }

  function BuildAndTail(left: Node, ts: seq<string>, args: seq<AttributeValue>, k: nat): (r: Built<Node>)
    ensures r.Built? ==> |r.rest| <= |ts| && (k <= |args| ==> r.used <= |args|)
    decreases |ts|, 4
  {
    if NextKind(ts) == Key(AND) then
      match BuildNot(ts[1..], args, k)
      case Rejected => Rejected
      case Built(right, rest, k') => BuildAndTail(AndNode(left, right), rest, args, k')
    else Built(left, ts, k)
  }

  function BuildNot(ts: seq<string>, args: seq<AttributeValue>, k: nat): (r: Built<Node>)
    ensures r.Built? ==> |r.rest| < |ts| && (k <= |args| ==> r.used <= |args|)
    decreases |ts|, 3
  {
    if NextKind(ts) == Key(NOT) then
      match BuildNot(ts[1..], args, k)
      case Rejected => Rejected
      case Built(operand, rest, k') => Built(NotNode(operand), rest, k')
    else BuildComparison(ts, args, k)
  }

  function BuildComparison(ts: seq<string>, args: seq<AttributeValue>, k: nat): (r: Built<Node>)
    ensures r.Built? ==> |r.rest| < |ts| && (k <= |args| ==> r.used <= |args|)
    decreases |ts|, 2
  {
    if NextKind(ts) == LParen then
      match BuildOr(ts[1..], args, k)
      case Rejected => Rejected
      case Built(inner, rest, k') => if NextKind(rest) == RParen then Built(inner, rest[1..], k') else Rejected
    else
      match BuildPrimary(ts, args, k)
      case Rejected => Rejected
      case Built(left, rest, k') => BuildOperator(left, rest, args, k')
  }

  /** An operator and a second operand, or nothing. */
  function BuildOperator(left: Node, ts: seq<string>, args: seq<AttributeValue>, k: nat): (r: Built<Node>)
    ensures r.Built? ==> |r.rest| <= |ts| && (k <= |args| ==> r.used <= |args|)
    decreases |ts|, 1
  {
    match NextKind(ts)
    case Op(op) => (
      match BuildPrimary(ts[1..], args, k)
      case Rejected => Rejected
      case Built(right, rest, k') => Built(CompareNode(left, op, right), rest, k'))
    case _ => Built(left, ts, k)
  }

  function BuildPrimary(ts: seq<string>, args: seq<AttributeValue>, k: nat): (r: Built<Node>)
    ensures r.Built? ==> |r.rest| < |ts| && (k <= |args| ==> r.used <= |args|)
    decreases |ts|, 0
  {
    var tok := Peek(ts);
    match NextKind(ts)
    case ValueRef => if k < |args| then Built(ValueNode(args[k]), ts[1..], k + 1) else Rejected
    case Word => BuildWord(tok, ts[1..], args, k)
    case Key(_) => BuildWord(tok, ts[1..], args, k)
    case _ => Rejected
  }

  /** A word is a function name when a parenthesis follows, and a path otherwise. */
  function BuildWord(tok: string, ts: seq<string>, args: seq<AttributeValue>, k: nat): (r: Built<Node>)
    ensures r.Built? ==> |r.rest| <= |ts| && (k <= |args| ==> r.used <= |args|)
    decreases |ts|, 1
  {
    if NextKind(ts) == LParen then
      match BuildArgs([], ts[1..], args, k)
      case Rejected => Rejected
      case Built(nodes, rest, k') => Built(FuncNode(tok, nodes), rest, k')
    else Built(PathNode(SplitDots(TrimHash(tok))), ts, k)
  }

  function BuildArgs(nodes: seq<Node>, ts: seq<string>, args: seq<AttributeValue>, k: nat): (r: Built<seq<Node>>)
    ensures r.Built? ==> |r.rest| < |ts| && (k <= |args| ==> r.used <= |args|)
    decreases |ts|, 1
  {
    if NextKind(ts) == RParen then Built(nodes, ts[1..], k)
    else if |nodes| > 0 && NextKind(ts) != Comma then Rejected
    else
      match BuildPrimary(if |nodes| > 0 then ts[1..] else ts, args, k)
      case Rejected => Rejected
      case Built(node, rest, k') => BuildArgs(nodes + [node], rest, args, k')
  }

  /** ParseCondition: all tokens and all arguments have to be used. */
  function Accept(r: Built<Node>, args: seq<AttributeValue>): Result<Node> {
    match r
    case Rejected => Err
    case Built(n, rest, k) => if rest == [] && k >= |args| then Ok(n) else Err
  }

  function ParseCondition(expression: string, args: seq<AttributeValue>): Result<Node> {
    Accept(BuildOr(BuilderTokens(expression), args, 0), args)
  }

  // ---- The mutable parser ----

  class CondParser {
    const tokens: seq<string>
    const args: seq<AttributeValue>
    var pos: nat
    var argIdx: nat

    constructor (tokens: seq<string>, args: seq<AttributeValue>)
      ensures this.tokens == tokens && this.args == args && Valid() && Rest() == tokens && argIdx == 0
    {
      this.tokens, this.args, pos, argIdx := tokens, args, 0, 0;
    }

    ghost predicate Valid()
      reads this
    {
      pos <= |tokens|
    }

    ghost function Rest(): seq<string>
      requires Valid()
      reads this
    {
      tokens[pos..]
    }

    ghost predicate Reports<T>(p: Built<T>, r: Result<T>)
      reads this
    {
      Valid() &&
      match p
      case Rejected => r.Err?
      case Built(v, rest, k) => r == Ok(v) && Rest() == rest && argIdx == k
    }

    method PeekToken() returns (tok: string, kind: Class)
      requires Valid()
      ensures tok == Peek(Rest()) && kind == NextKind(Rest())
    {
      tok := if pos >= |tokens| then "" else tokens[pos];
      kind := Kind(tok);
    }

    method Expect(c: Class) returns (ok: bool)
      requires Valid() && c != End
      modifies `pos
      ensures Valid() && ok == (old(NextKind(Rest())) == c)
      ensures Rest() == if ok then old(Rest())[1..] else old(Rest())
    {
      var _, next := PeekToken();
      ok := next == c;
      if ok {
        pos := pos + 1;
      }
    }

    method ParseOr() returns (r: Result<Node>)
      requires Valid()
      modifies this
      ensures Reports(BuildOr(old(Rest()), args, old(argIdx)), r)
      decreases |tokens| - pos, 7
    {
      hide Kind;
      r := ParseAnd();
      var more := r.Ok?;
      while more
        invariant Valid()
        invariant r.Ok? ==> pos > old(pos)
        invariant r.Ok? ==> BuildOrTail(r.value, Rest(), args, argIdx) == BuildOr(old(Rest()), args, old(argIdx))
        invariant r.Err? ==> !more && BuildOr(old(Rest()), args, old(argIdx)).Rejected?
        invariant r.Ok? && !more ==> NextKind(Rest()) != Key(OR)
        decreases more, |tokens| - pos
      {
        more := Expect(Key(OR));
        if more {
          var right := ParseAnd();
          r := match right case Ok(n) => Ok(OrNode(r.value, n)) case Err => Err;
          more := r.Ok?;
        }
      }
    }

    method ParseAnd() returns (r: Result<Node>)
      requires Valid()
      modifies this
      ensures Reports(BuildAnd(old(Rest()), args, old(argIdx)), r)
      decreases |tokens| - pos, 5
    {
      hide Kind;
      r := ParseNot();
      var more := r.Ok?;
      while more
        invariant Valid()
        invariant r.Ok? ==> pos > old(pos)
        invariant r.Ok? ==> BuildAndTail(r.value, Rest(), args, argIdx) == BuildAnd(old(Rest()), args, old(argIdx))
        invariant r.Err? ==> !more && BuildAnd(old(Rest()), args, old(argIdx)).Rejected?
        invariant r.Ok? && !more ==> NextKind(Rest()) != Key(AND)
        decreases more, |tokens| - pos
      {
        more := Expect(Key(AND));
        if more {
          var right := ParseNot();
          r := match right case Ok(n) => Ok(AndNode(r.value, n)) case Err => Err;
          more := r.Ok?;
        }
      }
    }

    method ParseNot() returns (r: Result<Node>)
      requires Valid()
      modifies this
      ensures Reports(BuildNot(old(Rest()), args, old(argIdx)), r)
      decreases |tokens| - pos, 3
    {
      hide Kind;
      var not := Expect(Key(NOT));
      if not {
        var operand := ParseNot();
        r := match operand case Ok(n) => Ok(NotNode(n)) case Err => Err;
      } else {
        r := ParseComparison();
      }
    }

    method ParseComparison() returns (r: Result<Node>)
      requires Valid()
      modifies this
      ensures Reports(BuildComparison(old(Rest()), args, old(argIdx)), r)
      decreases |tokens| - pos, 2
    {
      hide Kind;
      var open := Expect(LParen);
      if open {
        r := ParseOr();
        if r.Ok? {
          var closed := Expect(RParen);
          if !closed {
            r := Err;
          }
        }
        return;
      }
      r := ParsePrimary();
      if r.Err? {
        return;
      }
      var left := r.value;
      var _, next := PeekToken();
      if next.Op? {
        pos := pos + 1;
        var right := ParsePrimary();
        r := match right case Ok(n) => Ok(CompareNode(left, next.op, n)) case Err => Err;
      }
    }

    method ParsePrimary() returns (r: Result<Node>)
      requires Valid()
      modifies this
      ensures Reports(BuildPrimary(old(Rest()), args, old(argIdx)), r)
      decreases |tokens| - pos, 0
    {
      hide Kind;
      var tok, kind := PeekToken();
      match kind
      case ValueRef =>
        pos := pos + 1;
        if argIdx >= |args| {
          return Err;
        }
        r := Ok(ValueNode(args[argIdx]));
        argIdx := argIdx + 1;
      case Word =>
        pos := pos + 1;
        r := ParseWord(tok);
      case Key(_) =>
        pos := pos + 1;
        r := ParseWord(tok);
      case _ =>
        r := Err;
    }

    method ParseWord(tok: string) returns (r: Result<Node>)
      requires Valid()
      modifies this
      ensures Reports(BuildWord(tok, old(Rest()), args, old(argIdx)), r)
      decreases |tokens| - pos, 1
    {
      hide Kind;
      var open := Expect(LParen);
      if !open {
        return Ok(PathNode(SplitDots(TrimHash(tok))));
      }
      var nodes: seq<Node> := [];
      var _, next := PeekToken();
      ghost var start := Rest();
      while next != RParen
        invariant Valid() && pos > old(pos)
        invariant next == NextKind(Rest())
        invariant BuildArgs(nodes, Rest(), args, argIdx) == BuildArgs([], start, args, old(argIdx))
        decreases |tokens| - pos
      {
        if |nodes| > 0 {
          var comma := Expect(Comma);
          if !comma {
            return Err;
          }
        }
        var node := ParsePrimary();
        if node.Err? {
          return Err;
        }
        nodes := nodes + [node.value];
        var _, following := PeekToken();
        next := following;
      }
      pos := pos + 1;
      r := Ok(FuncNode(tok, nodes));
    }
  }

  method ParseConditionText(expression: string, args: seq<AttributeValue>) returns (r: Result<Node>)
    ensures r == ParseCondition(expression, args)
  {
    hide BuilderTokens, BuildOr;
    var tokens := TokenizeBuilder(expression);
    var p := new CondParser(tokens, args);
    r := p.ParseOr();
    if r.Ok? && (p.pos < |p.tokens| || p.argIdx < |p.args|) {
      r := Err;
    }
  }
}
