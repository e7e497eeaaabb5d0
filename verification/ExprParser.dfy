/** The mutable parser object of memdb/expression.go, proved to compute the
    functions of module Parser. Every loop terminates and no token is read out of
    range, whatever the token sequence is. */
module ExprParsing {
  import opened Base
  import opened Values
  import opened Ast
  import opened Lexer
  import opened Parser

  class ExprParser {
    const tokens: seq<string>
    const env: Env
    var pos: nat

    constructor (tokens: seq<string>, env: Env)
      ensures this.tokens == tokens && this.env == env && Valid() && Rest() == tokens
    {
      this.tokens, this.env, pos := tokens, env, 0;
    }

    ghost predicate Valid()
      reads this
    {
      pos <= |tokens|
    }

    ghost function Rest(): seq<string>
      requires Valid()
      reads this
    {
      tokens[pos..]
    }

    /** r reports the outcome p, and the position is where p leaves off. */
    ghost predicate Reports<T>(p: Parsed<T>, r: Result<T>)
      reads this
    {
      Valid() &&
      match p
      case Failed => r.Err?
      case Parsed(v, rest) => r == Ok(v) && Rest() == rest
    }

    method PeekToken() returns (tok: string)
      requires Valid()
      ensures tok == Peek(Rest())
    {
      tok := if pos >= |tokens| then "" else tokens[pos];
    }

    method PeekClass() returns (c: Class)
      requires Valid()
      ensures c == Next(Rest())
    {
      var tok := PeekToken();
      c := Classify(tok);
    }

    method Advance() returns (tok: string)
      requires Valid() && Rest() != []
      modifies `pos
      ensures Valid() && tok == Peek(old(Rest())) && Rest() == old(Rest())[1..]
    {
      tok := tokens[pos];
      pos := pos + 1;
    }

    method Expect(c: Class) returns (ok: bool)
      requires Valid() && c != End
      modifies `pos
      ensures Valid() && ok == (old(Next(Rest())) == c)
      ensures Rest() == if ok then old(Rest())[1..] else old(Rest())
    {
      var next := PeekClass();
      ok := next == c;
      if ok {
        pos := pos + 1;
      }
    }

    method ParseOr() returns (r: Result<Node>)
      requires Valid()
      modifies `pos
      ensures Reports(Parser.ParseOr(old(Rest()), env), r)
      decreases |tokens| - pos, 7
    {
      hide Classify;
      r := ParseAnd();
      var more := r.Ok?;
      while more
        invariant Valid()
        invariant r.Ok? ==> pos > old(pos) && Parser.OrTail(r.value, Rest(), env) == Parser.ParseOr(old(Rest()), env)
        invariant r.Err? ==> !more && Parser.ParseOr(old(Rest()), env).Failed?
        invariant r.Ok? && !more ==> Next(Rest()) != Key(OR)
        decreases more, |tokens| - pos
      {
        var next := PeekClass();
        if next == Key(OR) {
          var _ := Advance();
          var right := ParseAnd();
          r := match right case Ok(n) => Ok(OrNode(r.value, n)) case Err => Err;
          more := r.Ok?;
        } else {
          more := false;
        }
      }
    }

    method ParseAnd() returns (r: Result<Node>)
      requires Valid()
      modifies `pos
      ensures Reports(Parser.ParseAnd(old(Rest()), env), r)
      decreases |tokens| - pos, 5
    {
      hide Classify;
      r := ParseNot();
      var more := r.Ok?;
      while more
        invariant Valid()
        invariant r.Ok? ==> pos > old(pos) && Parser.AndTail(r.value, Rest(), env) == Parser.ParseAnd(old(Rest()), env)
        invariant r.Err? ==> !more && Parser.ParseAnd(old(Rest()), env).Failed?
        invariant r.Ok? && !more ==> Next(Rest()) != Key(AND)
        decreases more, |tokens| - pos
      {
        var next := PeekClass();
        if next == Key(AND) {
          var _ := Advance();
          var right := ParseNot();
          r := match right case Ok(n) => Ok(AndNode(r.value, n)) case Err => Err;
          more := r.Ok?;
        } else {
          more := false;
        }
      }
    }

    method ParseNot() returns (r: Result<Node>)
      requires Valid()
      modifies `pos
      ensures Reports(Parser.ParseNot(old(Rest()), env), r)
      decreases |tokens| - pos, 3
    {
      hide Classify;
      var next := PeekClass();
      if next == Key(NOT) {
        var _ := Advance();
        var operand := ParseNot();
        r := match operand case Ok(n) => Ok(NotNode(n)) case Err => Err;
      } else {
        r := ParseComparison();
      }
    }

    method ParseComparison() returns (r: Result<Node>)
      requires Valid()
      modifies `pos
      ensures Reports(Parser.ParseComparison(old(Rest()), env), r)
      decreases |tokens| - pos, 2
    {
      hide Classify;
      var open := Expect(LParen);
      if open {
        r := ParseOr();
        if r.Ok? {
          var closed := Expect(RParen);
          if !closed {
            r := Err;
          }
        }
        return;
      }
      r := ParsePrimary();
      if r.Err? {
        return;
      }
      var left := r.value;
      var next := PeekClass();
      match next
      case Key(BETWEEN) =>
        var _ := Advance();
        r := ParseBetween(left);
      case Key(IN) =>
        var _ := Advance();
        var list := Expect(LParen);
        if list {
          r := ParseInList(left);
        } else {
          r := Err;
        }
      case Op(op) =>
        var _ := Advance();
        var right := ParsePrimary();
        r := match right case Ok(n) => Ok(CompareNode(left, op, n)) case Err => Err;
      case _ =>
    }

    method ParseBetween(left: Node) returns (r: Result<Node>)
      requires Valid()
      modifies `pos
      ensures Reports(BetweenTail(left, old(Rest()), env), r)
      decreases |tokens| - pos, 1
    {
      hide Classify;
      var low := ParsePrimary();
      if low.Err? {
        return Err;
      }
      var and := Expect(Key(AND));
      if !and {
        return Err;
      }
      var high := ParsePrimary();
      if high.Err? {
        return Err;
      }
      r := Ok(AndNode(CompareNode(left, GE, low.value), CompareNode(left, LE, high.value)));
    }

    method ParseInList(left: Node) returns (r: Result<Node>)
      requires Valid()
      modifies `pos
      ensures Reports(InList(left, None, old(Rest()), env), r)
      decreases |tokens| - pos, 1
    {
      hide Classify;
      var node: Option<Node> := None;
      var next := PeekClass();
      while next != RParen
        invariant Valid() && pos >= old(pos)
        invariant next == Next(Rest())
        invariant InList(left, node, Rest(), env) == InList(left, None, old(Rest()), env)
        decreases |tokens| - pos
      {
        if node.Some? {
          var comma := Expect(Comma);
          if !comma {
            return Err;
          }
        }
        var val := ParsePrimary();
        if val.Err? {
          return Err;
        }
        var cmp := CompareNode(left, EQ, val.value);
        node := Some(match node case Some(n) => OrNode(n, cmp) case None => cmp);
        next := PeekClass();
      }
      var _ := Advance();
      r := Ok(match node case Some(n) => n case None => NeverTrue());
    }

    method ParsePrimary() returns (r: Result<Node>)
      requires Valid()
      modifies `pos
      ensures Reports(Parser.ParsePrimary(old(Rest()), env), r)
      decreases |tokens| - pos, 0
    {
      hide Classify;
      var tok := PeekToken();
      var kind := PeekClass();
      match kind
      case ValueRef =>
        var _ := Advance();
        r := match Lookup(env.values, tok) case Some(v) => Ok(ValueNode(v)) case None => Err;
      case NameRef =>
        var _ := Advance();
        var resolved := Lookup(env.names, tok);
        if resolved.None? {
          return Err;
        }
        var next := PeekClass();
        if next == LParen {
          r := ParseFuncCall(resolved.value);
        } else {
          r := Ok(PathNode(SplitDots(resolved.value)));
        }
      case Key(_) =>
        var _ := Advance();
        r := Ok(PathNode(SplitDots(tok)));
      case Word =>
        var _ := Advance();
        var next := PeekClass();
        if KnownFunction(ToLower(tok)) && next == LParen {
          r := ParseFuncCall(tok);
        } else {
          r := Ok(PathNode(SplitDots(tok)));
        }
      case _ =>
        r := Err;
    }

    method ParseFuncCall(name: string) returns (r: Result<Node>)
      requires Valid() && Next(Rest()) == LParen
      modifies `pos
      ensures Reports(FuncCall(name, old(Rest()), env), r)
      decreases |tokens| - pos, 1
    {
      hide Classify;
      var _ := Advance();
      var args: seq<Node> := [];
      var next := PeekClass();
      ghost var start := Rest();
      while next != RParen
        invariant Valid() && pos > old(pos)
        invariant next == Next(Rest())
        invariant ArgsLoop(args, Rest(), env) == ArgsLoop([], start, env)
        decreases |tokens| - pos
      {
        if |args| > 0 {
          var comma := Expect(Comma);
          if !comma {
            return Err;
          }
        }
        var arg := ParsePrimary();
        if arg.Err? {
          return Err;
        }
        args := args + [arg.value];
        next := PeekClass();
      }
      var _ := Advance();
      r := Ok(FuncNode(ToLower(name), args));
    }
  }

  /** parseExpressionToAST: an error unless every token was consumed. */
  method ParseExpressionToAST(expression: string, env: Env) returns (r: Result<Node>)
    ensures r == ParseExpression(expression, env)
  {
    hide MemTokens, Parser.ParseOr;
    var tokens := TokenizeMem(expression);
    var p := new ExprParser(tokens, env);
    r := p.ParseOr();
    if r.Ok? && p.pos < |p.tokens| {
      r := Err;
    }
  }
}
