/** memdb's parser for condition and filter expressions (memdb/expression.go).
    The specification functions consume tokens from the front of a sequence; the
    class ExprParser advances a position over a fixed sequence, as the source does. */
module Parser {
  import opened Base
  import opened Values
  import opened Ast
  import opened Lexer

  /** ExpressionAttributeNames and ExpressionAttributeValues. */
  datatype Env = Env(names: map<string, string>, values: map<string, AttributeValue>)

  datatype Keyword = OR | AND | NOT | BETWEEN | IN

  /** How the parser's tests tell tokens apart. Keywords are recognised in any
      letter case, and are plain words where a primary is expected. */
  datatype Class =
    | End
    | LParen
    | RParen
    | Comma
    | Op(op: CompareOp)
    | ValueRef
    | NameRef
    | Key(keyword: Keyword)
    | Word
    | Junk

  function KeywordOf(upper: string): Option<Keyword> {
    if upper == "OR" then Some(OR)
    else if upper == "AND" then Some(AND)
    else if upper == "NOT" then Some(NOT)
    else if upper == "BETWEEN" then Some(BETWEEN)
    else if upper == "IN" then Some(IN)
    else None
  }

  function Classify(tok: string): Class {
    if tok == "" then End
    else if tok[0] == ':' then ValueRef
    else if tok[0] == '#' then NameRef
    else if IsIdentStart(tok[0]) then
      match KeywordOf(ToUpper(tok))
      case Some(k) => Key(k)
      case None => Word
    else if tok == "(" then LParen
    else if tok == ")" then RParen
    else if tok == "," then Comma
    else
      match ParseCompareOp(tok)
      case Some(op) => Op(op)
      case None => Junk
  }

  function Peek(ts: seq<string>): string { if ts == [] then "" else ts[0] }

  function Next(ts: seq<string>): (c: Class)
    ensures c != End ==> ts != []
  {
    Classify(Peek(ts))
  }

  /** A parsed phrase and the tokens after it, or a parse error. */
  datatype Parsed<+T> = Parsed(value: T, rest: seq<string>) | Failed

  // ---- Phrases, by falling precedence ----

  function ParseOr(ts: seq<string>, env: Env): (r: Parsed<Node>)
    ensures r.Parsed? ==> |r.rest| < |ts|
    decreases |ts|, 7
  {
    match ParseAnd(ts, env)
    case Failed => Failed
    case Parsed(left, rest) => OrTail(left, rest, env)
  }

  function OrTail(left: Node, ts: seq<string>, env: Env): (r: Parsed<Node>)
    ensures r.Parsed? ==> |r.rest| <= |ts|
    decreases |ts|, 6
  {
    if Next(ts) == Key(OR) then
      match ParseAnd(ts[1..], env)
      case Failed => Failed
      case Parsed(right, rest) => OrTail(OrNode(left, right), rest, env)
    else Parsed(left, ts)
  }

  function ParseAnd(ts: seq<string>, env: Env): (r: Parsed<Node>)
    ensures r.Parsed? ==> |r.rest| < |ts|
    decreases |ts|, 5
  {
    match ParseNot(ts, env)
    case Failed => Failed
    case Parsed(left, rest) => AndTail(left, rest, env)
  }

  function AndTail(left: Node, ts: seq<string>, env: Env): (r: Parsed<Node>)
    ensures r.Parsed? ==> |r.rest| <= |ts|
    decreases |ts|, 4
  {
    if Next(ts) == Key(AND) then
      match ParseNot(ts[1..], env)
      case Failed => Failed
      case Parsed(right, rest) => AndTail(AndNode(left, right), rest, env)
    else Parsed(left, ts)
  }

  function ParseNot(ts: seq<string>, env: Env): (r: Parsed<Node>)
    ensures r.Parsed? ==> |r.rest| < |ts|
    decreases |ts|, 3
  {
    if Next(ts) == Key(NOT) then
      match ParseNot(ts[1..], env)
      case Failed => Failed
      case Parsed(operand, rest) => Parsed(NotNode(operand), rest)
    else ParseComparison(ts, env)
  }

  function ParseComparison(ts: seq<string>, env: Env): (r: Parsed<Node>)
    ensures r.Parsed? ==> |r.rest| < |ts|
    decreases |ts|, 2
  {
    if Next(ts) == LParen then
      match ParseOr(ts[1..], env)
      case Failed => Failed
      case Parsed(inner, rest) => if Next(rest) == RParen then Parsed(inner, rest[1..]) else Failed
    else
      match ParsePrimary(ts, env)
      case Failed => Failed
      case Parsed(left, rest) => ComparisonTail(left, rest, env)
  }

  /** What may follow the first operand: BETWEEN, IN, an operator, or nothing. */
  function ComparisonTail(left: Node, ts: seq<string>, env: Env): (r: Parsed<Node>)
    ensures r.Parsed? ==> |r.rest| <= |ts|
    decreases |ts|, 1
  {
    match Next(ts)
    case Key(BETWEEN) => BetweenTail(left, ts[1..], env)
    case Key(IN) =>
      if Next(ts[1..]) == LParen then InList(left, None, ts[2..], env) else Failed
    case Op(op) => (
      match ParsePrimary(ts[1..], env)
      case Failed => Failed
      case Parsed(right, rest) => Parsed(CompareNode(left, op, right), rest))
    case _ => Parsed(left, ts)
  }

  function BetweenTail(left: Node, ts: seq<string>, env: Env): (r: Parsed<Node>)
    ensures r.Parsed? ==> |r.rest| < |ts|
    decreases |ts|, 1
  {
    match ParsePrimary(ts, env)
    case Failed => Failed
    case Parsed(low, rest) =>
      if Next(rest) != Key(AND) then Failed
      else
        match ParsePrimary(rest[1..], env)
        case Failed => Failed
        case Parsed(high, rest') =>
          Parsed(AndNode(CompareNode(left, GE, low), CompareNode(left, LE, high)), rest')
  }

  /** The condition that memdb builds for "IN ()". */
  function NeverTrue(): Node { CompareNode(ValueNode(S("")), NE, ValueNode(S(""))) }

  /** The loop over the operands of IN; `node` is the disjunction so far. */
  function InList(left: Node, node: Option<Node>, ts: seq<string>, env: Env): (r: Parsed<Node>)
    ensures r.Parsed? ==> |r.rest| < |ts|
    decreases |ts|, 1
  {
    if Next(ts) == RParen then
      Parsed(match node case Some(n) => n case None => NeverTrue(), ts[1..])
    else if node.Some? && Next(ts) != Comma then Failed
    else
      match ParsePrimary(if node.Some? then ts[1..] else ts, env)
      case Failed => Failed
      case Parsed(val, rest) =>
        var cmp := CompareNode(left, EQ, val);
        InList(left, Some(match node case Some(n) => OrNode(n, cmp) case None => cmp), rest, env)
  }

  function ParsePrimary(ts: seq<string>, env: Env): (r: Parsed<Node>)
    ensures r.Parsed? ==> |r.rest| < |ts|
    decreases |ts|, 0
  {
    var tok := Peek(ts);
    match Next(ts)
    case ValueRef =>
      if tok in env.values then Parsed(ValueNode(env.values[tok]), ts[1..]) else Failed
    case NameRef =>
      if tok !in env.names then Failed
      else if Next(ts[1..]) == LParen then FuncCall(env.names[tok], ts[1..], env)
      else Parsed(PathNode(SplitDots(env.names[tok])), ts[1..])
    case Key(_) => Parsed(PathNode(SplitDots(tok)), ts[1..])
    case Word =>
      if KnownFunction(ToLower(tok)) && Next(ts[1..]) == LParen then FuncCall(tok, ts[1..], env)
      else Parsed(PathNode(SplitDots(tok)), ts[1..])
    case _ => Failed
  }

  /** parseFuncCall: ts starts at the opening parenthesis. */
  function FuncCall(name: string, ts: seq<string>, env: Env): (r: Parsed<Node>)
    requires Next(ts) == LParen
    ensures r.Parsed? ==> |r.rest| < |ts|
    decreases |ts|, 1
  {
    match ArgsLoop([], ts[1..], env)
    case Failed => Failed
    case Parsed(args, rest) => Parsed(FuncNode(ToLower(name), args), rest)
  }

  function ArgsLoop(args: seq<Node>, ts: seq<string>, env: Env): (r: Parsed<seq<Node>>)
    ensures r.Parsed? ==> |r.rest| < |ts|
    decreases |ts|, 1
  {
    if Next(ts) == RParen then Parsed(args, ts[1..])
    else if |args| > 0 && Next(ts) != Comma then Failed
    else
      match ParsePrimary(if |args| > 0 then ts[1..] else ts, env)
      case Failed => Failed
      case Parsed(arg, rest) => ArgsLoop(args + [arg], rest, env)
  }

  /** parseExpressionToAST on tokens: everything has to be consumed. */
  function ParseTokens(ts: seq<string>, env: Env): Result<Node> {
    match ParseOr(ts, env)
    case Failed => Err
    case Parsed(node, rest) => if rest == [] then Ok(node) else Err
  }

  function ParseExpression(expression: string, env: Env): Result<Node> {
    ParseTokens(MemTokens(expression), env)
  }
}
