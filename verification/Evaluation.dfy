/** Evaluation of a condition tree against an item (internal/expr/eval.go). */
module Evaluation {
  import opened Base
  import opened Values
  import opened Ast

  /** strings.HasPrefix and strings.Contains. */
  predicate HasPrefix(s: string, prefix: string) { prefix <= s }

  predicate Contains(s: string, sub: string) {
    HasPrefix(s, sub) || (s != "" && Contains(s[1..], sub))
  }

  /** The value of an operand; absent when a path does not resolve. */
  function ResolveNode(n: Node, item: Item): Result<Option<AttributeValue>> {
    match n
    case PathNode(parts) => Ok(Resolve(parts, item))
    case ValueNode(v) => Ok(Some(v))
    case FuncNode(name, args) =>
      if name != "size" then Err
      else (
        match EvalSize(args, item)
        case Ok(size) => Ok(Some(N(IntToString(size))))
        case Err => Err)
    case _ => Err
  }

  function EvalSize(args: seq<Node>, item: Item): Result<nat> {
    if |args| != 1 then Err
    else
      match ResolveNode(args[0], item)
      case Err => Err
      case Ok(None) => Ok(0)
      case Ok(Some(v)) => SizeOf(v)
  }

  function SizeOf(v: AttributeValue): Result<nat> {
    match v
    case S(s) => Ok(|s|)
    case B(b) => Ok(|b|)
    case L(l) => Ok(|l|)
    case M(m) => Ok(|m|)
    case SS(ss) => Ok(|ss|)
    case NS(ns) => Ok(|ns|)
    case BS(bs) => Ok(|bs|)
    case _ => Err
  }

  /** compareValues: the order of two values of one type. */
  function CompareValues(a: AttributeValue, b: AttributeValue): Result<int> {
    match (a, b)
    case (S(x), S(y)) => Ok(Compare(x, y))
    case (B(x), B(y)) => Ok(Compare(x, y))
    case (N(x), N(y)) => (
      match (ParseFloat(x), ParseFloat(y))
      case (Some(p), Some(q)) => Ok(if p < q then -1 else if p > q then 1 else 0)
      case _ => Err)
    case (BOOL(x), BOOL(y)) => Ok(if x == y then 0 else if y then -1 else 1)
    case _ => Err
  }

  predicate Holds(op: CompareOp, cmp: int) {
    match op
    case EQ => cmp == 0
    case NE => cmp != 0
    case LT => cmp < 0
    case LE => cmp <= 0
    case GT => cmp > 0
    case GE => cmp >= 0
  }

  function EvalCompare(left: Node, op: CompareOp, right: Node, item: Item): Result<bool> {
    match ResolveNode(left, item)
    case Err => Err
    case Ok(l) =>
      match ResolveNode(right, item)
      case Err => Err
      case Ok(r) =>
        if l.None? || r.None? || !l.value.SameType(r.value) then Ok(false)
        else
          match CompareValues(l.value, r.value)
          case Ok(cmp) => Ok(Holds(op, cmp))
          case Err => Err
  }

  function Eval(n: Node, item: Item): Result<bool> {
    match n
    case CompareNode(l, op, r) => EvalCompare(l, op, r, item)
    case AndNode(l, r) => (
      match Eval(l, item)
      case Ok(true) => Eval(r, item)
      case other => other)
    case OrNode(l, r) => (
      match Eval(l, item)
      case Ok(false) => Eval(r, item)
      case other => other)
    case NotNode(x) => (
      match Eval(x, item)
      case Ok(b) => Ok(!b)
      case Err => Err)
    case FuncNode(name, args) => EvalFunc(name, args, item)
    case _ => Err
  }

  function EvalFunc(name: string, args: seq<Node>, item: Item): Result<bool> {
    if name == "attribute_exists" then
      if |args| == 1 && args[0].PathNode? then Ok(Resolve(args[0].parts, item).Some?) else Err
    else if name == "attribute_not_exists" then
      if |args| == 1 && args[0].PathNode? then Ok(Resolve(args[0].parts, item).None?) else Err
    else if name == "begins_with" then EvalPair(args, item, (a: AttributeValue, b: AttributeValue) => a.S? && b.S? && HasPrefix(a.s, b.s))
    else if name == "contains" then EvalPair(args, item, (a, b) => ContainsValue(a, b))
    else if name == "size" then
      match EvalSize(args, item)
      case Ok(size) => Ok(size > 0)
      case Err => Err
    else Err
  }

  /** Two operands that both have to resolve. */
  function EvalPair(args: seq<Node>, item: Item, test: (AttributeValue, AttributeValue) -> bool): Result<bool> {
    if |args| != 2 then Err
    else
      match ResolveNode(args[0], item)
      case Err => Err
      case Ok(a) =>
        match ResolveNode(args[1], item)
        case Err => Err
        case Ok(b) => Ok(a.Some? && b.Some? && test(a.value, b.value))
  }

  predicate ContainsValue(val: AttributeValue, operand: AttributeValue) {
    match val
    case S(s) => operand.S? && Contains(s, operand.s)
    case L(l) => exists i :: 0 <= i < |l| && l[i].SameType(operand) && CompareValues(l[i], operand) == Ok(0)
    case SS(ss) => operand.S? && operand.s in ss
    case NS(ns) => operand.N? && operand.n in ns
    case _ => false
  }

  /** The conjunction that a caller means: an error or a false first part decides. */
  function Conjunction(a: Result<bool>, b: Result<bool>): Result<bool> {
    if a == Ok(true) then b else a
  }
}
