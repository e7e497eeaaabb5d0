/** The condition expression tree (internal/expr/ast.go). */
module Ast {
  import opened Base
  import opened Values

  datatype CompareOp = EQ | NE | LT | LE | GT | GE

  datatype Node =
    | CompareNode(left: Node, op: CompareOp, right: Node)
    | AndNode(conj0: Node, conj1: Node)
    | OrNode(disj0: Node, disj1: Node)
    | NotNode(operand: Node)
    | FuncNode(name: string, args: seq<Node>)
    | PathNode(parts: seq<string>)
    | ValueNode(value: AttributeValue)

  function OpSymbol(op: CompareOp): string {
    match op
    case EQ => "="
    case NE => "<>"
    case LT => "<"
    case LE => "<="
    case GT => ">"
    case GE => ">="
  }

  function ParseCompareOp(tok: string): Option<CompareOp> {
    if tok == "=" then Some(EQ)
    else if tok == "<>" then Some(NE)
    else if tok == "<" then Some(LT)
    else if tok == "<=" then Some(LE)
    else if tok == ">" then Some(GT)
    else if tok == ">=" then Some(GE)
    else None
  }

  lemma OpSymbolParses(op: CompareOp)
    ensures ParseCompareOp(OpSymbol(op)) == Some(op)
  {
  }

  /** The function names that the memdb parser knows. */
  predicate KnownFunction(name: string) {
    name == "attribute_exists" || name == "attribute_not_exists" || name == "begins_with"
    || name == "contains" || name == "size" || name == "attribute_type"
  }
}
