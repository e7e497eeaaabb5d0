/** Joining conditions with mergeConditions (condition.go), as IfNotExists,
    PutCondition, IfCondition and QueryFilter do when they are given twice. */
module Merging {
  import opened Base
  import opened Values
  import opened Ast
  import opened Lexer
  import opened Parser
  import opened Translate
  import opened RoundTrip
  import opened Locality
  import opened Condition
  import opened Evaluation

  /** What memdb reads a condition as. */
  function Meaning(c: ConditionExpr): Result<Node> { ParseExpression(c.expression, c.Environment()) }

  /** The placeholders that end up in the tree of a condition. */
  function Used(c: ConditionExpr): set<string> {
    match Shape(MemTokens(c.expression), c.Environment())
    case Ok(n) => Refs(n)
    case Err => {}
  }

  /** No value of a is overwritten by b under a placeholder that a uses. */
  predicate NotOverwritten(a: ConditionExpr, b: ConditionExpr) {
    forall k :: k in Used(a) && k in a.values && k in b.values ==> b.values[k] == a.values[k]
  }

  lemma MergedTokens(a: ConditionExpr, b: ConditionExpr)
    ensures MemTokens(Merge(a, b).expression)
         == BinaryToks(MemTokens(a.expression), "AND", MemTokens(b.expression))
  {
    hide MemTokens;
    MemTokensBinary(a.expression, "AND", b.expression);
    assert Merge(a, b).expression == "(" + a.expression + ") " + "AND" + " (" + b.expression + ")";
  }

  lemma MergedExtends(a: ConditionExpr, b: ConditionExpr)
    requires WellNamed(a.names) && WellNamed(b.names)
    ensures Extends(a.Environment(), Merge(a, b).Environment())
    ensures Extends(b.Environment(), Merge(a, b).Environment())
  {
    var names := Merge(a, b).names;
    forall k | k in a.names
      ensures names[k] == a.names[k]
    {
      if k in b.names {
        assert Alias(a.names[k])[1..] == a.names[k] && Alias(b.names[k])[1..] == b.names[k];
      }
    }
  }

  /** One enclosed half of the merged text. */
  lemma MergedHalf(ts: seq<string>, env: Env, rest: seq<string>, wider: Env)
    requires ParseTokens(ts, env).Ok? && Extends(env, wider)
    ensures Shape(ts, env).Ok?
    ensures ParseNot(Enclosed(ts) + rest, wider) == Parsed(Fill(Shape(ts, env).value, wider.values), rest)
  {
    hide *;
    ParseIsLocal(ts, env, rest, wider);
    EnclosedIsUnit(ts, Fill(Shape(ts, env).value, wider.values), rest, wider);
  }

  /** The merged condition is the conjunction of the two shapes, both read with
      the merged values. */
  lemma MergedMeaning(a: ConditionExpr, b: ConditionExpr)
    requires Meaning(a).Ok? && Meaning(b).Ok? && WellNamed(a.names) && WellNamed(b.names)
    ensures Shape(MemTokens(a.expression), a.Environment()).Ok? && Shape(MemTokens(b.expression), b.Environment()).Ok?
    ensures var m := Merge(a, b);
      Meaning(m) == Ok(AndNode(
        Fill(Shape(MemTokens(a.expression), a.Environment()).value, m.values),
        Fill(Shape(MemTokens(b.expression), b.Environment()).value, m.values)))
  {
    ParseIsFilledShape(MemTokens(a.expression), a.Environment());
    ParseIsFilledShape(MemTokens(b.expression), b.Environment());
    assert Stop([]);
    hide MemTokens, ParseOr, ParseNot, Extends, Fill, Refs, Shape, WellNamed, Stop, Enclosed;
    var m, ta, tb := Merge(a, b), MemTokens(a.expression), MemTokens(b.expression);
    var l, r := Fill(Shape(ta, a.Environment()).value, m.values), Fill(Shape(tb, b.Environment()).value, m.values);
    var ets, fts := Enclosed(ta), Enclosed(tb);
    MergedTokens(a, b);
    MergedExtends(a, b);
    MergedHalf(ta, a.Environment(), ["AND"] + (fts + []), m.Environment());
    MergedHalf(tb, b.Environment(), [], m.Environment());
    ParseAndOf(ets, l, fts, r, [], m.Environment());
    assert ets + (["AND"] + fts) + [] == ets + (["AND"] + fts);
  }

  /** Merging is conjunction exactly when no value that the first condition uses
      is overwritten by the second. */
  lemma MergeIsConjunctionIff(a: ConditionExpr, b: ConditionExpr)
    requires Meaning(a).Ok? && Meaning(b).Ok? && WellNamed(a.names) && WellNamed(b.names)
    ensures Meaning(Merge(a, b)) == Ok(AndNode(Meaning(a).value, Meaning(b).value)) <==> NotOverwritten(a, b)
  {
    MergedMeaning(a, b);
    ParseIsFilledShape(MemTokens(a.expression), a.Environment());
    ParseIsFilledShape(MemTokens(b.expression), b.Environment());
    hide MemTokens, Fill, Refs;
    var m := Merge(a, b);
    var sa, sb := Shape(MemTokens(a.expression), a.Environment()).value, Shape(MemTokens(b.expression), b.Environment()).value;
    hide Shape, ParseTokens;
    FillAgrees(sa, a.values, m.values);
    FillAgrees(sb, b.values, m.values);
  }

  /** With disjoint placeholders the merged condition evaluates, on every item, to
      the conjunction of the two. */
  lemma MergedEvaluation(a: ConditionExpr, b: ConditionExpr, item: Item)
    requires Meaning(a).Ok? && Meaning(b).Ok? && WellNamed(a.names) && WellNamed(b.names)
    requires a.values.Keys !! b.values.Keys
    ensures var m := Meaning(Merge(a, b));
      m.Ok? && Eval(m.value, item) == Conjunction(Eval(Meaning(a).value, item), Eval(Meaning(b).value, item))
  {
    MergeIsConjunctionIff(a, b);
    hide Meaning, EvalFunc, EvalCompare;
  }

  // ---- IfNotExists ----

  predicate Lacks(item: Item, attr: string) { attr !in item }

  function NotThere(attr: string): Node { FuncNode("attribute_not_exists", [PathNode([attr])]) }

  lemma PrintedNotThere(attr: string)
    ensures Print(NotThere(attr), 0) == AttrNotExists(attr).expression
  {
    var args := [PathNode([attr])];
    assert args[1..] == [] && Aliases([attr]) == [Alias(attr)];
    assert Print(args[0], 0) == Alias(attr);
    assert PrintAll(args, 0) == [Alias(attr)];
  }

  lemma NotThereBinds(attr: string)
    ensures Binds(AttrNotExists(attr).Environment(), NotThere(attr), 0)
  {
    var args := [PathNode([attr])];
    assert args[1..] == [] && NamesOf(args[0]) == {attr} && ValuesOf(args[0]) == [];
    assert NamesOfAll(args) == {attr} && ValuesOfAll(args) == [];
  }

  /** IfNotExists lets a put through exactly when the stored item lacks the attribute;
      given together with any other condition, in either order, it is one more
      conjunct, since it has no values that could be replaced. */
  lemma IfNotExistsMeans(attr: string, c: ConditionExpr, item: Item)
    requires AllIdentPart(attr) && Meaning(c).Ok? && WellNamed(c.names)
    ensures Meaning(AttrNotExists(attr)) == Ok(NotThere(attr)) && Eval(NotThere(attr), item) == Ok(Lacks(item, attr))
    ensures var m := Meaning(Merge(AttrNotExists(attr), c));
      m.Ok? && Eval(m.value, item) == Conjunction(Ok(Lacks(item, attr)), Eval(Meaning(c).value, item))
    ensures var m := Meaning(Merge(c, AttrNotExists(attr)));
      m.Ok? && Eval(m.value, item) == Conjunction(Eval(Meaning(c).value, item), Ok(Lacks(item, attr)))
  {
    var own := AttrNotExists(attr);
    PrintedNotThere(attr);
    NotThereBinds(attr);
    NotThereEvaluates(attr, item);
    NotThereIsCondition(attr);
    assert WellNamed(own.names);
    assert own.values == map[];
    hide *;
    MeaningOfPrinted(own, NotThere(attr));
    MergedEvaluation(own, c, item);
    MergedEvaluation(c, own, item);
  }

  lemma MeaningOfPrinted(c: ConditionExpr, n: Node)
    requires c.expression == Print(n, 0) && RoundTrip.Condition(n) && Binds(c.Environment(), n, 0)
    ensures Meaning(c) == Ok(n)
  {
    hide Binds, Print, ParseExpression, RoundTrip.Condition;
    PrintThenParse(n, c.Environment());
  }

  lemma NotThereIsCondition(attr: string)
    requires AllIdentPart(attr)
    ensures RoundTrip.Condition(NotThere(attr))
  {
    var args := [PathNode([attr])];
    assert args[1..] == [] && Primary(args[0]) && AllPrimary([]);
    assert AllPrimary(args);
  }

  lemma NotThereEvaluates(attr: string, item: Item)
    ensures Eval(NotThere(attr), item) == Ok(Lacks(item, attr))
  {
  }

  // ---- What happens when both conditions number their values from :v0 ----

  function Comparison(attr: string, op: CompareOp, val: AttributeValue): Node {
    CompareNode(PathNode([attr]), op, ValueNode(val))
  }

  /** What buildCondition makes of "attr op ?". */
  function ComparisonExpr(attr: string, op: CompareOp, val: AttributeValue): ConditionExpr {
    ConditionExpr(Print(Comparison(attr, op, val), 0), map[Alias(attr) := attr], map[Placeholder(0) := val])
  }

  lemma ComparisonIsBuilt(attr: string, op: CompareOp, val: AttributeValue, r: Result<ConditionExpr>)
    requires IsIdentifier(attr) && !IsLogical(ToUpper(attr))
    requires Translated([attr, OpSymbol(op), "?"], [val], r)
    ensures r == Ok(ComparisonExpr(attr, op, val))
  {
    var ts := [attr, OpSymbol(op), "?"];
    OpSymbolParses(op);
    ComparisonOutputs(attr, op);
    assert ts[1..] == [OpSymbol(op), "?"] && ts[1..][1..] == ["?"] && ts[1..][1..][1..] == [];
    hide OutputOf, OpSymbol, IsLogical, IsOperator;
    assert Outputs(["?"], 0) == [Placeholder(0)] && CountValues(["?"]) == 1 && NamesIn(["?"]) == {};
    assert Outputs(ts[1..], 0) == [OpSymbol(op)] + [Placeholder(0)] && CountValues(ts[1..]) == 1 && NamesIn(ts[1..]) == {};
    assert Outputs(ts, 0) == [Alias(attr)] + Outputs(ts[1..], 0);
    assert CountValues(ts) == 1 && NamesIn(ts) == {attr};
    var c := r.value;
    assert c.values == map[Placeholder(0) := val] by { OneValue(map[], val, 0); }
    assert c.names == map[Alias(attr) := attr] by { OnlyAlias(c.names, attr); }
    PrintedComparison(attr, op, val);
    JoinThree(Alias(attr), OpSymbol(op), Placeholder(0));
  }

  lemma JoinThree(x: string, y: string, z: string)
    ensures Join([x] + ([y] + [z]), " ") == x + " " + (y + " " + z)
  {
    var parts := [x] + ([y] + [z]);
    assert parts[1..] == [y, z] && [y, z][1..] == [z];
    assert Join([z], " ") == z;
    assert Join([y, z], " ") == y + " " + z;
  }

  lemma PrintedComparison(attr: string, op: CompareOp, val: AttributeValue)
    ensures Print(Comparison(attr, op, val), 0) == Alias(attr) + " " + (OpSymbol(op) + " " + Placeholder(0))
  {
    var aliases := Aliases([attr]);
    assert aliases == [Alias(attr)];
    assert Print(PathNode([attr]), 0) == Alias(attr);
    assert ValuesOf(PathNode([attr])) == [];
  }

  lemma OnlyAlias(names: map<string, string>, attr: string)
    requires names.Keys == AliasSet({attr}) && WellNamed(names)
    ensures names == map[Alias(attr) := attr]
  {
    assert Alias(attr) in names;
    assert Alias(names[Alias(attr)])[1..] == Alias(attr)[1..];
  }

  lemma ComparisonOutputs(attr: string, op: CompareOp)
    requires IsIdentifier(attr) && !IsLogical(ToUpper(attr))
    ensures OutputOf([attr, OpSymbol(op), "?"]) == Name(attr)
    ensures OutputOf([OpSymbol(op), "?"]) == Verbatim(OpSymbol(op))
    ensures OutputOf(["?"]) == Value
  {
    assert attr[0] != '?' && attr[0] != '(' && attr[0] != ')' && attr[0] != ',' && attr[0] != '=' && attr[0] != '<' && attr[0] != '>';
    var symbol := OpSymbol(op);
    assert ToUpper(symbol)[0] == symbol[0] && ToUpper("?")[0] == '?';
    OpSymbolParses(op);
  }

  lemma ComparisonMeaning(attr: string, op: CompareOp, val: AttributeValue)
    requires AllIdentPart(attr)
    ensures Meaning(ComparisonExpr(attr, op, val)) == Ok(Comparison(attr, op, val))
  {
    var n, c := Comparison(attr, op, val), ComparisonExpr(attr, op, val);
    ComparisonBinds(attr, op, val, c.Environment());
    hide Binds, Print, ParseExpression;
    PrintThenParse(n, c.Environment());
  }

  lemma ComparisonBinds(attr: string, op: CompareOp, val: AttributeValue, env: Env)
    requires Lookup(env.names, Alias(attr)) == Some(attr) && Lookup(env.values, Placeholder(0)) == Some(val)
    ensures Binds(env, Comparison(attr, op, val), 0)
  {
    var n := Comparison(attr, op, val);
    assert ValuesOf(n.left) == [] && ValuesOf(n.right) == [val] && ValuesOf(n) == [val];
    assert NamesOf(n.left) == {attr} && NamesOf(n.right) == {} && NamesOf(n) == {attr};
  }

  /** The shape of a comparison is the comparison with the placeholder itself. */
  lemma ComparisonShape(attr: string, op: CompareOp, val: AttributeValue)
    requires AllIdentPart(attr)
    ensures var c := ComparisonExpr(attr, op, val);
      Shape(MemTokens(c.expression), c.Environment()) == Ok(Comparison(attr, op, S(Placeholder(0))))
  {
    var c := ComparisonExpr(attr, op, val);
    var env := Symbolic(c.Environment());
    var n := Comparison(attr, op, S(Placeholder(0)));
    ComparisonBinds(attr, op, S(Placeholder(0)), env);
    PrintedComparison(attr, op, val);
    PrintedComparison(attr, op, S(Placeholder(0)));
    hide Binds, Print, ParseTokens, MemTokens;
    PrintThenParse(n, env);
  }

  /** Two comparisons given to the same call both use :v0, and the value of the
      second one wins in both places. */
  lemma SecondValueWinsTwice(a1: string, op1: CompareOp, v1: AttributeValue, a2: string, op2: CompareOp, v2: AttributeValue)
    requires AllIdentPart(a1) && AllIdentPart(a2)
    ensures Meaning(Merge(ComparisonExpr(a1, op1, v1), ComparisonExpr(a2, op2, v2)))
         == Ok(AndNode(Comparison(a1, op1, v2), Comparison(a2, op2, v2)))
  {
    var a, b := ComparisonExpr(a1, op1, v1), ComparisonExpr(a2, op2, v2);
    ComparisonMeaning(a1, op1, v1);
    ComparisonMeaning(a2, op2, v2);
    ComparisonShape(a1, op1, v1);
    ComparisonShape(a2, op2, v2);
    FillComparison(a1, op1, Merge(a, b).values, v2);
    FillComparison(a2, op2, Merge(a, b).values, v2);
    hide Meaning, MemTokens, Print, Fill, Shape;
    MergedMeaning(a, b);
  }

  lemma FillComparison(attr: string, op: CompareOp, values: map<string, AttributeValue>, val: AttributeValue)
    requires Lookup(values, Placeholder(0)) == Some(val)
    ensures Fill(Comparison(attr, op, S(Placeholder(0))), values) == Comparison(attr, op, val)
  {
  }
}
