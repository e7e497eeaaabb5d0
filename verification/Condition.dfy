/** buildCondition, buildAttrNotExists and mergeConditions (condition.go): the
    client's own route from a ? expression to a DynamoDB expression. */
module Condition {
  import opened Base
  import opened Values
  import opened Ast
  import opened Lexer
  import opened Parser
  import opened Translate

  /** A translated condition with its placeholder maps. */
  datatype ConditionExpr = ConditionExpr(
    expression: string, names: map<string, string>, values: map<string, AttributeValue>)
  {
    function Environment(): Env { Env(names, values) }
  }

  // ---- translate ----

  predicate IsLogical(upper: string) { upper == "AND" || upper == "OR" || upper == "NOT" }

  predicate IsPunctuation(tok: string) { tok == "(" || tok == ")" || tok == "," }

  predicate IsOperator(tok: string) { ParseCompareOp(tok).Some? }

  /** What becomes of the first token of ts. */
  datatype Output = Verbatim(text: string) | Value | Name(name: string)

  function OutputOf(ts: seq<string>): Output
    requires ts != []
  {
    var tok := ts[0];
    var upper := ToUpper(tok);
    if IsLogical(upper) then Verbatim(upper)
    else if IsOperator(tok) || IsPunctuation(tok) then Verbatim(tok)
    else if tok == "?" then Value
    else if |ts| > 1 && ts[1] == "(" then Verbatim(tok)
    else Name(tok)
  }

  /** The token that is printed when v values have been numbered before. */
  function OutputText(o: Output, v: nat): string {
    match o
    case Verbatim(text) => text
    case Value => Placeholder(v)
    case Name(name) => Alias(name)
  }

  function Weight(o: Output): nat { if o == Value then 1 else 0 }

  function Outputs(ts: seq<string>, v: nat): (out: seq<string>)
    ensures |out| == |ts|
  {
    if ts == [] then []
    else [OutputText(OutputOf(ts), v)] + Outputs(ts[1..], v + Weight(OutputOf(ts)))
  }

  function CountValues(ts: seq<string>): nat {
    if ts == [] then 0 else Weight(OutputOf(ts)) + CountValues(ts[1..])
  }

  function NamesIn(ts: seq<string>): set<string> {
    if ts == [] then {}
    else (match OutputOf(ts) case Name(n) => {n} case _ => {}) + NamesIn(ts[1..])
  }

  /** Every alias is '#' followed by the name it stands for. */
  ghost predicate WellNamed(names: map<string, string>) {
    forall a :: a in names ==> a == Alias(names[a])
  }

  /** The result of translate on tokens ts: an error unless the number of
      placeholders is the number of values. */
  ghost predicate Translated(ts: seq<string>, vals: seq<AttributeValue>, r: Result<ConditionExpr>) {
    match r
    case Err => CountValues(ts) != |vals|
    case Ok(c) =>
      && CountValues(ts) == |vals|
      && c.expression == Join(Outputs(ts, 0), " ")
      && c.values == AddValues(map[], vals, 0)
      && c.names.Keys == AliasSet(NamesIn(ts)) && WellNamed(c.names)
  }

  class CondBuilder {
    var names: map<string, string>
    var values: map<string, AttributeValue>
    var valueIdx: nat

    constructor ()
      ensures names == map[] && values == map[] && valueIdx == 0
    {
      names, values, valueIdx := map[], map[], 0;
    }

    method TranslateTokens(tokens: seq<string>, vals: seq<AttributeValue>) returns (out: Option<seq<string>>)
      requires names == map[] && values == map[] && valueIdx == 0
      modifies this
      ensures out.None? ==> CountValues(tokens) != |vals|
      ensures out.Some? ==> CountValues(tokens) == |vals| && out.value == Outputs(tokens, 0)
      ensures out.Some? ==> values == AddValues(map[], vals, 0)
      ensures out.Some? ==> names.Keys == AliasSet(NamesIn(tokens)) && WellNamed(names)
    {
      hide *;
      var texts: seq<string> := [];
      var valIdx := 0;
      var i := 0;
      NothingTranslated(vals);
      assert tokens[0..] == tokens;
      while i < |tokens|
        invariant 0 <= i <= |tokens| && 0 <= valIdx <= |vals|
        invariant valueIdx == valIdx && valIdx + CountValues(tokens[i..]) == CountValues(tokens)
        invariant texts + Outputs(tokens[i..], valIdx) == Outputs(tokens, 0)
        invariant values == AddValues(map[], vals[..valIdx], 0)
        invariant names.Keys + AliasSet(NamesIn(tokens[i..])) == AliasSet(NamesIn(tokens))
        invariant WellNamed(names)
      {
        HeadOf(tokens, i, valIdx);
        var o := OutputOf(tokens[i..]);
        ghost var namesBefore := names.Keys;
        match o {
          case Verbatim(text) =>
            texts := texts + [text];
          case Value =>
            if valIdx >= |vals| {
              return None;
            }
            var placeholder := ":v" + NatToString(valueIdx);
            AddOneMore(vals, valIdx);
            values := values[placeholder := vals[valIdx]];
            valueIdx, valIdx := valueIdx + 1, valIdx + 1;
            texts := texts + [placeholder];
          case Name(name) =>
            var alias := "#" + name;
            StaysWellNamed(names, name);
            names := names[alias := name];
            texts := texts + [alias];
        }
        i := i + 1;
      }
      assert tokens[i..] == [];
      if valIdx < |vals| {
        return None;
      }
      assert vals[..valIdx] == vals;
      out := Some(texts);
    }
  }

  lemma NothingTranslated(vals: seq<AttributeValue>)
    ensures Outputs([], |vals|) == [] && CountValues([]) == 0 && AliasSet(NamesIn([])) == {} && WellNamed(map[])
    ensures AddValues(map[], vals[..0], 0) == map[]
  {
  }

  lemma AddOneMore(vals: seq<AttributeValue>, k: nat)
    requires k < |vals|
    ensures AddValues(map[], vals[..k + 1], 0) == AddValues(map[], vals[..k], 0)[":v" + NatToString(k) := vals[k]]
  {
    assert vals[..k + 1] == vals[..k] + [vals[k]];
    AddValuesConcat(map[], vals[..k], [vals[k]], 0);
    OneValue(AddValues(map[], vals[..k], 0), vals[k], k);
  }

  lemma StaysWellNamed(names: map<string, string>, name: string)
    requires WellNamed(names)
    ensures WellNamed(names["#" + name := name])
    ensures AliasSet({name}) == {"#" + name}
  {
  }

  /** The first of the remaining tokens, as the loop sees it. */
  lemma HeadOf(tokens: seq<string>, i: nat, v: nat)
    requires i < |tokens|
    ensures var ts, o := tokens[i..], OutputOf(tokens[i..]);
      && Outputs(ts, v) == [OutputText(o, v)] + Outputs(tokens[i + 1..], v + Weight(o))
      && CountValues(ts) == Weight(o) + CountValues(tokens[i + 1..])
      && AliasSet(NamesIn(ts)) == (match o case Name(n) => {Alias(n)} case _ => {}) + AliasSet(NamesIn(tokens[i + 1..]))
      && Weight(Value) == 1 && (o != Value ==> Weight(o) == 0)
      && (match o
          case Verbatim(text) => OutputText(o, v) == text
          case Value => OutputText(o, v) == ":v" + NatToString(v)
          case Name(name) => OutputText(o, v) == "#" + name && Alias(name) == "#" + name)
  {
    assert tokens[i..][1..] == tokens[i + 1..];
    hide OutputOf;
  }

  method BuildCondition(expression: string, vals: seq<AttributeValue>) returns (r: Result<ConditionExpr>)
    ensures Translated(BuilderTokens(expression), vals, r)
  {
    hide BuilderTokens, Outputs, CountValues, NamesIn, WellNamed, AddValues, AliasSet;
    var tokens := TokenizeCondition(expression);
    var cb := new CondBuilder();
    var out := cb.TranslateTokens(tokens, vals);
    r := match out
      case None => Err
      case Some(texts) => Ok(ConditionExpr(Join(texts, " "), cb.names, cb.values));
  }

  // ---- IfNotExists and merging ----

  function AttrNotExists(attr: string): ConditionExpr {
    ConditionExpr("attribute_not_exists(" + Alias(attr) + ")", map[Alias(attr) := attr], map[])
  }

  /** mergeConditions: later entries win. */
  function Merge(a: ConditionExpr, b: ConditionExpr): ConditionExpr {
    ConditionExpr("(" + a.expression + ") AND (" + b.expression + ")", a.names + b.names, a.values + b.values)
  }

  /** The copying loop of mergeConditions over one map. */
  method CopyInto<V>(into: map<string, V>, from: map<string, V>) returns (m: map<string, V>)
    ensures m == into + from
  {
    m := into;
    var todo := from.Keys;
    while todo != {}
      invariant todo <= from.Keys
      invariant m == into + (map k | k in from && k !in todo :: from[k])
      decreases todo
    {
      var k :| k in todo;
      m := m[k := from[k]];
      todo := todo - {k};
    }
  }

  method MergeConditions(a: ConditionExpr, b: ConditionExpr) returns (merged: ConditionExpr)
    ensures merged == Merge(a, b)
  {
    var names := CopyInto(map[], a.names);
    names := CopyInto(names, b.names);
    var values := CopyInto(map[], a.values);
    values := CopyInto(values, b.values);
    assert names == a.names + b.names && values == a.values + b.values;
    merged := ConditionExpr("(" + a.expression + ") AND (" + b.expression + ")", names, values);
  }
}
