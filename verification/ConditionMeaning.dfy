/** What condition and filter expressions say, from their text to the answer
    (memdb/expression.go with internal/expr/eval.go). */
module ConditionMeaning {
  import opened Base
  import opened Values
  import opened Ast
  import opened Evaluation
  import opened EvalMeaning
  import opened Parser
  import opened Phrases
  import Requests
  import RoundTrip

  // ---- BETWEEN and IN are abbreviations ----

  /** BETWEEN is two comparisons. */
  lemma BetweenIsTwoComparisons(l: Term, x: Term, y: Term, env: Env)
    requires GoodLeft(l) && GoodTerm(x) && GoodTerm(y)
    ensures ParseExpression(BetweenOf(TermText(l), TermText(x), TermText(y)), env)
         == ParseExpression(RangeOf(TermText(l), TermText(x), TermText(y)), env)
  {
    hide *;
    var p := And(Comparison(l, ">=", x), Comparison(l, "<=", y));
    BetweenText(l, x, y);
    TwoComparisonsText(l, x, y);
    SameMeaning(l, x, y, env);
    TextMeans(Between(l, x, y), env);
    TextMeans(p, env);
  }

  function BetweenOf(a: string, low: string, high: string): string { a + " BETWEEN " + low + " AND " + high }

  function RangeOf(a: string, low: string, high: string): string { a + " >= " + low + " AND " + a + " <= " + high }

  lemma SameMeaning(l: Term, x: Term, y: Term, env: Env)
    requires GoodLeft(l) && GoodTerm(x) && GoodTerm(y)
    ensures Good(Between(l, x, y)) && Good(And(Comparison(l, ">=", x), Comparison(l, "<=", y)))
    ensures Meaning(Between(l, x, y), env) == Meaning(And(Comparison(l, ">=", x), Comparison(l, "<=", y)), env)
  {
    OpLiterals();
    LeftIsTerm(l);
    hide GoodTerm, GoodLeft, Compared, ParseCompareOp;
  }

  /** A word with a blank on both sides. */
  lemma Infix(a: string, word: string, spaced: string, b: string)
    requires spaced == " " + word + " "
    ensures a + (" " + (word + (" " + b))) == a + spaced + b
  {
  }

  lemma BetweenText(l: Term, x: Term, y: Term)
    ensures Text(Between(l, x, y)) == BetweenOf(TermText(l), TermText(x), TermText(y))
  {
    hide TermText;
    var a, b, c := TermText(l), TermText(x), TermText(y);
    Infix(b, "AND", " AND ", c);
    Infix(a, "BETWEEN", " BETWEEN ", b + " AND " + c);
    Assoc(a + " BETWEEN ", b + " AND ", c);
    Assoc(a + " BETWEEN ", b, " AND ");
  }

  lemma TwoComparisonsText(l: Term, x: Term, y: Term)
    ensures Text(And(Comparison(l, ">=", x), Comparison(l, "<=", y))) == RangeOf(TermText(l), TermText(x), TermText(y))
  {
    hide TermText;
    var a, b, c := TermText(l), TermText(x), TermText(y);
    Infix(a, ">=", " >= ", b);
    Infix(a, "<=", " <= ", c);
    assert Text(Comparison(l, ">=", x)) == a + " >= " + b;
    assert Text(Comparison(l, "<=", y)) == a + " <= " + c;
    Infix(a + " >= " + b, "AND", " AND ", a + " <= " + c);
    Assoc(a + " >= " + b + " AND ", a + " <= ", c);
    Assoc(a + " >= " + b + " AND ", a, " <= ");
  }

  /** "l = x" for every option x. */
  function EqualTexts(l: Term, options: seq<Term>): seq<string> {
    if options == [] then [] else [TermText(l) + " = " + TermText(options[0])] + EqualTexts(l, options[1..])
  }

  /** Equal to the first option, or the second, and so on. */
  function AnyOf(l: Term, options: seq<Term>): Phrase
    requires options != []
  {
    var last := Comparison(l, "=", options[|options| - 1]);
    if |options| == 1 then last else Or(AnyOf(l, options[..|options| - 1]), last)
  }

  lemma {:induction false} AnyOfText(l: Term, options: seq<Term>)
    requires options != []
    ensures Text(AnyOf(l, options)) == Join(EqualTexts(l, options), " OR ")
  {
    hide TermText;
    var front, last := options[..|options| - 1], options[|options| - 1];
    var cmp := TermText(l) + " = " + TermText(last);
    assert Text(Comparison(l, "=", last)) == cmp;
    if |options| == 1 {
      assert options == [last];
    } else {
      AnyOfText(l, front);
      EqualTextsSnoc(l, front, last);
      assert options == front + [last];
      JoinSnoc(EqualTexts(l, front), cmp, " OR ");
      var a := Text(AnyOf(l, front));
      assert a + (" " + ("OR" + (" " + cmp))) == a + " OR " + cmp;
    }
  }

  lemma {:induction false} EqualTextsSnoc(l: Term, front: seq<Term>, last: Term)
    ensures EqualTexts(l, front + [last]) == EqualTexts(l, front) + [TermText(l) + " = " + TermText(last)]
    ensures |EqualTexts(l, front)| == |front|
  {
    hide TermText;
    if front == [] {
      assert front + [last] == [last];
    } else {
      assert (front + [last])[1..] == front[1..] + [last];
      EqualTextsSnoc(l, front[1..], last);
    }
  }

  lemma {:induction false} JoinSnoc(parts: seq<string>, last: string, sep: string)
    requires parts != []
    ensures Join(parts + [last], sep) == Join(parts, sep) + sep + last
  {
    assert (parts + [last])[1..] == parts[1..] + [last];
    if |parts| > 1 {
      JoinSnoc(parts[1..], last, sep);
    }
  }

  lemma {:induction false} AnyOfMeans(l: Term, options: seq<Term>, env: Env)
    requires GoodLeft(l) && options != [] && forall i :: 0 <= i < |options| ==> GoodTerm(options[i])
    ensures GoodTerm(l) && Good(AnyOf(l, options)) && Meaning(AnyOf(l, options), env) == OneOf(l, options, env)
  {
    LeftIsTerm(l);
    hide GoodLeft, GoodTerm, TermNode;
    if |options| > 1 {
      AnyOfMeans(l, options[..|options| - 1], env);
    }
  }

  /** IN is a disjunction of equalities. */
  lemma InIsEqualities(l: Term, options: seq<Term>, env: Env)
    requires GoodLeft(l) && options != [] && forall i :: 0 <= i < |options| ==> GoodTerm(options[i])
    ensures ParseExpression(TermText(l) + " IN (" + Join(TermTexts(options), ", ") + ")", env)
         == ParseExpression(Join(EqualTexts(l, options), " OR "), env)
  {
    InText(l, options);
    AnyOfText(l, options);
    AnyOfMeans(l, options, env);
    TextMeans(In(l, options), env);
    TextMeans(AnyOf(l, options), env);
    hide ParseExpression, Text, GoodTerm, GoodLeft, TermText, OneOf;
  }

  lemma InText(l: Term, options: seq<Term>)
    ensures Text(In(l, options)) == TermText(l) + " IN (" + Join(TermTexts(options), ", ") + ")"
  {
    hide TermText;
    var a, b := TermText(l), Join(TermTexts(options), ", ");
    assert a + (" " + ("IN" + (" " + ("(" + b + ")")))) == a + " IN (" + b + ")";
  }

  // ---- From the text to the answer ----

  /** What an operand stands for: an attribute that is there, a placeholder's value, or
      the size of something. */
  predicate Has(t: Term, v: AttributeValue, env: Env, item: Item) {
    GoodTerm(t) && TermNode(t, env).Some? && Stands(TermNode(t, env).value, v, item)
  }

  lemma AliasHas(alias: string, name: string, env: Env, item: Item)
    requires GoodTok(alias) && alias[0] == '#' && Lookup(env.names, alias) == Some(name) && '.' !in name && name in item
    ensures Has(Tok(alias), item[name], env, item) && GoodLeft(Tok(alias))
  {
    assert ToUpper(alias)[0] == '#';
  }

  lemma PlaceholderHas(tok: string, env: Env, item: Item)
    requires GoodTok(tok) && tok[0] == ':' && tok in env.values
    ensures Has(Tok(tok), env.values[tok], env, item)
  {
  }

  /** Evaluating the text of a phrase is evaluating its meaning. */
  lemma Evaluates(p: Phrase, text: string, env: Env, item: Item)
    requires Good(p) && text == Text(p) != ""
    ensures Requests.EvalCondition(text, env, item) == match Meaning(p, env) case Some(n) => Eval(n, item) case None => Err
  {
    TextMeans(p, env);
    hide ParseExpression, Text, Good, Meaning, Eval;
  }

  lemma OperatorText(l: Term, op: string, r: Term, env: Env, item: Item)
    requires GoodLeft(l) && GoodTerm(l) && GoodTerm(r) && op in {"=", "<>", "<", "<=", ">", ">="}
    requires TermNode(l, env).Some? && TermNode(r, env).Some?
    ensures Requests.EvalCondition(TermText(l) + (" " + (op + (" " + TermText(r)))), env, item)
         == Eval(CompareNode(TermNode(l, env).value, ParseCompareOp(op).value, TermNode(r, env).value), item)
  {
    var p := Comparison(l, op, r);
    OperatorAhead(op);
    Evaluates(p, Text(p), env, item);
    hide Requests.EvalCondition, TermNode, Eval, GoodTerm, GoodLeft, TermText;
  }

  /** The six operators on integers. */
  lemma NumberConditions(l: Term, r: Term, i: int, j: int, env: Env, item: Item)
    requires GoodLeft(l) && Has(l, N(IntToString(i)), env, item) && Has(r, N(IntToString(j)), env, item)
    requires -TWO_53 <= i <= TWO_53 && -TWO_53 <= j <= TWO_53
    ensures Requests.EvalCondition(TermText(l) + (" " + ("=" + (" " + TermText(r)))), env, item) == Ok(i == j)
    ensures Requests.EvalCondition(TermText(l) + (" " + ("<>" + (" " + TermText(r)))), env, item) == Ok(i != j)
    ensures Requests.EvalCondition(TermText(l) + (" " + ("<" + (" " + TermText(r)))), env, item) == Ok(i < j)
    ensures Requests.EvalCondition(TermText(l) + (" " + ("<=" + (" " + TermText(r)))), env, item) == Ok(i <= j)
    ensures Requests.EvalCondition(TermText(l) + (" " + (">" + (" " + TermText(r)))), env, item) == Ok(i > j)
    ensures Requests.EvalCondition(TermText(l) + (" " + (">=" + (" " + TermText(r)))), env, item) == Ok(i >= j)
  {
    NumbersCompare(TermNode(l, env).value, TermNode(r, env).value, i, j, item);
    AllOperators(l, r, env, item);
    hide Requests.EvalCondition, TermNode, Eval, GoodTerm, GoodLeft, TermText, IntToString;
  }

  lemma AllOperators(l: Term, r: Term, env: Env, item: Item)
    requires GoodLeft(l) && GoodTerm(l) && GoodTerm(r) && TermNode(l, env).Some? && TermNode(r, env).Some?
    ensures var (x, y) := (TermNode(l, env).value, TermNode(r, env).value);
      && Requests.EvalCondition(TermText(l) + (" " + ("=" + (" " + TermText(r)))), env, item) == Eval(CompareNode(x, EQ, y), item)
      && Requests.EvalCondition(TermText(l) + (" " + ("<>" + (" " + TermText(r)))), env, item) == Eval(CompareNode(x, NE, y), item)
      && Requests.EvalCondition(TermText(l) + (" " + ("<" + (" " + TermText(r)))), env, item) == Eval(CompareNode(x, LT, y), item)
      && Requests.EvalCondition(TermText(l) + (" " + ("<=" + (" " + TermText(r)))), env, item) == Eval(CompareNode(x, LE, y), item)
      && Requests.EvalCondition(TermText(l) + (" " + (">" + (" " + TermText(r)))), env, item) == Eval(CompareNode(x, GT, y), item)
      && Requests.EvalCondition(TermText(l) + (" " + (">=" + (" " + TermText(r)))), env, item) == Eval(CompareNode(x, GE, y), item)
  {
    OpLiterals();
    hide Requests.EvalCondition, TermNode, Eval, GoodTerm, GoodLeft, TermText, ParseCompareOp;
    OperatorText(l, "=", r, env, item);
    OperatorText(l, "<>", r, env, item);
    OperatorText(l, "<", r, env, item);
    OperatorText(l, "<=", r, env, item);
    OperatorText(l, ">", r, env, item);
    OperatorText(l, ">=", r, env, item);
  }

  lemma OpLiterals()
    ensures ParseCompareOp("=") == Some(EQ) && ParseCompareOp("<>") == Some(NE) && ParseCompareOp("<") == Some(LT)
    ensures ParseCompareOp("<=") == Some(LE) && ParseCompareOp(">") == Some(GT) && ParseCompareOp(">=") == Some(GE)
  {
  }

  /** The six operators on strings, byte by byte. */
  lemma StringConditions(l: Term, r: Term, x: string, y: string, env: Env, item: Item)
    requires GoodLeft(l)
    requires (Has(l, S(x), env, item) && Has(r, S(y), env, item)) || (Has(l, B(x), env, item) && Has(r, B(y), env, item))
    ensures Requests.EvalCondition(TermText(l) + (" " + ("=" + (" " + TermText(r)))), env, item) == Ok(x == y)
    ensures Requests.EvalCondition(TermText(l) + (" " + ("<>" + (" " + TermText(r)))), env, item) == Ok(x != y)
    ensures Requests.EvalCondition(TermText(l) + (" " + ("<" + (" " + TermText(r)))), env, item) == Ok(Precedes(x, y))
    ensures Requests.EvalCondition(TermText(l) + (" " + ("<=" + (" " + TermText(r)))), env, item) == Ok(Precedes(x, y) || x == y)
    ensures Requests.EvalCondition(TermText(l) + (" " + (">" + (" " + TermText(r)))), env, item) == Ok(Precedes(y, x))
    ensures Requests.EvalCondition(TermText(l) + (" " + (">=" + (" " + TermText(r)))), env, item) == Ok(Precedes(y, x) || x == y)
  {
    StringsCompare(TermNode(l, env).value, TermNode(r, env).value, x, y, item);
    AllOperators(l, r, env, item);
    hide Requests.EvalCondition, TermNode, Eval, GoodTerm, GoodLeft, TermText, Precedes;
  }

  /** BETWEEN on integers includes both bounds. */
  lemma BetweenNumbers(l: Term, x: Term, y: Term, i: int, lo: int, hi: int, env: Env, item: Item)
    requires GoodLeft(l) && Has(l, N(IntToString(i)), env, item) && Has(x, N(IntToString(lo)), env, item) && Has(y, N(IntToString(hi)), env, item)
    requires -TWO_53 <= i <= TWO_53 && -TWO_53 <= lo <= TWO_53 && -TWO_53 <= hi <= TWO_53
    ensures Requests.EvalCondition(BetweenOf(TermText(l), TermText(x), TermText(y)), env, item) == Ok(lo <= i <= hi)
  {
    var p := Between(l, x, y);
    var a, b, c := TermNode(l, env).value, TermNode(x, env).value, TermNode(y, env).value;
    BetweenNode(l, x, y, env);
    NumbersCompare(a, b, i, lo, item);
    NumbersCompare(a, c, i, hi, item);
    hide *;
    BetweenText(l, x, y);
    Evaluates(p, BetweenOf(TermText(l), TermText(x), TermText(y)), env, item);
    LogicMeans(CompareNode(a, GE, b), CompareNode(a, LE, c), lo <= i, i <= hi, item);
  }

  lemma BetweenNode(l: Term, x: Term, y: Term, env: Env)
    requires GoodLeft(l) && GoodTerm(l) && GoodTerm(x) && GoodTerm(y)
    requires TermNode(l, env).Some? && TermNode(x, env).Some? && TermNode(y, env).Some?
    ensures Good(Between(l, x, y)) && BetweenOf(TermText(l), TermText(x), TermText(y)) != ""
    ensures var a := TermNode(l, env).value;
      Meaning(Between(l, x, y), env) == Some(AndNode(CompareNode(a, GE, TermNode(x, env).value), CompareNode(a, LE, TermNode(y, env).value)))
  {
    hide TermNode, GoodTerm, GoodLeft, TermText;
  }

  /** IN on integers. */
  lemma {:induction false} OneOfNumbers(l: Term, options: seq<Term>, i: int, js: seq<int>, env: Env, item: Item)
    requires GoodTerm(l) && Has(l, N(IntToString(i)), env, item) && |js| == |options| > 0 && -TWO_53 <= i <= TWO_53
    requires forall k :: 0 <= k < |options| ==> Has(options[k], N(IntToString(js[k])), env, item) && -TWO_53 <= js[k] <= TWO_53
    ensures (forall k :: 0 <= k < |options| ==> GoodTerm(options[k]))
    ensures OneOf(l, options, env).Some? && Eval(OneOf(l, options, env).value, item) == Ok(i in js)
  {
    hide TermNode, GoodTerm, IntToString, Eval, Stands, OneOf;
    var n := |options| - 1;
    OneNumber(l, options[n], i, js[n], env, item);
    OneOfSnoc(l, options, n, env);
    assert options[..n + 1] == options;
    if n > 0 {
      assert js == js[..n] + [js[n]];
      OneOfNumbers(l, options[..n], i, js[..n], env, item);
      LogicMeans(OneOf(l, options[..n], env).value, Compared(l, EQ, options[n], env).value, i in js[..n], i == js[n], item);
    } else {
      assert js == [js[0]];
    }
  }

  lemma OneNumber(l: Term, r: Term, i: int, j: int, env: Env, item: Item)
    requires GoodTerm(l) && Has(l, N(IntToString(i)), env, item) && Has(r, N(IntToString(j)), env, item)
    requires -TWO_53 <= i <= TWO_53 && -TWO_53 <= j <= TWO_53
    ensures GoodTerm(r) && Compared(l, EQ, r, env).Some? && Eval(Compared(l, EQ, r, env).value, item) == Ok(i == j)
  {
    NumbersCompare(TermNode(l, env).value, TermNode(r, env).value, i, j, item);
    hide TermNode, GoodTerm, IntToString, Eval;
  }

  lemma InNumbers(l: Term, options: seq<Term>, i: int, js: seq<int>, env: Env, item: Item)
    requires GoodLeft(l) && Has(l, N(IntToString(i)), env, item) && |js| == |options| && -TWO_53 <= i <= TWO_53
    requires forall k :: 0 <= k < |options| ==> Has(options[k], N(IntToString(js[k])), env, item) && -TWO_53 <= js[k] <= TWO_53
    ensures Requests.EvalCondition(TermText(l) + " IN (" + Join(TermTexts(options), ", ") + ")", env, item) == Ok(i in js)
  {
    var p := In(l, options);
    InIsGood(l, options, i, js, env, item);
    InText(l, options);
    hide *;
    Evaluates(p, TermText(l) + " IN (" + Join(TermTexts(options), ", ") + ")", env, item);
    if options == [] {
      NothingIsInNothing(item);
    } else {
      OneOfNumbers(l, options, i, js, env, item);
    }
  }

  lemma InIsGood(l: Term, options: seq<Term>, i: int, js: seq<int>, env: Env, item: Item)
    requires GoodLeft(l) && Has(l, N(IntToString(i)), env, item) && |js| == |options|
    requires forall k :: 0 <= k < |options| ==> Has(options[k], N(IntToString(js[k])), env, item)
    ensures GoodTerm(l) && Good(In(l, options)) && forall k :: 0 <= k < |options| ==> GoodTerm(options[k])
    ensures Meaning(In(l, options), env) == if options == [] then Some(NeverTrue()) else OneOf(l, options, env)
    ensures TermText(l) + " IN (" + Join(TermTexts(options), ", ") + ")" != ""
  {
    hide TermNode, GoodTerm, GoodLeft, IntToString, OneOf, TermText, TermTexts, Stands;
  }

  /** "IN ()" holds of nothing, whatever its operand. */
  lemma NothingIsInNothing(item: Item)
    ensures Eval(NeverTrue(), item) == Ok(false)
  {
    assert Stands(ValueNode(S("")), S(""), item);
    StringsCompare(ValueNode(S("")), ValueNode(S("")), "", "", item);
  }

  lemma InEmptyList(l: Term, env: Env, item: Item)
    requires GoodLeft(l) && GoodTerm(l) && TermNode(l, env).Some?
    ensures Requests.EvalCondition(TermText(l) + " IN ()", env, item) == Ok(false)
  {
    var p := In(l, []);
    InText(l, []);
    assert TermText(l) + " IN (" + "" + ")" == TermText(l) + " IN ()";
    Evaluates(p, Text(p), env, item);
    NothingIsInNothing(item);
  }

  /** Functions of attributes and values, their names in any letter case. */
  lemma FunctionConditions(name: string, a: string, b: string, x: AttributeValue, y: AttributeValue, env: Env, item: Item)
    requires IsIdentifier(name) && Has(Tok(a), x, env, item) && Has(Tok(b), y, env, item)
    ensures ToLower(name) == "begins_with" ==>
      var r := Requests.EvalCondition(name + ("(" + (a + ", " + b) + ")"), env, item);
      r.Ok? && (r.value <==> x.S? && y.S? && exists rest :: x.s == y.s + rest)
    ensures ToLower(name) == "contains" ==>
      Requests.EvalCondition(name + ("(" + (a + ", " + b) + ")"), env, item) == Ok(ContainsValue(x, y))
  {
    if ToLower(name) == "begins_with" || ToLower(name) == "contains" {
      CallEvaluates(name, a, b, env, item);
      BeginsWithMeans(TokNode(a, env).value, TokNode(b, env).value, x, y, item);
      ContainsMeans(TokNode(a, env).value, TokNode(b, env).value, x, y, item);
      hide Requests.EvalCondition, TokNode, Eval, ToLower, GoodTok;
    }
  }

  lemma OneArg(a: string, env: Env)
    requires GoodTok(a) && TokNode(a, env).Some?
    ensures TokNodes([a], env) == Some([TokNode(a, env).value])
  {
    hide TokNode, GoodTok;
    assert [a][1..] == [];
    assert [TokNode(a, env).value] + [] == [TokNode(a, env).value];
  }

  lemma TwoArgs(a: string, b: string, env: Env)
    requires GoodTok(a) && GoodTok(b) && TokNode(a, env).Some? && TokNode(b, env).Some?
    ensures TokNodes([a, b], env) == Some([TokNode(a, env).value, TokNode(b, env).value])
  {
    OneArg(b, env);
    hide TokNode, GoodTok;
    var toks := [a, b];
    assert toks[0] == a && toks[1..] == [b];
    assert TokNodes(toks, env) == Some([TokNode(a, env).value] + TokNodes(toks[1..], env).value);
    assert [TokNode(a, env).value] + [TokNode(b, env).value] == [TokNode(a, env).value, TokNode(b, env).value];
  }

  lemma CallEvaluates(name: string, a: string, b: string, env: Env, item: Item)
    requires IsIdentifier(name) && ToLower(name) in {"begins_with", "contains"}
    requires GoodTok(a) && GoodTok(b) && TokNode(a, env).Some? && TokNode(b, env).Some?
    ensures Requests.EvalCondition(name + ("(" + (a + ", " + b) + ")"), env, item)
         == Eval(FuncNode(ToLower(name), [TokNode(a, env).value, TokNode(b, env).value]), item)
  {
    var p := Alone(Call(name, [a, b]));
    assert [a, b][1..] == [b];
    assert Join([a, b], ", ") == a + ", " + b;
    TwoArgs(a, b, env);
    hide TokNode, Eval, ToLower, GoodTok, Requests.EvalCondition, IsIdentifier;
    Evaluates(p, Text(p), env, item);
  }

  /** attribute_exists and attribute_not_exists of a path. */
  lemma ExistsConditions(tok: string, parts: seq<string>, env: Env, item: Item)
    requires GoodTok(tok) && TokNode(tok, env) == Some(PathNode(parts))
    ensures Requests.EvalCondition("attribute_exists(" + tok + ")", env, item) == Ok(exists v, maps :: Through(maps, parts, item, v))
    ensures Requests.EvalCondition("attribute_not_exists(" + tok + ")", env, item) == Ok(!exists v, maps :: Through(maps, parts, item, v))
  {
    hide *;
    ExistsMeans(parts, item);
    ExistsEvaluates("attribute_exists", tok, env, item);
    ExistsEvaluates("attribute_not_exists", tok, env, item);
    ExistsTexts(tok);
  }

  lemma ExistsTexts(tok: string)
    ensures "attribute_exists" + ("(" + tok + ")") == "attribute_exists(" + tok + ")"
    ensures "attribute_not_exists" + ("(" + tok + ")") == "attribute_not_exists(" + tok + ")"
  {
  }

  lemma ExistsEvaluates(name: string, tok: string, env: Env, item: Item)
    requires name == "attribute_exists" || name == "attribute_not_exists"
    requires GoodTok(tok) && TokNode(tok, env).Some?
    ensures Requests.EvalCondition(name + ("(" + tok + ")"), env, item) == Eval(FuncNode(name, [TokNode(tok, env).value]), item)
  {
    var p := Alone(Call(name, [tok]));
    OneArg(tok, env);
    RoundTrip.KnownNames(name);
    hide TokNode, Eval, ToLower, GoodTok, Requests.EvalCondition, IsIdentifier;
    Evaluates(p, Text(p), env, item);
  }

  /** AND, OR and NOT on texts, each with the brackets that it needs. */
  lemma ConnectivesMean(p: Phrase, q: Phrase, a: bool, b: bool, env: Env, item: Item)
    requires Good(p) && Good(q) && Text(p) != "" && Text(q) != ""
    requires Requests.EvalCondition(Text(p), env, item) == Ok(a) && Requests.EvalCondition(Text(q), env, item) == Ok(b)
    ensures Requests.EvalCondition(Text(And(p, q)), env, item) == Ok(a && b)
    ensures Requests.EvalCondition(Text(Or(p, q)), env, item) == Ok(a || b)
    ensures Requests.EvalCondition(Text(Not(p)), env, item) == Ok(!a)
  {
    hide *;
    Evaluates(p, Text(p), env, item);
    Evaluates(q, Text(q), env, item);
    Composed(p, q, env);
    Evaluates(And(p, q), Text(And(p, q)), env, item);
    Evaluates(Or(p, q), Text(Or(p, q)), env, item);
    Evaluates(Not(p), Text(Not(p)), env, item);
    LogicMeans(Meaning(p, env).value, Meaning(q, env).value, a, b, item);
  }

  /** The texts of the connectives; Within adds brackets only to what binds less. */
  lemma ConnectiveTexts(p: Phrase, q: Phrase)
    ensures Text(And(p, q)) == Within(p, 1) + " AND " + Within(q, 2)
    ensures Text(Or(p, q)) == Within(p, 0) + " OR " + Within(q, 1)
    ensures Text(Not(p)) == "NOT " + Within(p, 2)
    ensures Within(p, 2) == (if p.And? || p.Or? then "(" + Text(p) + ")" else Text(p))
    ensures Within(p, 1) == (if p.Or? then "(" + Text(p) + ")" else Text(p))
    ensures Within(p, 0) == Text(p)
  {
    Infix(Within(p, 1), "AND", " AND ", Within(q, 2));
    Infix(Within(p, 0), "OR", " OR ", Within(q, 1));
    assert "NOT" + (" " + Within(p, 2)) == "NOT " + Within(p, 2);
  }

  lemma Composed(p: Phrase, q: Phrase, env: Env)
    requires Good(p) && Good(q)
    ensures Good(And(p, q)) && Good(Or(p, q)) && Good(Not(p))
    ensures Text(And(p, q)) != "" && Text(Or(p, q)) != "" && Text(Not(p)) != ""
    ensures Meaning(And(p, q), env) == Phrases.Both(Meaning(p, env), Meaning(q, env))
    ensures Meaning(Or(p, q), env) == Phrases.Either(Meaning(p, env), Meaning(q, env))
    ensures Meaning(Not(p), env) == Negated(Meaning(p, env))
    ensures forall x, y :: Phrases.Both(Some(x), Some(y)) == Some(AndNode(x, y)) && Phrases.Either(Some(x), Some(y)) == Some(OrNode(x, y))
    ensures forall x :: Negated(Some(x)) == Some(NotNode(x))
  {
    hide Within;
  }

  /** Keywords are recognised in any letter case. */
  lemma KeywordsInAnyCase(tok: string)
    requires tok != "" && IsIdentStart(tok[0])
    ensures Classify(tok) == Key(AND) <==> ToUpper(tok) == "AND"
    ensures Classify(tok) == Key(OR) <==> ToUpper(tok) == "OR"
    ensures Classify(tok) == Key(NOT) <==> ToUpper(tok) == "NOT"
    ensures Classify(tok) == Key(BETWEEN) <==> ToUpper(tok) == "BETWEEN"
    ensures Classify(tok) == Key(IN) <==> ToUpper(tok) == "IN"
  {
  }

  /** A dotted name is the path of its parts. */
  lemma {:induction false} SplitDotsIff(s: string)
    ensures Join(SplitDots(s), ".") == s && forall i :: 0 <= i < |SplitDots(s)| ==> '.' !in SplitDots(s)[i]
  {
    if s != "" {
      SplitDotsIff(s[1..]);
      var rest := SplitDots(s[1..]);
      assert s == [s[0]] + s[1..];
      if s[0] == '.' {
        FirstPartEmpty(rest);
      } else {
        FirstPartLonger(s[0], rest);
      }
    }
  }

  lemma FirstPartEmpty(rest: seq<string>)
    requires rest != []
    ensures Join([""] + rest, ".") == "." + Join(rest, ".")
  {
    assert ([""] + rest)[1..] == rest;
  }

  lemma FirstPartLonger(c: char, rest: seq<string>)
    requires rest != []
    ensures Join([[c] + rest[0]] + rest[1..], ".") == [c] + Join(rest, ".")
  {
    assert ([[c] + rest[0]] + rest[1..])[1..] == rest[1..];
    if |rest| > 1 {
      Assoc([c], rest[0], ".");
      Assoc([c], rest[0] + ".", Join(rest[1..], "."));
    }
  }
}
