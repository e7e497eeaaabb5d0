/** Conditions as people write them, with brackets only where they are needed, and the
    trees that memdb's parser (memdb/expression.go) makes of them. */
module Phrases {
  import opened Base
  import opened Values
  import opened Ast
  import opened Lexer
  import opened Parser
  import opened RoundTrip

  // ---- Phrases ----

  /** An alias, a placeholder, an attribute path, or a call with such arguments. */
  datatype Term = Tok(tok: string) | Call(name: string, args: seq<string>)

  datatype Phrase =
    | Alone(term: Term)
    | Comparison(left: Term, op: string, right: Term)
    | Between(left: Term, low: Term, high: Term)
    | In(left: Term, options: seq<Term>)
    | Not(operand: Phrase)
    | And(p: Phrase, q: Phrase)
    | Or(p: Phrase, q: Phrase)

  predicate GoodTok(tok: string) {
    tok != "" && (
      ((tok[0] == '#' || tok[0] == ':') && AllIdentPart(tok[1..]))
      || (IsIdentStart(tok[0]) && forall i :: 0 <= i < |tok| ==> InWord(tok[i], true)))
  }

  predicate GoodTerm(t: Term) {
    match t
    case Tok(tok) => GoodTok(tok)
    case Call(name, args) =>
      && IsIdentifier(name)
      && ToLower(name) in {"attribute_exists", "attribute_not_exists", "begins_with", "contains", "size", "attribute_type"}
      && forall i :: 0 <= i < |args| ==> GoodTok(args[i])
  }

  /** At the start of a comparison, NOT is the operator. */
  predicate GoodLeft(t: Term) { GoodTerm(t) && (t.Tok? ==> ToUpper(t.tok) != "NOT") }

  predicate Good(p: Phrase) {
    match p
    case Alone(t) => GoodLeft(t)
    case Comparison(l, op, r) => GoodLeft(l) && op in {"=", "<>", "<", "<=", ">", ">="} && GoodTerm(r)
    case Between(l, low, high) => GoodLeft(l) && GoodTerm(low) && GoodTerm(high)
    case In(l, options) => GoodLeft(l) && forall i :: 0 <= i < |options| ==> GoodTerm(options[i])
    case Not(x) => Good(x)
    case And(p, q) => Good(p) && Good(q)
    case Or(p, q) => Good(p) && Good(q)
  }

  // ---- Text ----

  function TermText(t: Term): string {
    match t case Tok(tok) => tok case Call(name, args) => name + ("(" + Join(args, ", ") + ")")
  }

  function TermTexts(ts: seq<Term>): seq<string> { if ts == [] then [] else [TermText(ts[0])] + TermTexts(ts[1..]) }

  /** OR binds least, then AND, then NOT. */
  function Level(p: Phrase): nat { match p case Or(_, _) => 0 case And(_, _) => 1 case Not(_) => 2 case _ => 3 }

  function Text(p: Phrase): string
    decreases p, 0
  {
    match p
    case Alone(t) => TermText(t)
    case Comparison(l, op, r) => TermText(l) + (" " + (op + (" " + TermText(r))))
    case Between(l, low, high) => TermText(l) + (" " + ("BETWEEN" + (" " + (TermText(low) + (" " + ("AND" + (" " + TermText(high))))))))
    case In(l, options) => TermText(l) + (" " + ("IN" + (" " + ("(" + Join(TermTexts(options), ", ") + ")"))))
    case Not(x) => "NOT" + (" " + Within(x, 2))
    case And(p, q) => Within(p, 1) + (" " + ("AND" + (" " + Within(q, 2))))
    case Or(p, q) => Within(p, 0) + (" " + ("OR" + (" " + Within(q, 1))))
  }

  function Within(p: Phrase, level: nat): string
    decreases p, 1
  {
    if Level(p) >= level then Text(p) else "(" + Text(p) + ")"
  }

  // ---- What they mean ----

  /** The node of a token; None for one that the environment does not know. */
  function TokNode(tok: string, env: Env): Option<Node>
    requires GoodTok(tok)
  {
    if tok[0] == ':' then (match Lookup(env.values, tok) case Some(v) => Some(ValueNode(v)) case None => None)
    else if tok[0] == '#' then (match Lookup(env.names, tok) case Some(name) => Some(PathNode(SplitDots(name))) case None => None)
    else Some(PathNode(SplitDots(tok)))
  }

  function TokNodes(toks: seq<string>, env: Env): Option<seq<Node>>
    requires forall i :: 0 <= i < |toks| ==> GoodTok(toks[i])
  {
    if toks == [] then Some([])
    else
      match (TokNode(toks[0], env), TokNodes(toks[1..], env))
      case (Some(n), Some(ns)) => Some([n] + ns)
      case _ => None
  }

  function TermNode(t: Term, env: Env): Option<Node>
    requires GoodTerm(t)
  {
    match t
    case Tok(tok) => TokNode(tok, env)
    case Call(name, args) => match TokNodes(args, env) case Some(ns) => Some(FuncNode(ToLower(name), ns)) case None => None
  }

  function Compared(l: Term, op: CompareOp, r: Term, env: Env): Option<Node>
    requires GoodTerm(l) && GoodTerm(r)
  {
    match (TermNode(l, env), TermNode(r, env)) case (Some(x), Some(y)) => Some(CompareNode(x, op, y)) case _ => None
  }

  /** Equal to one of the options. */
  function OneOf(l: Term, options: seq<Term>, env: Env): Option<Node>
    requires GoodTerm(l) && options != [] && forall i :: 0 <= i < |options| ==> GoodTerm(options[i])
  {
    var last := Compared(l, EQ, options[|options| - 1], env);
    if |options| == 1 then last
    else
      match (OneOf(l, options[..|options| - 1], env), last)
      case (Some(x), Some(y)) => Some(OrNode(x, y))
      case _ => None
  }

  function Meaning(p: Phrase, env: Env): Option<Node>
    requires Good(p)
  {
    match p
    case Alone(t) => TermNode(t, env)
    case Comparison(l, op, r) => Compared(l, ParseCompareOp(op).value, r, env)
    case Between(l, low, high) => (
      match (Compared(l, GE, low, env), Compared(l, LE, high, env))
      case (Some(x), Some(y)) => Some(AndNode(x, y))
      case _ => None)
    case In(l, options) =>
      if options != [] then OneOf(l, options, env)
      else (match TermNode(l, env) case Some(_) => Some(NeverTrue()) case None => None)
    case Not(x) => (match Meaning(x, env) case Some(n) => Some(NotNode(n)) case None => None)
    case And(p, q) => (
      match (Meaning(p, env), Meaning(q, env)) case (Some(x), Some(y)) => Some(AndNode(x, y)) case _ => None)
    case Or(p, q) => (
      match (Meaning(p, env), Meaning(q, env)) case (Some(x), Some(y)) => Some(OrNode(x, y)) case _ => None)
  }

  // ---- Tokens ----

  function TermToks(t: Term): seq<string> {
    match t case Tok(tok) => [tok] case Call(name, args) => [name] + Enclosed(ListToks(args))
  }

  /** Tokens with commas between them. */
  function ListToks(toks: seq<string>): seq<string> {
    if |toks| <= 1 then toks else [toks[0]] + ([","] + ListToks(toks[1..]))
  }

  function OptionToks(ts: seq<Term>): seq<string> {
    if ts == [] then [] else if |ts| == 1 then TermToks(ts[0]) else TermToks(ts[0]) + ([","] + OptionToks(ts[1..]))
  }

  function PhraseToks(p: Phrase): seq<string>
    decreases p, 0
  {
    match p
    case Alone(t) => TermToks(t)
    case Comparison(l, op, r) => TermToks(l) + ([op] + TermToks(r))
    case Between(l, low, high) => TermToks(l) + (["BETWEEN"] + (TermToks(low) + (["AND"] + TermToks(high))))
    case In(l, options) => TermToks(l) + (["IN"] + Enclosed(OptionToks(options)))
    case Not(x) => ["NOT"] + WithinToks(x, 2)
    case And(p, q) => WithinToks(p, 1) + (["AND"] + WithinToks(q, 2))
    case Or(p, q) => WithinToks(p, 0) + (["OR"] + WithinToks(q, 1))
  }

  function WithinToks(p: Phrase, level: nat): seq<string>
    decreases p, 1
  {
    if Level(p) >= level then PhraseToks(p) else Enclosed(PhraseToks(p))
  }

  lemma TokIsToken(tok: string)
    requires GoodTok(tok)
    ensures MemTokens(tok) == [tok]
  {
    var rest := tok[1..];
    assert tok == [tok[0]] + rest;
    if tok[0] == '#' || tok[0] == ':' {
      MemTokensPlaceholder(tok[0], rest);
    } else {
      assert WordLen(rest, true) == |rest| by {
        assert forall i :: 0 <= i < |rest| ==> rest[i] == tok[i + 1];
      }
      assert MemTurn(tok) == Emit(|tok|);
      assert tok[..|tok|] == tok && tok[|tok|..] == "";
      NothingToScan();
    }
  }

  lemma {:induction false} ListIsTokens(toks: seq<string>)
    requires forall i :: 0 <= i < |toks| ==> GoodTok(toks[i])
    ensures MemTokens(Join(toks, ", ")) == ListToks(toks)
  {
    hide MemTokens, GoodTok;
    if toks == [] {
      NothingToScan();
    } else {
      TokIsToken(toks[0]);
      if |toks| > 1 {
        ListIsTokens(toks[1..]);
        MemTokensComma(toks[0], Join(toks[1..], ", "));
      } else {
        assert toks == [toks[0]];
      }
    }
  }

  lemma EnclosedIsTokens(a: string)
    ensures MemTokens("(" + a + ")") == Enclosed(MemTokens(a))
  {
    hide MemTokens, Enclosed;
    MemTokensEnclosed(a, "");
    NothingToScan();
    assert "(" + a + ")" + "" == "(" + a + ")";
    assert Enclosed(MemTokens(a)) + [] == Enclosed(MemTokens(a));
  }

  lemma TermIsTokens(t: Term)
    requires GoodTerm(t)
    ensures MemTokens(TermText(t)) == TermToks(t)
  {
    hide MemTokens, GoodTok, Enclosed;
    match t
    case Tok(tok) =>
      TokIsToken(tok);
    case Call(name, args) =>
      var tail := "(" + Join(args, ", ") + ")";
      ListIsTokens(args);
      EnclosedIsTokens(Join(args, ", "));
      assert tail[0] == '(';
      MemTokensWord(name, tail);
  }

  lemma {:induction false} OptionsAreTokens(ts: seq<Term>)
    requires forall i :: 0 <= i < |ts| ==> GoodTerm(ts[i])
    ensures MemTokens(Join(TermTexts(ts), ", ")) == OptionToks(ts)
  {
    hide MemTokens, GoodTerm, TermText, TermToks;
    if ts == [] {
      NothingToScan();
    } else {
      TermIsTokens(ts[0]);
      if |ts| > 1 {
        OptionsAreTokens(ts[1..]);
        assert TermTexts(ts)[1..] == TermTexts(ts[1..]);
        MemTokensComma(TermText(ts[0]), Join(TermTexts(ts[1..]), ", "));
      }
    }
  }

  /** One text, a word, another text. */
  lemma AroundWord(a: string, word: string, b: string)
    requires IsIdentifier(word) || word in {"=", "<>", "<", "<=", ">", ">="}
    ensures MemTokens(a + (" " + (word + (" " + b)))) == MemTokens(a) + ([word] + MemTokens(b))
  {
    hide MemTokens;
    MemTokensConcat(a, " " + (word + (" " + b)));
    MemTokensBlank(word + (" " + b));
    MemTokensConcat(word, " " + b);
    MemTokensBlank(b);
    if IsIdentifier(word) {
      MemTokensIdentifier(word);
    } else {
      MemTokensOperator(word);
    }
  }

  lemma {:induction false} PhraseIsTokens(p: Phrase)
    requires Good(p)
    ensures MemTokens(Text(p)) == PhraseToks(p)
    decreases p, 0
  {
    hide MemTokens, GoodTerm, GoodLeft, TermText, TermToks, Enclosed;
    match p
    case Alone(t) =>
      LeftIsTerm(t);
      TermIsTokens(t);
    case Comparison(l, op, r) =>
      LeftIsTerm(l);
      TermIsTokens(l);
      TermIsTokens(r);
      AroundWord(TermText(l), op, TermText(r));
    case Between(l, low, high) =>
      LeftIsTerm(l);
      TermIsTokens(l);
      TermIsTokens(low);
      TermIsTokens(high);
      AroundWord(TermText(low), "AND", TermText(high));
      AroundWord(TermText(l), "BETWEEN", TermText(low) + (" " + ("AND" + (" " + TermText(high)))));
    case In(l, options) =>
      LeftIsTerm(l);
      TermIsTokens(l);
      OptionsAreTokens(options);
      EnclosedIsTokens(Join(TermTexts(options), ", "));
      AroundWord(TermText(l), "IN", "(" + Join(TermTexts(options), ", ") + ")");
    case Not(x) =>
      WithinIsTokens(x, 2);
      AroundWord("", "NOT", Within(x, 2));
      NotFirst(Within(x, 2));
    case And(p, q) =>
      WithinIsTokens(p, 1);
      WithinIsTokens(q, 2);
      AroundWord(Within(p, 1), "AND", Within(q, 2));
    case Or(p, q) =>
      WithinIsTokens(p, 0);
      WithinIsTokens(q, 1);
      AroundWord(Within(p, 0), "OR", Within(q, 1));
  }

  lemma NotFirst(b: string)
    ensures MemTokens("NOT" + (" " + b)) == ["NOT"] + MemTokens(b)
  {
    hide MemTokens;
    MemTokensWord("NOT", " " + b);
    MemTokensBlank(b);
  }

  lemma LeftIsTerm(t: Term)
    requires GoodLeft(t)
    ensures GoodTerm(t)
  {
  }

  lemma {:induction false} WithinIsTokens(p: Phrase, level: nat)
    requires Good(p)
    ensures MemTokens(Within(p, level)) == WithinToks(p, level)
    decreases p, 1
  {
    hide MemTokens, Text, PhraseToks, Enclosed;
    PhraseIsTokens(p);
    EnclosedIsTokens(Text(p));
  }

  // ---- Parsing terms ----

  lemma MoreClasses()
    ensures Classify("BETWEEN") == Key(BETWEEN) && Classify("IN") == Key(IN)
  {
    assert ToUpper("BETWEEN") == "BETWEEN" && ToUpper("IN") == "IN";
    assert KeywordOf("BETWEEN") == Some(BETWEEN) && KeywordOf("IN") == Some(IN);
  }

  lemma TokClass(tok: string)
    requires GoodTok(tok)
    ensures tok[0] == ':' ==> Classify(tok) == ValueRef
    ensures tok[0] == '#' ==> Classify(tok) == NameRef
    ensures tok[0] != ':' && tok[0] != '#' ==> Classify(tok).Key? || Classify(tok).Word?
    ensures Classify(tok) == Key(NOT) ==> ToUpper(tok) == "NOT"
  {
  }

  lemma TokParses(tok: string, rest: seq<string>, env: Env)
    requires GoodTok(tok) && Next(rest) != LParen
    ensures ParsePrimary([tok] + rest, env) == match TokNode(tok, env) case Some(n) => Parsed(n, rest) case None => Failed
  {
    TokClass(tok);
    hide Classify, SplitDots, GoodTok;
    var ts := [tok] + rest;
    assert ts[0] == tok && ts[1..] == rest;
  }

  lemma {:induction false} ListParses(done: seq<Node>, toks: seq<string>, rest: seq<string>, env: Env)
    requires forall i :: 0 <= i < |toks| ==> GoodTok(toks[i])
    ensures ArgsLoop(done, (if toks == [] then [] else Separator(done)) + (ListToks(toks) + ([")"] + rest)), env)
         == match TokNodes(toks, env) case Some(ns) => Parsed(done + ns, rest) case None => Failed
    decreases |toks|
  {
    hide GoodTok, Classify, ParsePrimary, TokNode, ArgsLoop;
    if toks == [] {
      ArgsEnd(done, rest, env);
      assert done + [] == done;
      assert [] + ([] + ([")"] + rest)) == [")"] + rest;
    } else {
      var tail := if |toks| == 1 then [")"] + rest else [","] + (ListToks(toks[1..]) + ([")"] + rest));
      var ts := [toks[0]] + tail;
      assert ListToks(toks) + ([")"] + rest) == ts;
      ListTail(tail);
      TokParses(toks[0], tail, env);
      TokNotShut(toks[0], tail);
      if TokNode(toks[0], env).Some? {
        var n := TokNode(toks[0], env).value;
        ArgsStep(done, ts, n, tail, env);
        ListParses(done + [n], toks[1..], rest, env);
        TailOfList(done + [n], toks[1..], rest, tail);
        if TokNodes(toks[1..], env).Some? {
          Assoc(done, [n], TokNodes(toks[1..], env).value);
        }
      } else {
        ArgsFail(done, ts, env);
      }
    }
  }

  lemma TailOfList(done: seq<Node>, toks: seq<string>, rest: seq<string>, tail: seq<string>)
    requires done != [] && tail == if toks == [] then [")"] + rest else [","] + (ListToks(toks) + ([")"] + rest))
    ensures tail == (if toks == [] then [] else Separator(done)) + (ListToks(toks) + ([")"] + rest))
  {
  }

  lemma ListTail(tail: seq<string>)
    requires tail != [] && (tail[0] == ")" || tail[0] == ",")
    ensures Next(tail) == RParen || Next(tail) == Comma
  {
  }

  lemma TokNotShut(tok: string, tail: seq<string>)
    requires GoodTok(tok)
    ensures Next([tok] + tail) != RParen && Next([tok] + tail) != LParen && Next([tok] + tail) != Comma
  {
    TokClass(tok);
    assert ([tok] + tail)[0] == tok;
  }

  lemma ArgsFail(done: seq<Node>, ts: seq<string>, env: Env)
    requires ParsePrimary(ts, env) == Failed && Next(ts) != RParen
    ensures ArgsLoop(done, Separator(done) + ts, env) == Failed
  {
    hide ParsePrimary, Classify;
    TokenClasses();
    if done == [] {
      assert Separator(done) + ts == ts;
    } else {
      assert (Separator(done) + ts)[1..] == ts;
    }
  }

  /** Names of functions are no keywords, in any letter case. */
  lemma CallClass(name: string)
    requires GoodTerm(Call(name, []))
    ensures Classify(name) == Word && KnownFunction(ToLower(name))
  {
    assert |ToLower(name)| == |name| == |ToUpper(name)|;
    assert |name| >= 4 && |name| != 7;
    assert KeywordOf(ToUpper(name)) == None;
  }

  lemma TermParses(t: Term, rest: seq<string>, env: Env)
    requires GoodTerm(t) && Next(rest) != LParen
    ensures ParsePrimary(TermToks(t) + rest, env) == match TermNode(t, env) case Some(n) => Parsed(n, rest) case None => Failed
  {
    match t
    case Tok(tok) =>
      TokParses(tok, rest, env);
    case Call(name, args) =>
      var inner := ListToks(args) + ([")"] + rest);
      assert TermToks(t) + rest == [name] + (["("] + inner);
      CallClass(name);
      ListParses([], args, rest, env);
      assert (if args == [] then [] else Separator([])) + inner == inner;
      hide *;
      CallParses(name, inner, env);
      CallNode(name, args, env);
  }

  lemma CallNode(name: string, args: seq<string>, env: Env)
    requires GoodTerm(Call(name, args))
    ensures TermNode(Call(name, args), env) == match TokNodes(args, env) case Some(ns) => Some(FuncNode(ToLower(name), [] + ns)) case None => None
  {
    hide GoodTok, TokNode;
    if TokNodes(args, env).Some? {
      assert [] + TokNodes(args, env).value == TokNodes(args, env).value;
    }
  }

  lemma CallParses(name: string, inner: seq<string>, env: Env)
    requires Classify(name) == Word && KnownFunction(ToLower(name))
    ensures ParsePrimary([name] + (["("] + inner), env) ==
      match ArgsLoop([], inner, env) case Parsed(args, rest) => Parsed(FuncNode(ToLower(name), args), rest) case Failed => Failed
  {
    TokenClasses();
    hide Classify, ArgsLoop, KnownFunction, ToLower;
    var ts := [name] + (["("] + inner);
    assert ts[1..] == ["("] + inner && ts[1..][1..] == inner;
  }

  // ---- Parsing comparisons ----

  /** What can come behind a whole phrase. */
  predicate Stops(rest: seq<string>) { Next(rest) == End || Next(rest) == RParen || Next(rest) == Key(AND) || Next(rest) == Key(OR) }

  lemma WordAhead(word: string, rest: seq<string>)
    ensures ([word] + rest)[1..] == rest && Next([word] + rest) == Classify(word)
  {
  }

  /** A phrase that starts with a term is a comparison. */
  lemma StartsWithTerm(t: Term, more: seq<string>, env: Env)
    requires GoodLeft(t) && Next(more) != LParen
    ensures ParseNot(TermToks(t) + more, env) ==
      match TermNode(t, env) case Some(left) => ComparisonTail(left, more, env) case None => Failed
  {
    TermParses(t, more, env);
    FirstOfTerm(t, more);
    hide ParsePrimary, ComparisonTail, Classify, TermToks, TermNode, GoodLeft, ParseOr;
  }

  lemma FirstOfTerm(t: Term, more: seq<string>)
    requires GoodLeft(t)
    ensures Next(TermToks(t) + more) != Key(NOT) && Next(TermToks(t) + more) != LParen
  {
    match t
    case Tok(tok) => TokClass(tok); TokNotShut(tok, more);
    case Call(name, args) => CallClass(name);
  }

  lemma AloneParses(t: Term, rest: seq<string>, env: Env)
    requires GoodLeft(t) && Stops(rest)
    ensures ParseNot(TermToks(t) + rest, env) == match TermNode(t, env) case Some(n) => Parsed(n, rest) case None => Failed
  {
    StartsWithTerm(t, rest, env);
    hide ParseNot, Classify, TermToks, TermNode, GoodLeft;
  }

  lemma ComparisonParses(l: Term, op: string, r: Term, rest: seq<string>, env: Env)
    requires Good(Comparison(l, op, r)) && Stops(rest)
    ensures ParseNot(TermToks(l) + ([op] + TermToks(r)) + rest, env) ==
      match Compared(l, ParseCompareOp(op).value, r, env) case Some(n) => Parsed(n, rest) case None => Failed
  {
    var more := [op] + (TermToks(r) + rest);
    assert TermToks(l) + ([op] + TermToks(r)) + rest == TermToks(l) + more;
    WordAhead(op, TermToks(r) + rest);
    OperatorAhead(op);
    StartsWithTerm(l, more, env);
    TermParses(r, rest, env);
    hide ParseNot, Classify, TermToks, TermNode, GoodLeft, ParsePrimary, ParseCompareOp;
  }

  lemma OperatorAhead(op: string)
    requires op in {"=", "<>", "<", "<=", ">", ">="}
    ensures ParseCompareOp(op).Some? && Classify(op) == Op(ParseCompareOp(op).value)
  {
  }

  lemma BetweenParses(l: Term, low: Term, high: Term, rest: seq<string>, env: Env)
    requires Good(Between(l, low, high)) && Stops(rest)
    ensures ParseNot(TermToks(l) + (["BETWEEN"] + (TermToks(low) + (["AND"] + TermToks(high)))) + rest, env) ==
      match Meaning(Between(l, low, high), env) case Some(n) => Parsed(n, rest) case None => Failed
  {
    var last := TermToks(high) + rest;
    var middle := TermToks(low) + (["AND"] + last);
    var more := ["BETWEEN"] + middle;
    LeftIsTerm(l);
    BetweenMeans(l, low, high, env);
    WordAhead("BETWEEN", middle);
    WordAhead("AND", last);
    MoreClasses();
    TokenClasses();
    hide *;
    BetweenToks(TermToks(l), TermToks(low), TermToks(high), rest);
    StartsWithTerm(l, more, env);
    if TermNode(l, env).Some? {
      BetweenSteps(TermNode(l, env).value, low, high, rest, env);
    }
  }

  lemma BetweenToks(a: seq<string>, b: seq<string>, c: seq<string>, rest: seq<string>)
    ensures a + (["BETWEEN"] + (b + (["AND"] + c))) + rest == a + (["BETWEEN"] + (b + (["AND"] + (c + rest))))
  {
  }

  lemma BetweenMeans(l: Term, low: Term, high: Term, env: Env)
    requires Good(Between(l, low, high)) && GoodTerm(l)
    ensures GoodTerm(low) && GoodTerm(high)
    ensures Meaning(Between(l, low, high), env) ==
      if TermNode(l, env).Some? then BetweenNode(TermNode(l, env).value, TermNode(low, env), TermNode(high, env)) else None
  {
    hide TermNode, GoodTerm;
  }

  function BetweenNode(left: Node, low: Option<Node>, high: Option<Node>): Option<Node> {
    match (low, high)
    case (Some(x), Some(y)) => Some(AndNode(CompareNode(left, GE, x), CompareNode(left, LE, y)))
    case _ => None
  }

  lemma BetweenSteps(left: Node, low: Term, high: Term, rest: seq<string>, env: Env)
    requires GoodTerm(low) && GoodTerm(high) && Stops(rest)
    ensures ComparisonTail(left, ["BETWEEN"] + (TermToks(low) + (["AND"] + (TermToks(high) + rest))), env) ==
      match BetweenNode(left, TermNode(low, env), TermNode(high, env)) case Some(n) => Parsed(n, rest) case None => Failed
  {
    var last := TermToks(high) + rest;
    var middle := TermToks(low) + (["AND"] + last);
    MoreClasses();
    TokenClasses();
    WordAhead("BETWEEN", middle);
    WordAhead("AND", last);
    hide *;
    TermParses(low, ["AND"] + last, env);
    StopsHere(rest);
    TermParses(high, rest, env);
    BetweenTailOf(left, middle, last, rest, TermNode(low, env), TermNode(high, env), env);
    BetweenAhead(left, ["BETWEEN"] + middle, env);
  }

  lemma StopsHere(rest: seq<string>)
    requires Stops(rest)
    ensures Next(rest) != LParen
  {
    hide Next;
  }

  lemma BetweenAhead(left: Node, ts: seq<string>, env: Env)
    requires Next(ts) == Key(BETWEEN)
    ensures ComparisonTail(left, ts, env) == BetweenTail(left, ts[1..], env)
  {
    hide BetweenTail, Classify;
  }

  lemma BetweenTailOf(left: Node, middle: seq<string>, last: seq<string>, rest: seq<string>, low: Option<Node>, high: Option<Node>, env: Env)
    requires ParsePrimary(middle, env) == match low case Some(n) => Parsed(n, ["AND"] + last) case None => Failed
    requires ParsePrimary(last, env) == match high case Some(n) => Parsed(n, rest) case None => Failed
    requires Next(["AND"] + last) == Key(AND) && (["AND"] + last)[1..] == last
    ensures BetweenTail(left, middle, env) == match BetweenNode(left, low, high) case Some(n) => Parsed(n, rest) case None => Failed
  {
    hide ParsePrimary, Classify;
  }

  // ---- IN ----

  lemma {:induction false} OneOfFails(l: Term, options: seq<Term>, i: nat, env: Env)
    requires GoodTerm(l) && (forall j :: 0 <= j < |options| ==> GoodTerm(options[j])) && 0 < i <= |options|
    requires OneOf(l, options[..i], env) == None
    ensures OneOf(l, options, env) == None
  {
    hide GoodTerm, Compared;
    if i < |options| {
      assert options[..|options| - 1][..i] == options[..i];
      OneOfFails(l, options[..|options| - 1], i, env);
    } else {
      assert options[..i] == options;
    }
  }

  lemma OneOfSnoc(l: Term, options: seq<Term>, i: nat, env: Env)
    requires GoodTerm(l) && (forall j :: 0 <= j < |options| ==> GoodTerm(options[j])) && i < |options|
    ensures OneOf(l, options[..i + 1], env) ==
      var last := Compared(l, EQ, options[i], env);
      if i == 0 then last
      else match (OneOf(l, options[..i], env), last) case (Some(x), Some(y)) => Some(OrNode(x, y)) case _ => None
  {
    hide GoodTerm, Compared;
    assert options[..i + 1][..i] == options[..i];
  }

  /** The options from i on. */
  function InTail(options: seq<Term>, i: nat, rest: seq<string>): seq<string>
    requires i <= |options|
  {
    (if 0 < i < |options| then [","] else []) + (OptionToks(options[i..]) + ([")"] + rest))
  }

  /** Behind option i. */
  lemma InTailStep(options: seq<Term>, i: nat, rest: seq<string>)
    requires i < |options|
    ensures InTail(options, i, rest) == (if i > 0 then [","] else []) + (TermToks(options[i]) + InTail(options, i + 1, rest))
  {
    hide TermToks;
    assert options[i..][1..] == options[i + 1..];
    if i + 1 == |options| {
      assert options[i + 1..] == [];
    }
  }

  lemma InTailEnds(options: seq<Term>, i: nat, rest: seq<string>)
    requires 0 < i <= |options|
    ensures Next(InTail(options, i, rest)) == (if i < |options| then Comma else RParen)
    ensures i == |options| ==> InTail(options, i, rest)[1..] == rest
  {
    TokenClasses();
    hide OptionToks, Classify;
    if i == |options| {
      assert options[i..] == [] && OptionToks([]) == [] by { NoOptions(); }
      assert InTail(options, i, rest) == [")"] + rest;
    } else {
      assert InTail(options, i, rest)[0] == ",";
    }
  }

  lemma NoOptions()
    ensures OptionToks([]) == []
  {
  }

  lemma {:induction false} InParses(l: Term, left: Node, options: seq<Term>, i: nat, acc: Option<Node>, rest: seq<string>, env: Env)
    requires GoodTerm(l) && TermNode(l, env) == Some(left) && (forall j :: 0 <= j < |options| ==> GoodTerm(options[j]))
    requires options != [] && i <= |options| && acc == (if i == 0 then None else OneOf(l, options[..i], env)) && (i > 0 ==> acc.Some?)
    ensures InList(left, acc, InTail(options, i, rest), env) ==
      match OneOf(l, options, env) case Some(n) => Parsed(n, rest) case None => Failed
    decreases |options| - i
  {
    hide GoodTerm, TermNode, TermToks, OneOf, ParsePrimary, Classify, InTail, InList;
    if i == |options| {
      InTailEnds(options, i, rest);
      assert options[..i] == options;
      InEnd(left, acc.value, InTail(options, i, rest), env);
    } else {
      InTailStep(options, i, rest);
      InTailEnds(options, i + 1, rest);
      OneOfSnoc(l, options, i, env);
      var tail := InTail(options, i + 1, rest);
      var ts := TermToks(options[i]) + tail;
      TermParses(options[i], tail, env);
      TermNotShut(options[i], tail);
      InStep(left, acc, ts, env);
      assert (if acc.Some? then [","] else []) + ts == InTail(options, i, rest);
      ComparedIs(l, left, options[i], env);
      if TermNode(options[i], env).Some? {
        var next := OneOf(l, options[..i + 1], env);
        assert next.Some?;
        InParses(l, left, options, i + 1, next, rest, env);
      } else {
        OneOfFails(l, options, i + 1, env);
      }
    }
  }

  lemma ComparedIs(l: Term, left: Node, r: Term, env: Env)
    requires GoodTerm(l) && GoodTerm(r) && TermNode(l, env) == Some(left)
    ensures Compared(l, EQ, r, env) == match TermNode(r, env) case Some(n) => Some(CompareNode(left, EQ, n)) case None => None
  {
    hide TermNode, GoodTerm;
  }

  lemma TermNotShut(t: Term, more: seq<string>)
    requires GoodTerm(t)
    ensures Next(TermToks(t) + more) != RParen && Next(TermToks(t) + more) != Comma
  {
    match t
    case Tok(tok) => TokNotShut(tok, more);
    case Call(name, args) => CallClass(name);
  }

  lemma InEnd(left: Node, n: Node, ts: seq<string>, env: Env)
    requires Next(ts) == RParen
    ensures InList(left, Some(n), ts, env) == Parsed(n, ts[1..])
  {
    hide Classify, ParsePrimary;
  }

  function OrElse(acc: Option<Node>, n: Node): Node { match acc case Some(m) => OrNode(m, n) case None => n }

  function GoOn(left: Node, acc: Option<Node>, r: Parsed<Node>, env: Env): Parsed<Node> {
    if r.Failed? then Failed else InList(left, Some(OrElse(acc, CompareNode(left, EQ, r.value))), r.rest, env)
  }

  lemma InStep(left: Node, acc: Option<Node>, ts: seq<string>, env: Env)
    requires Next(ts) != RParen
    ensures InList(left, acc, (if acc.Some? then [","] else []) + ts, env) ==
      GoOn(left, acc, ParsePrimary(ts, env), env)
  {
    TokenClasses();
    hide Classify, ParsePrimary;
    if acc.Some? {
      assert ([","] + ts)[1..] == ts;
    } else {
      assert [] + ts == ts;
    }
  }

  lemma InPhraseParses(l: Term, options: seq<Term>, rest: seq<string>, env: Env)
    requires Good(In(l, options)) && Stops(rest)
    ensures ParseNot(TermToks(l) + (["IN"] + Enclosed(OptionToks(options))) + rest, env) ==
      match Meaning(In(l, options), env) case Some(n) => Parsed(n, rest) case None => Failed
  {
    var inner := OptionToks(options) + ([")"] + rest);
    var more := ["IN"] + (["("] + inner);
    LeftIsTerm(l);
    InMeans(l, options, env);
    WordAhead("IN", ["("] + inner);
    MoreClasses();
    TokenClasses();
    InToks(TermToks(l), OptionToks(options), rest);
    hide *;
    StartsWithTerm(l, more, env);
    if TermNode(l, env).Some? {
      var left := TermNode(l, env).value;
      InSteps(left, inner, env);
      if options == [] {
        InEmpty(left, inner, rest, env);
      } else {
        assert options[0..] == options && options[..0] == [];
        InTailAll(options, rest);
        InParses(l, left, options, 0, None, rest, env);
      }
    }
  }

  lemma InToks(a: seq<string>, b: seq<string>, rest: seq<string>)
    ensures a + (["IN"] + Enclosed(b)) + rest == a + (["IN"] + (["("] + (b + ([")"] + rest))))
  {
  }

  lemma InMeans(l: Term, options: seq<Term>, env: Env)
    requires Good(In(l, options)) && GoodTerm(l)
    ensures options == [] ==> OptionToks(options) == [] && Meaning(In(l, options), env) == (if TermNode(l, env).Some? then Some(NeverTrue()) else None)
    ensures forall i :: 0 <= i < |options| ==> GoodTerm(options[i])
    ensures options != [] ==> Meaning(In(l, options), env) == OneOf(l, options, env)
    ensures options != [] && TermNode(l, env) == None ==> OneOf(l, options, env) == None
  {
    hide TermNode, GoodTerm;
    if options != [] && TermNode(l, env) == None {
      assert OneOf(l, options[..1], env) == None by {
        assert options[..1] == [options[0]];
      }
      OneOfFails(l, options, 1, env);
    }
  }

  lemma InTailAll(options: seq<Term>, rest: seq<string>)
    ensures InTail(options, 0, rest) == OptionToks(options) + ([")"] + rest)
  {
    hide OptionToks;
    assert options[0..] == options;
  }

  lemma InSteps(left: Node, inner: seq<string>, env: Env)
    ensures ComparisonTail(left, ["IN"] + (["("] + inner), env) == InList(left, None, inner, env)
  {
    var more := ["IN"] + (["("] + inner);
    MoreClasses();
    TokenClasses();
    hide Classify, InList;
    assert more[1..] == ["("] + inner && more[2..] == inner;
  }

  lemma InEmpty(left: Node, inner: seq<string>, rest: seq<string>, env: Env)
    requires inner == [] + ([")"] + rest)
    ensures InList(left, None, inner, env) == Parsed(NeverTrue(), rest)
  {
    TokenClasses();
    hide Classify, ParsePrimary;
    assert inner == [")"] + rest;
    InNothing(left, inner, env);
  }

  lemma InNothing(left: Node, ts: seq<string>, env: Env)
    requires Next(ts) == RParen
    ensures InList(left, None, ts, env) == Parsed(NeverTrue(), ts[1..])
  {
    hide Classify, ParsePrimary;
  }

  // ---- Precedence ----

  function Done(n: Option<Node>, rest: seq<string>): Parsed<Node> {
    match n case Some(x) => Parsed(x, rest) case None => Failed
  }

  function ThenAnd(n: Option<Node>, rest: seq<string>, env: Env): Parsed<Node> {
    match n case Some(x) => AndTail(x, rest, env) case None => Failed
  }

  function ThenOr(n: Option<Node>, rest: seq<string>, env: Env): Parsed<Node> {
    match n case Some(x) => OrTail(x, rest, env) case None => Failed
  }

  function Negated(n: Option<Node>): Option<Node> { match n case Some(x) => Some(NotNode(x)) case None => None }

  function Both(a: Option<Node>, b: Option<Node>): Option<Node> {
    match (a, b) case (Some(x), Some(y)) => Some(AndNode(x, y)) case _ => None
  }

  function Either(a: Option<Node>, b: Option<Node>): Option<Node> {
    match (a, b) case (Some(x), Some(y)) => Some(OrNode(x, y)) case _ => None
  }

  lemma {:induction false} OneComparison(p: Phrase, rest: seq<string>, env: Env)
    requires Good(p) && Level(p) == 3 && Stops(rest)
    ensures ParseNot(PhraseToks(p) + rest, env) == Done(Meaning(p, env), rest)
  {
    hide ParseNot, TermToks, TermNode, GoodTerm, GoodLeft, Classify, Compared, OneOf, Stops, Enclosed;
    match p
    case Alone(t) => AloneParses(t, rest, env);
    case Comparison(l, op, r) => ComparisonParses(l, op, r, rest, env);
    case Between(l, low, high) => BetweenParses(l, low, high, rest, env);
    case In(l, options) => InPhraseParses(l, options, rest, env);
  }

  /** A word between two parts. */
  lemma Around(a: seq<string>, word: string, b: seq<string>, rest: seq<string>)
    ensures a + ([word] + b) + rest == a + ([word] + (b + rest))
    ensures ([word] + (b + rest))[1..] == b + rest && Next([word] + (b + rest)) == Classify(word)
  {
    hide Classify;
  }

  lemma OrStep(n: Option<Node>, m: Option<Node>, b: seq<string>, rest: seq<string>, env: Env)
    requires ParseAnd(b + rest, env) == Done(m, rest)
    ensures ThenOr(n, ["OR"] + (b + rest), env) == ThenOr(Either(n, m), rest, env)
  {
    TokenClasses();
    Around([], "OR", b, rest);
    hide Classify, ParseAnd;
  }

  lemma AndStep(n: Option<Node>, m: Option<Node>, b: seq<string>, rest: seq<string>, env: Env)
    requires ParseNot(b + rest, env) == Done(m, rest)
    ensures ThenAnd(n, ["AND"] + (b + rest), env) == ThenAnd(Both(n, m), rest, env)
  {
    TokenClasses();
    Around([], "AND", b, rest);
    hide Classify, ParseNot;
  }

  lemma NotStep(m: Option<Node>, b: seq<string>, rest: seq<string>, env: Env)
    requires ParseNot(b + rest, env) == Done(m, rest)
    ensures ParseNot(["NOT"] + b + rest, env) == Done(Negated(m), rest)
  {
    TokenClasses();
    Assoc(["NOT"], b, rest);
    WordAhead("NOT", b + rest);
    hide Classify, ParseComparison;
  }

  lemma BracketStep(m: Option<Node>, b: seq<string>, rest: seq<string>, env: Env)
    requires ParseOr(b + ([")"] + rest), env) == ThenOr(m, [")"] + rest, env)
    ensures ParseNot(Enclosed(b) + rest, env) == Done(m, rest)
  {
    TokenClasses();
    var ts := ["("] + (b + ([")"] + rest));
    assert Enclosed(b) + rest == ts && ts[1..] == b + ([")"] + rest);
    WordAhead(")", rest);
    hide Classify, ParseOr, ParsePrimary;
  }

  lemma StopsAt(rest: seq<string>)
    ensures Stops([")"] + rest) && Stops(["AND"] + rest) && Stops(["OR"] + rest)
    ensures Next([")"] + rest) != Key(AND) && Next(["OR"] + rest) != Key(AND)
  {
    TokenClasses();
    hide Classify;
  }

  lemma AndEnds(n: Option<Node>, rest: seq<string>, env: Env)
    requires Next(rest) != Key(AND)
    ensures ThenAnd(n, rest, env) == Done(n, rest)
  {
    hide Classify;
  }

  lemma OrOfAnd(ts: seq<string>, n: Option<Node>, rest: seq<string>, env: Env)
    requires ParseAnd(ts, env) == ThenAnd(n, rest, env) && Next(rest) != Key(AND)
    ensures ParseOr(ts, env) == ThenOr(n, rest, env)
  {
    AndEnds(n, rest, env);
    hide ParseAnd, AndTail, OrTail, Classify;
  }

  lemma AndOfNot(ts: seq<string>, n: Option<Node>, rest: seq<string>, env: Env)
    requires ParseNot(ts, env) == Done(n, rest)
    ensures ParseAnd(ts, env) == ThenAnd(n, rest, env)
  {
    hide ParseNot, AndTail;
  }

  /** What a phrase is made of. */
  lemma Parts(p: Phrase, env: Env)
    requires Good(p)
    ensures p.Not? ==> Good(p.operand) && PhraseToks(p) == ["NOT"] + WithinToks(p.operand, 2) && Meaning(p, env) == Negated(Meaning(p.operand, env))
    ensures p.And? ==> Good(p.p) && Good(p.q) && PhraseToks(p) == WithinToks(p.p, 1) + (["AND"] + WithinToks(p.q, 2))
                       && Meaning(p, env) == Both(Meaning(p.p, env), Meaning(p.q, env))
    ensures p.Or? ==> Good(p.p) && Good(p.q) && PhraseToks(p) == WithinToks(p.p, 0) + (["OR"] + WithinToks(p.q, 1))
                      && Meaning(p, env) == Either(Meaning(p.p, env), Meaning(p.q, env))
  {
    hide WithinToks, TermNode, Compared, OneOf, GoodTerm, GoodLeft;
  }

  lemma {:induction false} NotParses(p: Phrase, rest: seq<string>, env: Env)
    requires Good(p) && Stops(rest)
    ensures ParseNot(WithinToks(p, 2) + rest, env) == Done(Meaning(p, env), rest)
    decreases p, 4
  {
    hide *;
    WithinIs(p, 2);
    if Level(p) >= 2 {
      BareNotParses(p, rest, env);
    } else {
      BracketsParse(p, rest, env);
    }
  }

  lemma WithinIs(p: Phrase, level: nat)
    ensures WithinToks(p, level) == if Level(p) >= level then PhraseToks(p) else Enclosed(PhraseToks(p))
    ensures WithinToks(p, 0) == PhraseToks(p) && Level(p) <= 3
    ensures (Level(p) == 0 <==> p.Or?) && (Level(p) == 1 <==> p.And?) && (Level(p) == 2 <==> p.Not?)
  {
    hide PhraseToks, Enclosed;
  }

  lemma {:induction false} BareNotParses(p: Phrase, rest: seq<string>, env: Env)
    requires Good(p) && Stops(rest) && Level(p) >= 2
    ensures ParseNot(PhraseToks(p) + rest, env) == Done(Meaning(p, env), rest)
    decreases p, 0
  {
    WithinIs(p, 2);
    Parts(p, env);
    hide *;
    if p.Not? {
      NotParses(p.operand, rest, env);
      NotStep(Meaning(p.operand, env), WithinToks(p.operand, 2), rest, env);
    } else {
      OneComparison(p, rest, env);
    }
  }

  lemma {:induction false} BracketsParse(p: Phrase, rest: seq<string>, env: Env)
    requires Good(p) && Stops(rest)
    ensures ParseNot(Enclosed(PhraseToks(p)) + rest, env) == Done(Meaning(p, env), rest)
    decreases p, 3
  {
    hide *;
    StopsAt(rest);
    OrParses(p, [")"] + rest, env);
    BracketStep(Meaning(p, env), PhraseToks(p), rest, env);
  }

  lemma {:induction false} AndParses(p: Phrase, rest: seq<string>, env: Env)
    requires Good(p) && Stops(rest)
    ensures ParseAnd(WithinToks(p, 1) + rest, env) == ThenAnd(Meaning(p, env), rest, env)
    decreases p, 5
  {
    hide *;
    WithinIs(p, 1);
    if Level(p) >= 1 {
      BareAndParses(p, rest, env);
    } else {
      BracketsParse(p, rest, env);
      AndOfNot(Enclosed(PhraseToks(p)) + rest, Meaning(p, env), rest, env);
    }
  }

  lemma {:induction false} BareAndParses(p: Phrase, rest: seq<string>, env: Env)
    requires Good(p) && Stops(rest) && Level(p) >= 1
    ensures ParseAnd(PhraseToks(p) + rest, env) == ThenAnd(Meaning(p, env), rest, env)
    decreases p, 1
  {
    WithinIs(p, 1);
    Parts(p, env);
    hide *;
    if p.And? {
      var b := WithinToks(p.q, 2);
      Around(WithinToks(p.p, 1), "AND", b, rest);
      StopsAt(b + rest);
      AndParses(p.p, ["AND"] + (b + rest), env);
      NotParses(p.q, rest, env);
      AndStep(Meaning(p.p, env), Meaning(p.q, env), b, rest, env);
    } else {
      BareNotParses(p, rest, env);
      AndOfNot(PhraseToks(p) + rest, Meaning(p, env), rest, env);
    }
  }

  lemma {:induction false} OrParses(p: Phrase, rest: seq<string>, env: Env)
    requires Good(p) && Stops(rest) && Next(rest) != Key(AND)
    ensures ParseOr(PhraseToks(p) + rest, env) == ThenOr(Meaning(p, env), rest, env)
    decreases p, 2
  {
    WithinIs(p, 0);
    Parts(p, env);
    hide *;
    if p.Or? {
      var b := WithinToks(p.q, 1);
      Around(WithinToks(p.p, 0), "OR", b, rest);
      StopsAt(b + rest);
      WithinIs(p.p, 0);
      OrParses(p.p, ["OR"] + (b + rest), env);
      AndParses(p.q, rest, env);
      AndEnds(Meaning(p.q, env), rest, env);
      OrStep(Meaning(p.p, env), Meaning(p.q, env), b, rest, env);
    } else {
      BareAndParses(p, rest, env);
      OrOfAnd(PhraseToks(p) + rest, Meaning(p, env), rest, env);
    }
  }

  /** memdb reads every phrase as its meaning, which is an error exactly when some alias
      or placeholder in it is unknown. */
  lemma TextMeans(p: Phrase, env: Env)
    requires Good(p)
    ensures ParseExpression(Text(p), env) == match Meaning(p, env) case Some(n) => Ok(n) case None => Err
  {
    hide *;
    NothingFollows();
    OrParses(p, [], env);
    PhraseIsTokens(p);
    WholeParses(PhraseToks(p), Text(p), Meaning(p, env), env);
  }

  lemma NothingFollows()
    ensures Stops([]) && Next([]) != Key(AND) && Next([]) == End
  {
  }

  lemma WholeParses(ts: seq<string>, text: string, n: Option<Node>, env: Env)
    requires MemTokens(text) == ts && ParseOr(ts + [], env) == ThenOr(n, [], env)
    ensures ParseExpression(text, env) == match n case Some(x) => Ok(x) case None => Err
  {
    hide MemTokens, ParseOr;
    NothingFollows();
    assert ts + [] == ts;
  }
}
