/** Printing a condition and parsing it back with memdb's parser is the identity
    (internal/expr/translate.go against memdb/expression.go). */
module RoundTrip {
  import opened Base
  import opened Values
  import opened Ast
  import opened Lexer
  import opened Parser
  import opened Translate
  import opened ExprParsing

  // ---- The conditions of the language ----

  /** An operand: a path of one identifier segment, a value, or a call of a known
      function on operands. */
  predicate Primary(n: Node) {
    match n
    case PathNode(parts) => |parts| == 1 && AllIdentPart(parts[0])
    case ValueNode(_) => true
    case FuncNode(name, args) => KnownFunction(name) && AllPrimary(args)
    case _ => false
  }

  predicate AllPrimary(ns: seq<Node>) {
    ns != [] ==> Primary(ns[0]) && AllPrimary(ns[1..])
  }

  predicate Condition(n: Node) {
    match n
    case CompareNode(l, _, r) => Primary(l) && Primary(r)
    case AndNode(l, r) => Condition(l) && Condition(r)
    case OrNode(l, r) => Condition(l) && Condition(r)
    case NotNode(x) => Condition(x)
    case _ => Primary(n)
  }

  /** The same with paths of any number of identifier segments, which ToDynamo prints
      too. */
  predicate Operand(n: Node) {
    match n
    case PathNode(parts) => forall i :: 0 <= i < |parts| ==> AllIdentPart(parts[i])
    case ValueNode(_) => true
    case FuncNode(name, args) => KnownFunction(name) && AllOperands(args)
    case _ => false
  }

  predicate AllOperands(ns: seq<Node>) {
    ns != [] ==> Operand(ns[0]) && AllOperands(ns[1..])
  }

  predicate Printable(n: Node) {
    match n
    case CompareNode(l, _, r) => Operand(l) && Operand(r)
    case AndNode(l, r) => Printable(l) && Printable(r)
    case OrNode(l, r) => Printable(l) && Printable(r)
    case NotNode(x) => Printable(x)
    case _ => Operand(n)
  }

  lemma {:induction false} ConditionIsPrintable(n: Node)
    requires Condition(n)
    ensures Printable(n)
    decreases n
  {
    match n
    case CompareNode(l, _, r) => PrimaryIsOperand(l); PrimaryIsOperand(r);
    case AndNode(l, r) => ConditionIsPrintable(l); ConditionIsPrintable(r);
    case OrNode(l, r) => ConditionIsPrintable(l); ConditionIsPrintable(r);
    case NotNode(x) => ConditionIsPrintable(x);
    case _ => PrimaryIsOperand(n);
  }

  lemma {:induction false} PrimaryIsOperand(n: Node)
    requires Primary(n)
    ensures Operand(n)
    decreases n
  {
    if n.FuncNode? {
      PrimariesAreOperands(n.args);
    }
  }

  lemma {:induction false} PrimariesAreOperands(ns: seq<Node>)
    requires AllPrimary(ns)
    ensures AllOperands(ns)
    decreases ns
  {
    if ns != [] {
      PrimaryIsOperand(ns[0]);
      PrimariesAreOperands(ns[1..]);
    }
  }

  // ---- The tokens of a printed condition ----

  function Toks(n: Node, v: nat): seq<string> {
    match n
    case CompareNode(l, op, r) => Toks(l, v) + ([OpSymbol(op)] + Toks(r, v + |ValuesOf(l)|))
    case AndNode(l, r) => BinaryToks(Toks(l, v), "AND", Toks(r, v + |ValuesOf(l)|))
    case OrNode(l, r) => BinaryToks(Toks(l, v), "OR", Toks(r, v + |ValuesOf(l)|))
    case NotNode(x) => ["NOT"] + Enclosed(Toks(x, v))
    case FuncNode(name, args) => [name] + Enclosed(ArgToks(args, v))
    case PathNode(parts) => Aliases(parts)
    case ValueNode(_) => [Placeholder(v)]
  }

  function Enclosed(ts: seq<string>): seq<string> { ["("] + (ts + [")"]) }

  function BinaryToks(l: seq<string>, op: string, r: seq<string>): seq<string> {
    Enclosed(l) + ([op] + Enclosed(r))
  }

  function ArgToks(ns: seq<Node>, v: nat): seq<string> {
    if ns == [] then []
    else if |ns| == 1 then Toks(ns[0], v)
    else Toks(ns[0], v) + ([","] + ArgToks(ns[1..], v + |ValuesOf(ns[0])|))
  }

  // ---- Tokenizing the printed text ----

  lemma KnownNames(name: string)
    requires KnownFunction(name)
    ensures IsIdentifier(name) && ToLower(name) == name && Classify(name) == Word
  {
    assert |name| >= 4 && |name| != 7;
    assert KeywordOf(ToUpper(name)) == None;
    assert forall i :: 0 <= i < |name| ==> 'a' <= name[i] <= 'z' || name[i] == '_';
    assert ToLower(name) == name;
  }

  lemma MemTokensPlaceholderNumber(v: nat)
    ensures MemTokens(Placeholder(v)) == [Placeholder(v)]
  {
    var word := "v" + NatToString(v);
    DigitsAreIdentParts(NatToString(v));
    assert Placeholder(v) == [':'] + word;
    MemTokensPlaceholder(':', word);
  }

  /** "(a)" followed by a boundary. */
  lemma MemTokensEnclosed(a: string, rest: string)
    requires Boundary(rest)
    ensures MemTokens("(" + a + ")" + rest) == Enclosed(MemTokens(a)) + MemTokens(rest)
  {
    hide MemTokens;
    var tail := ")" + rest;
    assert "(" + a + ")" + rest == ['('] + (a + tail);
    MemTokensPunct('(', a + tail);
    MemTokensConcat(a, tail);
    assert tail == [')'] + rest;
    MemTokensPunct(')', rest);
    assert MemTokens(a) + ([")"] + MemTokens(rest)) == (MemTokens(a) + [")"]) + MemTokens(rest);
  }

  /** " word " between two enclosed phrases; also "NOT (x)". */
  lemma MemTokensWord(word: string, rest: string)
    requires IsIdentifier(word) && Boundary(rest)
    ensures MemTokens(word + rest) == [word] + MemTokens(rest)
    ensures MemTokens(" " + (word + rest)) == [word] + MemTokens(rest)
  {
    hide MemTokens;
    MemTokensConcat(word, rest);
    MemTokensIdentifier(word);
    MemTokensBlank(word + rest);
  }

  lemma MemTokensBinary(l: string, op: string, r: string)
    requires op == "AND" || op == "OR"
    ensures MemTokens("(" + l + ") " + op + " (" + r + ")") == BinaryToks(MemTokens(l), op, MemTokens(r))
  {
    hide MemTokens, Enclosed;
    var right := "(" + r + ")" + "";
    var tail := " " + (op + (" " + right));
    assert "(" + l + ") " + op + " (" + r + ")" == "(" + l + ")" + tail;
    MemTokensEnclosed(l, tail);
    MemTokensWord(op, " " + right);
    MemTokensBlank(right);
    MemTokensEnclosed(r, "");
    NothingToScan();
    assert Enclosed(MemTokens(r)) + [] == Enclosed(MemTokens(r));
  }

  lemma MemTokensNot(x: string)
    ensures MemTokens("NOT (" + x + ")") == ["NOT"] + Enclosed(MemTokens(x))
  {
    hide MemTokens, Enclosed;
    var tail := "(" + x + ")" + "";
    assert "NOT (" + x + ")" == "NOT" + (" " + tail);
    MemTokensWord("NOT", " " + tail);
    MemTokensBlank(tail);
    MemTokensEnclosed(x, "");
    NothingToScan();
    assert Enclosed(MemTokens(x)) + [] == Enclosed(MemTokens(x));
  }

  lemma MemTokensCall(name: string, args: string)
    requires KnownFunction(name)
    ensures MemTokens(name + "(" + args + ")") == [name] + Enclosed(MemTokens(args))
  {
    hide MemTokens, Enclosed;
    var tail := "(" + args + ")" + "";
    assert name + "(" + args + ")" == name + tail;
    KnownNames(name);
    MemTokensWord(name, tail);
    MemTokensEnclosed(args, "");
    NothingToScan();
    assert Enclosed(MemTokens(args)) + [] == Enclosed(MemTokens(args));
  }

  lemma MemTokensCompare(l: string, op: CompareOp, r: string)
    ensures MemTokens(l + " " + (OpSymbol(op) + " " + r)) == MemTokens(l) + ([OpSymbol(op)] + MemTokens(r))
  {
    hide MemTokens;
    var symbol := OpSymbol(op);
    assert l + " " + (symbol + " " + r) == l + (" " + (symbol + (" " + r)));
    MemTokensConcat(l, " " + (symbol + (" " + r)));
    MemTokensBlank(symbol + (" " + r));
    MemTokensConcat(symbol, " " + r);
    MemTokensOperator(symbol);
    MemTokensBlank(r);
  }

  /** A path that is printed with dots is read as one token for each segment. */
  lemma {:induction false} MemTokensPath(parts: seq<string>)
    requires forall i :: 0 <= i < |parts| ==> AllIdentPart(parts[i])
    ensures MemTokens(Join(Aliases(parts), ".")) == Aliases(parts)
    decreases |parts|
  {
    var aliases := Aliases(parts);
    if |parts| == 1 {
      MemTokensPlaceholder('#', parts[0]);
      assert aliases == [Alias(parts[0])];
    } else if |parts| > 1 {
      assert aliases[1..] == Aliases(parts[1..]);
      MemTokensPath(parts[1..]);
      MemTokensSegment(parts[0], Join(Aliases(parts[1..]), "."));
      assert aliases == [Alias(parts[0])] + Aliases(parts[1..]);
    }
  }

  lemma MemTokensSegment(name: string, rest: string)
    requires AllIdentPart(name)
    ensures MemTokens(Alias(name) + "." + rest) == [Alias(name)] + MemTokens(rest)
  {
    var tail := "." + rest;
    var s := Alias(name) + tail;
    assert Alias(name) + "." + rest == s;
    WordLenToDot(name, rest);
    AliasTurn(name, tail);
    DotTurn(rest);
    hide WordLen, MemTurn, AllIdentPart, Alias;
    FirstToken(s, |name| + 1);
  }

  lemma AliasTurn(name: string, tail: string)
    requires WordLen(name + tail, false) == |name|
    ensures var s := Alias(name) + tail;
      s != "" && MemTurn(s) == Emit(|name| + 1) && |name| + 1 <= |s| && s[..|name| + 1] == Alias(name) && s[|name| + 1..] == tail
  {
    hide WordLen;
    assert (Alias(name) + tail)[1..] == name + tail;
  }

  lemma DotTurn(rest: string)
    ensures MemTokens("." + rest) == MemTokens(rest)
  {
    hide WordLen, NumberLen;
    var s := "." + rest;
    assert s[1..] == rest && MemTurn(s) == Skip(1);
    assert Tokens(s, Skip(1)) == [];
    assert [] + MemTokens(rest) == MemTokens(rest);
  }

  lemma FirstToken(s: string, n: nat)
    requires s != "" && MemTurn(s) == Emit(n)
    ensures n <= |s| && MemTokens(s) == [s[..n]] + MemTokens(s[n..])
  {
    hide MemTurn;
  }

  lemma {:induction false} WordLenToDot(name: string, rest: string)
    requires AllIdentPart(name)
    ensures WordLen(name + ("." + rest), false) == |name|
  {
    if name == "" {
      assert "" + ("." + rest) == "." + rest;
    } else {
      assert (name + ("." + rest))[1..] == name[1..] + ("." + rest);
      WordLenToDot(name[1..], rest);
    }
  }

  lemma {:induction false} MemTokensPrinted(n: Node, v: nat)
    requires Printable(n)
    ensures MemTokens(Print(n, v)) == Toks(n, v)
    decreases n
  {
    hide MemTokens, OpSymbol;
    match n
    case CompareNode(l, op, r) =>
      MemTokensPrinted(l, v);
      MemTokensPrinted(r, v + |ValuesOf(l)|);
      MemTokensCompare(Print(l, v), op, Print(r, v + |ValuesOf(l)|));
    case AndNode(l, r) =>
      MemTokensPrinted(l, v);
      MemTokensPrinted(r, v + |ValuesOf(l)|);
      MemTokensBinary(Print(l, v), "AND", Print(r, v + |ValuesOf(l)|));
    case OrNode(l, r) =>
      MemTokensPrinted(l, v);
      MemTokensPrinted(r, v + |ValuesOf(l)|);
      MemTokensBinary(Print(l, v), "OR", Print(r, v + |ValuesOf(l)|));
    case NotNode(x) =>
      MemTokensPrinted(x, v);
      MemTokensNot(Print(x, v));
    case FuncNode(name, args) =>
      MemTokensPrintedArgs(args, v);
      MemTokensCall(name, Join(PrintAll(args, v), ", "));
    case PathNode(parts) =>
      MemTokensPath(parts);
    case ValueNode(_) =>
      MemTokensPlaceholderNumber(v);
  }

  lemma {:induction false} MemTokensPrintedArgs(ns: seq<Node>, v: nat)
    requires AllOperands(ns)
    ensures MemTokens(Join(PrintAll(ns, v), ", ")) == ArgToks(ns, v)
    decreases ns
  {
    hide MemTokens;
    if ns == [] {
      NothingToScan();
    } else if |ns| == 1 {
      MemTokensPrinted(ns[0], v);
    } else {
      var head, v' := Print(ns[0], v), v + |ValuesOf(ns[0])|;
      var tail := Join(PrintAll(ns[1..], v'), ", ");
      MemTokensPrinted(ns[0], v);
      MemTokensPrintedArgs(ns[1..], v');
      JoinPrinted(ns, v);
      hide Print, PrintAll, Toks, ArgToks, Join;
      ArgToksOf(ns, v);
      MemTokensComma(head, tail);
    }
  }

  lemma JoinPrinted(ns: seq<Node>, v: nat)
    requires |ns| > 1
    ensures Join(PrintAll(ns, v), ", ") == Print(ns[0], v) + ", " + Join(PrintAll(ns[1..], v + |ValuesOf(ns[0])|), ", ")
  {
    hide Print;
    assert PrintAll(ns, v)[1..] == PrintAll(ns[1..], v + |ValuesOf(ns[0])|);
  }

  lemma MemTokensComma(head: string, tail: string)
    ensures MemTokens(head + ", " + tail) == MemTokens(head) + ([","] + MemTokens(tail))
  {
    hide MemTokens;
    assert head + ", " + tail == head + ([','] + (" " + tail));
    MemTokensConcat(head, [','] + (" " + tail));
    MemTokensPunct(',', " " + tail);
    MemTokensBlank(tail);
  }

  // ---- Parsing the tokens ----

  /** env gives the placeholders of n, numbered from v, their meaning. */
  ghost predicate Binds(env: Env, n: Node, v: nat) {
    HasNames(env, NamesOf(n)) && HasValues(env.values, ValuesOf(n), v)
  }

  ghost predicate BindsAll(env: Env, ns: seq<Node>, v: nat) {
    HasNames(env, NamesOfAll(ns)) && HasValues(env.values, ValuesOfAll(ns), v)
  }

  ghost predicate HasNames(env: Env, names: set<string>) {
    forall x :: x in names ==> Lookup(env.names, Alias(x)) == Some(x)
  }

  lemma TokenClasses()
    ensures Classify("(") == LParen && Classify(")") == RParen && Classify(",") == Comma
    ensures Classify("AND") == Key(AND) && Classify("OR") == Key(OR) && Classify("NOT") == Key(NOT)
    ensures forall x :: Classify(Alias(x)) == NameRef
    ensures forall i :: Classify(Placeholder(i)) == ValueRef
  {
    assert ToUpper("AND") == "AND" && ToUpper("OR") == "OR" && ToUpper("NOT") == "NOT";
    assert Classify("AND") == Key(AND);
    assert KeywordOf("OR") == Some(OR);
    assert KeywordOf("NOT") == Some(NOT);
    assert Classify("OR") == Key(OR);
    assert Classify("NOT") == Key(NOT);
  }

  lemma OperatorClass(op: CompareOp)
    ensures Classify(OpSymbol(op)) == Op(op)
  {
    OpSymbolParses(op);
  }

  lemma FirstValue(m: map<string, AttributeValue>, vs: seq<AttributeValue>, v: nat)
    requires HasValues(m, vs, v) && vs != []
    ensures Lookup(m, Placeholder(v)) == Some(vs[0])
  {
    hide Placeholder;
    var i: nat := 0;
    assert Lookup(m, Placeholder(v + i)) == Some(vs[i]);
  }

  lemma {:induction false} ParsePrimaryPrinted(n: Node, v: nat, rest: seq<string>, env: Env)
    requires Primary(n) && Binds(env, n, v) && Next(rest) != LParen
    ensures ParsePrimary(Toks(n, v) + rest, env) == Parsed(n, rest)
    ensures Next(Toks(n, v) + rest) in {NameRef, ValueRef, Word}
    decreases n
  {
    hide Classify, Placeholder, Alias;
    TokenClasses();
    var ts := Toks(n, v) + rest;
    match n
    case PathNode(parts) =>
      assert ts[0] == Alias(parts[0]) && ts[1..] == rest;
      assert parts[0] in NamesOf(n);
      assert '.' !in parts[0] && parts == [parts[0]];
    case ValueNode(_) =>
      assert ts[0] == Placeholder(v) && ts[1..] == rest;
      FirstValue(env.values, ValuesOf(n), v);
    case FuncNode(name, args) =>
      var inner := ArgToks(args, v) + ([")"] + rest);
      assert ts == [name] + (["("] + inner);
      if args == [] {
        ArgsEnd([], rest, env);
        assert inner == [")"] + rest;
      } else {
        ParseArgsPrinted([], args, v, rest, env);
        assert [] + args == args;
        assert Separator([]) + inner == inner;
      }
      ParseCall(name, args, inner, rest, env);
  }

  lemma ParseCall(name: string, args: seq<Node>, inner: seq<string>, rest: seq<string>, env: Env)
    requires KnownFunction(name) && ArgsLoop([], inner, env) == Parsed(args, rest)
    ensures ParsePrimary([name] + (["("] + inner), env) == Parsed(FuncNode(name, args), rest)
    ensures Next([name] + (["("] + inner)) == Word
  {
    TokenClasses();
    KnownNames(name);
    hide Classify, ArgsLoop;
    var ts := [name] + (["("] + inner);
    assert ts[1..] == ["("] + inner && ts[1..][1..] == inner;
  }

  lemma ArgsStep(read: seq<Node>, ts: seq<string>, n: Node, after: seq<string>, env: Env)
    requires ParsePrimary(ts, env) == Parsed(n, after) && Next(ts) != RParen
    ensures ArgsLoop(read, Separator(read) + ts, env) == ArgsLoop(read + [n], after, env)
  {
    hide ParsePrimary, Classify;
    TokenClasses();
    if read == [] {
      assert Separator(read) + ts == ts;
    } else {
      assert (Separator(read) + ts)[1..] == ts;
    }
  }

  /** The separator that the argument loop expects once it has read something. */
  function Separator(read: seq<Node>): seq<string> { if read == [] then [] else [","] }

  lemma ArgsEnd(read: seq<Node>, rest: seq<string>, env: Env)
    ensures ArgsLoop(read, [")"] + rest, env) == Parsed(read, rest)
  {
    hide Classify;
    TokenClasses();
    assert ([")"] + rest)[1..] == rest;
  }

  /** The argument loop, entered with some arguments read and ns still to come. */
  lemma {:induction false} ParseArgsPrinted(read: seq<Node>, ns: seq<Node>, v: nat, rest: seq<string>, env: Env)
    requires ns != [] && AllPrimary(ns) && BindsAll(env, ns, v)
    ensures ArgsLoop(read, Separator(read) + (ArgToks(ns, v) + ([")"] + rest)), env) == Parsed(read + ns, rest)
    decreases ns
  {
    hide *;
    BindsHeadAndTail(env, ns, v);
    ArgToksOf(ns, v);
    var n, v', all, close := ns[0], v + |ValuesOf(ns[0])|, read + [ns[0]], [")"] + rest;
    NextIs(rest);
    if |ns| == 1 {
      ParsePrimaryPrinted(n, v, close, env);
      ArgsStep(read, Toks(n, v) + close, n, close, env);
      ArgsEnd(all, rest, env);
      assert ns == [n];
    } else {
      var tail := ArgToks(ns[1..], v');
      var more := tail + close;
      NextIs(more);
      ParsePrimaryPrinted(n, v, [","] + more, env);
      Assoc(Toks(n, v), [","] + tail, close);
      Assoc([","], tail, close);
      ArgsStep(read, Toks(n, v) + ([","] + more), n, [","] + more, env);
      ParseArgsPrinted(all, ns[1..], v', rest, env);
      SeparatorAfter(all);
      assert ns == [n] + ns[1..];
      Assoc(read, [n], ns[1..]);
    }
  }

  lemma BindsHeadAndTail(env: Env, ns: seq<Node>, v: nat)
    requires ns != [] && AllPrimary(ns) && BindsAll(env, ns, v)
    ensures Primary(ns[0]) && AllPrimary(ns[1..])
    ensures Binds(env, ns[0], v) && BindsAll(env, ns[1..], v + |ValuesOf(ns[0])|)
  {
    HasValuesSplits(env.values, ValuesOf(ns[0]), ValuesOfAll(ns[1..]), v);
  }

  lemma ArgToksOf(ns: seq<Node>, v: nat)
    requires ns != []
    ensures |ns| == 1 ==> ArgToks(ns, v) == Toks(ns[0], v)
    ensures |ns| > 1 ==> ArgToks(ns, v) == Toks(ns[0], v) + ([","] + ArgToks(ns[1..], v + |ValuesOf(ns[0])|))
  {
    hide Toks;
  }

  /** The loop of ParseFuncCall around ArgsLoop looks at these two tokens. */
  lemma NextIs(ts: seq<string>)
    ensures Next([")"] + ts) == RParen && Next([","] + ts) == Class.Comma
  {
    TokenClasses();
  }

  lemma SeparatorAfter(read: seq<Node>)
    requires read != []
    ensures Separator(read) == [","]
  {
  }

  /** Where a complete condition ends. */
  predicate Stop(rest: seq<string>) { Next(rest) == End || Next(rest) == RParen }

  lemma UnitIsCondition(ts: seq<string>, n: Node, rest: seq<string>, env: Env)
    requires ParseNot(ts, env) == Parsed(n, rest) && Stop(rest)
    ensures ParseOr(ts, env) == Parsed(n, rest)
  {
    hide ParseNot, Classify;
    assert AndTail(n, rest, env) == Parsed(n, rest);
    assert ParseAnd(ts, env) == Parsed(n, rest);
    assert OrTail(n, rest, env) == Parsed(n, rest);
  }

  lemma EnclosedIsUnit(inner: seq<string>, n: Node, rest: seq<string>, env: Env)
    requires ParseOr(inner + ([")"] + rest), env) == Parsed(n, [")"] + rest)
    ensures ParseNot(Enclosed(inner) + rest, env) == Parsed(n, rest)
  {
    hide ParseOr, Classify;
    TokenClasses();
    var ts := Enclosed(inner) + rest;
    assert ts[0] == "(" && ts[1..] == inner + ([")"] + rest);
    assert ([")"] + rest)[1..] == rest;
  }

  lemma {:induction false} ParsePrinted(n: Node, v: nat, rest: seq<string>, env: Env)
    requires Condition(n) && Binds(env, n, v) && Stop(rest)
    ensures ParseOr(Toks(n, v) + rest, env) == Parsed(n, rest)
    decreases n
  {
    hide Classify, ParseOr, ParseNot, Enclosed;
    match n
    case CompareNode(l, op, r) =>
      ParseComparePrinted(n, v, rest, env);
    case AndNode(l, r) =>
      BindsPair(env, l, r, v);
      ParseEnclosedPrinted(n, l, v, ["AND"] + (Enclosed(Toks(r, v + |ValuesOf(l)|)) + rest), env);
      ParseEnclosedPrinted(n, r, v + |ValuesOf(l)|, rest, env);
      ParseAndOf(Enclosed(Toks(l, v)), l, Enclosed(Toks(r, v + |ValuesOf(l)|)), r, rest, env);
    case OrNode(l, r) =>
      BindsPair(env, l, r, v);
      ParseEnclosedPrinted(n, l, v, ["OR"] + (Enclosed(Toks(r, v + |ValuesOf(l)|)) + rest), env);
      ParseEnclosedPrinted(n, r, v + |ValuesOf(l)|, rest, env);
      ParseOrOf(Enclosed(Toks(l, v)), l, Enclosed(Toks(r, v + |ValuesOf(l)|)), r, rest, env);
    case NotNode(x) =>
      ParseEnclosedPrinted(n, x, v, rest, env);
      ParseNotOf(Enclosed(Toks(x, v)), x, rest, env);
    case _ =>
      ParseComparePrinted(n, v, rest, env);
  }

  lemma {:induction false} ParseEnclosedPrinted(parent: Node, n: Node, v: nat, rest: seq<string>, env: Env)
    requires n < parent && Condition(n) && Binds(env, n, v)
    ensures ParseNot(Enclosed(Toks(n, v)) + rest, env) == Parsed(n, rest)
    decreases parent, 0
  {
    hide ParseOr, Classify, Condition, Enclosed;
    TokenClasses();
    ParsePrinted(n, v, [")"] + rest, env);
    EnclosedIsUnit(Toks(n, v), n, rest, env);
  }

  lemma ParseComparePrinted(n: Node, v: nat, rest: seq<string>, env: Env)
    requires Condition(n) && Binds(env, n, v) && Stop(rest)
    requires n.CompareNode? || Primary(n)
    ensures ParseOr(Toks(n, v) + rest, env) == Parsed(n, rest)
  {
    hide ParseOr, ParseNot, ParsePrimary, Next, Primary, OpSymbol, HasValues, HasNames, Alias, Placeholder, Aliases, Stop;
    match n
    case CompareNode(l, op, r) =>
      var v', symbol := v + |ValuesOf(l)|, OpSymbol(op);
      BindsPair(env, l, r, v);
      NextOperator(op, Toks(r, v') + rest);
      StopIsNotOpen(rest);
      var after := [symbol] + (Toks(r, v') + rest);
      ParsePrimaryPrinted(l, v, after, env);
      ParsePrimaryPrinted(r, v', rest, env);
      ParseCompareOf(Toks(l, v), l, op, Toks(r, v') + rest, r, rest, env);
      Assoc(Toks(l, v), [symbol] + Toks(r, v'), rest);
      Assoc([symbol], Toks(r, v'), rest);
      UnitIsCondition(Toks(n, v) + rest, n, rest, env);
    case _ =>
      StopIsNotOpen(rest);
      ParsePrimaryPrinted(n, v, rest, env);
      ParseOperandOnly(Toks(n, v) + rest, n, rest, env);
      UnitIsCondition(Toks(n, v) + rest, n, rest, env);
  }

  lemma BindsPair(env: Env, l: Node, r: Node, v: nat)
    requires HasNames(env, NamesOf(l) + NamesOf(r)) && HasValues(env.values, ValuesOf(l) + ValuesOf(r), v)
    ensures Binds(env, l, v) && Binds(env, r, v + |ValuesOf(l)|)
  {
    HasValuesSplits(env.values, ValuesOf(l), ValuesOf(r), v);
  }

  lemma NextOperator(op: CompareOp, ts: seq<string>)
    ensures Next([OpSymbol(op)] + ts) == Op(op)
  {
    OperatorClass(op);
  }

  lemma StopIsNotOpen(rest: seq<string>)
    requires Stop(rest)
    ensures Next(rest) != LParen
  {
  }

  lemma ParseCompareOf(lts: seq<string>, l: Node, op: CompareOp, rts: seq<string>, r: Node, rest: seq<string>, env: Env)
    requires ParsePrimary(lts + ([OpSymbol(op)] + rts), env) == Parsed(l, [OpSymbol(op)] + rts)
    requires Next(lts + ([OpSymbol(op)] + rts)) in {NameRef, ValueRef, Word}
    requires ParsePrimary(rts, env) == Parsed(r, rest)
    ensures ParseNot(lts + ([OpSymbol(op)] + rts), env) == Parsed(CompareNode(l, op, r), rest)
  {
    OperatorClass(op);
    hide ParsePrimary, Classify, OpSymbol;
    var after := [OpSymbol(op)] + rts;
    assert after[1..] == rts;
    assert ComparisonTail(l, after, env) == Parsed(CompareNode(l, op, r), rest);
  }

  lemma ParseOperandOnly(ts: seq<string>, n: Node, rest: seq<string>, env: Env)
    requires ParsePrimary(ts, env) == Parsed(n, rest) && Stop(rest)
    requires Next(ts) in {NameRef, ValueRef, Word}
    ensures ParseNot(ts, env) == Parsed(n, rest)
  {
    hide ParsePrimary, Classify;
    assert ComparisonTail(n, rest, env) == Parsed(n, rest);
  }

  lemma ParseAndOf(lts: seq<string>, l: Node, rts: seq<string>, r: Node, rest: seq<string>, env: Env)
    requires ParseNot(lts + (["AND"] + (rts + rest)), env) == Parsed(l, ["AND"] + (rts + rest))
    requires ParseNot(rts + rest, env) == Parsed(r, rest) && Stop(rest)
    ensures ParseOr(lts + (["AND"] + rts) + rest, env) == Parsed(AndNode(l, r), rest)
  {
    hide ParseNot, Classify;
    TokenClasses();
    var after, both := ["AND"] + (rts + rest), AndNode(l, r);
    assert after[1..] == rts + rest;
    assert lts + (["AND"] + rts) + rest == lts + after;
    assert AndTail(both, rest, env) == Parsed(both, rest);
    assert AndTail(l, after, env) == Parsed(both, rest);
    assert ParseAnd(lts + after, env) == Parsed(both, rest);
    assert OrTail(both, rest, env) == Parsed(both, rest);
  }

  lemma ParseOrOf(lts: seq<string>, l: Node, rts: seq<string>, r: Node, rest: seq<string>, env: Env)
    requires ParseNot(lts + (["OR"] + (rts + rest)), env) == Parsed(l, ["OR"] + (rts + rest))
    requires ParseNot(rts + rest, env) == Parsed(r, rest) && Stop(rest)
    ensures ParseOr(lts + (["OR"] + rts) + rest, env) == Parsed(OrNode(l, r), rest)
  {
    hide ParseNot, Classify;
    TokenClasses();
    var after, either := ["OR"] + (rts + rest), OrNode(l, r);
    assert after[1..] == rts + rest;
    assert lts + (["OR"] + rts) + rest == lts + after;
    assert AndTail(l, after, env) == Parsed(l, after);
    assert AndTail(r, rest, env) == Parsed(r, rest);
    assert ParseAnd(lts + after, env) == Parsed(l, after);
    assert ParseAnd(rts + rest, env) == Parsed(r, rest);
    assert OrTail(either, rest, env) == Parsed(either, rest);
    assert OrTail(l, after, env) == Parsed(either, rest);
  }

  lemma ParseNotOf(ts: seq<string>, x: Node, rest: seq<string>, env: Env)
    requires ParseNot(ts + rest, env) == Parsed(x, rest) && Stop(rest)
    ensures ParseOr(["NOT"] + ts + rest, env) == Parsed(NotNode(x), rest)
  {
    hide ParseOr, ParseComparison, Classify;
    TokenClasses();
    var all := ["NOT"] + ts + rest;
    assert all[0] == "NOT" && all[1..] == ts + rest;
    UnitIsCondition(all, NotNode(x), rest, env);
  }

  // ---- The round trip ----

  /** For every condition, memdb parses what ToDynamo prints back to it, in every
      environment that extends the maps ToDynamo returns. */
  lemma PrintThenParse(n: Node, env: Env)
    requires Condition(n) && Binds(env, n, 0)
    ensures ParseExpression(Print(n, 0), env) == Ok(n)
  {
    assert Stop([]);
    hide MemTokens, Print, ParseOr, Toks, Condition, Binds, Stop;
    ParsePrinted(n, 0, [], env);
    ConditionIsPrintable(n);
    MemTokensPrinted(n, 0);
    assert Toks(n, 0) + [] == Toks(n, 0);
  }

  /** The whole round trip on the code's own objects. */
  method ToDynamoThenParse(n: Node) returns (r: Result<Node>)
    requires Condition(n)
    ensures r == Ok(n)
  {
    hide *;
    var text, names, values := ToDynamo(n);
    var env := Env(names, values);
    TranslatedMapsBind(n, env);
    PrintThenParse(n, env);
    r := ParseExpressionToAST(text, env);
  }

  lemma TranslatedMapsBind(n: Node, env: Env)
    requires env.values == AddValues(map[], ValuesOf(n), 0)
    requires env.names.Keys == AliasSet(NamesOf(n))
    requires forall a :: a in env.names ==> a == Alias(env.names[a])
    ensures Binds(env, n, 0)
  {
    AddedValuesAreFound(map[], ValuesOf(n), 0);
    forall x | x in NamesOf(n)
      ensures Lookup(env.names, Alias(x)) == Some(x)
    {
      assert Alias(x) in env.names;
      assert Alias(x)[1..] == Alias(env.names[Alias(x)])[1..];
    }
  }
}
