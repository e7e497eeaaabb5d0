/** Which printed conditions memdb parses back: those in which every path is a single
    segment. A path "a.b" is printed as "#a.#b", which memdb's tokenizer splits. The
    proof counts: a tree that memdb builds has at least as many nodes as the tokens it
    is built from, brackets and commas aside. */
module DottedPaths {
  import opened Base
  import opened Values
  import opened Ast
  import opened Lexer
  import opened Parser
  import opened Translate
  import opened RoundTrip

  // ---- Nodes and tokens ----

  function Size(n: Node): nat {
    match n
    case CompareNode(l, _, r) => 1 + Size(l) + Size(r)
    case AndNode(l, r) => 1 + Size(l) + Size(r)
    case OrNode(l, r) => 1 + Size(l) + Size(r)
    case NotNode(x) => 1 + Size(x)
    case FuncNode(_, args) => 1 + SizeAll(args)
    case _ => 1
  }

  function SizeAll(ns: seq<Node>): nat { if ns == [] then 0 else Size(ns[0]) + SizeAll(ns[1..]) }

  /** No path is empty. */
  predicate Full(n: Node) {
    match n
    case CompareNode(l, _, r) => Full(l) && Full(r)
    case AndNode(l, r) => Full(l) && Full(r)
    case OrNode(l, r) => Full(l) && Full(r)
    case NotNode(x) => Full(x)
    case FuncNode(_, args) => AllFull(args)
    case PathNode(parts) => parts != []
    case ValueNode(_) => true
  }

  predicate AllFull(ns: seq<Node>) { ns != [] ==> Full(ns[0]) && AllFull(ns[1..]) }

  /** Neither a bracket nor a comma. */
  predicate Counts(tok: string) {
    match Classify(tok)
    case Op(_) => true
    case ValueRef => true
    case NameRef => true
    case Key(_) => true
    case Word => true
    case _ => false
  }

  function Marks(ts: seq<string>): nat {
    if ts == [] then 0 else (if Counts(ts[0]) then 1 else 0) + Marks(ts[1..])
  }

  predicate NoIn(ts: seq<string>) { forall i :: 0 <= i < |ts| ==> Classify(ts[i]) != Key(IN) }

  lemma Behind(ts: seq<string>)
    requires ts != [] && NoIn(ts)
    ensures NoIn(ts[1..]) && Marks(ts) <= 1 + Marks(ts[1..]) && Next(ts) != Key(IN)
    ensures Next(ts) == RParen || Next(ts) == LParen || Next(ts) == Class.Comma ==> Marks(ts) == Marks(ts[1..])
  {
    hide Classify;
  }

  lemma {:induction false} SizeAllSnoc(ns: seq<Node>, n: Node)
    ensures SizeAll(ns + [n]) == SizeAll(ns) + Size(n) && (AllFull(ns) && Full(n) ==> AllFull(ns + [n]))
    decreases |ns|
  {
    if ns == [] {
      assert ns + [n] == [n] && [n][1..] == [];
    } else {
      assert (ns + [n])[1..] == ns[1..] + [n];
      SizeAllSnoc(ns[1..], n);
    }
  }

  // ---- Parsed trees have a node for every token ----

  /** The tree read from ts, on top of a part of the given size, has a node for each
      token read. */
  ghost predicate Heavy(ts: seq<string>, base: nat, r: Parsed<Node>) {
    r.Parsed? ==> NoIn(r.rest) && Full(r.value) && Marks(ts) + base <= Size(r.value) + Marks(r.rest)
  }

  ghost predicate HeavyArgs(ts: seq<string>, base: nat, r: Parsed<seq<Node>>) {
    r.Parsed? ==> NoIn(r.rest) && AllFull(r.value) && Marks(ts) + base <= SizeAll(r.value) + Marks(r.rest)
  }

  lemma {:induction false} OrIsHeavy(ts: seq<string>, env: Env)
    requires NoIn(ts)
    ensures Heavy(ts, 0, ParseOr(ts, env))
    decreases |ts|, 7
  {
    hide ParseAnd, OrTail, NoIn, Marks, Size, Full;
    AndIsHeavy(ts, env);
    var left := ParseAnd(ts, env);
    if left.Parsed? {
      OrTailIsHeavy(left.value, left.rest, env);
    }
  }

  lemma {:induction false} OrTailIsHeavy(left: Node, ts: seq<string>, env: Env)
    requires NoIn(ts) && Full(left)
    ensures Heavy(ts, Size(left), OrTail(left, ts, env))
    decreases |ts|, 6
  {
    hide ParseAnd, NoIn, Marks, Classify;
    if Next(ts) == Key(OR) {
      Behind(ts);
      AndIsHeavy(ts[1..], env);
      var right := ParseAnd(ts[1..], env);
      if right.Parsed? {
        OrTailIsHeavy(OrNode(left, right.value), right.rest, env);
      }
    }
  }

  lemma {:induction false} AndIsHeavy(ts: seq<string>, env: Env)
    requires NoIn(ts)
    ensures Heavy(ts, 0, ParseAnd(ts, env))
    decreases |ts|, 5
  {
    hide ParseNot, AndTail, NoIn, Marks, Size, Full;
    NotIsHeavy(ts, env);
    var left := ParseNot(ts, env);
    if left.Parsed? {
      AndTailIsHeavy(left.value, left.rest, env);
    }
  }

  lemma {:induction false} AndTailIsHeavy(left: Node, ts: seq<string>, env: Env)
    requires NoIn(ts) && Full(left)
    ensures Heavy(ts, Size(left), AndTail(left, ts, env))
    decreases |ts|, 4
  {
    hide ParseNot, NoIn, Marks, Classify;
    if Next(ts) == Key(AND) {
      Behind(ts);
      NotIsHeavy(ts[1..], env);
      var right := ParseNot(ts[1..], env);
      if right.Parsed? {
        AndTailIsHeavy(AndNode(left, right.value), right.rest, env);
      }
    }
  }

  lemma {:induction false} NotIsHeavy(ts: seq<string>, env: Env)
    requires NoIn(ts)
    ensures Heavy(ts, 0, ParseNot(ts, env))
    decreases |ts|, 3
  {
    hide ParseComparison, NoIn, Marks, Classify;
    if Next(ts) == Key(NOT) {
      Behind(ts);
      NotIsHeavy(ts[1..], env);
    } else {
      ComparisonIsHeavy(ts, env);
    }
  }

  lemma {:induction false} ComparisonIsHeavy(ts: seq<string>, env: Env)
    requires NoIn(ts)
    ensures Heavy(ts, 0, ParseComparison(ts, env))
    decreases |ts|, 2
  {
    hide ParseOr, ParsePrimary, ComparisonTail, NoIn, Marks, Classify, Size, Full;
    if Next(ts) == LParen {
      Behind(ts);
      OrIsHeavy(ts[1..], env);
      var inner := ParseOr(ts[1..], env);
      if inner.Parsed? && Next(inner.rest) == RParen {
        Behind(inner.rest);
      }
    } else {
      PrimaryIsHeavy(ts, env);
      var left := ParsePrimary(ts, env);
      if left.Parsed? {
        ComparisonTailIsHeavy(left.value, left.rest, env);
      }
    }
  }

  lemma {:induction false} ComparisonTailIsHeavy(left: Node, ts: seq<string>, env: Env)
    requires NoIn(ts) && Full(left)
    ensures Heavy(ts, Size(left), ComparisonTail(left, ts, env))
    decreases |ts|, 1
  {
    hide ParsePrimary, BetweenTail, InList, NoIn, Marks, Classify;
    if Next(ts) != End {
      Behind(ts);
      match Next(ts)
      case Key(BETWEEN) => BetweenIsHeavy(left, ts[1..], env);
      case Op(op) => PrimaryIsHeavy(ts[1..], env);
      case _ =>
    }
  }

  lemma {:induction false} BetweenIsHeavy(left: Node, ts: seq<string>, env: Env)
    requires NoIn(ts) && Full(left)
    ensures Heavy(ts, Size(left) + 1, BetweenTail(left, ts, env))
    decreases |ts|, 1
  {
    hide ParsePrimary, NoIn, Marks, Classify;
    PrimaryIsHeavy(ts, env);
    var low := ParsePrimary(ts, env);
    if low.Parsed? && Next(low.rest) == Key(AND) {
      Behind(low.rest);
      PrimaryIsHeavy(low.rest[1..], env);
      var high := ParsePrimary(low.rest[1..], env);
      if high.Parsed? {
        var above, below := CompareNode(left, GE, low.value), CompareNode(left, LE, high.value);
        assert Size(above) == 1 + Size(left) + Size(low.value) && Size(below) == 1 + Size(left) + Size(high.value);
        assert Full(above) && Full(below);
      }
    }
  }

  lemma {:induction false} PrimaryIsHeavy(ts: seq<string>, env: Env)
    requires NoIn(ts)
    ensures Heavy(ts, 0, ParsePrimary(ts, env))
    decreases |ts|, 0
  {
    hide NoIn, Marks, Classify, FuncCall;
    if Next(ts) != End {
      Behind(ts);
      if Next(ts[1..]) == LParen {
        CallIsHeavy(if Next(ts) == NameRef && ts[0] in env.names then env.names[ts[0]] else ts[0], ts[1..], env);
      }
    }
  }

  lemma {:induction false} CallIsHeavy(name: string, ts: seq<string>, env: Env)
    requires NoIn(ts) && Next(ts) == LParen
    ensures Heavy(ts, 1, FuncCall(name, ts, env))
    decreases |ts|, 1
  {
    hide ArgsLoop, NoIn, Marks, Classify;
    Behind(ts);
    ArgsAreHeavy([], ts[1..], env);
  }

  lemma {:induction false} ArgsAreHeavy(args: seq<Node>, ts: seq<string>, env: Env)
    requires NoIn(ts) && AllFull(args)
    ensures HeavyArgs(ts, SizeAll(args), ArgsLoop(args, ts, env))
    decreases |ts|, 1
  {
    hide ParsePrimary, NoIn, Marks, Classify, SizeAll, AllFull;
    if Next(ts) == RParen || (|args| > 0 && Next(ts) == Class.Comma) {
      Behind(ts);
    }
    if Next(ts) != RParen && (|args| > 0 ==> Next(ts) == Class.Comma) {
      var from := if |args| > 0 then ts[1..] else ts;
      PrimaryIsHeavy(from, env);
      var arg := ParsePrimary(from, env);
      if arg.Parsed? {
        SizeAllSnoc(args, arg.value);
        ArgsAreHeavy(args + [arg.value], arg.rest, env);
      }
    }
  }

  // ---- Printed trees have a token for every node, and one more for every dot ----

  lemma {:induction false} MarksConcat(a: seq<string>, b: seq<string>)
    ensures Marks(a + b) == Marks(a) + Marks(b) && (NoIn(a) && NoIn(b) ==> NoIn(a + b))
    decreases |a|
  {
    hide Classify, Counts;
    if a == [] {
      assert a + b == b;
    } else {
      assert (a + b)[1..] == a[1..] + b;
      MarksConcat(a[1..], b);
    }
  }

  lemma OneMark(tok: string)
    ensures Marks([tok]) == if Counts(tok) then 1 else 0
    ensures NoIn([tok]) <==> Classify(tok) != Key(IN)
  {
    hide Classify, Counts;
    assert [tok][1..] == [];
  }

  /** The tokens of a printed tree are at least its nodes, when no path is empty, and
      more when a path has two segments or more. */
  ghost predicate Tokened(ts: seq<string>, size: nat, full: bool, single: bool) {
    NoIn(ts) && (full ==> Marks(ts) >= size) && (full && !single ==> Marks(ts) > size)
  }

  lemma EnclosedTokened(ts: seq<string>, size: nat, full: bool, single: bool)
    requires Tokened(ts, size, full, single)
    ensures Tokened(Enclosed(ts), size, full, single)
  {
    TokenClasses();
    hide Classify, NoIn, Marks;
    OneMark("(");
    OneMark(")");
    MarksConcat(ts, [")"]);
    MarksConcat(["("], ts + [")"]);
  }

  lemma JoinedTokened(a: seq<string>, m: nat, f: bool, s: bool, sep: string, b: seq<string>, n: nat, g: bool, t: bool)
    requires Tokened(a, m, f, s) && Tokened(b, n, g, t) && Classify(sep) != Key(IN)
    ensures Tokened(a + ([sep] + b), m + n + (if Counts(sep) then 1 else 0), f && g, s && t)
  {
    hide Classify, Counts, NoIn, Marks;
    OneMark(sep);
    MarksConcat([sep], b);
    MarksConcat(a, [sep] + b);
  }

  lemma FrontTokened(tok: string, ts: seq<string>, size: nat, full: bool, single: bool)
    requires Counts(tok) && Classify(tok) != Key(IN) && Tokened(ts, size, full, single)
    ensures Tokened([tok] + ts, size + 1, full, single)
  {
    hide Classify, Counts, NoIn, Marks;
    OneMark(tok);
    MarksConcat([tok], ts);
  }

  lemma {:induction false} AliasMarks(parts: seq<string>)
    ensures Marks(Aliases(parts)) == |parts| && NoIn(Aliases(parts))
    decreases |parts|
  {
    TokenClasses();
    if parts != [] {
      assert Aliases(parts) == [Alias(parts[0])] + Aliases(parts[1..]);
      AliasMarks(parts[1..]);
      OneMark(Alias(parts[0]));
      hide Classify;
      MarksConcat([Alias(parts[0])], Aliases(parts[1..]));
    }
  }

  lemma {:induction false} OperandTokened(n: Node, v: nat)
    requires Operand(n)
    ensures Tokened(Toks(n, v), Size(n), Full(n), Primary(n))
    decreases n
  {
    TokenClasses();
    match n
    case PathNode(parts) =>
      AliasMarks(parts);
      hide Classify, NoIn, Marks;
    case ValueNode(_) =>
      OneMark(Placeholder(v));
      hide Classify, NoIn, Marks;
    case FuncNode(name, args) =>
      KnownNames(name);
      OperandsTokened(args, v);
      EnclosedTokened(ArgToks(args, v), SizeAll(args), AllFull(args), AllPrimary(args));
      FrontTokened(name, Enclosed(ArgToks(args, v)), SizeAll(args), AllFull(args), AllPrimary(args));
      hide Classify, NoIn, Marks, Enclosed, ArgToks;
  }

  lemma NothingTokened()
    ensures Tokened([], 0, true, true)
  {
  }

  lemma {:induction false} OperandsTokened(ns: seq<Node>, v: nat)
    requires AllOperands(ns)
    ensures Tokened(ArgToks(ns, v), SizeAll(ns), AllFull(ns), AllPrimary(ns))
    decreases ns
  {
    if ns == [] {
      NothingTokened();
    } else {
      OperandTokened(ns[0], v);
      var v' := v + |ValuesOf(ns[0])|;
      OperandsTokened(ns[1..], v');
      TokenClasses();
      ArgToksOf(ns, v);
      hide Classify, NoIn, Marks, Toks, Tokened;
      if |ns| == 1 {
        assert ns[1..] == [];
      } else {
        JoinedTokened(Toks(ns[0], v), Size(ns[0]), Full(ns[0]), Primary(ns[0]), ",", ArgToks(ns[1..], v'), SizeAll(ns[1..]), AllFull(ns[1..]), AllPrimary(ns[1..]));
      }
    }
  }

  lemma {:induction false} PrintedTokened(n: Node, v: nat)
    requires Printable(n)
    ensures Tokened(Toks(n, v), Size(n), Full(n), Condition(n))
    decreases n
  {
    TokenClasses();
    hide NoIn, Marks, Tokened, Enclosed, ArgToks, OpSymbol, Classify;
    match n
    case CompareNode(l, op, r) =>
      var v' := v + |ValuesOf(l)|;
      OperandTokened(l, v);
      OperandTokened(r, v');
      OperatorClass(op);
      JoinedTokened(Toks(l, v), Size(l), Full(l), Primary(l), OpSymbol(op), Toks(r, v'), Size(r), Full(r), Primary(r));
    case AndNode(l, r) => PairTokened(n, l, "AND", r, v);
    case OrNode(l, r) => PairTokened(n, l, "OR", r, v);
    case NotNode(x) =>
      PrintedTokened(x, v);
      EnclosedTokened(Toks(x, v), Size(x), Full(x), Condition(x));
      FrontTokened("NOT", Enclosed(Toks(x, v)), Size(x), Full(x), Condition(x));
    case _ => OperandTokened(n, v);
  }

  lemma {:induction false} PairTokened(n: Node, l: Node, op: string, r: Node, v: nat)
    requires l < n && r < n && Printable(l) && Printable(r) && (op == "AND" || op == "OR")
    ensures var v' := v + |ValuesOf(l)|;
      Tokened(BinaryToks(Toks(l, v), op, Toks(r, v')), 1 + Size(l) + Size(r), Full(l) && Full(r), Condition(l) && Condition(r))
    decreases n, 0
  {
    TokenClasses();
    hide NoIn, Marks, Tokened, Enclosed, Classify, Toks;
    var v' := v + |ValuesOf(l)|;
    PrintedTokened(l, v);
    PrintedTokened(r, v');
    EnclosedTokened(Toks(l, v), Size(l), Full(l), Condition(l));
    EnclosedTokened(Toks(r, v'), Size(r), Full(r), Condition(r));
    JoinedTokened(Enclosed(Toks(l, v)), Size(l), Full(l), Condition(l), op, Enclosed(Toks(r, v')), Size(r), Full(r), Condition(r));
  }

  // ---- The round trip, exactly ----

  /** memdb parses what ToDynamo prints back to the tree exactly when each path is a
      single segment: on any tree with a dotted path it finds an error or another tree. */
  lemma PrintThenParseIff(n: Node, env: Env)
    requires Printable(n) && Binds(env, n, 0)
    ensures ParseExpression(Print(n, 0), env) == Ok(n) <==> Condition(n)
  {
    hide MemTokens, Print, ParseOr, Toks, Condition, Printable, Binds, NoIn, Marks, Size, Full;
    if Condition(n) {
      PrintThenParse(n, env);
    }
    MemTokensPrinted(n, 0);
    PrintedTokened(n, 0);
    OrIsHeavy(Toks(n, 0), env);
    NothingMarked();
  }

  lemma NothingMarked()
    ensures Marks([]) == 0
  {
  }
}
