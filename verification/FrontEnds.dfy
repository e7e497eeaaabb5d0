/** The two front ends for ? expressions agree: building a tree directly
    (internal/expr/builder.go), and translating to a string (condition.go) that
    memdb parses (memdb/expression.go). */
module FrontEnds {
  import opened Base
  import opened Values
  import opened Ast
  import opened Lexer
  import opened Parser
  import opened Builder
  import opened Translate
  import opened RoundTrip
  import opened Condition

  // ---- Which expressions ----

  /** A token without '#', '.' or digits first. */
  predicate PlainToken(tok: string) {
    IsIdentifier(tok) || tok == "?" || IsPunctuation(tok) || IsOperator(tok)
  }

  predicate PlainTokens(ts: seq<string>) { forall i :: 0 <= i < |ts| ==> PlainToken(ts[i]) }

  /** Plain undotted names that are not AND, OR or NOT, and known functions. */
  predicate Good(n: Node) {
    match n
    case CompareNode(l, _, r) => Good(l) && Good(r)
    case AndNode(l, r) => Good(l) && Good(r)
    case OrNode(l, r) => Good(l) && Good(r)
    case NotNode(x) => Good(x)
    case FuncNode(name, args) => KnownFunction(name) && AllGood(args)
    case PathNode(parts) => |parts| == 1 && !IsLogical(ToUpper(parts[0]))
    case ValueNode(_) => true
  }

  predicate AllGood(ns: seq<Node>) { ns != [] ==> Good(ns[0]) && AllGood(ns[1..]) }

  // ---- One token at a time ----

  /** The tokens are plain, and env knows the aliases that they become. */
  predicate Ready(ts: seq<string>, env: Env) {
    ts != [] ==>
      && PlainToken(ts[0])
      && (OutputOf(ts).Name? ==> Lookup(env.names, Alias(ts[0])) == Some(ts[0]))
      && Ready(ts[1..], env)
  }

  predicate Copied(c: Class) {
    c == LParen || c == RParen || c == Comma || c.Op? || c == Key(OR) || c == Key(AND) || c == Key(NOT)
  }

  /** A word to the builder: to memdb it may also be IN or BETWEEN. */
  predicate WordLike(c: Class) { c == Word || c == Key(IN) || c == Key(BETWEEN) }

  /** What translate makes of the first token, told by the builder's own view of it. */
  lemma HeadImage(ts: seq<string>, k: nat, env: Env)
    requires Ready(ts, env)
    ensures ts == [] ==> NextKind(ts) == End && Next(Outputs(ts, k)) == End
    ensures ts != [] ==> Ready(ts[1..], env)
    ensures ts != [] ==> NextKind(ts) == ValueRef || NextKind(ts) == Word || Copied(NextKind(ts))
    ensures ts != [] && Copied(NextKind(ts)) ==>
      Next(Outputs(ts, k)) == NextKind(ts)
      && Outputs(ts, k)[1..] == Outputs(ts[1..], k) && CountValues(ts) == CountValues(ts[1..])
    ensures ts != [] && NextKind(ts) == ValueRef ==>
      Next(Outputs(ts, k)) == ValueRef && Peek(Outputs(ts, k)) == Placeholder(k)
      && Outputs(ts, k)[1..] == Outputs(ts[1..], k + 1) && CountValues(ts) == 1 + CountValues(ts[1..])
    ensures ts != [] && NextKind(ts) == Word ==>
      Outputs(ts, k)[1..] == Outputs(ts[1..], k) && CountValues(ts) == CountValues(ts[1..])
      && SplitDots(TrimHash(ts[0])) == [ts[0]]
    ensures ts != [] && NextKind(ts) == Word && NextKind(ts[1..]) == LParen ==>
      Peek(Outputs(ts, k)) == ts[0] && WordLike(Next(Outputs(ts, k)))
    ensures ts != [] && NextKind(ts).Key? ==> IsLogical(ToUpper(ts[0])) && SplitDots(TrimHash(ts[0])) == [ts[0]]
    ensures ts != [] && NextKind(ts) == Word && NextKind(ts[1..]) != LParen ==>
      Next(Outputs(ts, k)) == NameRef && Peek(Outputs(ts, k)) == Alias(ts[0])
      && Lookup(env.names, Alias(ts[0])) == Some(ts[0])
  {
    if ts != [] {
      HeadKind(ts);
      hide Kind, NextKind, Classify, OutputOf, PlainToken, Placeholder, Alias, SplitDots, TrimHash, IsLogical, IsPunctuation, IsOperator;
      var o := OutputOf(ts);
      var out := Outputs(ts, k);
      assert out[0] == OutputText(o, k) && out[1..] == Outputs(ts[1..], k + Weight(o));
      TokenClasses();
    }
  }

  /** The same for the token alone. */
  lemma HeadKind(ts: seq<string>)
    requires ts != [] && PlainToken(ts[0])
    ensures NextKind(ts) == ValueRef || NextKind(ts) == Word || Copied(NextKind(ts))
    ensures Copied(NextKind(ts)) ==> OutputOf(ts).Verbatim? && Classify(OutputOf(ts).text) == NextKind(ts)
    ensures NextKind(ts) == ValueRef ==> OutputOf(ts) == Value
    ensures NextKind(ts) == Word ==> SplitDots(TrimHash(ts[0])) == [ts[0]]
    ensures NextKind(ts) == Word && NextKind(ts[1..]) == LParen ==>
      OutputOf(ts) == Verbatim(ts[0]) && WordLike(Classify(ts[0]))
    ensures NextKind(ts).Key? ==> IsLogical(ToUpper(ts[0])) && SplitDots(TrimHash(ts[0])) == [ts[0]]
    ensures NextKind(ts) == Word && NextKind(ts[1..]) != LParen ==> OutputOf(ts) == Name(ts[0])
  {
    var tok := ts[0];
    if IsIdentifier(tok) {
      IdentifierKind(tok);
      TokenClasses();
      if |ts| > 1 {
        assert ts[1..][0] == ts[1];
        OpenKind(ts[1]);
      }
    } else {
      SymbolKind(tok);
    }
  }

  lemma OpenKind(tok: string)
    ensures Kind(tok) == LParen <==> tok == "("
  {
  }

  lemma IdentifierKind(tok: string)
    requires IsIdentifier(tok)
    ensures var upper := ToUpper(tok);
      Kind(tok) == if upper == "OR" then Key(OR) else if upper == "AND" then Key(AND) else if upper == "NOT" then Key(NOT) else Word
    ensures tok != "?" && !IsPunctuation(tok) && !IsOperator(tok)
    ensures Kind(tok) == Word ==> WordLike(Classify(tok))
    ensures SplitDots(TrimHash(tok)) == [tok]
  {
    assert tok[0] != '?' && tok[0] != '#' && tok[0] != '(' && tok[0] != ')' && tok[0] != ',';
    assert tok[0] != '=' && tok[0] != '<' && tok[0] != '>';
    assert '.' !in tok;
  }

  lemma SymbolKind(tok: string)
    requires tok == "?" || IsPunctuation(tok) || IsOperator(tok)
    ensures |tok| > 0 && !IsLogical(ToUpper(tok))
    ensures tok == "?" ==> Kind(tok) == ValueRef && !IsPunctuation(tok) && !IsOperator(tok)
    ensures tok != "?" ==> Copied(Kind(tok)) && Classify(tok) == Kind(tok)
  {
    assert |tok| > 0 && ToUpper(tok)[0] == tok[0];
    assert tok[0] != 'A' && tok[0] != 'O' && tok[0] != 'N';
  }

  // ---- The simulation ----

  /** The builder's outcome b on ts, seen through the translation, is m. */
  ghost predicate Agree(b: Built<Node>, ts: seq<string>, k: nat, m: Parsed<Node>, env: Env) {
    b.Built? && Good(b.value) ==>
      && m == Parsed(b.value, Outputs(b.rest, b.used))
      && Ready(b.rest, env)
      && b.used + CountValues(b.rest) == k + CountValues(ts)
  }

  /** A complete condition can only be followed by these. */
  predicate Ended(b: Built<Node>) {
    b.Built? ==> NextKind(b.rest) == End || NextKind(b.rest) == RParen || NextKind(b.rest) == Key(AND) || NextKind(b.rest) == Key(OR)
  }

  ghost predicate Fits(ts: seq<string>, args: seq<AttributeValue>, env: Env) {
    Ready(ts, env) && HasValues(env.values, args, 0)
  }

  lemma {:induction false} OrTailKeeps(left: Node, ts: seq<string>, args: seq<AttributeValue>, k: nat)
    ensures var b := BuildOrTail(left, ts, args, k); b.Built? && Good(b.value) ==> Good(left)
    decreases |ts|
  {
    if NextKind(ts) == Key(OR) {
      var b := BuildAnd(ts[1..], args, k);
      if b.Built? {
        OrTailKeeps(OrNode(left, b.value), b.rest, args, b.used);
      }
    }
  }

  lemma {:induction false} AndTailKeeps(left: Node, ts: seq<string>, args: seq<AttributeValue>, k: nat)
    ensures var b := BuildAndTail(left, ts, args, k); b.Built? && Good(b.value) ==> Good(left)
    decreases |ts|
  {
    if NextKind(ts) == Key(AND) {
      var b := BuildNot(ts[1..], args, k);
      if b.Built? {
        AndTailKeeps(AndNode(left, b.value), b.rest, args, b.used);
      }
    }
  }

  lemma {:induction false} AllGoodSnoc(ns: seq<Node>, n: Node)
    ensures AllGood(ns + [n]) <==> AllGood(ns) && Good(n)
  {
    if ns == [] {
      assert ns + [n] == [n];
    } else {
      assert (ns + [n])[1..] == ns[1..] + [n];
      AllGoodSnoc(ns[1..], n);
    }
  }

  lemma {:induction false} ArgsKeep(nodes: seq<Node>, ts: seq<string>, args: seq<AttributeValue>, k: nat)
    ensures var b := BuildArgs(nodes, ts, args, k); b.Built? && AllGood(b.value) ==> AllGood(nodes)
    decreases |ts|
  {
    hide Good, AllGood, NextKind, BuildPrimary;
    if NextKind(ts) != RParen && (|nodes| > 0 ==> NextKind(ts) == Comma) {
      var b := BuildPrimary(if |nodes| > 0 then ts[1..] else ts, args, k);
      if b.Built? {
        ArgsKeep(nodes + [b.value], b.rest, args, b.used);
        AllGoodSnoc(nodes, b.value);
      }
    }
  }

  lemma {:induction false} OrAgrees(ts: seq<string>, args: seq<AttributeValue>, k: nat, env: Env)
    requires Fits(ts, args, env) && Ended(BuildOr(ts, args, k))
    ensures Agree(BuildOr(ts, args, k), ts, k, ParseOr(Outputs(ts, k), env), env)
    decreases |ts|, 7
  {
    hide NextKind, Next, Outputs, CountValues, Ready, HasValues, Good;
    var b := BuildAnd(ts, args, k);
    if b.Built? {
      if BuildOrTail(b.value, b.rest, args, b.used).Built? {
        OrTailKeeps(b.value, b.rest, args, b.used);
        OrTailStarts(b.value, b.rest, args, b.used);
        AndAgrees(ts, args, k, env);
        if Good(b.value) {
          OrTailAgrees(b.value, b.rest, args, b.used, env);
        }
      }
    }
  }

  lemma OrTailStarts(left: Node, ts: seq<string>, args: seq<AttributeValue>, k: nat)
    requires Ended(BuildOrTail(left, ts, args, k)) && BuildOrTail(left, ts, args, k).Built?
    ensures Ended(Built(left, ts, k))
  {
  }

  lemma AndTailStarts(left: Node, ts: seq<string>, args: seq<AttributeValue>, k: nat)
    requires Ended(BuildAndTail(left, ts, args, k)) && BuildAndTail(left, ts, args, k).Built?
    ensures Ended(Built(left, ts, k))
  {
  }

  lemma {:induction false} OrTailAgrees(left: Node, ts: seq<string>, args: seq<AttributeValue>, k: nat, env: Env)
    requires Fits(ts, args, env) && Ended(BuildOrTail(left, ts, args, k))
    ensures Agree(BuildOrTail(left, ts, args, k), ts, k, OrTail(left, Outputs(ts, k), env), env)
    decreases |ts|, 6
  {
    HeadImage(ts, k, env);
    hide NextKind, Next, Outputs, CountValues, Ready, HasValues;
    if NextKind(ts) == Key(OR) {
      var b := BuildAnd(ts[1..], args, k);
      if b.Built? {
        var both := OrNode(left, b.value);
        OrTailKeeps(both, b.rest, args, b.used);
        if BuildOrTail(both, b.rest, args, b.used).Built? {
          OrTailStarts(both, b.rest, args, b.used);
          AndAgrees(ts[1..], args, k, env);
          if Good(b.value) {
            OrTailAgrees(both, b.rest, args, b.used, env);
          }
        }
      }
    }
  }

  lemma {:induction false} AndAgrees(ts: seq<string>, args: seq<AttributeValue>, k: nat, env: Env)
    requires Fits(ts, args, env) && Ended(BuildAnd(ts, args, k))
    ensures Agree(BuildAnd(ts, args, k), ts, k, ParseAnd(Outputs(ts, k), env), env)
    decreases |ts|, 5
  {
    hide NextKind, Next, Outputs, CountValues, Ready, HasValues, Good;
    var b := BuildNot(ts, args, k);
    if b.Built? {
      if BuildAndTail(b.value, b.rest, args, b.used).Built? {
        AndTailKeeps(b.value, b.rest, args, b.used);
        AndTailStarts(b.value, b.rest, args, b.used);
        NotAgrees(ts, args, k, env);
        if Good(b.value) {
          AndTailAgrees(b.value, b.rest, args, b.used, env);
        }
      }
    }
  }

  lemma {:induction false} AndTailAgrees(left: Node, ts: seq<string>, args: seq<AttributeValue>, k: nat, env: Env)
    requires Fits(ts, args, env) && Ended(BuildAndTail(left, ts, args, k))
    ensures Agree(BuildAndTail(left, ts, args, k), ts, k, AndTail(left, Outputs(ts, k), env), env)
    decreases |ts|, 4
  {
    HeadImage(ts, k, env);
    hide NextKind, Next, Outputs, CountValues, Ready, HasValues;
    if NextKind(ts) == Key(AND) {
      var b := BuildNot(ts[1..], args, k);
      if b.Built? {
        var both := AndNode(left, b.value);
        AndTailKeeps(both, b.rest, args, b.used);
        if BuildAndTail(both, b.rest, args, b.used).Built? {
          AndTailStarts(both, b.rest, args, b.used);
          NotAgrees(ts[1..], args, k, env);
          if Good(b.value) {
            AndTailAgrees(both, b.rest, args, b.used, env);
          }
        }
      }
    }
  }

  lemma NotIsMirrored(ts: seq<string>, k: nat, env: Env)
    requires Ready(ts, env)
    ensures Next(Outputs(ts, k)) == Key(NOT) <==> NextKind(ts) == Key(NOT)
  {
    HeadImage(ts, k, env);
    hide NextKind, Next, Outputs, CountValues, Ready;
  }

  lemma GoodNot()
    ensures forall x :: Good(NotNode(x)) == Good(x)
  {
  }

  lemma {:induction false} NotAgrees(ts: seq<string>, args: seq<AttributeValue>, k: nat, env: Env)
    requires Fits(ts, args, env) && Ended(BuildNot(ts, args, k))
    ensures Agree(BuildNot(ts, args, k), ts, k, ParseNot(Outputs(ts, k), env), env)
    decreases |ts|, 3
  {
    HeadImage(ts, k, env);
    NotIsMirrored(ts, k, env);
    hide NextKind, Next, Outputs, CountValues, Ready, HasValues, Good, BuildComparison, ParseComparison;
    if NextKind(ts) == Key(NOT) {
      GoodNot();
      NotAgrees(ts[1..], args, k, env);
    } else {
      ComparisonAgrees(ts, args, k, env);
    }
  }

  lemma OpenMirrored(ts: seq<string>, k: nat, env: Env)
    requires Ready(ts, env)
    ensures Next(Outputs(ts, k)) == LParen <==> NextKind(ts) == LParen
    ensures NextKind(ts) == LParen ==>
      Outputs(ts, k)[1..] == Outputs(ts[1..], k) && CountValues(ts) == CountValues(ts[1..]) && Ready(ts[1..], env)
  {
    HeadImage(ts, k, env);
    hide NextKind, Next, Ready, Outputs, CountValues;
  }

  lemma {:induction false} ComparisonAgrees(ts: seq<string>, args: seq<AttributeValue>, k: nat, env: Env)
    requires Fits(ts, args, env) && Ended(BuildComparison(ts, args, k))
    ensures Agree(BuildComparison(ts, args, k), ts, k, ParseComparison(Outputs(ts, k), env), env)
    decreases |ts|, 2
  {
    OpenMirrored(ts, k, env);
    hide NextKind, Next, Outputs, CountValues, Ready, HasValues, Good, BuildPrimary, ParsePrimary, BuildOr, ParseOr;
    if NextKind(ts) == LParen {
      var b := BuildOr(ts[1..], args, k);
      if b.Built? && NextKind(b.rest) == RParen {
        OrAgrees(ts[1..], args, k, env);
        if Good(b.value) {
          SeparatorsMirrored(b.rest, b.used, env);
        }
      }
    } else {
      var b := BuildPrimary(ts, args, k);
      if b.Built? {
        OperatorKeeps(b.value, b.rest, args, b.used);
        PrimaryAgrees(ts, args, k, env);
        if Good(b.value) {
          OperatorAgrees(b.value, b.rest, args, b.used, env);
        }
      }
    }
  }

  lemma OperatorKeeps(left: Node, ts: seq<string>, args: seq<AttributeValue>, k: nat)
    ensures var b := BuildOperator(left, ts, args, k); b.Built? && Good(b.value) ==> Good(left)
  {
    hide NextKind, BuildPrimary;
  }

  lemma {:induction false} OperatorAgrees(left: Node, ts: seq<string>, args: seq<AttributeValue>, k: nat, env: Env)
    requires Fits(ts, args, env) && Ended(BuildOperator(left, ts, args, k))
    ensures Agree(BuildOperator(left, ts, args, k), ts, k, ComparisonTail(left, Outputs(ts, k), env), env)
    decreases |ts|, 1
  {
    HeadImage(ts, k, env);
    hide NextKind, Next, Outputs, CountValues, Ready, HasValues;
    if NextKind(ts).Op? {
      PrimaryAgrees(ts[1..], args, k, env);
    }
  }

  lemma {:induction false} PrimaryAgrees(ts: seq<string>, args: seq<AttributeValue>, k: nat, env: Env)
    requires Fits(ts, args, env)
    ensures Agree(BuildPrimary(ts, args, k), ts, k, ParsePrimary(Outputs(ts, k), env), env)
    decreases |ts|, 0
  {
    FitsIs(ts, args, env);
    hide *;
    HeadImage(ts, k, env);
    var b, m := BuildPrimary(ts, args, k), ParsePrimary(Outputs(ts, k), env);
    NotGoodAgrees(b, ts, k, m, env);
    if b.Built? && Good(b.value) {
      PrimaryKinds(ts, args, k);
      if NextKind(ts) == ValueRef {
        ValueAgrees(ts, args, k, env);
      } else if NextKind(ts) == Word {
        if NextKind(ts[1..]) == LParen {
          WordIsCall(ts, args, k, env);
        } else {
          WordIsPath(ts, args, k, env);
        }
      }
    }
  }

  lemma NotGoodAgrees(b: Built<Node>, ts: seq<string>, k: nat, m: Parsed<Node>, env: Env)
    ensures b.Rejected? || !Good(b.value) ==> Agree(b, ts, k, m, env)
  {
  }

  lemma PrimaryKinds(ts: seq<string>, args: seq<AttributeValue>, k: nat)
    requires ts != [] && BuildPrimary(ts, args, k).Built? && Good(BuildPrimary(ts, args, k).value)
    requires NextKind(ts).Key? ==> IsLogical(ToUpper(ts[0])) && SplitDots(TrimHash(ts[0])) == [ts[0]]
    ensures NextKind(ts) == ValueRef || NextKind(ts) == Word
  {
    hide NextKind, Good;
    if NextKind(ts).Key? {
      KeywordIsNoOperand(ts, args, k);
    }
  }

  lemma ValueAgrees(ts: seq<string>, args: seq<AttributeValue>, k: nat, env: Env)
    requires Ready(ts, env) && HasValues(env.values, args, 0) && NextKind(ts) == ValueRef
    ensures Agree(BuildPrimary(ts, args, k), ts, k, ParsePrimary(Outputs(ts, k), env), env)
  {
    HeadImage(ts, k, env);
    hide NextKind, Next, Ready, Outputs, CountValues;
    if k < |args| {
      assert Lookup(env.values, Placeholder(0 + k)) == Some(args[k]);
    }
  }

  lemma KeywordIsNoOperand(ts: seq<string>, args: seq<AttributeValue>, k: nat)
    requires ts != [] && IsLogical(ToUpper(ts[0])) && SplitDots(TrimHash(ts[0])) == [ts[0]]
    ensures var b := BuildWord(ts[0], ts[1..], args, k); b.Built? ==> !Good(b.value)
  {
    hide NextKind, BuildArgs;
  }

  lemma WordIsPath(ts: seq<string>, args: seq<AttributeValue>, k: nat, env: Env)
    requires Ready(ts, env) && HasValues(env.values, args, 0) && NextKind(ts) == Word && NextKind(ts[1..]) != LParen
    ensures Agree(BuildPrimary(ts, args, k), ts, k, ParsePrimary(Outputs(ts, k), env), env)
  {
    PlainWord(ts, env);
    hide *;
    HeadImage(ts, k, env);
    HeadImage(ts[1..], k, env);
    NotOpenEither(ts[1..], k, env);
    BuildPath(ts, args, k);
    PathParses(Outputs(ts, k), ts[0], env);
    AgreeIs(BuildPrimary(ts, args, k), ts, k, ParsePrimary(Outputs(ts, k), env), env);
  }

  lemma NotOpenEither(ts: seq<string>, k: nat, env: Env)
    requires Ready(ts, env) && NextKind(ts) != LParen
    ensures Next(Outputs(ts, k)) != LParen
  {
    HeadImage(ts, k, env);
    hide NextKind, Next, Ready, Outputs, CountValues;
  }

  lemma BuildPath(ts: seq<string>, args: seq<AttributeValue>, k: nat)
    requires NextKind(ts) == Word && NextKind(ts[1..]) != LParen && SplitDots(TrimHash(ts[0])) == [ts[0]]
    ensures BuildPrimary(ts, args, k) == Built(PathNode([ts[0]]), ts[1..], k)
  {
    hide NextKind;
    assert BuildPrimary(ts, args, k) == BuildWord(ts[0], ts[1..], args, k);
  }

  /** memdb's reading of an aliased name. */
  lemma PathParses(ts: seq<string>, name: string, env: Env)
    requires Next(ts) == NameRef && Lookup(env.names, Peek(ts)) == Some(name) && SplitDots(name) == [name]
    requires Next(ts[1..]) != LParen
    ensures ParsePrimary(ts, env) == Parsed(PathNode([name]), ts[1..])
  {
    hide Next, FuncCall;
  }

  lemma PlainWord(ts: seq<string>, env: Env)
    requires Ready(ts, env) && NextKind(ts) == Word
    ensures SplitDots(ts[0]) == [ts[0]]
  {
    if IsIdentifier(ts[0]) {
      IdentifierKind(ts[0]);
      assert '.' !in ts[0];
    } else {
      SymbolKind(ts[0]);
    }
  }

  lemma BuildCall(ts: seq<string>, args: seq<AttributeValue>, k: nat)
    requires NextKind(ts) == Word && NextKind(ts[1..]) == LParen
    ensures BuildPrimary(ts, args, k) ==
      match BuildArgs([], ts[1..][1..], args, k)
      case Built(nodes, rest, k') => Built(FuncNode(ts[0], nodes), rest, k')
      case Rejected => Rejected
    ensures forall nodes :: Good(FuncNode(ts[0], nodes)) <==> KnownFunction(ts[0]) && AllGood(nodes)
  {
    hide NextKind, BuildArgs, KnownFunction, AllGood;
    assert BuildPrimary(ts, args, k) == BuildWord(ts[0], ts[1..], args, k);
  }

  lemma {:induction false} WordIsCall(ts: seq<string>, args: seq<AttributeValue>, k: nat, env: Env)
    requires Ready(ts, env) && HasValues(env.values, args, 0)
    requires NextKind(ts) == Word && NextKind(ts[1..]) == LParen
    requires BuildPrimary(ts, args, k).Built? && Good(BuildPrimary(ts, args, k).value)
    ensures Agree(BuildPrimary(ts, args, k), ts, k, ParsePrimary(Outputs(ts, k), env), env)
    decreases |ts|, 0, 0
  {
    hide *;
    BuildCall(ts, args, k);
    HeadImage(ts, k, env);
    HeadImage(ts[1..], k, env);
    var tok, out, inner := ts[0], Outputs(ts, k), ts[1..][1..];
    KnownNames(tok);
    FitsIs(inner, args, env);
    ArgsAgree([], inner, args, k, env);
    CallParses(out, tok, env);
    AgreeIs(BuildPrimary(ts, args, k), ts, k, ParsePrimary(out, env), env);
  }

  lemma FitsIs(ts: seq<string>, args: seq<AttributeValue>, env: Env)
    ensures Fits(ts, args, env) <==> Ready(ts, env) && HasValues(env.values, args, 0)
  {
  }

  lemma AgreeIs(b: Built<Node>, ts: seq<string>, k: nat, m: Parsed<Node>, env: Env)
    requires b.Built? && m == Parsed(b.value, Outputs(b.rest, b.used)) && Ready(b.rest, env)
    requires b.used + CountValues(b.rest) == k + CountValues(ts)
    ensures Agree(b, ts, k, m, env)
  {
  }

  /** memdb's reading of a known function name before a parenthesis. */
  lemma CallParses(ts: seq<string>, name: string, env: Env)
    requires ts != [] && Peek(ts) == name && Classify(name) == Word && ToLower(name) == name && KnownFunction(name)
    requires Next(ts[1..]) == LParen
    ensures ParsePrimary(ts, env) ==
      match ArgsLoop([], ts[1..][1..], env)
      case Parsed(nodes, rest) => Parsed(FuncNode(name, nodes), rest)
      case Failed => Failed
  {
    hide Classify, KnownFunction, ArgsLoop;
  }

  lemma SeparatorsMirrored(ts: seq<string>, k: nat, env: Env)
    requires Ready(ts, env)
    ensures Next(Outputs(ts, k)) == RParen <==> NextKind(ts) == RParen
    ensures Next(Outputs(ts, k)) == Class.Comma <==> NextKind(ts) == Class.Comma
    ensures NextKind(ts) == RParen || NextKind(ts) == Class.Comma ==>
      Outputs(ts, k)[1..] == Outputs(ts[1..], k) && CountValues(ts) == CountValues(ts[1..]) && Ready(ts[1..], env)
  {
    HeadImage(ts, k, env);
    hide NextKind, Next, Ready, Outputs, CountValues;
  }

  lemma {:induction false} ArgsAgree(nodes: seq<Node>, ts: seq<string>, args: seq<AttributeValue>, k: nat, env: Env)
    requires Fits(ts, args, env)
    ensures var b := BuildArgs(nodes, ts, args, k);
      b.Built? && AllGood(b.value) ==>
        && ArgsLoop(nodes, Outputs(ts, k), env) == Parsed(b.value, Outputs(b.rest, b.used))
        && Ready(b.rest, env)
        && b.used + CountValues(b.rest) == k + CountValues(ts)
    decreases |ts|, 1
  {
    FitsIs(ts, args, env);
    SeparatorsMirrored(ts, k, env);
    hide NextKind, Next, Outputs, CountValues, Ready, HasValues, Good, AllGood, BuildPrimary, ParsePrimary;
    if NextKind(ts) != RParen && (|nodes| > 0 ==> NextKind(ts) == Class.Comma) {
      var from := if |nodes| > 0 then ts[1..] else ts;
      var b := BuildPrimary(from, args, k);
      if b.Built? && BuildArgs(nodes + [b.value], b.rest, args, b.used).Built? {
        ArgsKeep(nodes + [b.value], b.rest, args, b.used);
        AllGoodSnoc(nodes, b.value);
        PrimaryAgrees(from, args, k, env);
        if Good(b.value) {
          ArgsAgree(nodes + [b.value], b.rest, args, b.used, env);
        }
      }
    }
  }

  // ---- The translated string ----

  /** Each printed token is one memdb token. */
  lemma OutputIsToken(ts: seq<string>, k: nat)
    requires ts != [] && PlainToken(ts[0])
    ensures var text := OutputText(OutputOf(ts), k); MemTokens(text) == [text]
  {
    var tok, upper := ts[0], ToUpper(ts[0]);
    hide MemTokens;
    if IsIdentifier(tok) {
      IdentifierKind(tok);
      UpperIdentifier(tok);
      MemTokensIdentifier(tok);
      MemTokensIdentifier(upper);
      MemTokensPlaceholder('#', tok);
      assert ['#'] + tok == Alias(tok);
    } else {
      SymbolKind(tok);
      if tok == "?" {
        MemTokensPlaceholderNumber(k);
      } else {
        SymbolIsToken(tok);
      }
    }
  }

  lemma UpperIdentifier(tok: string)
    requires IsIdentifier(tok)
    ensures IsIdentifier(ToUpper(tok))
  {
    forall i | 0 <= i < |tok|
      ensures IsIdentPart(ToUpper(tok)[i])
    {
      assert IsIdentPart(tok[i]);
    }
  }

  lemma SymbolIsToken(tok: string)
    requires IsPunctuation(tok) || IsOperator(tok)
    ensures MemTokens(tok) == [tok]
  {
    hide MemTokens;
    NothingToScan();
    if IsPunctuation(tok) {
      assert tok == [tok[0]] + "";
      MemTokensPunct(tok[0], "");
    } else {
      MemTokensOperator(tok);
    }
  }

  lemma {:induction false} JoinedOutputsAreTokens(ts: seq<string>, k: nat)
    requires PlainTokens(ts)
    ensures MemTokens(Join(Outputs(ts, k), " ")) == Outputs(ts, k)
  {
    hide MemTokens, PlainToken, OutputOf, OutputText;
    if ts == [] {
      NothingToScan();
    } else {
      var text, rest := OutputText(OutputOf(ts), k), Outputs(ts[1..], k + Weight(OutputOf(ts)));
      assert PlainToken(ts[0]);
      OutputIsToken(ts, k);
      assert Outputs(ts, k) == [text] + rest && ([text] + rest)[1..] == rest;
      if |ts| > 1 {
        JoinedOutputsAreTokens(ts[1..], k + Weight(OutputOf(ts)));
        var more := Join(rest, " ");
        assert text + " " + more == text + (" " + more);
        MemTokensConcat(text, " " + more);
        MemTokensBlank(more);
      }
    }
  }

  lemma {:induction false} TranslatedIsReady(ts: seq<string>, env: Env)
    requires PlainTokens(ts) && WellNamed(env.names) && AliasSet(NamesIn(ts)) <= env.names.Keys
    ensures Ready(ts, env)
  {
    hide PlainToken;
    if ts != [] {
      assert PlainToken(ts[0]);
      TranslatedNames(ts, env.names);
      TranslatedIsReady(ts[1..], env);
    }
  }

  lemma TranslatedNames(ts: seq<string>, names: map<string, string>)
    requires ts != [] && WellNamed(names) && AliasSet(NamesIn(ts)) <= names.Keys
    ensures OutputOf(ts).Name? ==> Lookup(names, Alias(ts[0])) == Some(ts[0])
    ensures AliasSet(NamesIn(ts[1..])) <= names.Keys
  {
    OutputNamesItsToken(ts);
    hide OutputOf;
    assert NamesIn(ts[1..]) <= NamesIn(ts);
    if OutputOf(ts).Name? {
      assert ts[0] in NamesIn(ts);
      assert Alias(ts[0]) in names;
      assert Alias(ts[0])[1..] == Alias(names[Alias(ts[0])])[1..];
    }
  }

  lemma OutputNamesItsToken(ts: seq<string>)
    requires ts != []
    ensures OutputOf(ts).Name? ==> OutputOf(ts).name == ts[0]
  {
  }

  /** Whenever ParseCondition accepts an expression over plain names and known
      functions, buildCondition accepts it too, and memdb reads the result as the
      same tree with the same values in the same places. */
  lemma FrontEndsAgree(expression: string, args: seq<AttributeValue>, r: Result<ConditionExpr>)
    requires Translated(BuilderTokens(expression), args, r)
    requires PlainTokens(BuilderTokens(expression))
    requires ParseCondition(expression, args).Ok? && Good(ParseCondition(expression, args).value)
    ensures r.Ok? && ParseExpression(r.value.expression, r.value.Environment()) == ParseCondition(expression, args)
  {
    var ts := BuilderTokens(expression);
    var b := BuildOr(ts, args, 0);
    assert b.Built? && b.rest == [] && b.used == |args|;
    assert Outputs([], b.used) == [] && CountValues([]) == 0 && NextKind([]) == End;
    var names := map n | n in AliasSet(NamesIn(ts)) :: n[1..];
    var env := if r.Ok? then r.value.Environment() else Env(names, AddValues(map[], args, 0));
    AliasesAreWellNamed(NamesIn(ts));
    AddedValuesAreFound(map[], args, 0);
    TranslatedIsReady(ts, env);
    JoinedOutputsAreTokens(ts, 0);
    hide BuilderTokens, BuildOr, ParseOr, Outputs, CountValues, MemTokens, Good, PlainTokens, AddValues, HasValues, Ready, WellNamed;
    OrAgrees(ts, args, 0, env);
  }

  lemma AliasesAreWellNamed(names: set<string>)
    ensures WellNamed(map n | n in AliasSet(names) :: n[1..])
  {
    forall n | n in AliasSet(names)
      ensures n == Alias(n[1..])
    {
      var x :| x in names && n == Alias(x);
      assert n[1..] == x;
    }
  }
}
