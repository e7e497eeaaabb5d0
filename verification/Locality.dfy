/** What memdb's condition parser depends on: only the tokens it consumes, only
    the placeholders among them, and the placeholders' values only as leaves of
    the tree it builds. */
module Locality {
  import opened Base
  import opened Values
  import opened Ast
  import opened Parser

  // ---- Trees whose values are still placeholders ----

  predicate IsRef(v: AttributeValue, values: map<string, AttributeValue>) {
    v.S? && v.s != "" && v.s[0] == ':' && v.s in values
  }

  /** Replace every placeholder leaf by its value. */
  function Fill(n: Node, values: map<string, AttributeValue>): Node {
    match n
    case CompareNode(l, op, r) => CompareNode(Fill(l, values), op, Fill(r, values))
    case AndNode(l, r) => AndNode(Fill(l, values), Fill(r, values))
    case OrNode(l, r) => OrNode(Fill(l, values), Fill(r, values))
    case NotNode(x) => NotNode(Fill(x, values))
    case FuncNode(name, args) => FuncNode(name, FillAll(args, values))
    case PathNode(_) => n
    case ValueNode(v) => if IsRef(v, values) then ValueNode(values[v.s]) else n
  }

  function FillAll(ns: seq<Node>, values: map<string, AttributeValue>): (fs: seq<Node>)
    ensures |fs| == |ns|
  {
    if ns == [] then [] else [Fill(ns[0], values)] + FillAll(ns[1..], values)
  }

  /** The placeholders in a tree. */
  function Refs(n: Node): set<string> {
    match n
    case CompareNode(l, _, r) => Refs(l) + Refs(r)
    case AndNode(l, r) => Refs(l) + Refs(r)
    case OrNode(l, r) => Refs(l) + Refs(r)
    case NotNode(x) => Refs(x)
    case FuncNode(_, args) => RefsAll(args)
    case PathNode(_) => {}
    case ValueNode(v) => if v.S? && v.s != "" && v.s[0] == ':' then {v.s} else {}
  }

  function RefsAll(ns: seq<Node>): set<string> {
    if ns == [] then {} else Refs(ns[0]) + RefsAll(ns[1..])
  }

  /** The environment in which every placeholder stands for itself. */
  function Symbolic(env: Env): Env {
    Env(env.names, map k | k in env.values :: S(k))
  }

  ghost predicate Extends(env: Env, wider: Env) {
    && (forall k :: k in env.names ==> Lookup(wider.names, k) == Some(env.names[k]))
    && (forall k :: k in env.values ==> k in wider.values)
  }

  lemma {:induction false} FillAllSnoc(ns: seq<Node>, n: Node, values: map<string, AttributeValue>)
    ensures FillAll(ns + [n], values) == FillAll(ns, values) + [Fill(n, values)]
    ensures RefsAll(ns + [n]) == RefsAll(ns) + Refs(n)
  {
    if ns == [] {
      assert ns + [n] == [n];
    } else {
      assert (ns + [n])[1..] == ns[1..] + [n];
      FillAllSnoc(ns[1..], n, values);
    }
  }

  // ---- Appending tokens that start with a closing parenthesis ----

  /** Nothing, or a text that continues after a closing parenthesis. */
  predicate Closing(ext: seq<string>) { ext == [] || Next(ext) == RParen }

  lemma Shift(ts: seq<string>, ext: seq<string>)
    requires Closing(ext)
    ensures Next(ts) != End ==>
      Next(ts + ext) == Next(ts) && Peek(ts + ext) == Peek(ts) && (ts + ext)[1..] == ts[1..] + ext
    ensures Next(ts) == End && ts != [] ==> Next(ts + ext) == End
    ensures ts == [] ==> ts + ext == ext && (Next(ts + ext) == End || Next(ts + ext) == RParen)
  {
    assert Next([]) == End;
    hide Classify;
  }

  /** The two environments know the same placeholders. */
  predicate SameKeys(env: Env, wider: Env) {
    wider.names.Keys == env.names.Keys && wider.values.Keys == env.values.Keys
  }

  /** A tree found with the symbolic environment carries over to the wider one;
      and so does a failure, when nothing is appended or newly defined. */
  ghost predicate Carries(p: Parsed<Node>, q: Parsed<Node>, ext: seq<string>, env: Env, wider: Env) {
    && (p.Parsed? ==> q == Parsed(Fill(p.value, wider.values), p.rest + ext))
    && (p.Parsed? ==> Refs(p.value) <= env.values.Keys)
    && (p.Failed? && ext == [] && SameKeys(env, wider) ==> q.Failed?)
  }

  lemma {:induction false} OrLocal(ts: seq<string>, env: Env, ext: seq<string>, wider: Env)
    requires Closing(ext) && Extends(env, wider)
    ensures Carries(ParseOr(ts, Symbolic(env)), ParseOr(ts + ext, wider), ext, env, wider)
    decreases |ts|, 7
  {
    hide Next, Symbolic, Fill, Refs, Extends;
    AndLocal(ts, env, ext, wider);
    match ParseAnd(ts, Symbolic(env))
    case Failed =>
    case Parsed(left, rest) => OrTailLocal(left, rest, env, ext, wider);
  }

  lemma {:induction false} OrTailLocal(left: Node, ts: seq<string>, env: Env, ext: seq<string>, wider: Env)
    requires Closing(ext) && Extends(env, wider) && Refs(left) <= env.values.Keys
    ensures Carries(OrTail(left, ts, Symbolic(env)), OrTail(Fill(left, wider.values), ts + ext, wider), ext, env, wider)
    decreases |ts|, 6
  {
    hide Next, Symbolic, Extends;
    Shift(ts, ext);
    if Next(ts) == Key(OR) {
      AndLocal(ts[1..], env, ext, wider);
      match ParseAnd(ts[1..], Symbolic(env))
      case Failed =>
      case Parsed(right, rest) => OrTailLocal(OrNode(left, right), rest, env, ext, wider);
    }
  }

  lemma {:induction false} AndLocal(ts: seq<string>, env: Env, ext: seq<string>, wider: Env)
    requires Closing(ext) && Extends(env, wider)
    ensures Carries(ParseAnd(ts, Symbolic(env)), ParseAnd(ts + ext, wider), ext, env, wider)
    decreases |ts|, 5
  {
    hide Next, Symbolic, Fill, Refs, Extends;
    NotLocal(ts, env, ext, wider);
    match ParseNot(ts, Symbolic(env))
    case Failed =>
    case Parsed(left, rest) => AndTailLocal(left, rest, env, ext, wider);
  }

  lemma {:induction false} AndTailLocal(left: Node, ts: seq<string>, env: Env, ext: seq<string>, wider: Env)
    requires Closing(ext) && Extends(env, wider) && Refs(left) <= env.values.Keys
    ensures Carries(AndTail(left, ts, Symbolic(env)), AndTail(Fill(left, wider.values), ts + ext, wider), ext, env, wider)
    decreases |ts|, 4
  {
    hide Next, Symbolic, Extends;
    Shift(ts, ext);
    if Next(ts) == Key(AND) {
      NotLocal(ts[1..], env, ext, wider);
      match ParseNot(ts[1..], Symbolic(env))
      case Failed =>
      case Parsed(right, rest) => AndTailLocal(AndNode(left, right), rest, env, ext, wider);
    }
  }

  lemma {:induction false} NotLocal(ts: seq<string>, env: Env, ext: seq<string>, wider: Env)
    requires Closing(ext) && Extends(env, wider)
    ensures Carries(ParseNot(ts, Symbolic(env)), ParseNot(ts + ext, wider), ext, env, wider)
    decreases |ts|, 3
  {
    hide Next, Symbolic, Extends;
    Shift(ts, ext);
    if Next(ts) == Key(NOT) {
      NotLocal(ts[1..], env, ext, wider);
    } else {
      ComparisonLocal(ts, env, ext, wider);
    }
  }

  lemma {:induction false} ComparisonLocal(ts: seq<string>, env: Env, ext: seq<string>, wider: Env)
    requires Closing(ext) && Extends(env, wider)
    ensures Carries(ParseComparison(ts, Symbolic(env)), ParseComparison(ts + ext, wider), ext, env, wider)
    decreases |ts|, 2
  {
    hide Next, Symbolic, Fill, Refs, Extends;
    Shift(ts, ext);
    if Next(ts) == LParen {
      OrLocal(ts[1..], env, ext, wider);
      match ParseOr(ts[1..], Symbolic(env))
      case Failed =>
      case Parsed(_, rest) => Shift(rest, ext);
    } else {
      PrimaryLocal(ts, env, ext, wider);
      match ParsePrimary(ts, Symbolic(env))
      case Failed =>
      case Parsed(left, rest) => ComparisonTailLocal(left, rest, env, ext, wider);
    }
  }

  lemma {:induction false} ComparisonTailLocal(left: Node, ts: seq<string>, env: Env, ext: seq<string>, wider: Env)
    requires Closing(ext) && Extends(env, wider) && Refs(left) <= env.values.Keys
    ensures Carries(ComparisonTail(left, ts, Symbolic(env)), ComparisonTail(Fill(left, wider.values), ts + ext, wider), ext, env, wider)
    decreases |ts|, 1
  {
    hide Next, Symbolic, Extends, SameKeys, ParsePrimary, BetweenTail, InList, Fill, Refs;
    Shift(ts, ext);
    match Next(ts)
    case Key(BETWEEN) =>
      BetweenLocal(left, ts[1..], env, ext, wider);
    case Key(IN) =>
      DropTwo(ts, ext);
      if Next(ts[1..]) == LParen {
        InLocal(left, None, ts[2..], env, ext, wider);
      }
    case Op(op) =>
      PrimaryLocal(ts[1..], env, ext, wider);
      var r := ParsePrimary(ts[1..], Symbolic(env));
      if r.Parsed? {
        FillCompare(left, op, r.value, wider.values);
      }
    case _ =>
  }

  lemma FillCompare(left: Node, op: CompareOp, right: Node, values: map<string, AttributeValue>)
    ensures Fill(CompareNode(left, op, right), values) == CompareNode(Fill(left, values), op, Fill(right, values))
    ensures Refs(CompareNode(left, op, right)) == Refs(left) + Refs(right)
  {
  }

  lemma DropTwo(ts: seq<string>, ext: seq<string>)
    requires Closing(ext) && ts != []
    ensures (Next((ts + ext)[1..]) == LParen) == (Next(ts[1..]) == LParen)
    ensures Next(ts[1..]) == LParen ==> (ts + ext)[2..] == ts[2..] + ext
  {
    assert (ts + ext)[1..] == ts[1..] + ext;
    Shift(ts[1..], ext);
  }

  lemma {:induction false} BetweenLocal(left: Node, ts: seq<string>, env: Env, ext: seq<string>, wider: Env)
    requires Closing(ext) && Extends(env, wider) && Refs(left) <= env.values.Keys
    ensures Carries(BetweenTail(left, ts, Symbolic(env)), BetweenTail(Fill(left, wider.values), ts + ext, wider), ext, env, wider)
    decreases |ts|, 1
  {
    hide Next, Symbolic, Extends, SameKeys, ParsePrimary, Fill, Refs;
    PrimaryLocal(ts, env, ext, wider);
    var low := ParsePrimary(ts, Symbolic(env));
    if low.Parsed? {
      Shift(low.rest, ext);
      if Next(low.rest) == Key(AND) {
        PrimaryLocal(low.rest[1..], env, ext, wider);
        var high := ParsePrimary(low.rest[1..], Symbolic(env));
        if high.Parsed? {
          FillBetween(left, low.value, high.value, wider.values);
        }
      }
    }
  }

  lemma FillBetween(left: Node, low: Node, high: Node, values: map<string, AttributeValue>)
    ensures Fill(AndNode(CompareNode(left, GE, low), CompareNode(left, LE, high)), values)
         == AndNode(CompareNode(Fill(left, values), GE, Fill(low, values)), CompareNode(Fill(left, values), LE, Fill(high, values)))
    ensures Refs(AndNode(CompareNode(left, GE, low), CompareNode(left, LE, high))) == Refs(left) + Refs(low) + Refs(high)
  {
    FillCompare(left, GE, low, values);
    FillCompare(left, LE, high, values);
  }

  function FillOption(n: Option<Node>, values: map<string, AttributeValue>): Option<Node> {
    match n case Some(x) => Some(Fill(x, values)) case None => None
  }

  lemma {:induction false} InLocal(left: Node, node: Option<Node>, ts: seq<string>, env: Env, ext: seq<string>, wider: Env)
    requires Closing(ext) && Extends(env, wider) && Refs(left) <= env.values.Keys
    requires node.Some? ==> Refs(node.value) <= env.values.Keys
    ensures Carries(InList(left, node, ts, Symbolic(env)),
              InList(Fill(left, wider.values), FillOption(node, wider.values), ts + ext, wider), ext, env, wider)
    decreases |ts|, 1
  {
    FillNeverTrue(wider.values);
    hide Next, Symbolic, Extends, SameKeys, Fill, Refs, ParsePrimary, NeverTrue;
    Shift(ts, ext);
    if Next(ts) != RParen && (node.Some? ==> Next(ts) == Comma) {
      var from := if node.Some? then ts[1..] else ts;
      PrimaryLocal(from, env, ext, wider);
      var val := ParsePrimary(from, Symbolic(env));
      if val.Parsed? {
        var cmp := CompareNode(left, EQ, val.value);
        FillCompare(left, EQ, val.value, wider.values);
        if node.Some? {
          FillOr(node.value, cmp, wider.values);
        }
        InLocal(left, Some(match node case Some(n) => OrNode(n, cmp) case None => cmp), val.rest, env, ext, wider);
      }
    }
  }

  lemma FillNeverTrue(values: map<string, AttributeValue>)
    ensures Fill(NeverTrue(), values) == NeverTrue() && Refs(NeverTrue()) == {}
  {
  }

  lemma FillOr(left: Node, right: Node, values: map<string, AttributeValue>)
    ensures Fill(OrNode(left, right), values) == OrNode(Fill(left, values), Fill(right, values))
    ensures Refs(OrNode(left, right)) == Refs(left) + Refs(right)
  {
  }

  lemma {:induction false} PrimaryLocal(ts: seq<string>, env: Env, ext: seq<string>, wider: Env)
    requires Closing(ext) && Extends(env, wider)
    ensures Carries(ParsePrimary(ts, Symbolic(env)), ParsePrimary(ts + ext, wider), ext, env, wider)
    decreases |ts|, 0
  {
    hide Next, Extends, Symbolic, SplitDots, FuncCall, Fill, Refs;
    Shift(ts, ext);
    match Next(ts)
    case ValueRef =>
      RefsLookUp(ts, env, wider);
    case NameRef =>
      RefsLookUp(ts, env, wider);
      SymbolicNames(env);
      FillPath(wider.values);
      Shift(ts[1..], ext);
      if Peek(ts) in env.names && Next(ts[1..]) == LParen {
        CallLocal(env.names[Peek(ts)], ts[1..], env, ext, wider);
      }
    case Word =>
      FillPath(wider.values);
      Shift(ts[1..], ext);
      if Next(ts[1..]) == LParen {
        CallLocal(Peek(ts), ts[1..], env, ext, wider);
      }
    case Key(_) =>
      FillPath(wider.values);
    case _ =>
  }

  lemma SymbolicNames(env: Env)
    ensures Symbolic(env).names == env.names && Symbolic(env).values.Keys == env.values.Keys
  {
  }

  lemma FillPath(values: map<string, AttributeValue>)
    ensures forall parts :: Fill(PathNode(parts), values) == PathNode(parts) && Refs(PathNode(parts)) == {}
  {
  }

  lemma {:induction false} CallLocal(name: string, ts: seq<string>, env: Env, ext: seq<string>, wider: Env)
    requires Closing(ext) && Extends(env, wider) && Next(ts) == LParen && Next(ts + ext) == LParen
    ensures Carries(FuncCall(name, ts, Symbolic(env)), FuncCall(name, ts + ext, wider), ext, env, wider)
    decreases |ts|, 1
  {
    NothingFilled(wider.values);
    hide Next, Extends, Symbolic, SameKeys, FillAll, RefsAll, ArgsLoop;
    Shift(ts, ext);
    ArgsLocal([], ts[1..], env, ext, wider);
  }

  lemma NothingFilled(values: map<string, AttributeValue>)
    ensures FillAll([], values) == [] && RefsAll([]) == {}
  {
  }

  /** A value placeholder means the same in both environments. */
  lemma RefsLookUp(ts: seq<string>, env: Env, wider: Env)
    requires Extends(env, wider)
    ensures Next(ts) == ValueRef && Peek(ts) in Symbolic(env).values ==>
      var v := Symbolic(env).values[Peek(ts)];
      Peek(ts) in wider.values && Fill(ValueNode(v), wider.values) == ValueNode(wider.values[Peek(ts)])
      && Refs(ValueNode(v)) == {Peek(ts)} && Peek(ts) in env.values
    ensures SameKeys(env, wider) && Peek(ts) in wider.values ==> Peek(ts) in Symbolic(env).values
    ensures Peek(ts) in env.names ==> Lookup(wider.names, Peek(ts)) == Some(env.names[Peek(ts)])
  {
  }

  lemma {:induction false} ArgsLocal(args: seq<Node>, ts: seq<string>, env: Env, ext: seq<string>, wider: Env)
    requires Closing(ext) && Extends(env, wider) && RefsAll(args) <= env.values.Keys
    ensures var p := ArgsLoop(args, ts, Symbolic(env));
            var q := ArgsLoop(FillAll(args, wider.values), ts + ext, wider);
            && (p.Parsed? ==> q == Parsed(FillAll(p.value, wider.values), p.rest + ext))
            && (p.Parsed? ==> RefsAll(p.value) <= env.values.Keys)
            && (p.Failed? && ext == [] && SameKeys(env, wider) ==> q.Failed?)
    decreases |ts|, 1
  {
    hide Next, Symbolic, Extends, Fill, Refs;
    Shift(ts, ext);
    if Next(ts) != RParen && (|args| > 0 ==> Next(ts) == Comma) {
      var from := if |args| > 0 then ts[1..] else ts;
      PrimaryLocal(from, env, ext, wider);
      match ParsePrimary(from, Symbolic(env))
      case Failed =>
      case Parsed(arg, rest) =>
        FillAllSnoc(args, arg, wider.values);
        ArgsLocal(args + [arg], rest, env, ext, wider);
    }
  }

  // ---- Consequences ----

  /** What memdb makes of tokens whose placeholders stand for themselves. */
  function Shape(ts: seq<string>, env: Env): Result<Node> { ParseTokens(ts, Symbolic(env)) }

  /** The values only ever appear as leaves: parsing is parsing the shape and
      filling it in. */
  lemma ParseIsFilledShape(ts: seq<string>, env: Env)
    ensures ParseTokens(ts, env) ==
      match Shape(ts, env) case Ok(n) => Ok(Fill(n, env.values)) case Err => Err
    ensures Shape(ts, env).Ok? ==> Refs(Shape(ts, env).value) <= env.values.Keys
  {
    hide ParseOr, Fill, Refs;
    assert Extends(env, env) && SameKeys(env, env) && ts + [] == ts;
    hide Extends, Symbolic;
    OrLocal(ts, env, [], env);
    var p := ParseOr(ts, Symbolic(env));
    assert p.Parsed? ==> p.rest + [] == p.rest;
  }

  /** Appending ")" and more tokens to a fully consumed input, and defining more
      placeholders, does not change its parse. */
  lemma ParseIsLocal(ts: seq<string>, env: Env, more: seq<string>, wider: Env)
    requires ParseTokens(ts, env).Ok? && Extends(env, wider)
    ensures Shape(ts, env).Ok?
    ensures ParseOr(ts + ([")"] + more), wider) == Parsed(Fill(Shape(ts, env).value, wider.values), [")"] + more)
  {
    ParseIsFilledShape(ts, env);
    assert Classify(")") == RParen;
    assert Closing([")"] + more);
    hide ParseOr, Fill, Extends, Symbolic, Classify;
    OrLocal(ts, env, [")"] + more, wider);
    assert [] + ([")"] + more) == [")"] + more;
  }

  /** Two fillings agree exactly when the placeholders used do. */
  lemma {:induction false} FillAgrees(n: Node, v: map<string, AttributeValue>, w: map<string, AttributeValue>)
    requires Refs(n) <= v.Keys && Refs(n) <= w.Keys
    ensures Fill(n, v) == Fill(n, w) <==> forall k :: k in Refs(n) ==> v[k] == w[k]
    decreases n
  {
    match n
    case CompareNode(l, _, r) => FillAgrees(l, v, w); FillAgrees(r, v, w);
    case AndNode(l, r) => FillAgrees(l, v, w); FillAgrees(r, v, w);
    case OrNode(l, r) => FillAgrees(l, v, w); FillAgrees(r, v, w);
    case NotNode(x) => FillAgrees(x, v, w);
    case FuncNode(_, args) => FillAllAgrees(args, v, w);
    case PathNode(_) =>
    case ValueNode(_) =>
  }

  lemma {:induction false} FillAllAgrees(ns: seq<Node>, v: map<string, AttributeValue>, w: map<string, AttributeValue>)
    requires RefsAll(ns) <= v.Keys && RefsAll(ns) <= w.Keys
    ensures FillAll(ns, v) == FillAll(ns, w) <==> forall k :: k in RefsAll(ns) ==> v[k] == w[k]
    decreases ns
  {
    if ns != [] {
      FillAgrees(ns[0], v, w);
      FillAllAgrees(ns[1..], v, w);
      var fv, fw := FillAll(ns, v), FillAll(ns, w);
      assert fv[0] == Fill(ns[0], v) && fv[1..] == FillAll(ns[1..], v);
      assert fw[0] == Fill(ns[0], w) && fw[1..] == FillAll(ns[1..], w);
      assert fv == fw <==> fv[0] == fw[0] && fv[1..] == fw[1..];
    }
  }
}
