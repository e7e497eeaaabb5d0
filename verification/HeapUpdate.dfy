/** evalUpdateNodes of memdb/expression.go on shared objects: it works on a deep copy of
    the item, into which values of the request and parts of the item go without being
    copied. */
module HeapUpdate {
  import opened Base
  import opened Values
  import opened Lexer
  import opened Parser
  import opened Paths
  import opened UpdateExpr
  import opened UpdateEval
  import opened Heap
  import opened HeapPaths

  // ---- Clauses with placeholders in the place of values ----

  /** The environment in which every placeholder stands for itself. */
  function Symbolic(env: Env): Env { Env(env.names, map k | k in env.values :: S(k)) }

  function FillValue(v: UpdateValue, values: Item): UpdateValue {
    match v
    case Literal(av) => if av.S? && av.s in values then Literal(values[av.s]) else v
    case PathValue(_) => v
    case Arithmetic(l, plus, r) => Arithmetic(FillValue(l, values), plus, FillValue(r, values))
    case IfNotExists(path, default) => IfNotExists(path, FillValue(default, values))
    case ListAppend(a, b) => ListAppend(FillValue(a, values), FillValue(b, values))
  }

  /** Every literal is the placeholder of a value. */
  predicate Known(v: UpdateValue, values: set<string>) {
    match v
    case Literal(av) => av.S? && av.s in values
    case PathValue(_) => true
    case Arithmetic(l, _, r) => Known(l, values) && Known(r, values)
    case IfNotExists(_, default) => Known(default, values)
    case ListAppend(a, b) => Known(a, values) && Known(b, values)
  }

  predicate KnownParse(r: Outcome<UpdateValue>, values: set<string>) { r.Done? ==> Known(r.value, values) }

  predicate KnownOps(ops: seq<UpdateOp>, values: set<string>) {
    forall i :: 0 <= i < |ops| && ops[i].ValueOp? ==> Known(ops[i].value, values)
  }

  predicate KnownClauses(r: Outcome<seq<UpdateOp>>, values: set<string>) { r.Done? ==> KnownOps(r.value, values) }

  function FillOp(op: UpdateOp, values: Item): UpdateOp {
    match op
    case RemoveOp(_) => op
    case ValueOp(action, path, v) => ValueOp(action, path, FillValue(v, values))
  }

  function FillOps(ops: seq<UpdateOp>, values: Item): (filled: seq<UpdateOp>)
    ensures |filled| == |ops| && forall i :: 0 <= i < |ops| ==> filled[i] == FillOp(ops[i], values)
  {
    seq(|ops|, i requires 0 <= i < |ops| => FillOp(ops[i], values))
  }

  function FillParsed(r: Outcome<UpdateValue>, values: Item): Outcome<UpdateValue> {
    match r case Done(v, rest) => Done(FillValue(v, values), rest) case other => other
  }

  function FillClauses(r: Outcome<seq<UpdateOp>>, values: Item): Outcome<seq<UpdateOp>> {
    match r case Done(ops, rest) => Done(FillOps(ops, values), rest) case other => other
  }

  lemma FillSnoc(ops: seq<UpdateOp>, op: UpdateOp, values: Item)
    ensures FillOps(ops + [op], values) == FillOps(ops, values) + [FillOp(op, values)]
  {
  }

  lemma ResolveFills(tok: string, env: Env)
    ensures ResolveVal(tok, env) == match ResolveVal(tok, Symbolic(env)) case Some(v) => Some(FillValue(v, env.values)) case None => None
    ensures ResolveVal(tok, Symbolic(env)).Some? ==> Known(ResolveVal(tok, Symbolic(env)).value, env.values.Keys)
    ensures ResolvePath(tok, env) == ResolvePath(tok, Symbolic(env))
  {
  }

  // ---- Parsing does not look at values ----

  lemma {:induction false} ValueFills(ts: seq<string>, env: Env)
    ensures ParseSetValue(ts, env) == FillParsed(ParseSetValue(ts, Symbolic(env)), env.values)
    ensures KnownParse(ParseSetValue(ts, Symbolic(env)), env.values.Keys)
    decreases |ts|, 2
  {
    hide ParseSetAtom, Symbolic, NextMark;
    AtomFills(ts, env);
    var first := ParseSetAtom(ts, Symbolic(env));
    if first.Done? && NextMark(first.rest).Sign? {
      AtomFills(first.rest[1..], env);
    }
  }

  lemma {:induction false} AtomFills(ts: seq<string>, env: Env)
    ensures ParseSetAtom(ts, env) == FillParsed(ParseSetAtom(ts, Symbolic(env)), env.values)
    ensures KnownParse(ParseSetAtom(ts, Symbolic(env)), env.values.Keys)
    decreases |ts|, 1
  {
    hide ParseSetFunction, MarkOf;
    ResolveFills(Peek(ts), env);
    if ts != [] && NextMark(ts[1..]) == Open {
      FunctionFills(if NextMark(ts) == Hash && ts[0] in env.names then env.names[ts[0]] else ts[0], ts[1..], env);
    }
  }

  lemma {:induction false} FunctionFills(name: string, ts: seq<string>, env: Env)
    requires NextMark(ts) == Open
    ensures ParseSetFunction(name, ts, env) == FillParsed(ParseSetFunction(name, ts, Symbolic(env)), env.values)
    ensures KnownParse(ParseSetFunction(name, ts, Symbolic(env)), env.values.Keys)
    decreases |ts|, 0
  {
    hide IfNotExistsArgs, ListAppendArgs, Symbolic;
    IfNotExistsFills(ts[1..], env);
    ListAppendFills(ts[1..], env);
  }

  lemma {:induction false} IfNotExistsFills(ts: seq<string>, env: Env)
    ensures IfNotExistsArgs(ts, env) == FillParsed(IfNotExistsArgs(ts, Symbolic(env)), env.values)
    ensures KnownParse(IfNotExistsArgs(ts, Symbolic(env)), env.values.Keys)
    decreases |ts|, 3
  {
    hide ParseSetValue, Symbolic, NextMark, ResolvePath;
    if ts != [] && NextMark(ts[1..]) == Mark.Comma {
      ValueFills(ts[2..], env);
      ResolveFills(ts[0], env);
    }
  }

  lemma {:induction false} ListAppendFills(ts: seq<string>, env: Env)
    ensures ListAppendArgs(ts, env) == FillParsed(ListAppendArgs(ts, Symbolic(env)), env.values)
    ensures KnownParse(ListAppendArgs(ts, Symbolic(env)), env.values.Keys)
    decreases |ts|, 3
  {
    hide ParseSetValue, Symbolic, NextMark;
    ValueFills(ts, env);
    var first := ParseSetValue(ts, Symbolic(env));
    if first.Done? && NextMark(first.rest) == Mark.Comma {
      ValueFills(first.rest[1..], env);
    }
  }

  lemma EqualsIsThere(ts: seq<string>)
    requires ts != [] && NextMark(ts[1..]) == Equals
    ensures |ts| > 1
  {
  }

  lemma {:induction false} SetClausesFill(ops: seq<UpdateOp>, ts: seq<string>, env: Env)
    ensures SetClauses(FillOps(ops, env.values), ts, env) == FillClauses(SetClauses(ops, ts, Symbolic(env)), env.values)
    ensures KnownOps(ops, env.values.Keys) ==> KnownClauses(SetClauses(ops, ts, Symbolic(env)), env.values.Keys)
    decreases |ts|
  {
    hide ParseSetValue, Symbolic, NextMark, ResolvePath, SkipComma, ClausesEnd, FillOps;
    NonEmptyUnlessEnd(ts);
    if !ClausesEnd(ts) && NextMark(ts[1..]) == Equals {
      EqualsIsThere(ts);
      ValueFills(ts[2..], env);
      ResolveFills(ts[0], env);
      var val := ParseSetValue(ts[2..], Symbolic(env));
      if val.Done? {
        var op := ValueOp(SET, ResolvePath(ts[0], env), val.value);
        FillSnoc(ops, op, env.values);
        SkipCommaShrinks(val.rest);
        SetClausesFill(ops + [op], SkipComma(val.rest), env);
      }
    }
  }

  lemma {:induction false} AddDeleteClausesFill(action: Action, ops: seq<UpdateOp>, ts: seq<string>, env: Env)
    ensures AddDeleteClauses(action, FillOps(ops, env.values), ts, env) == FillClauses(AddDeleteClauses(action, ops, ts, Symbolic(env)), env.values)
    ensures KnownOps(ops, env.values.Keys) ==> KnownClauses(AddDeleteClauses(action, ops, ts, Symbolic(env)), env.values.Keys)
    decreases |ts|
  {
    hide Symbolic, NextMark, ResolvePath, ResolveVal, SkipComma, ClausesEnd, FillOps, FillValue;
    NonEmptyUnlessEnd(ts);
    if !ClausesEnd(ts) && !ClausesEnd(ts[1..]) {
      NonEmptyUnlessEnd(ts[1..]);
      ResolveFills(ts[0], env);
      ResolveFills(ts[1], env);
      var val := ResolveVal(ts[1], Symbolic(env));
      if val.Some? {
        var op := ValueOp(action, ResolvePath(ts[0], env), val.value);
        FillSnoc(ops, op, env.values);
        SkipCommaShrinks(ts[2..]);
        AddDeleteClausesFill(action, ops + [op], SkipComma(ts[2..]), env);
      }
    }
  }

  lemma {:induction false} RemoveClausesFill(ops: seq<UpdateOp>, ts: seq<string>, env: Env)
    ensures RemoveClauses(FillOps(ops, env.values), ts, env) == FillClauses(RemoveClauses(ops, ts, Symbolic(env)), env.values)
    ensures KnownOps(ops, env.values.Keys) ==> KnownClauses(RemoveClauses(ops, ts, Symbolic(env)), env.values.Keys)
    decreases |ts|
  {
    hide Symbolic, NextMark, ResolvePath, SkipComma, ClausesEnd, FillOps;
    NonEmptyUnlessEnd(ts);
    if !ClausesEnd(ts) {
      ResolveFills(ts[0], env);
      SkipCommaShrinks(ts[1..]);
      var op := RemoveOp(ResolvePath(ts[0], env));
      FillSnoc(ops, op, env.values);
      RemoveClausesFill(ops + [op], SkipComma(ts[1..]), env);
    }
  }

  /** The clauses of an update are those read with the placeholders alone, with the
      values filled in afterwards. */
  lemma {:induction false} SectionsFill(ops: seq<UpdateOp>, ts: seq<string>, env: Env)
    ensures Sections(FillOps(ops, env.values), ts, env) == FillClauses(Sections(ops, ts, Symbolic(env)), env.values)
    ensures KnownOps(ops, env.values.Keys) ==> KnownClauses(Sections(ops, ts, Symbolic(env)), env.values.Keys)
    decreases |ts|
  {
    hide Symbolic, ActionOf, SetClauses, AddDeleteClauses, RemoveClauses, FillOps;
    if ts != [] && ActionOf(ts[0]).Some? {
      var action := ActionOf(ts[0]).value;
      SetClausesFill(ops, ts[1..], env);
      AddDeleteClausesFill(action, ops, ts[1..], env);
      RemoveClausesFill(ops, ts[1..], env);
      var more := Clauses(action, ops, ts[1..], Symbolic(env));
      if more.Done? {
        SectionsFill(more.value, more.rest, env);
      }
    }
  }

  // ---- Values of right-hand sides ----

  /** The resolveValue methods: literals and what is found at a path are shared, sums
      and joined lists are new. */
  method ResolveOnHeap(v: UpdateValue, values: map<string, HVal>, cell: MapCell, ghost avs: Item, ghost item: Item, ghost fp: set<object>)
    returns (r: Result<HVal>, ghost fq: set<object>)
    requires Known(v, avs.Keys) && MapDenotes(values, avs, fp) && DenotesItem(cell, item, fp)
    ensures fp <= fq && fresh(fq - fp)
    ensures match ResolveValue(FillValue(v, avs), item)
            case Ok(av) => r.Ok? && Denotes(r.value, av, fq)
            case Err => r == Err
    decreases v, 1
  {
    hide Denotes, Calculate, Resolve;
    fq := fp;
    match v
    case Literal(av) =>
      r := Ok(values[av.s]);
    case PathValue(path) =>
      var x := ResolvePathValue(path, cell, item, fp);
      r := match x case Some(y) => Ok(y) case None => Err;
    case Arithmetic(left, plus, right) =>
      var a, b;
      a, b, fq := ResolvePair(v, left, right, values, cell, avs, item, fp);
      if a.Err? || b.Err? {
        return Err, fq;
      }
      r := CalculateOnHeap(a.value, plus, b.value, ResolveValue(FillValue(left, avs), item).value, ResolveValue(FillValue(right, avs), item).value, fq);
    case IfNotExists(path, default) =>
      var x := ResolvePathValue(path, cell, item, fp);
      if x.Some? {
        return Ok(x.value), fp;
      }
      r, fq := ResolveOnHeap(default, values, cell, avs, item, fp);
    case ListAppend(first, second) =>
      var a, b;
      a, b, fq := ResolvePair(v, first, second, values, cell, avs, item, fp);
      if a.Err? || b.Err? {
        return Err, fq;
      }
      ghost var before := fq;
      r, fq := AppendOnHeap(a.value, b.value, ResolveValue(FillValue(first, avs), item).value, ResolveValue(FillValue(second, avs), item).value, before);
  }

  /** The two operands in order. */
  method ResolvePair(ghost v: UpdateValue, left: UpdateValue, right: UpdateValue, values: map<string, HVal>, cell: MapCell, ghost avs: Item, ghost item: Item, ghost fp: set<object>)
    returns (a: Result<HVal>, b: Result<HVal>, ghost fq: set<object>)
    requires left < v && right < v && Known(left, avs.Keys) && Known(right, avs.Keys) && MapDenotes(values, avs, fp) && DenotesItem(cell, item, fp)
    ensures fp <= fq && fresh(fq - fp)
    ensures var x, y := ResolveValue(FillValue(left, avs), item), ResolveValue(FillValue(right, avs), item);
      && (a.Err? || b.Err? <==> x.Err? || y.Err?)
      && (a.Ok? && b.Ok? ==> Denotes(a.value, x.value, fq) && Denotes(b.value, y.value, fq))
    decreases v, 0
  {
    hide Denotes, ResolveValue, FillValue, Known;
    b := Err;
    a, fq := ResolveOnHeap(left, values, cell, avs, item, fp);
    if a.Ok? {
      ghost var between := fq;
      MapDenotesMore(values, avs, fp, between);
      ItemMore(cell, item, fp, between);
      b, fq := ResolveOnHeap(right, values, cell, avs, item, between);
      if b.Ok? {
        DenotesMore(a.value, ResolveValue(FillValue(left, avs), item).value, between, fq);
      }
    }
  }

  method CalculateOnHeap(a: HVal, plus: bool, b: HVal, ghost x: AttributeValue, ghost y: AttributeValue, ghost fp: set<object>) returns (r: Result<HVal>)
    requires Denotes(a, x, fp) && Denotes(b, y, fp)
    ensures match Added2(x, plus, y)
            case Ok(av) => r.Ok? && Denotes(r.value, av, fp)
            case Err => r == Err
  {
    hide Denotes, Calculate;
    Kinds(a, x, fp);
    Kinds(b, y, fp);
    if !(a.Scalar? && a.av.N? && b.Scalar? && b.av.N?) {
      return Err;
    }
    var n := Calculate(a.av.n, plus, b.av.n);
    if n.Err? {
      return Err;
    }
    ScalarDenotes(N(n.value), fp);
    r := Ok(Scalar(N(n.value)));
  }

  function Added2(x: AttributeValue, plus: bool, y: AttributeValue): Result<AttributeValue> {
    match (x, y)
    case (N(a), N(b)) => (match Calculate(a, plus, b) case Ok(n) => Ok(N(n)) case Err => Err)
    case _ => Err
  }

  /** list_append: a new slice with the elements of both. */
  method AppendOnHeap(a: HVal, b: HVal, ghost x: AttributeValue, ghost y: AttributeValue, ghost fp: set<object>)
    returns (r: Result<HVal>, ghost fq: set<object>)
    requires Denotes(a, x, fp) && Denotes(b, y, fp)
    ensures fp <= fq && fresh(fq - fp)
    ensures if x.L? && y.L? then r.Ok? && Denotes(r.value, L(x.l + y.l), fq) else r == Err
  {
    ListKind(a, x, fp);
    ListKind(b, y, fp);
    hide Denotes;
    fq := fp;
    if !a.HList? || !b.HList? {
      return Err, fp;
    }
    var merged := a.items[..] + b.items[..];
    ghost var l := x.l + y.l;
    assert forall i :: 0 <= i < |l| ==> Denotes(merged[i], l[i], fp);
    var out := new HVal[|merged|](i requires 0 <= i < |merged| => merged[i]);
    fq := fp + {out};
    forall i | 0 <= i < |l|
      ensures Denotes(out[i], l[i], fq)
    {
      DenotesMore(merged[i], l[i], fp, fq);
    }
    ListDenotes(out, l, fq);
    r := Ok(HList(out));
  }

  lemma ListKind(v: HVal, av: AttributeValue, fp: set<object>)
    requires Denotes(v, av, fp)
    ensures v.HList? <==> av.L?
    ensures v.HList? ==> v.items in fp && v.items.Length == |av.l| && forall i :: 0 <= i < |av.l| ==> Denotes(v.items[i], av.l[i], fp)
  {
  }

  lemma ListDenotes(a: array<HVal>, l: seq<AttributeValue>, fp: set<object>)
    requires a in fp && a.Length == |l| && forall i :: 0 <= i < |l| ==> Denotes(a[i], l[i], fp)
    ensures Denotes(HList(a), L(l), fp)
  {
  }

  // ---- Clauses ----

  /** ADD on numbers and on string and number sets. */
  method AddOnHeap(e: HVal, v: HVal, ghost existing: AttributeValue, ghost val: AttributeValue, ghost fp: set<object>)
    returns (r: Result<HVal>, ghost fq: set<object>)
    requires Denotes(e, existing, fp) && Denotes(v, val, fp)
    ensures fp <= fq && fresh(fq - fp)
    ensures match Added(Some(existing), val)
            case Ok(av) => r.Ok? && Denotes(r.value, av, fq)
            case Err => r == Err
  {
    hide Denotes, Calculate, SetUnion;
    Kinds(e, existing, fp);
    Kinds(v, val, fp);
    fq := fp;
    if e.Scalar? && e.av.N? && v.Scalar? && v.av.N? {
      r := CalculateOnHeap(e, true, v, existing, val, fp);
    } else if e.HStrings? && v.HStrings? && e.numbers == v.numbers {
      var merged := AddToStringSet(e.strs[..], v.strs[..]);
      var aSet;
      aSet, fq := NewStrings(e.numbers, merged, fp);
      r := Ok(aSet);
    } else {
      r := Err;
    }
  }

  /** DELETE on string and number sets; on anything else it does nothing. */
  method DeleteOnHeap(e: HVal, v: HVal, ghost existing: AttributeValue, ghost val: AttributeValue, ghost fp: set<object>)
    returns (r: Option<HVal>, ghost fq: set<object>)
    requires Denotes(e, existing, fp) && Denotes(v, val, fp)
    ensures fp <= fq && fresh(fq - fp)
    ensures match Deleted(Some(existing), val)
            case Some(av) => r.Some? && Denotes(r.value, av, fq)
            case None => r == None
  {
    hide Denotes, SetDifference;
    Kinds(e, existing, fp);
    Kinds(v, val, fp);
    fq := fp;
    if e.HStrings? && v.HStrings? && e.numbers == v.numbers {
      var left := RemoveFromStringSet(e.strs[..], v.strs[..]);
      var aSet;
      aSet, fq := NewStrings(e.numbers, left, fp);
      r := Some(aSet);
    } else {
      r := None;
    }
  }

  predicate KnownOp(op: UpdateOp, values: set<string>) { op.ValueOp? ==> Known(op.value, values) }

  /** One clause, on the working copy. */
  method EvalOpOnHeap(op: UpdateOp, values: map<string, HVal>, cell: MapCell, ghost avs: Item, ghost item: Item, ghost fp: set<object>)
    returns (ok: bool, ghost fq: set<object>)
    requires ValidOp(op) && KnownOp(op, avs.Keys) && MapDenotes(values, avs, fp) && DenotesItem(cell, item, fp)
    modifies cell
    ensures fp <= fq && fresh(fq - fp)
    ensures match EvalOp(FillOp(op, avs), item)
            case Ok(next) => ok && DenotesItem(cell, next, fq)
            case Err => !ok
  {
    hide Denotes, SetNested, RemoveNested, ResolveValue, FillValue, Known, Resolve, Added, Deleted, MapDenotes;
    fq := fp;
    if op.RemoveOp? {
      fq := RemoveNestedPath(op.path, cell, item, fp);
      return true, fq;
    }
    var val;
    val, fq := ResolveOnHeap(op.value, values, cell, avs, item, fp);
    if val.Err? {
      return false, fq;
    }
    ghost var av := ResolveValue(FillValue(op.value, avs), item).value;
    ghost var now := fq;
    ItemMore(cell, item, fp, now);
    var new' := val.value;
    if op.action != SET {
      var existing := ResolvePathValue(op.path, cell, item, now);
      ghost var present := Resolve(op.path, item);
      NothingThere(av);
      if op.action == ADD && existing.Some? {
        var sum;
        sum, fq := AddOnHeap(existing.value, val.value, present.value, av, now);
        if sum.Err? {
          return false, fq;
        }
        new', av := sum.value, Added(present, av).value;
      } else if op.action == DELETE {
        var left := None;
        if existing.Some? {
          left, fq := DeleteOnHeap(existing.value, val.value, present.value, av, now);
        }
        if left.None? {
          ItemMore(cell, item, now, fq);
          return true, fq;
        }
        new', av := left.value, Deleted(present, av).value;
      }
      ItemMore(cell, item, now, fq);
    }
    ghost var last := fq;
    fq := SetNestedPath(op.path, cell, new', item, av, last);
    ok := true;
  }

  lemma NothingThere(val: AttributeValue)
    ensures Added(None, val) == Ok(val) && Deleted(None, val) == None
  {
  }

  /** evalUpdateNodes: the result is a map of its own that stands for the updated item;
      neither the item given, nor the request's values, nor anything else that existed
      is changed. */
  method EvalUpdateNodes(ops: seq<UpdateOp>, values: map<string, HVal>, cell: MapCell, ghost avs: Item, ghost item: Item, ghost fp: set<object>)
    returns (r: Option<MapCell>, ghost fq: set<object>)
    requires ValidOps(ops) && KnownOps(ops, avs.Keys) && MapDenotes(values, avs, fp) && DenotesItem(cell, item, fp)
    ensures fresh(fq - fp)
    ensures FilledAreValid(ops, avs) && match EvalOps(FillOps(ops, avs), item)
            case Ok(next) => r.Some? && fresh(r.value) && DenotesItem(r.value, next, fq)
            case Err => r == None
  {
    hide Denotes, MapDenotes, EvalOp, Known, FillOp;
    var result: MapCell;
    ghost var copied;
    result, copied := DeepCopyItem(cell, item, fp);
    fq := fp + copied;
    ghost var now := item;
    ItemMore(result, item, copied, fq);
    MapDenotesMore(values, avs, fp, fq);
    ghost var filled := FillOps(ops, avs);
    FillKeepsValid(ops, avs);
    assert filled[0..] == filled;
    for i := 0 to |ops|
      invariant fresh(result) && fp <= fq && fresh(fq - fp) && DenotesItem(result, now, fq) && MapDenotes(values, avs, fq)
      invariant ValidOps(filled) && EvalOps(filled[i..], now) == EvalOps(filled, item)
    {
      assert filled[i..][1..] == filled[i + 1..];
      var ok;
      ghost var before := fq;
      ok, fq := EvalOpOnHeap(ops[i], values, result, avs, now, before);
      if !ok {
        return None, fq;
      }
      MapDenotesMore(values, avs, before, fq);
      now := EvalOp(filled[i], now).value;
    }
    r := Some(result);
  }

  /** Parsing and applying an update expression. */
  method ApplyUpdate(expression: string, env: Env, values: map<string, HVal>, cell: MapCell, ghost item: Item, ghost fp: set<object>)
    returns (r: Option<MapCell>, ghost fq: set<object>)
    requires MapDenotes(values, env.values, fp) && DenotesItem(cell, item, fp)
    ensures fresh(fq - fp)
    ensures match UpdateEval.ApplyUpdate(expression, env, item)
            case Ok(next) => r.Some? && (r.value == cell || fresh(r.value)) && DenotesItem(r.value, next, fq)
            case Err => r == None
  {
    hide Denotes, MapDenotes, EvalOps, ValidOps, Sections, Symbolic, KnownOps, FillOps, MemTokens;
    if expression == "" {
      return Some(cell), fp;
    }
    ParseFills(expression, env);
    var ops := ParseUpdateExpression(expression, Symbolic(env));
    if !ops.Yes? {
      return None, fp;
    }
    r, fq := EvalUpdateNodes(ops.value, values, cell, env.values, item, fp);
  }

  /** The clauses of an expression, read with its placeholders and then filled in. */
  lemma ParseFills(expression: string, env: Env)
    ensures match ParseUpdate(expression, Symbolic(env))
            case Done(ops, _) =>
              && ValidOps(ops) && KnownOps(ops, env.values.Keys) && FilledAreValid(ops, env.values)
              && ParseUpdate(expression, env).Done? && ParseUpdate(expression, env).value == FillOps(ops, env.values)
            case Bad => ParseUpdate(expression, env) == Bad
            case Panic => ParseUpdate(expression, env) == Panic
  {
    hide Sections, Symbolic, MemTokens;
    var tokens := MemTokens(expression);
    assert FillOps([], env.values) == [];
    SectionsFill([], tokens, env);
    SectionsValid([], tokens, Symbolic(env));
    if ParseUpdate(expression, Symbolic(env)).Done? {
      FillKeepsValid(ParseUpdate(expression, Symbolic(env)).value, env.values);
    }
  }

  predicate FilledAreValid(ops: seq<UpdateOp>, avs: Item) { ValidOps(FillOps(ops, avs)) }

  lemma FillKeepsValid(ops: seq<UpdateOp>, avs: Item)
    requires ValidOps(ops)
    ensures FilledAreValid(ops, avs)
  {
    hide FillValue;
  }
}
