/** Applying parsed update clauses to an item (memdb/expression.go,
    evalUpdateNodes and the resolveValue methods). */
module UpdateEval {
  import opened Base
  import opened Values
  import opened Paths
  import opened UpdateExpr
  import Parser
  import Lexer

  // ---- Numbers and sets ----

  /** addNumbers and subtractNumbers on integer numerals. */
  function Calculate(a: string, plus: bool, b: string): Result<string> {
    match (ParseFloat(a), ParseFloat(b))
    case (Some(x), Some(y)) => Ok(IntToString(Float64(if plus then x + y else x - y)))
    case _ => Err
  }

  /** addToStringSet: the elements of `add` that are new, in order, behind the others. */
  function SetUnion(existing: seq<string>, add: seq<string>): seq<string>
    decreases |add|
  {
    if add == [] then existing
    else SetUnion(if add[0] in existing then existing else existing + [add[0]], add[1..])
  }

  function SetDifference(existing: seq<string>, remove: seq<string>): seq<string> {
    if existing == [] then []
    else (if existing[0] in remove then [] else [existing[0]]) + SetDifference(existing[1..], remove)
  }

  predicate NoDuplicates(s: seq<string>) { forall i, j :: 0 <= i < j < |s| ==> s[i] != s[j] }

  lemma {:induction false} SetUnionIsUnion(existing: seq<string>, add: seq<string>)
    ensures forall x :: x in SetUnion(existing, add) <==> x in existing || x in add
    ensures existing <= SetUnion(existing, add)
    ensures NoDuplicates(existing) ==> NoDuplicates(SetUnion(existing, add))
    decreases |add|
  {
    if add != [] {
      var next := if add[0] in existing then existing else existing + [add[0]];
      SetUnionIsUnion(next, add[1..]);
      assert add == [add[0]] + add[1..];
    }
  }

  lemma {:induction false} SetDifferenceIsDifference(existing: seq<string>, remove: seq<string>)
    ensures forall x :: x in SetDifference(existing, remove) <==> x in existing && x !in remove
    ensures NoDuplicates(existing) ==> NoDuplicates(SetDifference(existing, remove))
  {
    if existing != [] {
      SetDifferenceIsDifference(existing[1..], remove);
      assert existing == [existing[0]] + existing[1..];
    }
  }

  /** Adding elements and deleting them again leaves the old set without them. */
  lemma AddThenDelete(existing: seq<string>, change: seq<string>)
    ensures forall x :: x in SetDifference(SetUnion(existing, change), change) <==> x in existing && x !in change
  {
    SetUnionIsUnion(existing, change);
    SetDifferenceIsDifference(SetUnion(existing, change), change);
  }

  method AddToStringSet(existing: seq<string>, add: seq<string>) returns (result: seq<string>)
    ensures result == SetUnion(existing, add)
  {
    var seen := {};
    for i := 0 to |existing|
      invariant seen == set x | x in existing[..i]
    {
      assert existing[..i + 1] == existing[..i] + [existing[i]];
      seen := seen + {existing[i]};
    }
    assert existing[..|existing|] == existing;
    result := existing;
    for i := 0 to |add|
      invariant seen == set x | x in result
      invariant SetUnion(result, add[i..]) == SetUnion(existing, add)
    {
      assert add[i..][1..] == add[i + 1..];
      if add[i] !in seen {
        result := result + [add[i]];
        seen := seen + {add[i]};
      }
    }
  }

  method RemoveFromStringSet(existing: seq<string>, remove: seq<string>) returns (result: seq<string>)
    ensures result == SetDifference(existing, remove)
  {
    var toRemove := set x | x in remove;
    result := [];
    for i := 0 to |existing|
      invariant result + SetDifference(existing[i..], remove) == SetDifference(existing, remove)
    {
      assert existing[i..][1..] == existing[i + 1..];
      if existing[i] !in toRemove {
        result := result + [existing[i]];
      }
    }
  }

  // ---- Values of right-hand sides ----

  function ResolveValue(v: UpdateValue, item: Item): Result<AttributeValue> {
    match v
    case Literal(val) => Ok(val)
    case PathValue(path) => (
      match Resolve(path, item)
      case Some(val) => Ok(val)
      case None => Err)
    case Arithmetic(l, plus, r) => (
      match (ResolveValue(l, item), ResolveValue(r, item))
      case (Ok(N(a)), Ok(N(b))) => (
        match Calculate(a, plus, b)
        case Ok(n) => Ok(N(n))
        case Err => Err)
      case _ => Err)
    case IfNotExists(path, default) => (
      match Resolve(path, item)
      case Some(val) => Ok(val)
      case None => ResolveValue(default, item))
    case ListAppend(a, b) => (
      match (ResolveValue(a, item), ResolveValue(b, item))
      case (Ok(L(x)), Ok(L(y))) => Ok(L(x + y))
      case _ => Err)
  }

  // ---- One clause ----

  /** What ADD makes of the value at the path. */
  function Added(existing: Option<AttributeValue>, val: AttributeValue): Result<AttributeValue> {
    match existing
    case None => Ok(val)
    case Some(present) =>
      match (present, val)
      case (N(a), N(b)) => (
        match Calculate(a, true, b)
        case Ok(n) => Ok(N(n))
        case Err => Err)
      case (SS(a), SS(b)) => Ok(SS(SetUnion(a, b)))
      case (NS(a), NS(b)) => Ok(NS(SetUnion(a, b)))
      case _ => Err
  }

  /** What DELETE makes of the value at the path; None where it changes nothing. */
  function Deleted(existing: Option<AttributeValue>, val: AttributeValue): Option<AttributeValue> {
    match (existing, val)
    case (Some(SS(a)), SS(b)) => Some(SS(SetDifference(a, b)))
    case (Some(NS(a)), NS(b)) => Some(NS(SetDifference(a, b)))
    case _ => None
  }

  predicate ValidOp(op: UpdateOp) { op.path != [] && (op.ValueOp? ==> op.action != REMOVE) }

  function EvalOp(op: UpdateOp, item: Item): Result<Item>
    requires ValidOp(op)
  {
    match op
    case RemoveOp(path) => Ok(RemoveNested(path, item))
    case ValueOp(action, path, value) =>
      match ResolveValue(value, item)
      case Err => Err
      case Ok(val) =>
        match action
        case SET => Ok(SetNested(path, item, val))
        case ADD => (
          match Added(Resolve(path, item), val)
          case Ok(sum) => Ok(SetNested(path, item, sum))
          case Err => Err)
        case DELETE => (
          match Deleted(Resolve(path, item), val)
          case Some(left) => Ok(SetNested(path, item, left))
          case None => Ok(item))
  }

  predicate ValidOps(ops: seq<UpdateOp>) { forall i :: 0 <= i < |ops| ==> ValidOp(ops[i]) }

  function EvalOps(ops: seq<UpdateOp>, item: Item): Result<Item>
    requires ValidOps(ops)
  {
    if ops == [] then Ok(item)
    else
      match EvalOp(ops[0], item)
      case Ok(next) => EvalOps(ops[1..], next)
      case Err => Err
  }

  /** evalUpdateNodes: the clauses in order, on a copy of the item. */
  method EvalUpdateNodes(ops: seq<UpdateOp>, item: Item) returns (r: Result<Item>)
    requires ValidOps(ops)
    ensures r == EvalOps(ops, item)
  {
    var result := item;
    for i := 0 to |ops|
      invariant EvalOps(ops[i..], result) == EvalOps(ops, item)
    {
      hide Calculate, SetNested, RemoveNested, ResolveValue, Resolve, SetUnion, SetDifference;
      assert ops[i..][1..] == ops[i + 1..];
      var next := EvalUpdateNode(ops[i], result);
      if next.Err? {
        return Err;
      }
      result := next.value;
    }
    r := Ok(result);
  }

  method EvalUpdateNode(op: UpdateOp, item: Item) returns (r: Result<Item>)
    requires ValidOp(op)
    ensures r == EvalOp(op, item)
  {
    hide Calculate, SetNested, RemoveNested, ResolveValue, Resolve, SetUnion, SetDifference;
    if op.RemoveOp? {
      return Ok(RemoveNested(op.path, item));
    }
    var val := ResolveValue(op.value, item);
    if val.Err? {
      return Err;
    }
    var new' := val.value;
    var existing := Resolve(op.path, item);
    if op.action == ADD && existing.Some? {
      match (existing.value, val.value)
      case (N(a), N(b)) =>
        var sum := Calculate(a, true, b);
        if sum.Err? {
          return Err;
        }
        new' := N(sum.value);
      case (SS(a), SS(b)) =>
        var merged := AddToStringSet(a, b);
        new' := SS(merged);
      case (NS(a), NS(b)) =>
        var merged := AddToStringSet(a, b);
        new' := NS(merged);
      case _ =>
        return Err;
    } else if op.action == DELETE {
      match (existing, val.value)
      case (Some(SS(a)), SS(b)) =>
        var filtered := RemoveFromStringSet(a, b);
        new' := SS(filtered);
      case (Some(NS(a)), NS(b)) =>
        var filtered := RemoveFromStringSet(a, b);
        new' := NS(filtered);
      case _ =>
        return Ok(item);
    }
    r := Ok(SetNested(op.path, item, new'));
  }

  // ---- Parsed clauses can be applied ----

  lemma {:induction false} SetClausesValid(ops: seq<UpdateOp>, ts: seq<string>, env: Parser.Env)
    requires ValidOps(ops)
    ensures SetClauses(ops, ts, env).Done? ==> ValidOps(SetClauses(ops, ts, env).value)
    decreases |ts|
  {
    hide ParseSetValue, NextMark, ResolvePath, SplitDots;
    if !ClausesEnd(ts) && NextMark(ts[1..]) == Equals {
      var val := ParseSetValue(ts[2..], env);
      if val.Done? {
        PathsAreNotEmpty(ts[0], env);
        SetClausesValid(ops + [ValueOp(SET, ResolvePath(ts[0], env), val.value)], SkipComma(val.rest), env);
      }
    }
  }

  lemma PathsAreNotEmpty(tok: string, env: Parser.Env)
    ensures ResolvePath(tok, env) != []
  {
  }

  lemma {:induction false} AddDeleteClausesValid(action: Action, ops: seq<UpdateOp>, ts: seq<string>, env: Parser.Env)
    requires ValidOps(ops) && action != REMOVE
    ensures AddDeleteClauses(action, ops, ts, env).Done? ==> ValidOps(AddDeleteClauses(action, ops, ts, env).value)
    decreases |ts|
  {
    hide NextMark, ResolvePath, ResolveVal, SplitDots;
    if !ClausesEnd(ts) && !ClausesEnd(ts[1..]) {
      var val := ResolveVal(ts[1], env);
      if val.Some? {
        PathsAreNotEmpty(ts[0], env);
        AddDeleteClausesValid(action, ops + [ValueOp(action, ResolvePath(ts[0], env), val.value)], SkipComma(ts[2..]), env);
      }
    }
  }

  lemma {:induction false} RemoveClausesValid(ops: seq<UpdateOp>, ts: seq<string>, env: Parser.Env)
    requires ValidOps(ops)
    ensures RemoveClauses(ops, ts, env).Done? ==> ValidOps(RemoveClauses(ops, ts, env).value)
    decreases |ts|
  {
    hide NextMark, ResolvePath, SplitDots;
    if !ClausesEnd(ts) {
      PathsAreNotEmpty(ts[0], env);
      RemoveClausesValid(ops + [RemoveOp(ResolvePath(ts[0], env))], SkipComma(ts[1..]), env);
    }
  }

  lemma {:induction false} SectionsValid(ops: seq<UpdateOp>, ts: seq<string>, env: Parser.Env)
    requires ValidOps(ops)
    ensures Sections(ops, ts, env).Done? ==> ValidOps(Sections(ops, ts, env).value)
    decreases |ts|
  {
    hide SetClauses, AddDeleteClauses, RemoveClauses, ActionOf, ValidOps;
    if ts != [] && ActionOf(ts[0]).Some? {
      SetClausesValid(ops, ts[1..], env);
      RemoveClausesValid(ops, ts[1..], env);
      var action := ActionOf(ts[0]).value;
      if action != REMOVE {
        AddDeleteClausesValid(action, ops, ts[1..], env);
      }
      var more := Clauses(action, ops, ts[1..], env);
      if more.Done? {
        SectionsValid(more.value, more.rest, env);
      }
    }
  }

  /** The update expression of a request, applied to an item: an empty expression
      changes nothing; errors and the parser's panic both leave no result. */
  function ApplyUpdate(expression: string, env: Parser.Env, item: Item): Result<Item> {
    if expression == "" then Ok(item)
    else
      match ParseUpdate(expression, env)
      case Done(ops, _) => SectionsValid([], Lexer.MemTokens(expression), env); EvalOps(ops, item)
      case _ => Err
  }
}
