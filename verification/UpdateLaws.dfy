/** What update clauses do to an item (memdb/expression.go, evalUpdateNodes): the value at
    the path afterwards, and that everything else is as it was. */
module UpdateLaws {
  import opened Base
  import opened Values
  import opened Paths
  import opened UpdateExpr
  import opened UpdateEval
  import Ast
  import ExprUpdate

  /** The path holds v afterwards, and every other path what it held before. */
  ghost predicate Becomes(path: seq<string>, v: AttributeValue, before: Item, after: Item) {
    && Resolve(path, after) == Some(v)
    && forall other :: other != [] && Apart(path, other) ==> Resolve(other, after) == Resolve(other, before)
  }

  ghost predicate Leaves(r: Result<Item>, path: seq<string>, v: AttributeValue, item: Item) { r.Ok? && Becomes(path, v, item, r.value) }

  predicate Small(i: int) { -TWO_53 <= i <= TWO_53 }

  /** One clause by itself. */
  lemma OneOp(op: UpdateOp, item: Item)
    requires ValidOp(op)
    ensures ValidOps([op]) && EvalOps([op], item) == EvalOp(op, item)
  {
    assert [op][1..] == [];
    hide SetNested, RemoveNested, ResolveValue, Added, Deleted;
  }

  lemma SetBecomes(path: seq<string>, item: Item, v: AttributeValue)
    requires path != [] && Paths.Open(path, item)
    ensures Becomes(path, v, item, SetNested(path, item, v))
  {
    SetThenResolve(path, item, v);
    forall other | other != [] && Apart(path, other)
      ensures Resolve(other, SetNested(path, item, v)) == Resolve(other, item)
    {
      SetElsewhere(path, other, item, v);
    }
  }

  lemma ThereIsOpen(path: seq<string>, item: Item)
    requires Resolve(path, item).Some?
    ensures path != [] && Paths.Open(path, item)
  {
    SetThenResolve(path, item, NULL);
  }

  // ---- Arithmetic ----

  lemma CalculateMeans(a: int, b: int)
    requires Small(a) && Small(b)
    ensures Small(a + b) ==> Calculate(IntToString(a), true, IntToString(b)) == Ok(IntToString(a + b))
    ensures Small(a - b) ==> Calculate(IntToString(a), false, IntToString(b)) == Ok(IntToString(a - b))
  {
    ParsePrintedFloat(a);
    ParsePrintedFloat(b);
    Float64Exact(a);
    Float64Exact(b);
    if Small(a + b) {
      Float64Exact(a + b);
    }
    if Small(a - b) {
      Float64Exact(a - b);
    }
    hide ParseFloat, IntToString, Float64;
  }

  /** ADD on a number adds. */
  lemma AddAdds(path: seq<string>, a: int, b: int, item: Item)
    requires Resolve(path, item) == Some(N(IntToString(a))) && Small(a) && Small(b) && Small(a + b)
    ensures path != [] && ValidOps([ValueOp(ADD, path, Literal(N(IntToString(b))))])
    ensures Leaves(EvalOps([ValueOp(ADD, path, Literal(N(IntToString(b))))], item), path, N(IntToString(a + b)), item)
  {
    var op := ValueOp(ADD, path, Literal(N(IntToString(b))));
    ThereIsOpen(path, item);
    OneOp(op, item);
    CalculateMeans(a, b);
    SetBecomes(path, item, N(IntToString(a + b)));
    hide Calculate, IntToString, SetNested, Resolve, Becomes;
  }

  /** SET path = v + w and SET path = v - w, whatever the operands are: literals, paths
      such as the same one, or calls. */
  lemma SetCalculates(path: seq<string>, v: UpdateValue, w: UpdateValue, a: int, b: int, item: Item)
    requires path != [] && Paths.Open(path, item)
    requires ResolveValue(v, item) == Ok(N(IntToString(a))) && ResolveValue(w, item) == Ok(N(IntToString(b))) && Small(a) && Small(b)
    ensures ValidOps([ValueOp(SET, path, Arithmetic(v, true, w))]) && ValidOps([ValueOp(SET, path, Arithmetic(v, false, w))])
    ensures Small(a + b) ==> Leaves(EvalOps([ValueOp(SET, path, Arithmetic(v, true, w))], item), path, N(IntToString(a + b)), item)
    ensures Small(a - b) ==> Leaves(EvalOps([ValueOp(SET, path, Arithmetic(v, false, w))], item), path, N(IntToString(a - b)), item)
  {
    OneOp(ValueOp(SET, path, Arithmetic(v, true, w)), item);
    OneOp(ValueOp(SET, path, Arithmetic(v, false, w)), item);
    CalculateMeans(a, b);
    SetBecomes(path, item, N(IntToString(a + b)));
    SetBecomes(path, item, N(IntToString(a - b)));
    hide Calculate, IntToString, SetNested, Resolve, Becomes;
  }

  /** So a counter goes up and down. */
  lemma CounterMoves(path: seq<string>, a: int, b: int, item: Item)
    requires Resolve(path, item) == Some(N(IntToString(a))) && Small(a) && Small(b)
    ensures path != []
    ensures Small(a + b) ==>
      Leaves(EvalOps([ValueOp(SET, path, Arithmetic(PathValue(path), true, Literal(N(IntToString(b)))))], item), path, N(IntToString(a + b)), item)
    ensures Small(a - b) ==>
      Leaves(EvalOps([ValueOp(SET, path, Arithmetic(PathValue(path), false, Literal(N(IntToString(b)))))], item), path, N(IntToString(a - b)), item)
  {
    ThereIsOpen(path, item);
    SetCalculates(path, PathValue(path), Literal(N(IntToString(b))), a, b, item);
    hide EvalOps, IntToString, Becomes;
  }

  /** Only numbers can be calculated with. */
  lemma OnlyNumbersCalculate(path: seq<string>, v: UpdateValue, plus: bool, w: UpdateValue, item: Item)
    requires path != [] && ResolveValue(v, item).Ok? && ResolveValue(w, item).Ok?
    requires !ResolveValue(v, item).value.N? || !ResolveValue(w, item).value.N?
    ensures EvalOps([ValueOp(SET, path, Arithmetic(v, plus, w))], item) == Err
  {
    OneOp(ValueOp(SET, path, Arithmetic(v, plus, w)), item);
    hide Calculate, SetNested, Resolve;
  }

  // ---- SET ----

  /** SET stores what its right-hand side resolves to, where nothing is in the way; an
      unresolved right-hand side is an error. */
  lemma SetStores(path: seq<string>, v: UpdateValue, item: Item)
    requires path != []
    ensures ResolveValue(v, item).Err? ==> EvalOps([ValueOp(SET, path, v)], item) == Err
    ensures ResolveValue(v, item).Ok? && Paths.Open(path, item) ==> Leaves(EvalOps([ValueOp(SET, path, v)], item), path, ResolveValue(v, item).value, item)
    ensures ResolveValue(v, item).Ok? && !Paths.Open(path, item) ==> EvalOps([ValueOp(SET, path, v)], item) == Ok(item)
  {
    OneOp(ValueOp(SET, path, v), item);
    if ResolveValue(v, item).Ok? {
      SetThenResolve(path, item, ResolveValue(v, item).value);
      if Paths.Open(path, item) {
        SetBecomes(path, item, ResolveValue(v, item).value);
      }
    }
    hide ResolveValue, SetNested, Resolve, Becomes, Paths.Open;
  }

  /** What right-hand sides resolve to: a copy of another attribute, and the attribute or
      else a default. */
  lemma ValuesMean(item: Item, from: seq<string>, default: UpdateValue, lit: AttributeValue)
    ensures ResolveValue(Literal(lit), item) == Ok(lit)
    ensures ResolveValue(PathValue(from), item) == match Resolve(from, item) case Some(x) => Ok(x) case None => Err
    ensures Resolve(from, item).Some? ==> ResolveValue(IfNotExists(from, default), item) == Ok(Resolve(from, item).value)
    ensures Resolve(from, item).None? ==> ResolveValue(IfNotExists(from, default), item) == ResolveValue(default, item)
  {
    hide Calculate, Resolve;
  }

  /** list_append is one list behind the other, and an error on anything but lists. */
  lemma ListsJoin(item: Item, v: UpdateValue, w: UpdateValue, x: seq<AttributeValue>, y: seq<AttributeValue>)
    requires ResolveValue(v, item) == Ok(L(x)) && ResolveValue(w, item) == Ok(L(y))
    ensures ResolveValue(ListAppend(v, w), item).Ok? && ResolveValue(ListAppend(v, w), item).value.L?
    ensures var z := ResolveValue(ListAppend(v, w), item).value.l;
      && |z| == |x| + |y|
      && (forall i :: 0 <= i < |x| ==> z[i] == x[i])
      && (forall i :: 0 <= i < |y| ==> z[|x| + i] == y[i])
  {
    assert ResolveValue(ListAppend(v, w), item) == Ok(L(x + y));
    hide ResolveValue;
  }

  lemma OnlyListsJoin(item: Item, v: UpdateValue, w: UpdateValue)
    requires ResolveValue(v, item).Err? || ResolveValue(w, item).Err? || !ResolveValue(v, item).value.L? || !ResolveValue(w, item).value.L?
    ensures ResolveValue(ListAppend(v, w), item) == Err
  {
    hide Calculate, Resolve;
  }

  /** SET path = if_not_exists(path, default) writes only where nothing is. */
  lemma SetsOnce(path: seq<string>, v: AttributeValue, item: Item)
    requires path != []
    ensures Resolve(path, item).Some? ==> EvalOps([ValueOp(SET, path, IfNotExists(path, Literal(v)))], item) == Ok(item)
    ensures Resolve(path, item).None? && Paths.Open(path, item) ==>
      Leaves(EvalOps([ValueOp(SET, path, IfNotExists(path, Literal(v)))], item), path, v, item)
  {
    var value := IfNotExists(path, Literal(v));
    OneOp(ValueOp(SET, path, value), item);
    SetStores(path, value, item);
    ValuesMean(item, path, Literal(v), v);
    if Resolve(path, item).Some? {
      SetWhatIsThere(path, item, Resolve(path, item).value);
    }
    hide ResolveValue, SetNested, Resolve, Becomes, Paths.Open, EvalOps;
  }

  // ---- ADD and DELETE ----

  /** ADD where nothing is stores the operand. */
  lemma AddStores(path: seq<string>, v: AttributeValue, item: Item)
    requires path != [] && Resolve(path, item).None? && Paths.Open(path, item)
    ensures Leaves(EvalOps([ValueOp(ADD, path, Literal(v))], item), path, v, item)
  {
    OneOp(ValueOp(ADD, path, Literal(v)), item);
    SetBecomes(path, item, v);
    hide SetNested, Resolve, Becomes, Paths.Open;
  }

  /** ADD on a string or number set is union, DELETE is difference. */
  lemma SetsChange(path: seq<string>, a: seq<string>, b: seq<string>, numbers: bool, item: Item) returns (union: seq<string>, rest: seq<string>)
    requires Resolve(path, item) == Some(if numbers then NS(a) else SS(a))
    ensures path != []
    ensures (forall x :: x in union <==> x in a || x in b) && (forall x :: x in rest <==> x in a && x !in b)
    ensures Leaves(EvalOps([ValueOp(ADD, path, Literal(if numbers then NS(b) else SS(b)))], item), path, if numbers then NS(union) else SS(union), item)
    ensures Leaves(EvalOps([ValueOp(DELETE, path, Literal(if numbers then NS(b) else SS(b)))], item), path, if numbers then NS(rest) else SS(rest), item)
  {
    ThereIsOpen(path, item);
    union, rest := SetUnion(a, b), SetDifference(a, b);
    SetUnionIsUnion(a, b);
    SetDifferenceIsDifference(a, b);
    var v := if numbers then NS(b) else SS(b);
    OneOp(ValueOp(ADD, path, Literal(v)), item);
    OneOp(ValueOp(DELETE, path, Literal(v)), item);
    SetBecomes(path, item, if numbers then NS(union) else SS(union));
    SetBecomes(path, item, if numbers then NS(rest) else SS(rest));
    hide SetNested, Resolve, Becomes, Paths.Open, SetUnion, SetDifference;
  }

  predicate Addable(x: AttributeValue, y: AttributeValue) { (x.N? && y.N?) || (x.SS? && y.SS?) || (x.NS? && y.NS?) }

  /** ADD of anything else to a value is an error; DELETE of anything else, or where
      nothing is, changes nothing. */
  lemma OthersDoNotChange(path: seq<string>, v: AttributeValue, item: Item)
    requires path != []
    ensures Resolve(path, item).Some? && !Addable(Resolve(path, item).value, v) ==> EvalOps([ValueOp(ADD, path, Literal(v))], item) == Err
    ensures Resolve(path, item).None? || Resolve(path, item).value.N? || !Addable(Resolve(path, item).value, v) ==>
      EvalOps([ValueOp(DELETE, path, Literal(v))], item) == Ok(item)
  {
    OneOp(ValueOp(ADD, path, Literal(v)), item);
    OneOp(ValueOp(DELETE, path, Literal(v)), item);
    hide SetNested, Resolve;
  }

  // ---- REMOVE, and clauses one after the other ----

  lemma RemoveRemoves(path: seq<string>, item: Item)
    requires path != []
    ensures EvalOps([RemoveOp(path)], item).Ok?
    ensures Resolve(path, EvalOps([RemoveOp(path)], item).value) == None
    ensures forall other :: other != [] && Apart(path, other) ==> Resolve(other, EvalOps([RemoveOp(path)], item).value) == Resolve(other, item)
  {
    OneOp(RemoveOp(path), item);
    RemoveThenResolve(path, item);
    forall other | other != [] && Apart(path, other)
      ensures Resolve(other, RemoveNested(path, item)) == Resolve(other, item)
    {
      RemoveElsewhere(path, other, item);
    }
    hide RemoveNested, Resolve, Apart;
  }

  /** Each clause works on what the ones to its left have made; an error in any of them
      is the answer. */
  lemma {:induction false} ClauseByClause(a: seq<UpdateOp>, b: seq<UpdateOp>, item: Item)
    requires ValidOps(a) && ValidOps(b)
    ensures ValidOps(a + b) && EvalOps(a + b, item) == match EvalOps(a, item) case Ok(next) => EvalOps(b, next) case Err => Err
    decreases |a|
  {
    hide EvalOp;
    if a == [] {
      assert a + b == b;
    } else {
      assert (a + b)[1..] == a[1..] + b && (a + b)[0] == a[0];
      if EvalOp(a[0], item).Ok? {
        ClauseByClause(a[1..], b, EvalOp(a[0], item).value);
      }
    }
  }

  // ---- The other evaluator ----

  /** A clause of internal/expr (eval_update.go) as memdb's clause, when its operand is a
      value or a path. */
  function AsOp(u: ExprUpdate.Update): Option<UpdateOp> {
    if u.action.REMOVE? then Some(RemoveOp(u.path))
    else
      match u.value
      case Some(ValueNode(v)) => Some(ValueOp(u.action, u.path, Literal(v)))
      case Some(PathNode(parts)) => Some(ValueOp(u.action, u.path, PathValue(parts)))
      case _ => None
  }

  /** Where the two evaluators differ: a value in the way of a write, binary sets, and
      DELETE on something that is no set. */
  predicate Differ(u: ExprUpdate.Update, item: Item)
    requires u.path != []
  {
    !u.action.REMOVE? && ExprUpdate.Operand(u, item).Ok?
    && var (existing, val) := (Resolve(u.path, item), ExprUpdate.Operand(u, item).value);
       match u.action
       case ADD => if existing.None? then !Paths.Open(u.path, item) else existing.value.BS? && val.BS?
       case DELETE =>
         existing.Some? && (
           match (existing.value, val)
           case (SS(_), SS(_)) => false
           case (NS(_), NS(_)) => false
           case (BS(a), BS(b)) => SetDifference(a, b) != a
           case _ => true)
       case _ => !Paths.Open(u.path, item)
  }

  /** They agree on a clause exactly elsewhere. */
  lemma EvaluatorsAgreeIff(u: ExprUpdate.Update, item: Item)
    requires u.path != [] && AsOp(u).Some?
    ensures ValidOp(AsOp(u).value)
    ensures ExprUpdate.Applied(u, item) == EvalOp(AsOp(u).value, item) <==> !Differ(u, item)
  {
    if !u.action.REMOVE? {
      OperandIs(u, item);
      if ExprUpdate.Operand(u, item).Ok? {
        var val := ExprUpdate.Operand(u, item).value;
        WritesAgree(u.path, item, val);
        if Resolve(u.path, item).Some? {
          ThereIsOpen(u.path, item);
          AddsAgree(u.path, item, Resolve(u.path, item).value, val);
          DeletesAgree(u.path, item, Resolve(u.path, item).value, val);
        }
      }
    }
    hide ExprUpdate.Operand, ExprUpdate.SetPath, SetNested, Resolve, Paths.Open, ExprUpdate.Sum, ExprUpdate.Difference, Added, Deleted, ResolveValue, SetDifference;
  }

  lemma OperandIs(u: ExprUpdate.Update, item: Item)
    requires AsOp(u).Some? && AsOp(u).value.ValueOp?
    ensures ExprUpdate.Operand(u, item) == ResolveValue(AsOp(u).value.value, item)
  {
    hide Resolve;
  }

  lemma WritesAgree(path: seq<string>, item: Item, val: AttributeValue)
    requires path != []
    ensures ExprUpdate.SetPath(path, item, val) == Ok(SetNested(path, item, val)) <==> Paths.Open(path, item)
    ensures Added(None, val) == Ok(val) && Deleted(None, val) == None
  {
    ExprUpdate.SetPathIff(path, item, val);
    hide ExprUpdate.SetPath, SetNested, Paths.Open;
  }

  lemma AddsAgree(path: seq<string>, item: Item, x: AttributeValue, y: AttributeValue)
    requires path != [] && Paths.Open(path, item)
    ensures ExprUpdate.SetTo(path, item, ExprUpdate.Sum(x, y))
         == (match Added(Some(x), y) case Ok(v) => Ok(SetNested(path, item, v)) case Err => Err)
       <==> !(x.BS? && y.BS?)
  {
    forall v
      ensures ExprUpdate.SetPath(path, item, v) == Ok(SetNested(path, item, v))
    {
      ExprUpdate.SetPathIff(path, item, v);
    }
    hide ExprUpdate.SetPath, SetNested, Paths.Open, Calculate, SetUnion, ExprUpdate.AddBinary;
  }

  lemma DeletesAgree(path: seq<string>, item: Item, x: AttributeValue, y: AttributeValue)
    requires path != [] && Paths.Open(path, item) && Resolve(path, item) == Some(x)
    ensures ExprUpdate.SetTo(path, item, ExprUpdate.Difference(x, y))
         == (match Deleted(Some(x), y) case Some(v) => Ok(SetNested(path, item, v)) case None => Ok(item))
       <==> match (x, y)
            case (SS(_), SS(_)) => true
            case (NS(_), NS(_)) => true
            case (BS(a), BS(b)) => SetDifference(a, b) == a
            case _ => false
  {
    forall v
      ensures ExprUpdate.SetPath(path, item, v) == Ok(SetNested(path, item, v))
      ensures Resolve(path, SetNested(path, item, v)) == Some(v)
    {
      ExprUpdate.SetPathIff(path, item, v);
      SetThenResolve(path, item, v);
    }
    SetWhatIsThere(path, item, x);
    hide ExprUpdate.SetPath, SetNested, Paths.Open, SetDifference, Resolve;
  }

  /** addToBinarySet: the elements of both; what is added twice is there twice. */
  lemma BinaryUnion(a: seq<string>, b: seq<string>)
    ensures forall x :: x in ExprUpdate.AddBinary(a, b) <==> x in a || x in b
    ensures a <= ExprUpdate.AddBinary(a, b)
    ensures ExprUpdate.Sum(BS(a), BS(b)) == Ok(BS(ExprUpdate.AddBinary(a, b)))
  {
    SetDifferenceIsDifference(b, a);
    hide SetDifference;
  }
}
