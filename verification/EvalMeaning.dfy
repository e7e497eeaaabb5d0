/** What conditions say (internal/expr/eval.go): the evaluator against the numbers,
    strings and maps that its operands stand for. */
module EvalMeaning {
  import opened Base
  import opened Values
  import opened Ast
  import opened Evaluation

  // ---- Byte-wise order ----

  /** x comes first: by being a proper beginning of y, or at the first difference. */
  ghost predicate Precedes(x: string, y: string) { exists k :: DiffersAt(x, y, k) }

  predicate DiffersAt(x: string, y: string, k: int) {
    0 <= k <= |x| && k < |y| && x[..k] == y[..k] && (k == |x| || x[k] < y[k])
  }

  lemma SameHead(x: string, y: string, k: int)
    requires DiffersAt(x, y, k)
    ensures y != "" && (k > 0 ==> x != "" && x[0] == y[0])
  {
    if k > 0 {
      assert x[..k][0] == x[0] && y[..k][0] == y[0];
    }
  }

  lemma {:induction false} LessIff(x: string, y: string)
    ensures Less(x, y) <==> Precedes(x, y)
  {
    if x == "" || y == "" || x[0] != y[0] {
      if Less(x, y) {
        assert DiffersAt(x, y, 0);
      }
      if k :| DiffersAt(x, y, k) {
        SameHead(x, y, k);
      }
    } else {
      LessIff(x[1..], y[1..]);
      if k :| DiffersAt(x[1..], y[1..], k) {
        assert x[..k + 1] == [x[0]] + x[1..][..k];
        assert y[..k + 1] == [y[0]] + y[1..][..k];
        assert DiffersAt(x, y, k + 1);
      }
      if k :| DiffersAt(x, y, k) {
        assert x[1..][..k - 1] == x[..k][1..] && y[1..][..k - 1] == y[..k][1..];
        assert DiffersAt(x[1..], y[1..], k - 1);
      }
    }
  }

  lemma CompareMeans(x: string, y: string)
    ensures Compare(x, y) < 0 <==> Precedes(x, y)
    ensures Compare(x, y) == 0 <==> x == y
    ensures Compare(x, y) > 0 <==> Precedes(y, x)
  {
    LessIff(x, y);
    LessIff(y, x);
    CompareFlips(x, y);
  }

  // ---- Comparisons ----

  predicate Stands(n: Node, v: AttributeValue, item: Item) { ResolveNode(n, item) == Ok(Some(v)) }

  lemma IntegersOrdered(i: int, j: int)
    requires -TWO_53 <= i <= TWO_53 && -TWO_53 <= j <= TWO_53
    ensures CompareValues(N(IntToString(i)), N(IntToString(j))) == Ok(if i < j then -1 else if i > j then 1 else 0)
  {
    ParsePrintedFloat(i);
    ParsePrintedFloat(j);
    Float64Exact(i);
    Float64Exact(j);
    hide ParseFloat, IntToString, Float64;
  }

  /** Integers compare as integers. */
  lemma NumbersCompare(l: Node, r: Node, i: int, j: int, item: Item)
    requires -TWO_53 <= i <= TWO_53 && -TWO_53 <= j <= TWO_53
    requires Stands(l, N(IntToString(i)), item) && Stands(r, N(IntToString(j)), item)
    ensures Eval(CompareNode(l, EQ, r), item) == Ok(i == j)
    ensures Eval(CompareNode(l, NE, r), item) == Ok(i != j)
    ensures Eval(CompareNode(l, LT, r), item) == Ok(i < j)
    ensures Eval(CompareNode(l, LE, r), item) == Ok(i <= j)
    ensures Eval(CompareNode(l, GT, r), item) == Ok(i > j)
    ensures Eval(CompareNode(l, GE, r), item) == Ok(i >= j)
  {
    IntegersOrdered(i, j);
    hide CompareValues, IntToString, ResolveNode;
  }

  /** Strings, and bytes, compare byte by byte. */
  lemma StringsCompare(l: Node, r: Node, x: string, y: string, item: Item)
    requires (Stands(l, S(x), item) && Stands(r, S(y), item)) || (Stands(l, B(x), item) && Stands(r, B(y), item))
    ensures Eval(CompareNode(l, EQ, r), item) == Ok(x == y)
    ensures Eval(CompareNode(l, NE, r), item) == Ok(x != y)
    ensures Eval(CompareNode(l, LT, r), item) == Ok(Precedes(x, y))
    ensures Eval(CompareNode(l, LE, r), item) == Ok(Precedes(x, y) || x == y)
    ensures Eval(CompareNode(l, GT, r), item) == Ok(Precedes(y, x))
    ensures Eval(CompareNode(l, GE, r), item) == Ok(Precedes(y, x) || x == y)
  {
    CompareMeans(x, y);
    hide Compare, Precedes, ResolveNode;
  }

  /** false comes before true. */
  lemma BoolsCompare(l: Node, r: Node, x: bool, y: bool, item: Item)
    requires Stands(l, BOOL(x), item) && Stands(r, BOOL(y), item)
    ensures Eval(CompareNode(l, EQ, r), item) == Ok(x == y)
    ensures Eval(CompareNode(l, NE, r), item) == Ok(x != y)
    ensures Eval(CompareNode(l, LT, r), item) == Ok(!x && y)
    ensures Eval(CompareNode(l, LE, r), item) == Ok(x ==> y)
    ensures Eval(CompareNode(l, GT, r), item) == Ok(x && !y)
    ensures Eval(CompareNode(l, GE, r), item) == Ok(y ==> x)
  {
    hide ResolveNode;
  }

  /** Every comparison with something that is missing, or of another type, is false;
      lists, maps, sets and nulls cannot be compared. */
  lemma OthersDoNotCompare(l: Node, op: CompareOp, r: Node, item: Item)
    requires ResolveNode(l, item).Ok? && ResolveNode(r, item).Ok?
    ensures var (x, y) := (ResolveNode(l, item).value, ResolveNode(r, item).value);
      && (x == None || y == None ==> Eval(CompareNode(l, op, r), item) == Ok(false))
      && (x.Some? && y.Some? && !x.value.SameType(y.value) ==> Eval(CompareNode(l, op, r), item) == Ok(false))
      && (x.Some? && y.Some? && x.value.SameType(y.value) && !x.value.S? && !x.value.N? && !x.value.B? && !x.value.BOOL? ==>
            Eval(CompareNode(l, op, r), item) == Err)
  {
    var x, y := ResolveNode(l, item).value, ResolveNode(r, item).value;
    hide ResolveNode, Holds;
    if x.Some? && y.Some? && x.value.SameType(y.value) && !x.value.S? && !x.value.N? && !x.value.B? && !x.value.BOOL? {
      assert CompareValues(x.value, y.value) == Err;
    }
  }

  /** AND, OR and NOT, and when the second operand is not looked at. */
  lemma LogicMeans(l: Node, r: Node, a: bool, b: bool, item: Item)
    ensures Eval(l, item) == Ok(a) && Eval(r, item) == Ok(b) ==>
      && Eval(AndNode(l, r), item) == Ok(a && b)
      && Eval(OrNode(l, r), item) == Ok(a || b)
    ensures Eval(l, item) == Ok(a) ==> Eval(NotNode(l), item) == Ok(!a)
    ensures Eval(l, item) == Ok(false) ==> Eval(AndNode(l, r), item) == Ok(false)
    ensures Eval(l, item) == Ok(true) ==> Eval(OrNode(l, r), item) == Ok(true)
    ensures Eval(l, item) == Err ==> Eval(AndNode(l, r), item) == Err && Eval(OrNode(l, r), item) == Err && Eval(NotNode(l), item) == Err
    ensures Eval(l, item) == Ok(true) && Eval(r, item) == Err ==> Eval(AndNode(l, r), item) == Err
    ensures Eval(l, item) == Ok(false) && Eval(r, item) == Err ==> Eval(OrNode(l, r), item) == Err
  {
    hide EvalCompare, EvalFunc;
  }

  // ---- Paths ----

  /** The maps that a path goes through, the item first. */
  ghost predicate Through(maps: seq<Item>, parts: seq<string>, item: Item, v: AttributeValue) {
    && |maps| == |parts| > 0
    && maps[0] == item
    && (forall i :: 0 <= i < |parts| - 1 ==> parts[i] in maps[i] && maps[i][parts[i]] == M(maps[i + 1]))
    && parts[|parts| - 1] in maps[|parts| - 1] && maps[|parts| - 1][parts[|parts| - 1]] == v
  }

  lemma {:induction false} ResolveIff(parts: seq<string>, item: Item, v: AttributeValue)
    ensures Resolve(parts, item) == Some(v) <==> exists maps :: Through(maps, parts, item, v)
    decreases |parts|
  {
    if |parts| == 1 {
      if parts[0] in item && item[parts[0]] == v {
        assert Through([item], parts, item, v);
      }
    } else if |parts| > 1 {
      if maps :| Through(maps, parts, item, v) {
        OneMapLess(maps, parts, item, v);
        ResolveIff(parts[1..], maps[1], v);
      }
      if Resolve(parts, item) == Some(v) {
        var m := item[parts[0]].m;
        ResolveIff(parts[1..], m, v);
        var maps :| Through(maps, parts[1..], m, v);
        OneMapMore(maps, parts, item, v);
      }
    }
  }

  lemma OneMapLess(maps: seq<Item>, parts: seq<string>, item: Item, v: AttributeValue)
    requires |parts| > 1 && Through(maps, parts, item, v)
    ensures parts[0] in item && item[parts[0]] == M(maps[1]) && Through(maps[1..], parts[1..], maps[1], v)
  {
  }

  lemma OneMapMore(maps: seq<Item>, parts: seq<string>, item: Item, v: AttributeValue)
    requires |parts| > 1 && parts[0] in item && item[parts[0]].M? && Through(maps, parts[1..], item[parts[0]].m, v)
    ensures Through([item] + maps, parts, item, v)
  {
  }

  // ---- Functions ----

  /** attribute_exists and attribute_not_exists. */
  lemma ExistsMeans(parts: seq<string>, item: Item)
    ensures Eval(FuncNode("attribute_exists", [PathNode(parts)]), item).Ok?
    ensures Eval(FuncNode("attribute_exists", [PathNode(parts)]), item).value <==> exists v, maps :: Through(maps, parts, item, v)
    ensures Eval(FuncNode("attribute_not_exists", [PathNode(parts)]), item)
         == Ok(!Eval(FuncNode("attribute_exists", [PathNode(parts)]), item).value)
  {
    if v, maps :| Through(maps, parts, item, v) {
      ResolveIff(parts, item, v);
    }
    if Resolve(parts, item).Some? {
      ResolveIff(parts, item, Resolve(parts, item).value);
    }
    hide Resolve, Through;
  }

  /** begins_with is about strings only. */
  lemma BeginsWithMeans(l: Node, r: Node, x: AttributeValue, y: AttributeValue, item: Item)
    requires Stands(l, x, item) && Stands(r, y, item)
    ensures Eval(FuncNode("begins_with", [l, r]), item).Ok?
    ensures Eval(FuncNode("begins_with", [l, r]), item).value <==> x.S? && y.S? && exists rest :: x.s == y.s + rest
  {
    hide ResolveNode;
    if x.S? && y.S? {
      if HasPrefix(x.s, y.s) {
        assert x.s == y.s + x.s[|y.s|..];
      }
    }
  }

  /** contains on strings, string sets and number sets. */
  lemma ContainsMeans(l: Node, r: Node, x: AttributeValue, y: AttributeValue, item: Item)
    requires Stands(l, x, item) && Stands(r, y, item)
    ensures Eval(FuncNode("contains", [l, r]), item) == Ok(ContainsValue(x, y))
    ensures x.S? ==> (ContainsValue(x, y) <==> y.S? && exists front, back :: x.s == front + y.s + back)
    ensures x.SS? ==> (ContainsValue(x, y) <==> y.S? && exists i :: 0 <= i < |x.ss| && x.ss[i] == y.s)
    ensures x.NS? ==> (ContainsValue(x, y) <==> y.N? && exists i :: 0 <= i < |x.ns| && x.ns[i] == y.n)
    ensures !x.S? && !x.SS? && !x.NS? && !x.L? ==> !ContainsValue(x, y)
  {
    hide ResolveNode;
    if x.S? && y.S? {
      OccursIff(x.s, y.s);
    }
  }

  lemma {:induction false} OccursIff(s: string, sub: string)
    ensures Contains(s, sub) <==> exists front, back :: s == front + sub + back
  {
    if HasPrefix(s, sub) {
      assert s == "" + sub + s[|sub|..];
    }
    if s != "" {
      OccursIff(s[1..], sub);
      if front, back :| s[1..] == front + sub + back {
        assert s == ([s[0]] + front) + sub + back;
      }
    }
    if front, back :| s == front + sub + back {
      if front == "" {
        assert s == sub + back;
      } else {
        assert s[1..] == front[1..] + sub + back;
      }
    }
  }

  /** contains on lists: an element that is the operand; numbers are compared by value. */
  lemma ListContains(l: seq<AttributeValue>, x: string, j: int, b: bool)
    requires -TWO_53 <= j <= TWO_53
    ensures ContainsValue(L(l), S(x)) <==> exists i :: 0 <= i < |l| && l[i] == S(x)
    ensures ContainsValue(L(l), B(x)) <==> exists i :: 0 <= i < |l| && l[i] == B(x)
    ensures ContainsValue(L(l), BOOL(b)) <==> exists i :: 0 <= i < |l| && l[i] == BOOL(b)
    ensures ContainsValue(L(l), N(IntToString(j))) <==> exists i :: 0 <= i < |l| && l[i].N? && ParseFloat(l[i].n) == Some(j)
    ensures !ContainsValue(L(l), NULL) && !ContainsValue(L(l), L(l))
  {
    ParsePrintedFloat(j);
    Float64Exact(j);
    hide ParseFloat, IntToString, Float64;
  }

  /** How many bytes, elements or entries. */
  function Count(v: AttributeValue): nat {
    match v
    case S(s) => |s|
    case B(b) => |b|
    case L(l) => |l|
    case M(m) => |m|
    case SS(ss) => |ss|
    case NS(ns) => |ns|
    case BS(bs) => |bs|
    case _ => 0
  }

  /** size, as an operand and as a condition; numbers, bools and nulls have none, and
      what is missing has size 0. */
  lemma SizeMeans(n: Node, v: AttributeValue, item: Item)
    ensures Stands(n, v, item) && !v.N? && !v.BOOL? && !v.NULL? ==>
      && Stands(FuncNode("size", [n]), N(IntToString(Count(v))), item)
      && Eval(FuncNode("size", [n]), item) == Ok(Count(v) > 0)
    ensures Stands(n, v, item) && (v.N? || v.BOOL? || v.NULL?) ==> Eval(FuncNode("size", [n]), item) == Err
  {
    hide IntToString;
  }

  lemma SizeOfNothing(n: Node, item: Item)
    requires ResolveNode(n, item) == Ok(None)
    ensures Stands(FuncNode("size", [n]), N("0"), item) && Eval(FuncNode("size", [n]), item) == Ok(false)
  {
    assert EvalSize([n], item) == Ok(0);
    assert IntToString(0) == "0";
  }
}
