/** EvalUpdate (internal/expr/eval_update.go): what it computes, and that with maps
    and slices as shared objects it changes nothing that was there before. */
module ExprUpdate {
  import opened Base
  import opened Values
  import opened Ast
  import opened Evaluation
  import opened Paths
  import UpdateExpr
  import opened UpdateEval
  import opened Heap
  import opened HeapPaths

  // ---- What it computes ----

  /** setNestedPath of this package: a value in the way is an error. */
  function SetPath(parts: seq<string>, item: Item, val: AttributeValue): Result<Item>
    requires parts != []
  {
    if |parts| == 1 then Ok(item[parts[0] := val])
    else
      match Below(item, parts[0])
      case None => Err
      case Some(m) =>
        match SetPath(parts[1..], m, val)
        case Ok(inner) => Ok(item[parts[0] := M(inner)])
        case Err => Err
  }

  /** It is memdb's setter where nothing is in the way, and an error exactly where
      memdb's setter leaves the item alone. */
  lemma {:induction false} SetPathIff(parts: seq<string>, item: Item, val: AttributeValue)
    requires parts != []
    ensures SetPath(parts, item, val) == if Open(parts, item) then Ok(SetNested(parts, item, val)) else Err
  {
    if |parts| > 1 {
      if parts[0] !in item {
        OpenWhenEmpty(parts[1..]);
      }
      if Below(item, parts[0]).Some? {
        SetPathIff(parts[1..], Below(item, parts[0]).value, val);
      }
    }
  }

  /** addToBinarySet compares with the existing elements only. */
  function AddBinary(existing: seq<string>, add: seq<string>): seq<string> {
    existing + SetDifference(add, existing)
  }

  datatype Update = Update(action: UpdateExpr.Action, path: seq<string>, value: Option<Node>)

  /** The operand, when it is there. */
  function Operand(u: Update, item: Item): Result<AttributeValue> {
    match u.value
    case None => Err
    case Some(n) =>
      match ResolveNode(n, item)
      case Ok(Some(v)) => Ok(v)
      case _ => Err
  }

  function Sum(existing: AttributeValue, val: AttributeValue): Result<AttributeValue> {
    match (existing, val)
    case (N(a), N(b)) => (
      match Calculate(a, true, b)
      case Ok(n) => Ok(N(n))
      case Err => Err)
    case (SS(a), SS(b)) => Ok(SS(SetUnion(a, b)))
    case (NS(a), NS(b)) => Ok(NS(SetUnion(a, b)))
    case (BS(a), BS(b)) => Ok(BS(AddBinary(a, b)))
    case _ => Err
  }

  function Difference(existing: AttributeValue, val: AttributeValue): Result<AttributeValue> {
    match (existing, val)
    case (SS(a), SS(b)) => Ok(SS(SetDifference(a, b)))
    case (NS(a), NS(b)) => Ok(NS(SetDifference(a, b)))
    case (BS(a), BS(b)) => Ok(BS(SetDifference(a, b)))
    case _ => Err
  }

  function Applied(u: Update, item: Item): Result<Item>
    requires u.path != []
  {
    if u.action.REMOVE? then Ok(RemoveNested(u.path, item))
    else
      match Operand(u, item)
      case Err => Err
      case Ok(val) =>
        var existing := Resolve(u.path, item);
        if u.action.ADD? && existing.Some? then SetTo(u.path, item, Sum(existing.value, val))
        else if u.action.DELETE? && existing.Some? then SetTo(u.path, item, Difference(existing.value, val))
        else if u.action.DELETE? then Ok(item)
        else SetPath(u.path, item, val)
  }

  function SetTo(path: seq<string>, item: Item, val: Result<AttributeValue>): Result<Item>
    requires path != []
  {
    match val case Ok(v) => SetPath(path, item, v) case Err => Err
  }

  function Evaluated(us: seq<Update>, item: Item): Result<Item>
    requires forall i :: 0 <= i < |us| ==> us[i].path != []
  {
    if us == [] then Ok(item)
    else
      match Applied(us[0], item)
      case Ok(next) => Evaluated(us[1..], next)
      case Err => Err
  }

  // ---- On the heap: paths ----

  /** setNestedPath: only the given map is written; maps below it are copied first. */
  method SetOnHeap(parts: seq<string>, cell: MapCell, val: HVal, ghost item: Item, ghost av: AttributeValue, ghost fp: set<object>)
    returns (ok: bool, ghost fq: set<object>)
    requires parts != [] && DenotesItem(cell, item, fp) && Denotes(val, av, fp)
    modifies cell
    ensures fp <= fq && fresh(fq - fp)
    ensures match SetPath(parts, item, av)
            case Ok(next) => ok && DenotesItem(cell, next, fq)
            case Err => !ok
    decreases |parts|
  {
    hide Denotes;
    if |parts| == 1 {
      cell.m := cell.m[parts[0] := val];
      return true, fp;
    }
    var newMap: MapCell;
    ghost var inner: Item;
    ok, newMap, inner := Descend(parts[0], cell, item, fp);
    if !ok {
      return false, fp;
    }
    ok, fq := SetOnHeap(parts[1..], newMap, val, inner, av, fp);
    if ok {
      fq := Attach(cell, parts[0], newMap, item, SetPath(parts[1..], inner, av).value, fp, fq);
    }
  }

  // ---- On the heap: operands ----

  /** The right-hand side of an update, with its literals as values on the heap. A node
      that is no operand, such as a comparison, is one of the last kind. */
  datatype HeapNode = AtPath(parts: seq<string>) | Given(v: HVal) | Call(name: string, args: seq<HeapNode>) | NoOperand

  /** It is the node n. */
  ghost predicate MeansNode(h: HeapNode, n: Node, fp: set<object>)
    reads fp
    decreases n
  {
    match n
    case PathNode(parts) => h == AtPath(parts)
    case ValueNode(av) => h.Given? && Denotes(h.v, av, fp)
    case FuncNode(name, args) =>
      h.Call? && h.name == name && |h.args| == |args| && forall i :: 0 <= i < |args| ==> MeansNode(h.args[i], args[i], fp)
    case _ => h == NoOperand
  }

  ghost predicate Means(op: Option<HeapNode>, n: Option<Node>, fp: set<object>)
    reads fp
  {
    match (op, n)
    case (Some(h), Some(x)) => MeansNode(h, x, fp)
    case (None, None) => true
    case _ => false
  }

  method SizeOnHeap(v: HVal, ghost av: AttributeValue, ghost fp: set<object>) returns (size: Result<nat>)
    requires Denotes(v, av, fp)
    ensures size == SizeOf(av)
  {
    match v
    case Scalar(x) => size := SizeOf(x);
    case HBytes(a) => assert |a[..]| == a.Length; size := Ok(a.Length);
    case HMap(c) => assert |c.m.Keys| == |c.m| && |av.m.Keys| == |av.m|; size := Ok(|c.m|);
    case HList(a) => size := Ok(a.Length);
    case HStrings(_, a) => assert |a[..]| == a.Length; size := Ok(a.Length);
    case HByteSet(a) => size := Ok(a.Length);
  }

  /** The value is there and stands for av, or both are missing. */
  ghost predicate Stands(r: Result<Option<HVal>>, spec: Result<Option<AttributeValue>>, fp: set<object>)
    reads fp
  {
    match spec
    case Err => r == Err
    case Ok(None) => r == Ok(None)
    case Ok(Some(av)) => r.Ok? && r.value.Some? && Denotes(r.value.value, av, fp)
  }

  /** resolveNode. */
  method ResolveOnHeap(h: HeapNode, cell: MapCell, ghost n: Node, ghost item: Item, ghost fp: set<object>) returns (r: Result<Option<HVal>>)
    requires DenotesItem(cell, item, fp) && MeansNode(h, n, fp)
    ensures Stands(r, ResolveNode(n, item), fp)
    decreases h
  {
    hide Denotes, Resolve, SizeOf;
    match h
    case AtPath(parts) =>
      var v := ResolvePathValue(parts, cell, item, fp);
      r := Ok(v);
    case Given(v) =>
      r := Ok(Some(v));
    case Call(name, args) =>
      if name != "size" || |args| != 1 {
        return Err;
      }
      SizeCall(n, item);
      var x := ResolveOnHeap(args[0], cell, n.args[0], item, fp);
      if x.Err? {
        return Err;
      }
      var size := Ok(0);
      if x.value.Some? {
        size := SizeOnHeap(x.value.value, ResolveNode(n.args[0], item).value.value, fp);
      }
      if size.Err? {
        return Err;
      }
      r := Ok(Some(Scalar(N(IntToString(size.value)))));
      ScalarDenotes(N(IntToString(size.value)), fp);
    case NoOperand =>
      r := Err;
  }

  lemma SizeCall(n: Node, item: Item)
    requires n.FuncNode? && n.name == "size" && |n.args| == 1
    ensures ResolveNode(n, item) == match ResolveNode(n.args[0], item)
      case Err => Err
      case Ok(None) => Ok(Some(N(IntToString(0))))
      case Ok(Some(v)) => (match SizeOf(v) case Ok(size) => Ok(Some(N(IntToString(size)))) case Err => Err)
  {
    hide SizeOf;
    assert EvalSize(n.args, item) == match ResolveNode(n.args[0], item)
      case Err => Err
      case Ok(None) => Ok(0)
      case Ok(Some(v)) => SizeOf(v);
  }

  /** The value of an update: it has to be given, and to be there. */
  method OperandOnHeap(op: Option<HeapNode>, cell: MapCell, ghost u: Update, ghost item: Item, ghost fp: set<object>) returns (r: Result<HVal>)
    requires DenotesItem(cell, item, fp) && Means(op, u.value, fp)
    ensures match Operand(u, item)
            case Ok(av) => r.Ok? && Denotes(r.value, av, fp)
            case Err => r == Err
  {
    hide Denotes, ResolveNode, MeansNode;
    if op.None? {
      return Err;
    }
    var v := ResolveOnHeap(op.value, cell, u.value.value, item, fp);
    r := match v case Ok(Some(x)) => Ok(x) case _ => Err;
  }

  // ---- On the heap: sets ----

  /** The buffers of a byte set, as bytes. */
  method ReadBuffers(a: array<HVal>, ghost bs: seq<string>, ghost fp: set<object>) returns (s: seq<string>)
    requires Denotes(HByteSet(a), BS(bs), fp)
    ensures s == bs
  {
    s := [];
    for i := 0 to a.Length
      invariant s == bs[..i]
    {
      assert DenotesBytes(a[i], bs[i], fp);
      s := s + [a[i].bytes[..]];
    }
  }

  /** The buffers whose bytes are in `drop` or are not, in order and shared. */
  method SelectBuffers(a: array<HVal>, ghost from: seq<string>, drop: seq<string>, ghost fp: set<object>) returns (s: seq<HVal>)
    requires Denotes(HByteSet(a), BS(from), fp)
    ensures |s| == |SetDifference(from, drop)| && forall i :: 0 <= i < |s| ==> DenotesBytes(s[i], SetDifference(from, drop)[i], fp)
  {
    s := [];
    assert from[0..] == from;
    ghost var done: seq<string> := [];
    for i := 0 to a.Length
      invariant done + SetDifference(from[i..], drop) == SetDifference(from, drop)
      invariant |s| == |done| && forall j :: 0 <= j < |s| ==> DenotesBytes(s[j], done[j], fp)
    {
      assert from[i..][1..] == from[i + 1..];
      assert DenotesBytes(a[i], from[i], fp);
      if a[i].bytes[..] !in drop {
        s := s + [a[i]];
        done := done + [from[i]];
      }
    }
    assert done + [] == done;
  }

  method NewByteSet(s: seq<HVal>, ghost bs: seq<string>, ghost fp: set<object>) returns (v: HVal, ghost fq: set<object>)
    requires |s| == |bs| && forall i :: 0 <= i < |s| ==> DenotesBytes(s[i], bs[i], fp)
    ensures fp <= fq && fresh(fq - fp) && Denotes(v, BS(bs), fq)
  {
    var a := new HVal[|s|](i requires 0 <= i < |s| => s[i]);
    v, fq := HByteSet(a), fp + {a};
    assert forall i :: 0 <= i < |bs| ==> DenotesBytes(a[i], bs[i], fq);
  }

  method SumOnHeap(e: HVal, v: HVal, ghost existing: AttributeValue, ghost val: AttributeValue, ghost fp: set<object>)
    returns (r: Result<HVal>, ghost fq: set<object>)
    requires Denotes(e, existing, fp) && Denotes(v, val, fp)
    ensures fp <= fq && fresh(fq - fp)
    ensures match Sum(existing, val)
            case Ok(av) => r.Ok? && Denotes(r.value, av, fq)
            case Err => r == Err
  {
    hide Denotes, Calculate, SetUnion, SetDifference;
    Kinds(e, existing, fp);
    Kinds(v, val, fp);
    fq := fp;
    if e.Scalar? && e.av.N? && v.Scalar? && v.av.N? {
      var n := Calculate(e.av.n, true, v.av.n);
      if n.Err? {
        return Err, fp;
      }
      ScalarDenotes(N(n.value), fp);
      r := Ok(Scalar(N(n.value)));
    } else if e.HStrings? && v.HStrings? && e.numbers == v.numbers {
      var merged := AddToStringSet(e.strs[..], v.strs[..]);
      var aSet;
      aSet, fq := NewStrings(e.numbers, merged, fp);
      r := Ok(aSet);
    } else if e.HByteSet? && v.HByteSet? {
      var present := ReadBuffers(e.bufs, existing.bs, fp);
      var more := SelectBuffers(v.bufs, val.bs, present, fp);
      BuffersOf(e, existing.bs, fp);
      var aSet;
      aSet, fq := NewByteSet(e.bufs[..] + more, AddBinary(existing.bs, val.bs), fp);
      r := Ok(aSet);
    } else {
      r := Err;
    }
  }

  lemma BuffersOf(e: HVal, bs: seq<string>, fp: set<object>)
    requires Denotes(e, BS(bs), fp)
    ensures e.HByteSet? && e.bufs.Length == |bs| && forall i :: 0 <= i < |bs| ==> DenotesBytes(e.bufs[i], bs[i], fp)
  {
  }

  method DifferenceOnHeap(e: HVal, v: HVal, ghost existing: AttributeValue, ghost val: AttributeValue, ghost fp: set<object>)
    returns (r: Result<HVal>, ghost fq: set<object>)
    requires Denotes(e, existing, fp) && Denotes(v, val, fp)
    ensures fp <= fq && fresh(fq - fp)
    ensures match Difference(existing, val)
            case Ok(av) => r.Ok? && Denotes(r.value, av, fq)
            case Err => r == Err
  {
    hide Denotes, SetDifference;
    Kinds(e, existing, fp);
    Kinds(v, val, fp);
    fq := fp;
    if e.HStrings? && v.HStrings? && e.numbers == v.numbers {
      var left := RemoveFromStringSet(e.strs[..], v.strs[..]);
      var aSet;
      aSet, fq := NewStrings(e.numbers, left, fp);
      r := Ok(aSet);
    } else if e.HByteSet? && v.HByteSet? {
      var drop := ReadBuffers(v.bufs, val.bs, fp);
      var left := SelectBuffers(e.bufs, existing.bs, drop, fp);
      var aSet;
      aSet, fq := NewByteSet(left, SetDifference(existing.bs, val.bs), fp);
      r := Ok(aSet);
    } else {
      r := Err;
    }
  }

  // ---- On the heap: EvalUpdate ----

  /** applySet, applyAdd, applyRemove and applyDelete: one update, on the working copy. */
  method ApplyOnHeap(u: Update, op: Option<HeapNode>, cell: MapCell, ghost item: Item, ghost fp: set<object>)
    returns (ok: bool, ghost fq: set<object>)
    requires u.path != [] && DenotesItem(cell, item, fp) && Means(op, u.value, fp)
    modifies cell
    ensures fp <= fq && fresh(fq - fp)
    ensures match Applied(u, item)
            case Ok(next) => ok && DenotesItem(cell, next, fq)
            case Err => !ok
  {
    hide Denotes, Means, SetPath, RemoveNested, Operand, Sum, Difference, Resolve;
    fq := fp;
    if u.action == UpdateExpr.REMOVE {
      fq := RemoveNestedPath(u.path, cell, item, fp);
      return true, fq;
    }
    var val := OperandOnHeap(op, cell, u, item, fp);
    if val.Err? {
      return false, fp;
    }
    ghost var av := Operand(u, item).value;
    var new' := val.value;
    var existing := None;
    if u.action != UpdateExpr.SET {
      existing := ResolvePathValue(u.path, cell, item, fp);
    }
    if existing.Some? {
      var changed;
      if u.action == UpdateExpr.ADD {
        changed, fq := SumOnHeap(existing.value, val.value, Resolve(u.path, item).value, av, fp);
        av := if changed.Ok? then Sum(Resolve(u.path, item).value, av).value else av;
      } else {
        changed, fq := DifferenceOnHeap(existing.value, val.value, Resolve(u.path, item).value, av, fp);
        av := if changed.Ok? then Difference(Resolve(u.path, item).value, av).value else av;
      }
      if changed.Err? {
        return false, fq;
      }
      new' := changed.value;
      ItemMore(cell, item, fp, fq);
    } else if u.action == UpdateExpr.DELETE {
      return true, fp;
    }
    ghost var before := fq;
    ok, fq := SetOnHeap(u.path, cell, new', item, av, before);
  }

  lemma MeansMore(op: Option<HeapNode>, n: Option<Node>, fp: set<object>, fq: set<object>)
    requires Means(op, n, fp) && fp <= fq
    ensures Means(op, n, fq)
  {
    if op.Some? {
      NodeMore(op.value, n.value, fp, fq);
    }
  }

  lemma {:induction false} NodeMore(h: HeapNode, n: Node, fp: set<object>, fq: set<object>)
    requires MeansNode(h, n, fp) && fp <= fq
    ensures MeansNode(h, n, fq)
    decreases n
  {
    match n
    case ValueNode(av) => DenotesMore(h.v, av, fp, fq);
    case FuncNode(_, args) =>
      forall i | 0 <= i < |args|
        ensures MeansNode(h.args[i], args[i], fq)
      {
        NodeMore(h.args[i], args[i], fp, fq);
      }
    case _ =>
  }

  /** EvalUpdate: the result stands for the updated item, and nothing that existed
      before the call has changed, neither the item given nor anything it shares with
      the values of the updates: the method has no modifies clause. */
  method EvalUpdate(us: seq<Update>, ops: seq<Option<HeapNode>>, cell: MapCell, ghost item: Item, ghost fp: set<object>)
    returns (r: Option<MapCell>, ghost fq: set<object>)
    requires |ops| == |us| && DenotesItem(cell, item, fp)
    requires forall i :: 0 <= i < |us| ==> us[i].path != [] && Means(ops[i], us[i].value, fp)
    ensures match Evaluated(us, item)
            case Ok(next) => r.Some? && fresh(r.value) && DenotesItem(r.value, next, fq)
            case Err => r == None
    ensures DenotesItem(cell, item, fp)
  {
    hide Denotes, Means, Applied;
    var result := CopyMap(cell);
    fq := fp;
    ghost var now := item;
    assert us[0..] == us;
    for i := 0 to |us|
      invariant fresh(result) && fp <= fq && fresh(fq - fp) && DenotesItem(result, now, fq)
      invariant forall j :: 0 <= j < |us| ==> Means(ops[j], us[j].value, fp)
      invariant Evaluated(us[i..], now) == Evaluated(us, item)
    {
      assert us[i..][1..] == us[i + 1..];
      MeansMore(ops[i], us[i].value, fp, fq);
      var ok;
      ghost var before := fq;
      ok, fq := ApplyOnHeap(us[i], ops[i], result, now, before);
      if !ok {
        return None, fq;
      }
      now := Applied(us[i], now).value;
    }
    r := Some(result);
  }
}
