/** Nested paths in items made of shared objects (memdb/expression.go): maps are
    copied on the way down, and only the map given is written. removeNestedPath and
    resolvePathValue are the same in internal/expr/eval_update.go and eval.go. */
module HeapPaths {
  import opened Base
  import opened Values
  import opened Paths
  import opened Heap

  /** What a value looks like from outside. */
  lemma Kinds(v: HVal, av: AttributeValue, fp: set<object>)
    requires Denotes(v, av, fp)
    ensures v.HMap? <==> av.M?
    ensures v.HMap? ==>
      v.cell in fp && v.cell.m.Keys == av.m.Keys && forall k :: k in av.m ==> Denotes(v.cell.m[k], av.m[k], fp)
    ensures (v.HStrings? && !v.numbers <==> av.SS?) && (v.HStrings? && v.numbers <==> av.NS?) && (v.HByteSet? <==> av.BS?)
    ensures v.HStrings? ==> v.strs[..] == (if v.numbers then av.ns else av.ss)
    ensures (v.Scalar? && v.av.N? <==> av.N?) && (v.Scalar? ==> v.av == av)
  {
  }

  lemma ScalarDenotes(av: AttributeValue, fp: set<object>)
    requires av.S? || av.N? || av.BOOL? || av.NULL?
    ensures Denotes(Scalar(av), av, fp)
  {
  }

  lemma ItemMore(cell: MapCell, item: Item, fp: set<object>, fq: set<object>)
    requires DenotesItem(cell, item, fp) && fp <= fq && cell !in fq
    ensures DenotesItem(cell, item, fq)
  {
    hide Denotes;
    MapDenotesMore(cell.m, item, fp, fq);
  }

  // ---- Maps ----

  /** The map to go on in: the one that is there, a new one, or none. */
  function Below(item: Item, name: string): Option<Item> {
    if name !in item then Some(map[])
    else match item[name] case M(m) => Some(m) case _ => None
  }

  method CopyMap(cell: MapCell) returns (copy: MapCell)
    ensures fresh(copy) && copy.m == cell.m
  {
    copy := new MapCell(cell.m);
  }

  /** A copy of the map under a name, or a new map. */
  method Descend(name: string, cell: MapCell, ghost item: Item, ghost fp: set<object>)
    returns (ok: bool, newMap: MapCell, ghost inner: Item)
    requires DenotesItem(cell, item, fp)
    ensures fresh(newMap)
    ensures match Below(item, name)
            case Some(m) => ok && inner == m && DenotesItem(newMap, m, fp)
            case None => !ok
  {
    hide Denotes;
    inner := map[];
    if name in cell.m {
      var cur := cell.m[name];
      Kinds(cur, item[name], fp);
      if cur.HMap? {
        newMap := CopyMap(cur.cell);
        return true, newMap, item[name].m;
      }
      newMap := new MapCell(map[]);
      return false, newMap, inner;
    }
    newMap := new MapCell(map[]);
    ok := true;
  }

  /** Puts a new map under a name. */
  method Attach(cell: MapCell, name: string, newMap: MapCell, ghost item: Item, ghost next: Item, ghost fp: set<object>, ghost fq: set<object>)
    returns (ghost fr: set<object>)
    requires DenotesItem(cell, item, fp) && DenotesItem(newMap, next, fq) && fp <= fq && cell !in fq && cell != newMap
    modifies cell
    ensures fr == fq + {newMap} && DenotesItem(cell, item[name := M(next)], fr)
  {
    hide Denotes;
    Put(cell, newMap, item, next, fp, fq);
    fr := fq + {newMap};
    cell.m := cell.m[name := HMap(newMap)];
  }

  lemma Put(cell: MapCell, inner: MapCell, item: Item, next: Item, fp: set<object>, fq: set<object>)
    requires DenotesItem(cell, item, fp) && DenotesItem(inner, next, fq) && fp <= fq
    ensures Denotes(HMap(inner), M(next), fq + {inner})
    ensures forall k :: k in item ==> Denotes(cell.m[k], item[k], fq + {inner})
  {
    hide Denotes;
    CloseMap(inner, next, fq);
    forall k | k in item
      ensures Denotes(cell.m[k], item[k], fq + {inner})
    {
      DenotesMore(cell.m[k], item[k], fp, fq + {inner});
    }
  }

  // ---- Paths ----

  /** memdb's setNestedPath: a value that is not a map blocks the write silently. The
      value itself is not copied. */
  method SetNestedPath(parts: seq<string>, cell: MapCell, val: HVal, ghost item: Item, ghost av: AttributeValue, ghost fp: set<object>)
    returns (ghost fq: set<object>)
    requires parts != [] && DenotesItem(cell, item, fp) && Denotes(val, av, fp)
    modifies cell
    ensures fp <= fq && fresh(fq - fp) && DenotesItem(cell, SetNested(parts, item, av), fq)
    decreases |parts|
  {
    hide Denotes;
    fq := fp;
    if |parts| == 1 {
      cell.m := cell.m[parts[0] := val];
      return;
    }
    var ok;
    var newMap: MapCell;
    ghost var inner: Item;
    ok, newMap, inner := Descend(parts[0], cell, item, fp);
    if ok {
      fq := SetNestedPath(parts[1..], newMap, val, inner, av, fp);
      fq := Attach(cell, parts[0], newMap, item, SetNested(parts[1..], inner, av), fp, fq);
    }
  }

  /** removeNestedPath: only the given map is written. */
  method RemoveNestedPath(parts: seq<string>, cell: MapCell, ghost item: Item, ghost fp: set<object>) returns (ghost fq: set<object>)
    requires parts != [] && DenotesItem(cell, item, fp)
    modifies cell
    ensures fp <= fq && fresh(fq - fp) && DenotesItem(cell, RemoveNested(parts, item), fq)
    decreases |parts|
  {
    hide Denotes;
    fq := fp;
    if |parts| == 1 {
      cell.m := cell.m - {parts[0]};
      return;
    }
    if parts[0] in cell.m {
      Kinds(cell.m[parts[0]], item[parts[0]], fp);
      if cell.m[parts[0]].HMap? {
        var newMap := CopyMap(cell.m[parts[0]].cell);
        ghost var inner := item[parts[0]].m;
        fq := RemoveNestedPath(parts[1..], newMap, inner, fp);
        fq := Attach(cell, parts[0], newMap, item, RemoveNested(parts[1..], inner), fp, fq);
      }
    }
  }

  /** resolvePathValue: the value itself, shared with the item. */
  method ResolvePathValue(parts: seq<string>, cell: MapCell, ghost item: Item, ghost fp: set<object>) returns (v: Option<HVal>)
    requires MapDenotes(cell.m, item, fp)
    ensures match Resolve(parts, item)
            case Some(av) => v.Some? && Denotes(v.value, av, fp)
            case None => v == None
    decreases |parts|
  {
    hide Denotes;
    if |parts| == 0 || parts[0] !in cell.m {
      return None;
    }
    var cur := cell.m[parts[0]];
    if |parts| == 1 {
      return Some(cur);
    }
    Kinds(cur, item[parts[0]], fp);
    if !cur.HMap? {
      return None;
    }
    v := ResolvePathValue(parts[1..], cur.cell, item[parts[0]].m, fp);
  }

  // ---- New slices ----

  method NewStrings(numbers: bool, s: seq<string>, ghost fp: set<object>) returns (v: HVal, ghost fq: set<object>)
    ensures fp <= fq && fresh(fq - fp) && Denotes(v, if numbers then NS(s) else SS(s), fq)
  {
    var a := new string[|s|](i requires 0 <= i < |s| => s[i]);
    assert a[..] == s;
    v, fq := HStrings(numbers, a), fp + {a};
  }
}
