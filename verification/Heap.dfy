/** Items as Go holds them: maps, slices and byte buffers are objects that can be
    shared and changed. deepCopyAV (memdb/memdb.go) separates them. */
module Heap {
  import opened Base
  import opened Values

  /** A Go map[string]AttributeValue. */
  class MapCell {
    var m: map<string, HVal>

    constructor (m: map<string, HVal>)
      ensures this.m == m
    {
      this.m := m;
    }
  }

  /** An AttributeValue struct: scalars in place, everything else by reference. nil and
      empty are identified. */
  datatype HVal =
    | Scalar(av: AttributeValue)
    | HBytes(bytes: array<char>)
    | HMap(cell: MapCell)
    | HList(items: array<HVal>)
    | HStrings(numbers: bool, strs: array<string>)
    | HByteSet(bufs: array<HVal>)

  /** The value stands for `av`, and all that can be reached from it is in fp. */
  ghost predicate Denotes(v: HVal, av: AttributeValue, fp: set<object>)
    reads fp
    decreases av
  {
    match (v, av)
    case (Scalar(x), S(_)) => x == av
    case (Scalar(x), N(_)) => x == av
    case (Scalar(x), BOOL(_)) => x == av
    case (Scalar(x), NULL) => x == av
    case (HBytes(a), B(b)) => a in fp && a[..] == b
    case (HMap(c), M(m)) => c in fp && c.m.Keys == m.Keys && forall k :: k in m ==> Denotes(c.m[k], m[k], fp)
    case (HList(a), L(l)) => a in fp && a.Length == |l| && forall i :: 0 <= i < |l| ==> Denotes(a[i], l[i], fp)
    case (HStrings(false, a), SS(ss)) => a in fp && a[..] == ss
    case (HStrings(true, a), NS(ns)) => a in fp && a[..] == ns
    case (HByteSet(a), BS(bs)) => a in fp && a.Length == |bs| && forall i :: 0 <= i < |bs| ==> DenotesBytes(a[i], bs[i], fp)
    case _ => false
  }

  ghost predicate DenotesBytes(v: HVal, b: string, fp: set<object>)
    reads fp
  {
    v.HBytes? && v.bytes in fp && v.bytes[..] == b
  }

  /** The map stands for an item. */
  ghost predicate MapDenotes(m: map<string, HVal>, item: Item, fp: set<object>)
    reads fp
  {
    m.Keys == item.Keys && forall k :: k in item ==> Denotes(m[k], item[k], fp)
  }

  /** A map object that stands for an item. Its own object is not reachable from its
      values. */
  ghost predicate DenotesItem(cell: MapCell, item: Item, fp: set<object>)
    reads cell, fp
  {
    cell !in fp && MapDenotes(cell.m, item, fp)
  }

  lemma {:induction false} DenotesMore(v: HVal, av: AttributeValue, fp: set<object>, more: set<object>)
    requires Denotes(v, av, fp) && fp <= more
    ensures Denotes(v, av, more)
    decreases av
  {
    match av
    case M(m) =>
      forall k | k in m
        ensures Denotes(v.cell.m[k], m[k], more)
      {
        DenotesMore(v.cell.m[k], m[k], fp, more);
      }
    case L(l) =>
      forall i | 0 <= i < |l|
        ensures Denotes(v.items[i], l[i], more)
      {
        DenotesMore(v.items[i], l[i], fp, more);
      }
    case _ =>
  }

  /** The value that a heap value stands for is unique. */
  lemma {:induction false} DenotesUnique(v: HVal, a: AttributeValue, b: AttributeValue, fp: set<object>, fq: set<object>)
    requires Denotes(v, a, fp) && Denotes(v, b, fq)
    ensures a == b
    decreases a
  {
    match a
    case M(m) =>
      forall k | k in m
        ensures m[k] == b.m[k]
      {
        DenotesUnique(v.cell.m[k], m[k], b.m[k], fp, fq);
      }
    case L(l) =>
      forall i | 0 <= i < |l|
        ensures l[i] == b.l[i]
      {
        DenotesUnique(v.items[i], l[i], b.l[i], fp, fq);
      }
    case _ =>
  }

  lemma MapDenotesMore(m: map<string, HVal>, item: Item, fp: set<object>, more: set<object>)
    requires MapDenotes(m, item, fp) && fp <= more
    ensures MapDenotes(m, item, more)
  {
    hide Denotes;
    forall k | k in item
      ensures Denotes(m[k], item[k], more)
    {
      DenotesMore(m[k], item[k], fp, more);
    }
  }

  // ---- What can be reached ----

  /** The objects that a value refers to itself. */
  function Refs(v: HVal): set<object> {
    match v
    case Scalar(_) => {}
    case HBytes(a) => {a}
    case HMap(c) => {c}
    case HList(a) => {a}
    case HStrings(_, a) => {a}
    case HByteSet(a) => {a}
  }

  /** Nothing outside can be reached from inside. */
  ghost predicate Closed(s: set<object>)
    reads s
  {
    forall o :: o in s ==> ClosedAt(o, s)
  }

  ghost predicate ClosedAt(o: object, s: set<object>)
    reads o
  {
    && (o is MapCell ==> var c := o as MapCell; forall k :: k in c.m ==> Refs(c.m[k]) <= s)
    && (o is array<HVal> ==> var a := o as array<HVal>; forall i :: 0 <= i < a.Length ==> Refs(a[i]) <= s)
  }

  lemma ClosedUnion(s: set<object>, r: set<object>)
    requires Closed(s) && Closed(r)
    ensures Closed(s + r)
  {
    forall o | o in s + r
      ensures ClosedAt(o, s + r)
    {
      assert ClosedAt(o, if o in s then s else r);
    }
  }

  /** In a closed set, a value that stands for anything does so within the set. */
  lemma {:induction false} DenotesWithin(v: HVal, av: AttributeValue, fp: set<object>, s: set<object>)
    requires Denotes(v, av, fp) && Closed(s) && Refs(v) <= s
    ensures Denotes(v, av, fp * s)
    decreases av
  {
    match v
    case HMap(c) =>
      assert ClosedAt(c, s);
      forall k | k in av.m
        ensures Denotes(c.m[k], av.m[k], fp * s)
      {
        DenotesWithin(c.m[k], av.m[k], fp, s);
      }
    case HList(a) =>
      assert ClosedAt(a, s);
      forall i | 0 <= i < |av.l|
        ensures Denotes(a[i], av.l[i], fp * s)
      {
        DenotesWithin(a[i], av.l[i], fp, s);
      }
    case HByteSet(a) =>
      assert ClosedAt(a, s);
      assert forall i :: 0 <= i < |av.bs| ==> DenotesBytes(a[i], av.bs[i], fp) && Refs(a[i]) == {a[i].bytes};
    case _ =>
  }

  lemma MapWithin(c: MapCell, item: Item, fp: set<object>, s: set<object>)
    requires MapDenotes(c.m, item, fp) && Closed(s) && c in s
    ensures MapDenotes(c.m, item, fp * s)
  {
    assert ClosedAt(c, s);
    hide Denotes;
    forall k | k in item
      ensures Denotes(c.m[k], item[k], fp * s)
    {
      DenotesWithin(c.m[k], item[k], fp, s);
    }
  }

  /** What is reachable from a value that stands for something is a closed set. */
  lemma {:induction false} ReachOf(v: HVal, av: AttributeValue, fp: set<object>) returns (s: set<object>)
    requires Denotes(v, av, fp)
    ensures Closed(s) && Refs(v) <= s <= fp
    decreases av, 1
  {
    match v
    case HMap(c) =>
      s := ReachOfMap(c, av.m, av, fp);
      ClosedPlus(c, s);
      s := s + {c};
    case HList(a) =>
      s := {};
      for i := 0 to |av.l|
        invariant Closed(s) && s <= fp && forall j :: 0 <= j < i ==> Refs(a[j]) <= s
      {
        var more := ReachOf(a[i], av.l[i], fp);
        ClosedUnion(s, more);
        s := s + more;
      }
      ClosedPlus(a, s);
      s := s + {a};
    case HByteSet(a) =>
      s := {a} + set i | 0 <= i < |av.bs| && DenotesBytes(a[i], av.bs[i], fp) :: a[i].bytes as object;
      forall i | 0 <= i < |av.bs|
        ensures Refs(a[i]) <= s
      {
        assert DenotesBytes(a[i], av.bs[i], fp);
      }
    case _ =>
      s := Refs(v);
  }

  lemma {:induction false} ReachOfMap(c: MapCell, m: Item, av: AttributeValue, fp: set<object>) returns (s: set<object>)
    requires MapDenotes(c.m, m, fp) && forall k :: k in m ==> m[k] < av
    ensures Closed(s) && s <= fp && ClosedAt(c, s)
    decreases av, 0
  {
    s := {};
    var todo := m.Keys;
    while todo != {}
      invariant todo <= m.Keys && Closed(s) && s <= fp && forall k :: k in m && k !in todo ==> Refs(c.m[k]) <= s
      decreases todo
    {
      var k :| k in todo;
      todo := todo - {k};
      var more := ReachOf(c.m[k], m[k], fp);
      ClosedUnion(s, more);
      s := s + more;
    }
  }

  lemma ReachOfItem(cell: MapCell, item: Item, fp: set<object>) returns (s: set<object>)
    requires MapDenotes(cell.m, item, fp)
    ensures Closed(s) && s <= fp && ClosedAt(cell, s)
  {
    s := ReachOfMap(cell, item, M(item), fp);
  }

  lemma ClosedPlus(o: object, s: set<object>)
    requires Closed(s) && ClosedAt(o, s)
    ensures Closed(s + {o})
  {
    assert forall p :: p in s ==> ClosedAt(p, s);
  }

  // ---- Deep copies ----

  method CopyBytes(a: array<char>) returns (c: array<char>)
    ensures fresh(c) && c[..] == a[..]
  {
    var s := a[..];
    c := new char[|s|](i requires 0 <= i < |s| => s[i]);
  }

  method CopyStrings(a: array<string>) returns (c: array<string>)
    ensures fresh(c) && c[..] == a[..]
  {
    var s := a[..];
    c := new string[|s|](i requires 0 <= i < |s| => s[i]);
  }

  /** deepCopyAV: the copy stands for the same value, and everything reachable from it
      is new. */
  method DeepCopyAV(v: HVal, ghost av: AttributeValue, ghost fp: set<object>) returns (c: HVal, ghost fq: set<object>)
    requires Denotes(v, av, fp)
    ensures fresh(fq) && Denotes(c, av, fq)
    decreases av, 1
  {
    match v
    case Scalar(x) =>
      c, fq := v, {};
    case HBytes(a) =>
      var b := CopyBytes(a);
      c, fq := HBytes(b), {b};
    case HStrings(numbers, a) =>
      var b := CopyStrings(a);
      c, fq := HStrings(numbers, b), {b};
    case HMap(cell) =>
      var copy: MapCell;
      copy, fq := DeepCopyMap(cell, av.m, av, fp);
      c := HMap(copy);
      CloseMap(copy, av.m, fq);
      fq := fq + {copy};
    case HList(a) =>
      c, fq := DeepCopyList(a, av.l, av, fp);
    case HByteSet(a) =>
      c, fq := DeepCopyBuffers(a, av.bs, fp);
  }

  /** Adds the map's own object to the footprint. */
  lemma CloseMap(cell: MapCell, m: Item, fp: set<object>)
    requires DenotesItem(cell, m, fp)
    ensures Denotes(HMap(cell), M(m), fp + {cell})
  {
    var fq := fp + {cell};
    forall k | k in m
      ensures Denotes(cell.m[k], m[k], fq)
    {
      DenotesMore(cell.m[k], m[k], fp, fq);
    }
  }

  method DeepCopyMap(cell: MapCell, ghost m: Item, ghost av: AttributeValue, ghost fp: set<object>)
    returns (copy: MapCell, ghost fq: set<object>)
    requires MapDenotes(cell.m, m, fp) && forall k :: k in m ==> m[k] < av
    ensures fresh(copy) && fresh(fq) && DenotesItem(copy, m, fq)
    decreases av, 0
  {
    var out: map<string, HVal> := map[];
    fq := {};
    var source := cell.m;
    var todo := source.Keys;
    while todo != {}
      invariant todo <= source.Keys && out.Keys == source.Keys - todo && fresh(fq)
      invariant forall k :: k in m ==> Denotes(source[k], m[k], fp)
      invariant forall k :: k in out ==> Denotes(out[k], m[k], fq)
      decreases todo
    {
      var k :| k in todo;
      todo := todo - {k};
      var c;
      ghost var more;
      c, more := DeepCopyAV(source[k], m[k], fp);
      forall j | j in out
        ensures Denotes(out[j], m[j], fq + more)
      {
        DenotesMore(out[j], m[j], fq, fq + more);
      }
      DenotesMore(c, m[k], more, fq + more);
      out := out[k := c];
      fq := fq + more;
    }
    copy := new MapCell(out);
  }

  method DeepCopyList(a: array<HVal>, ghost l: seq<AttributeValue>, ghost av: AttributeValue, ghost fp: set<object>)
    returns (c: HVal, ghost fq: set<object>)
    requires av == L(l) && Denotes(HList(a), av, fp)
    ensures fresh(fq) && Denotes(c, av, fq)
    decreases av, 0
  {
    var source := a[..];
    var copies: seq<HVal> := [];
    fq := {};
    for i := 0 to |source|
      invariant |copies| == i && fresh(fq)
      invariant forall j :: 0 <= j < |l| ==> Denotes(source[j], l[j], fp)
      invariant forall j :: 0 <= j < i ==> Denotes(copies[j], l[j], fq)
    {
      var x;
      ghost var more;
      x, more := DeepCopyAV(source[i], l[i], fp);
      forall j | 0 <= j < i
        ensures Denotes(copies[j], l[j], fq + more)
      {
        DenotesMore(copies[j], l[j], fq, fq + more);
      }
      DenotesMore(x, l[i], more, fq + more);
      copies := copies + [x];
      fq := fq + more;
    }
    var out := new HVal[|copies|](i requires 0 <= i < |copies| => copies[i]);
    forall j | 0 <= j < |l|
      ensures Denotes(out[j], l[j], fq + {out})
    {
      DenotesMore(copies[j], l[j], fq, fq + {out});
    }
    fq := fq + {out};
    c := HList(out);
  }

  method DeepCopyBuffers(a: array<HVal>, ghost bs: seq<string>, ghost fp: set<object>) returns (c: HVal, ghost fq: set<object>)
    requires Denotes(HByteSet(a), BS(bs), fp)
    ensures fresh(fq) && Denotes(c, BS(bs), fq)
  {
    var source := a[..];
    var copies: seq<HVal> := [];
    fq := {};
    for i := 0 to |source|
      invariant |copies| == i && fresh(fq)
      invariant forall j :: 0 <= j < |bs| ==> DenotesBytes(source[j], bs[j], fp)
      invariant forall j :: 0 <= j < i ==> DenotesBytes(copies[j], bs[j], fq)
    {
      assert DenotesBytes(source[i], bs[i], fp);
      var b := CopyBytes(source[i].bytes);
      copies := copies + [HBytes(b)];
      fq := fq + {b};
    }
    var out := new HVal[|copies|](i requires 0 <= i < |copies| => copies[i]);
    fq := fq + {out};
    c := HByteSet(out);
    assert forall j :: 0 <= j < |bs| ==> DenotesBytes(out[j], bs[j], fq);
  }

  /** deepCopyItem. */
  method DeepCopyItem(cell: MapCell, ghost item: Item, ghost fp: set<object>) returns (copy: MapCell, ghost fq: set<object>)
    requires MapDenotes(cell.m, item, fp)
    ensures fresh(copy) && fresh(fq) && DenotesItem(copy, item, fq)
  {
    copy, fq := DeepCopyMap(cell, item, M(item), fp);
  }
}
