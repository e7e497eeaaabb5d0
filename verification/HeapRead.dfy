/** Reading the value of a structure of shared objects. evalCondition and projectItem
    (memdb/expression.go, memdb/memdb.go) only read the items they are given. */
module HeapRead {
  import opened Base
  import opened Values
  import opened Heap
  import opened HeapPaths
  import opened Projection

  /** Maps and lists are nested at most this deep. */
  predicate Within(av: AttributeValue, depth: nat) {
    match av
    case M(m) => depth > 0 && forall k :: k in m ==> Within(m[k], depth - 1)
    case L(l) => depth > 0 && forall i :: 0 <= i < |l| ==> Within(l[i], depth - 1)
    case _ => true
  }

  predicate ItemWithin(item: Item, depth: nat) { forall k :: k in item ==> Within(item[k], depth) }

  lemma {:induction false} WithinMore(av: AttributeValue, depth: nat, more: nat)
    requires Within(av, depth) && depth <= more
    ensures Within(av, more)
    decreases depth
  {
    match av
    case M(m) =>
      forall k | k in m
        ensures Within(m[k], more - 1)
      {
        WithinMore(m[k], depth - 1, more - 1);
      }
    case L(l) =>
      forall i | 0 <= i < |l|
        ensures Within(l[i], more - 1)
      {
        WithinMore(l[i], depth - 1, more - 1);
      }
    case _ =>
  }

  lemma ItemWithinMore(item: Item, depth: nat, more: nat)
    requires ItemWithin(item, depth) && depth <= more
    ensures ItemWithin(item, more)
  {
    hide Within;
    forall k | k in item
      ensures Within(item[k], more)
    {
      WithinMore(item[k], depth, more);
    }
  }

  lemma {:induction false} DepthOf(av: AttributeValue) returns (depth: nat)
    ensures Within(av, depth)
    decreases av, 1
  {
    match av
    case M(m) =>
      var d := ItemDepth(m, av);
      depth := d + 1;
    case L(l) =>
      var d := 0;
      for i := 0 to |l|
        invariant d >= 0 && forall j :: 0 <= j < i ==> Within(l[j], d)
      {
        var more := DepthOf(l[i]);
        var most := if d < more then more else d;
        WithinMore(l[i], more, most);
        forall j | 0 <= j < i
          ensures Within(l[j], most)
        {
          WithinMore(l[j], d, most);
        }
        d := most;
      }
      depth := d + 1;
    case _ =>
      depth := 0;
  }

  lemma {:induction false} ItemDepth(m: Item, av: AttributeValue) returns (d: nat)
    requires forall k :: k in m ==> m[k] < av
    ensures ItemWithin(m, d)
    decreases av, 0
  {
    hide Within;
    d := 0;
    var todo := m.Keys;
    while todo != {}
      invariant todo <= m.Keys && forall k :: k in m && k !in todo ==> Within(m[k], d)
      decreases todo
    {
      var k :| k in todo;
      todo := todo - {k};
      var more := DepthOf(m[k]);
      var most := if d < more then more else d;
      WithinMore(m[k], more, most);
      forall j | j in m && j !in todo && j != k
        ensures Within(m[j], most)
      {
        WithinMore(m[j], d, most);
      }
      d := most;
    }
  }

  /** The value, unless it is nested deeper than `depth` or stands for nothing: clients
      can build maps that contain themselves. */
  method TryRead(v: HVal, depth: nat, ghost s: set<object>) returns (r: Option<AttributeValue>)
    requires Closed(s) && Refs(v) <= s
    ensures r.Some? ==> Denotes(v, r.value, s)
    ensures forall av, fp: set<object> :: Denotes(v, av, fp) && Within(av, depth) ==> r.Some?
    decreases depth, 1
  {
    match v
    case Scalar(x) =>
      r := if x.S? || x.N? || x.BOOL? || x.NULL? then Some(x) else None;
    case HBytes(a) =>
      r := Some(B(a[..]));
    case HStrings(numbers, a) =>
      r := Some(if numbers then NS(a[..]) else SS(a[..]));
    case HMap(cell) =>
      if depth == 0 {
        return None;
      }
      assert ClosedAt(cell, s);
      var m := TryReadMap(cell, depth - 1, s);
      assert forall av, fp: set<object> :: Denotes(v, av, fp) && Within(av, depth) ==> MapDenotes(cell.m, av.m, fp) && ItemWithin(av.m, depth - 1);
      r := match m case Some(item) => Some(M(item)) case None => None;
    case HList(a) =>
      if depth == 0 {
        return None;
      }
      r := TryReadList(a, depth - 1, s);
    case HByteSet(a) =>
      r := TryReadBuffers(a, s);
  }

  method TryReadMap(cell: MapCell, depth: nat, ghost s: set<object>) returns (r: Option<Item>)
    requires Closed(s) && ClosedAt(cell, s)
    ensures r.Some? ==> MapDenotes(cell.m, r.value, s)
    ensures forall item, fp: set<object> :: MapDenotes(cell.m, item, fp) && ItemWithin(item, depth) ==> r.Some?
    decreases depth, 2
  {
    hide Denotes, Within;
    var item: Item := map[];
    var todo := cell.m.Keys;
    while todo != {}
      invariant todo <= cell.m.Keys && item.Keys == cell.m.Keys - todo
      invariant forall k :: k in item ==> Denotes(cell.m[k], item[k], s)
      decreases todo
    {
      var k :| k in todo;
      todo := todo - {k};
      var av := TryRead(cell.m[k], depth, s);
      if av.None? {
        assert forall it, fp: set<object> :: MapDenotes(cell.m, it, fp) ==> Denotes(cell.m[k], it[k], fp);
        return None;
      }
      item := item[k := av.value];
    }
    r := Some(item);
  }

  method TryReadList(a: array<HVal>, depth: nat, ghost s: set<object>) returns (r: Option<AttributeValue>)
    requires Closed(s) && a in s
    ensures r.Some? ==> Denotes(HList(a), r.value, s)
    ensures forall av, fp: set<object> :: Denotes(HList(a), av, fp) && Within(av, depth + 1) ==> r.Some?
    decreases depth, 2
  {
    var l: seq<AttributeValue> := [];
    assert ClosedAt(a, s);
    for i := 0 to a.Length
      invariant |l| == i && forall j :: 0 <= j < i ==> Denotes(a[j], l[j], s)
    {
      var av := TryRead(a[i], depth, s);
      if av.None? {
        assert forall x, fp: set<object> :: Denotes(HList(a), x, fp) ==> x.L? && Denotes(a[i], x.l[i], fp);
        return None;
      }
      l := l + [av.value];
    }
    r := Some(L(l));
  }

  method TryReadBuffers(a: array<HVal>, ghost s: set<object>) returns (r: Option<AttributeValue>)
    requires Closed(s) && a in s
    ensures r.Some? ==> Denotes(HByteSet(a), r.value, s)
    ensures forall av, fp: set<object> :: Denotes(HByteSet(a), av, fp) ==> r.Some?
  {
    var bs: seq<string> := [];
    assert ClosedAt(a, s);
    for i := 0 to a.Length
      invariant |bs| == i && forall j :: 0 <= j < i ==> DenotesBytes(a[j], bs[j], s)
    {
      assert forall x, fp: set<object> :: Denotes(HByteSet(a), x, fp) ==> x.BS? && DenotesBytes(a[i], x.bs[i], fp);
      if !a[i].HBytes? {
        return None;
      }
      assert Refs(a[i]) == {a[i].bytes};
      bs := bs + [a[i].bytes[..]];
    }
    r := Some(BS(bs));
  }

  /** A map that is known to stand for an item. */
  method ReadItem(cell: MapCell, ghost item: Item, ghost fp: set<object>) returns (r: Item)
    requires MapDenotes(cell.m, item, fp)
    ensures r == item
  {
    hide MapDenotes, ItemWithin, ClosedAt, Closed;
    ghost var s := ReachOfItem(cell, item, fp);
    ghost var enough := ItemDepth(item, M(item));
    var depth := 0;
    var x := TryReadMap(cell, depth, s);
    assert MapDenotes(cell.m, item, fp);
    while x.None?
      invariant x.Some? ==> MapDenotes(cell.m, x.value, s)
      invariant Closed(s) && ClosedAt(cell, s) && MapDenotes(cell.m, item, fp)
      invariant ItemWithin(item, depth) ==> x.Some?
      invariant x.None? ==> depth < enough
      decreases if depth < enough then enough - depth else 0
    {
      depth := depth + 1;
      x := TryReadMap(cell, depth, s);
      assert MapDenotes(cell.m, item, fp);
      if x.None? && depth >= enough {
        ItemWithinMore(item, enough, depth);
      }
    }
    MapDenotesUnique(cell.m, x.value, item, s, fp);
    r := x.value;
  }

  lemma MapDenotesUnique(m: map<string, HVal>, a: Item, b: Item, fp: set<object>, fq: set<object>)
    requires MapDenotes(m, a, fp) && MapDenotes(m, b, fq)
    ensures a == b
  {
    hide Denotes;
    forall k | k in m
      ensures a[k] == b[k]
    {
      DenotesUnique(m[k], a[k], b[k], fp, fq);
    }
  }

  /** projectItem on a copy: a new map with some of the values. */
  method ProjectOnHeap(cell: MapCell, projection: string, names: map<string, string>, ghost item: Item, ghost fp: set<object>)
    returns (result: MapCell)
    requires DenotesItem(cell, item, fp)
    ensures result == cell || fresh(result)
    ensures DenotesItem(result, Projected(item, projection, names), fp)
  {
    hide Denotes, MapDenotes, Only, ProjectionAttrs;
    if projection == "" {
      return cell;
    }
    var attrs := ParseProjectionAttrs(projection, names);
    var m: map<string, HVal> := map[];
    NothingPicked(item, attrs, fp);
    for i := 0 to |attrs|
      invariant MapDenotes(m, Only(item, attrs[..i]), fp)
    {
      OnlySnoc(item, attrs, i);
      Picked(m, cell.m, Only(item, attrs[..i]), item, attrs[i], fp);
      if attrs[i] in cell.m {
        m := m[attrs[i] := cell.m[attrs[i]]];
      }
    }
    assert attrs[..|attrs|] == attrs;
    result := new MapCell(m);
  }

  lemma NothingPicked(item: Item, attrs: seq<string>, fp: set<object>)
    ensures MapDenotes(map[], Only(item, attrs[..0]), fp)
  {
  }

  lemma Picked(m: map<string, HVal>, all: map<string, HVal>, part: Item, item: Item, a: string, fp: set<object>)
    requires MapDenotes(m, part, fp) && MapDenotes(all, item, fp)
    ensures a in all <==> a in item
    ensures a in all ==> MapDenotes(m[a := all[a]], part[a := item[a]], fp)
  {
    hide Denotes;
  }
}
