/** setNestedPath and removeNestedPath (memdb/expression.go) as functions on items,
    and the laws that make a path a place. */
module Paths {
  import opened Base
  import opened Values

  function SetNested(parts: seq<string>, item: Item, val: AttributeValue): Item
    requires parts != []
  {
    var p := parts[0];
    if |parts| == 1 then item[p := val]
    else if p !in item then item[p := M(SetNested(parts[1..], map[], val))]
    else
      match item[p]
      case M(m) => item[p := M(SetNested(parts[1..], m, val))]
      case _ => item
  }

  function RemoveNested(parts: seq<string>, item: Item): Item
    requires parts != []
  {
    var p := parts[0];
    if |parts| == 1 then item - {p}
    else if p !in item then item
    else
      match item[p]
      case M(m) => item[p := M(RemoveNested(parts[1..], m))]
      case _ => item
  }

  /** Every proper prefix of the path is a map or missing. */
  predicate Open(parts: seq<string>, item: Item)
    requires parts != []
  {
    |parts| == 1 || parts[0] !in item || (item[parts[0]].M? && Open(parts[1..], item[parts[0]].m))
  }

  /** Neither path leads through the other. */
  predicate Apart(p: seq<string>, q: seq<string>) { !(p <= q) && !(q <= p) }

  /** A set is seen again exactly when the path is open. */
  lemma {:induction false} SetThenResolve(parts: seq<string>, item: Item, val: AttributeValue)
    requires parts != []
    ensures Open(parts, item) ==> Resolve(parts, SetNested(parts, item, val)) == Some(val)
    ensures !Open(parts, item) ==> SetNested(parts, item, val) == item && Resolve(parts, item) == None
  {
    var p := parts[0];
    if |parts| > 1 {
      if p !in item {
        SetThenResolve(parts[1..], map[], val);
        OpenWhenEmpty(parts[1..]);
      } else if item[p].M? {
        SetThenResolve(parts[1..], item[p].m, val);
      }
    }
  }

  lemma {:induction false} OpenWhenEmpty(parts: seq<string>)
    requires parts != []
    ensures Open(parts, map[])
  {
  }

  /** A removed path does not resolve, whether or not anything was there. */
  lemma {:induction false} RemoveThenResolve(parts: seq<string>, item: Item)
    requires parts != []
    ensures Resolve(parts, RemoveNested(parts, item)) == None
  {
    var p := parts[0];
    if |parts| > 1 && p in item && item[p].M? {
      RemoveThenResolve(parts[1..], item[p].m);
    }
  }

  /** Writing back what is there changes nothing. */
  lemma {:induction false} SetWhatIsThere(parts: seq<string>, item: Item, val: AttributeValue)
    requires Resolve(parts, item) == Some(val)
    ensures SetNested(parts, item, val) == item
  {
    var p := parts[0];
    if |parts| == 1 {
      assert item[p := val] == item;
    } else {
      SetWhatIsThere(parts[1..], item[p].m, val);
      assert item[p := item[p]] == item;
    }
  }

  /** The last write wins. */
  lemma {:induction false} SetTwice(parts: seq<string>, item: Item, v: AttributeValue, w: AttributeValue)
    requires parts != []
    ensures SetNested(parts, SetNested(parts, item, v), w) == SetNested(parts, item, w)
  {
    if |parts| > 1 {
      SetStep(parts, item, v);
      SetStep(parts, item, w);
      SetStep(parts, SetNested(parts, item, v), w);
      hide SetNested;
      if Inner(item, parts[0]).Some? {
        SetTwice(parts[1..], Inner(item, parts[0]).value, v, w);
      }
    }
  }

  /** Removing what a set created, or removing twice, is removing once. */
  lemma {:induction false} RemoveTwice(parts: seq<string>, item: Item)
    requires parts != []
    ensures RemoveNested(parts, RemoveNested(parts, item)) == RemoveNested(parts, item)
  {
    var p := parts[0];
    if |parts| > 1 && p in item && item[p].M? {
      RemoveTwice(parts[1..], item[p].m);
    }
  }

  lemma ApartTails(p: seq<string>, q: seq<string>)
    requires p != [] && q != [] && p[0] == q[0] && Apart(p, q)
    ensures |p| > 1 && |q| > 1 && Apart(p[1..], q[1..])
  {
  }

  /** A set leaves every incomparable path alone, at any depth. */
  lemma {:induction false} SetElsewhere(p: seq<string>, q: seq<string>, item: Item, val: AttributeValue)
    requires p != [] && q != [] && Apart(p, q)
    ensures Resolve(q, SetNested(p, item, val)) == Resolve(q, item)
    decreases |p|
  {
    if p[0] == q[0] {
      ApartTails(p, q);
      hide Apart;
      if p[0] !in item {
        SetElsewhere(p[1..], q[1..], map[], val);
      } else if item[p[0]].M? {
        SetElsewhere(p[1..], q[1..], item[p[0]].m, val);
      }
    }
  }

  lemma {:induction false} RemoveElsewhere(p: seq<string>, q: seq<string>, item: Item)
    requires p != [] && q != [] && Apart(p, q)
    ensures Resolve(q, RemoveNested(p, item)) == Resolve(q, item)
    decreases |p|
  {
    if p[0] == q[0] {
      ApartTails(p, q);
      hide Apart;
      if p[0] in item && item[p[0]].M? {
        RemoveElsewhere(p[1..], q[1..], item[p[0]].m);
      }
    }
  }

  /** The map that a longer path goes through, if it can. */
  function Inner(item: Item, p: string): Option<Item> {
    if p !in item then Some(map[]) else if item[p].M? then Some(item[p].m) else None
  }

  lemma SetStep(parts: seq<string>, item: Item, val: AttributeValue)
    requires |parts| > 1
    ensures SetNested(parts, item, val) ==
      match Inner(item, parts[0])
      case Some(m) => item[parts[0] := M(SetNested(parts[1..], m, val))]
      case None => item
  {
  }

  /** What a set makes of the attribute that its path starts at, if anything. */
  function NewTop(parts: seq<string>, top: Option<AttributeValue>, val: AttributeValue): Option<AttributeValue>
    requires parts != []
  {
    if |parts| == 1 then Some(val)
    else if top.None? then Some(M(SetNested(parts[1..], map[], val)))
    else if top.value.M? then Some(M(SetNested(parts[1..], top.value.m, val)))
    else None
  }

  function Put(item: Item, k: string, top: Option<AttributeValue>): Item {
    match top case Some(v) => item[k := v] case None => item
  }

  /** A set changes the item at one attribute, in a way that depends on that
      attribute only. */
  lemma SetIsPut(parts: seq<string>, item: Item, val: AttributeValue)
    requires parts != []
    ensures SetNested(parts, item, val) == Put(item, parts[0], NewTop(parts, Lookup(item, parts[0]), val))
  {
  }

  lemma PutsElsewhereCommute(item: Item, k: string, a: Option<AttributeValue>, l: string, b: Option<AttributeValue>)
    requires k != l
    ensures Put(Put(item, k, a), l, b) == Put(Put(item, l, b), k, a)
    ensures Lookup(Put(item, k, a), l) == Lookup(item, l) && Lookup(Put(item, l, b), k) == Lookup(item, k)
  {
  }

  lemma PutTwice(item: Item, k: string, a: Option<AttributeValue>, b: Option<AttributeValue>)
    ensures Put(Put(item, k, a), k, b) == Put(item, k, if b.Some? then b else a)
    ensures Lookup(Put(item, k, a), k) == if a.Some? then a else Lookup(item, k)
  {
  }

  /** Sets at incomparable paths commute. */
  lemma {:induction false} SetsCommute(p: seq<string>, q: seq<string>, item: Item, v: AttributeValue, w: AttributeValue)
    requires p != [] && q != [] && Apart(p, q)
    ensures SetNested(q, SetNested(p, item, v), w) == SetNested(p, SetNested(q, item, w), v)
    decreases |p|, 1
  {
    hide *;
    var top := Lookup(item, p[0]);
    var a, b := NewTop(p, top, v), NewTop(q, Lookup(item, q[0]), w);
    SetIsPut(p, item, v);
    SetIsPut(q, item, w);
    SetIsPut(q, SetNested(p, item, v), w);
    SetIsPut(p, SetNested(q, item, w), v);
    if p[0] == q[0] {
      NewTopsCommute(p, q, top, v, w);
      PutTwice(item, p[0], a, NewTop(q, if a.Some? then a else top, w));
      PutTwice(item, p[0], b, NewTop(p, if b.Some? then b else top, v));
    } else {
      PutsElsewhereCommute(item, p[0], a, q[0], b);
    }
  }

  lemma {:induction false} NewTopsCommute(p: seq<string>, q: seq<string>, top: Option<AttributeValue>, v: AttributeValue, w: AttributeValue)
    requires p != [] && q != [] && p[0] == q[0] && Apart(p, q)
    ensures var a, b := NewTop(p, top, v), NewTop(q, top, w);
      && NewTop(q, if a.Some? then a else top, w) == NewTop(p, if b.Some? then b else top, v)
      && (a.Some? <==> b.Some?) && (a.None? ==> NewTop(q, top, w) == None && NewTop(p, top, v) == None)
      && (a.Some? ==> NewTop(q, a, w).Some?)
    decreases |p|, 0
  {
    ApartTails(p, q);
    hide Apart, SetNested;
    if top.None? {
      SetsCommute(p[1..], q[1..], map[], v, w);
    } else if top.value.M? {
      SetsCommute(p[1..], q[1..], top.value.m, v, w);
    }
  }
}
