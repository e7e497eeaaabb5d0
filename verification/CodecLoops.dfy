/** The loops of marshal.go and unmarshal.go, which fill slices and maps element by
    element, against the functions of Codec. */
module CodecLoops {
  import opened Base
  import opened Values
  import opened Codec

  /** Marshal and marshalStruct: field by field, skipping nil pointers and omitted zero
      values. */
  method MarshalStruct(vals: seq<Val>, t: Type) returns (r: Result<Item>)
    requires t.TStruct? && HasType(VStruct(vals), t)
    ensures r == MarshalFields(vals, t, |vals|)
  {
    var out: Item := map[];
    for i := 0 to |vals|
      invariant MarshalFields(vals, t, i) == Ok(out)
    {
      hide MarshalValue, HasType;
      FieldTyped(vals, t, i);
      ErrsStay(vals, t, i);
      var fv, f := vals[i], t.fields[i];
      if fv.VNilPtr? {
        continue;
      }
      var elem, ty := fv, f.ty;
      if elem.VPtr? {
        elem, ty := elem.target, ty.elem;
      }
      if f.omitEmpty && IsZero(elem) {
        continue;
      }
      var av := MarshalValue(elem, ty, f.asSet);
      if av.Err? {
        return Err;
      }
      out := out[f.name := av.value];
    }
    r := Ok(out);
  }

  lemma FieldTyped(vals: seq<Val>, t: Type, i: nat)
    requires t.TStruct? && HasType(VStruct(vals), t) && i < |vals|
    ensures |vals| == |t.fields| && HasType(vals[i], t.fields[i].ty)
    ensures vals[i].VPtr? ==> t.fields[i].ty.TPtr? && HasType(vals[i].target, t.fields[i].ty.elem)
  {
  }

  /** A field that cannot be marshalled fails the struct. */
  lemma ErrsStay(vals: seq<Val>, t: Type, i: nat)
    requires t.TStruct? && HasType(VStruct(vals), t) && i < |vals|
    ensures HasType(vals[i], t.fields[i].ty)
    ensures MarshalFields(vals, t, i).Ok? && MarshalField(vals[i], t.fields[i]).Err? ==> MarshalFields(vals, t, |vals|) == Err
  {
    hide MarshalField;
    if MarshalFields(vals, t, i + 1).Err? {
      StaysErr(vals, t, i + 1, |vals|);
    }
  }

  lemma {:induction false} StaysErr(vals: seq<Val>, t: Type, m: nat, n: nat)
    requires t.TStruct? && HasType(VStruct(vals), t) && m <= n <= |vals| && MarshalFields(vals, t, m) == Err
    ensures MarshalFields(vals, t, n) == Err
  {
    hide MarshalField;
    if m < n {
      StaysErr(vals, t, m, n - 1);
    }
  }

  method MarshalElements(elems: seq<Val>, e: Type) returns (r: Result<AttributeValue>)
    requires forall i :: 0 <= i < |elems| ==> HasType(elems[i], e)
    ensures r == MarshalList(elems, e)
  {
    hide MarshalValue, HasType;
    var list := [];
    for i := 0 to |elems|
      invariant |list| == i
      invariant forall j :: 0 <= j < i ==> MarshalValue(elems[j], e, false) == Ok(list[j])
    {
      var av := MarshalValue(elems[i], e, false);
      if av.Err? {
        return Err;
      }
      list := list + [av.value];
    }
    r := Ok(L(list));
    assert MarshalList(elems, e).value.l == list;
  }

  /** marshalMap; a Go map is visited in any order. */
  method MarshalEntries(m: map<string, Val>, e: Type) returns (r: Result<AttributeValue>)
    requires forall k :: k in m ==> HasType(m[k], e)
    ensures r == MarshalMap(m, e)
  {
    hide MarshalValue, HasType;
    var out: Item := map[];
    var todo := m.Keys;
    while todo != {}
      invariant todo <= m.Keys && out.Keys == m.Keys - todo
      invariant forall k :: k in out ==> MarshalValue(m[k], e, false) == Ok(out[k])
      decreases todo
    {
      var k :| k in todo;
      todo := todo - {k};
      var av := MarshalValue(m[k], e, false);
      if av.Err? {
        return Err;
      }
      out := out[k := av.value];
    }
    r := Ok(M(out));
    assert MarshalMap(m, e).value.m == out;
  }

  /** Unmarshal into a zero struct: fields that the item has are overwritten. */
  method UnmarshalStruct(item: Item, t: Type) returns (r: Result<seq<Val>>)
    requires t.TStruct?
    ensures r == UnmarshalFields(item, t, |t.fields|)
  {
    var dst := Zero(t).vals;
    NoFields(item, t);
    for i := 0 to |t.fields|
      invariant |dst| == |t.fields| && UnmarshalFields(item, t, i) == Ok(dst[..i])
      invariant forall j :: i <= j < |dst| ==> dst[j] == Zero(t.fields[j].ty)
    {
      hide UnmarshalValue, Zero, UnmarshalFields;
      UnmarshalStep(item, t, i);
      var f := t.fields[i];
      if f.name in item {
        var v := UnmarshalValue(item[f.name], f.ty, f.asSet);
        if v.Err? {
          return Err;
        }
        dst := dst[i := v.value];
      }
      assert dst[..i + 1] == dst[..i] + [dst[i]];
    }
    assert dst[..|t.fields|] == dst;
    r := Ok(dst);
  }

  lemma NoFields(item: Item, t: Type)
    requires t.TStruct?
    ensures UnmarshalFields(item, t, 0) == Ok([])
  {
  }

  lemma UnmarshalStep(item: Item, t: Type, i: nat)
    requires t.TStruct? && i < |t.fields| && UnmarshalFields(item, t, i).Ok?
    ensures match UnmarshalField(item, t.fields[i])
            case Ok(v) => UnmarshalFields(item, t, i + 1) == Ok(UnmarshalFields(item, t, i).value + [v])
            case Err => UnmarshalFields(item, t, |t.fields|) == Err
  {
    hide UnmarshalField;
    if UnmarshalField(item, t.fields[i]).Err? {
      UnmarshalStaysErr(item, t, i + 1, |t.fields|);
    }
  }

  lemma {:induction false} UnmarshalStaysErr(item: Item, t: Type, m: nat, n: nat)
    requires t.TStruct? && m <= n <= |t.fields| && UnmarshalFields(item, t, m) == Err
    ensures UnmarshalFields(item, t, n) == Err
  {
    hide UnmarshalField;
    if m < n {
      UnmarshalStaysErr(item, t, m, n - 1);
    }
  }

  method UnmarshalElements(l: seq<AttributeValue>, e: Type) returns (r: Result<Val>)
    ensures r == UnmarshalList(l, e)
  {
    hide UnmarshalValue;
    var slice := [];
    for i := 0 to |l|
      invariant |slice| == i
      invariant forall j :: 0 <= j < i ==> UnmarshalValue(l[j], e, false) == Ok(slice[j])
    {
      var v := UnmarshalValue(l[i], e, false);
      if v.Err? {
        return Err;
      }
      slice := slice + [v.value];
    }
    r := Ok(VSlice(slice));
    assert UnmarshalList(l, e).value.elems == slice;
  }

  /** The NS case of unmarshalSet. */
  method UnmarshalNumbers(ns: seq<string>, e: Type) returns (r: Result<Val>)
    ensures r == UnmarshalSet(NS(ns), e)
  {
    hide UnmarshalNumber;
    var slice := [];
    for i := 0 to |ns|
      invariant |slice| == i
      invariant forall j :: 0 <= j < i ==> UnmarshalNumber(ns[j], e) == Ok(slice[j])
    {
      var v := UnmarshalNumber(ns[i], e);
      if v.Err? {
        return Err;
      }
      slice := slice + [v.value];
    }
    r := Ok(VSlice(slice));
    assert UnmarshalSet(NS(ns), e).value.elems == slice;
  }

  method UnmarshalEntries(m: Item, e: Type) returns (r: Result<Val>)
    ensures r == UnmarshalMap(m, e)
  {
    hide UnmarshalValue;
    var out: map<string, Val> := map[];
    var todo := m.Keys;
    while todo != {}
      invariant todo <= m.Keys && out.Keys == m.Keys - todo
      invariant forall k :: k in out ==> UnmarshalValue(m[k], e, false) == Ok(out[k])
      decreases todo
    {
      var k :| k in todo;
      todo := todo - {k};
      var v := UnmarshalValue(m[k], e, false);
      if v.Err? {
        return Err;
      }
      out := out[k := v.value];
    }
    r := Ok(VMap(out));
    assert UnmarshalMap(m, e).value.m == out;
  }
}
