/** The wire form of Go values (marshal.go, unmarshal.go): which attribute value stands
    for which value, in each direction by itself. */
module CodecForms {
  import opened Base
  import opened Values
  import opened Codec

  /** The attribute value that stands for a Go value, of any type but structs: what
      DynamoDB shows. Numbers are numerals of their value; nil is NULL. */
  predicate Shows(av: AttributeValue, v: Val) {
    match v
    case VString(s) => av == S(s)
    case VBool(b) => av == BOOL(b)
    case VInt(i) => av.N? && ParseInt(av.n) == Some(i)
    case VUint(n) => av.N? && ParseNat(av.n) == Some(n)
    case VBytes(b) => av == B(b)
    case VNilSlice => av == NULL
    case VSlice(elems) =>
      || (av.L? && |av.l| == |elems| && forall i :: 0 <= i < |elems| ==> Shows(av.l[i], elems[i]))
      || (av.SS? && |av.ss| == |elems| && forall i :: 0 <= i < |elems| ==> elems[i] == VString(av.ss[i]))
      || (av.BS? && |av.bs| == |elems| && forall i :: 0 <= i < |elems| ==> elems[i] == VBytes(av.bs[i]))
      || (av.NS? && |av.ns| == |elems| && forall i :: 0 <= i < |elems| ==> ShowsNumber(av.ns[i], elems[i]))
    case VNilMap => av == NULL
    case VMap(m) => av.M? && av.m.Keys == m.Keys && forall k :: k in m ==> Shows(av.m[k], m[k])
    case VStruct(_) => av.M?
    case VNilPtr => av == NULL
    case VPtr(x) => Shows(av, x)
  }

  predicate ShowsNumber(n: string, v: Val) { (v.VInt? && ParseInt(n) == Some(v.i)) || (v.VUint? && ParseNat(n) == Some(v.n)) }

  lemma ScalarsShow(v: Val, t: Type, asSet: bool)
    requires HasType(v, t) && (v.VString? || v.VBool? || v.VInt? || v.VUint? || v.VBytes? || v.VNilSlice? || v.VNilMap? || v.VNilPtr?)
    ensures MarshalValue(v, t, asSet).Ok? && Shows(MarshalValue(v, t, asSet).value, v)
  {
    if v.VInt? {
      IntRoundTrip(v.i);
    } else if v.VUint? {
      NatRoundTrip(v.n);
    }
  }

  lemma SetsShow(elems: seq<Val>, e: Type)
    requires HasType(VSlice(elems), TSlice(e)) && (e.TString? || e.TBytes? || e.TInt? || e.TUint?)
    ensures MarshalSet(elems, e).Ok? && Shows(MarshalSet(elems, e).value, VSlice(elems))
    ensures e.TString? ==> MarshalSet(elems, e).value.SS?
    ensures e.TBytes? ==> MarshalSet(elems, e).value.BS?
    ensures e.TInt? || e.TUint? ==> MarshalSet(elems, e).value.NS?
  {
    forall i | 0 <= i < |elems|
      ensures e.TInt? || e.TUint? ==> ShowsNumber(SetText(elems[i], e), elems[i])
      ensures e.TString? ==> elems[i] == VString(SetText(elems[i], e))
      ensures e.TBytes? ==> elems[i] == VBytes(SetText(elems[i], e))
    {
      assert HasType(elems[i], e);
      NumbersShow(elems[i], e);
    }
  }

  lemma NumbersShow(v: Val, e: Type)
    requires HasType(v, e)
    ensures e.TInt? || e.TUint? ==> ShowsNumber(SetText(v, e), v)
  {
    if v.VInt? {
      IntRoundTrip(v.i);
    } else if v.VUint? {
      NatRoundTrip(v.n);
    }
  }

  /** Whatever Marshal returns shows the value. */
  lemma {:induction false} MarshalShows(v: Val, t: Type, asSet: bool)
    requires HasType(v, t) && MarshalValue(v, t, asSet).Ok?
    ensures Shows(MarshalValue(v, t, asSet).value, v)
    decreases v
  {
    match v
    case VSlice(elems) =>
      if asSet {
        SetsAreOf(elems, t.elem);
        SetsShow(elems, t.elem);
      } else {
        forall i | 0 <= i < |elems|
          ensures Shows(MarshalList(elems, t.elem).value.l[i], elems[i])
        {
          MarshalShows(elems[i], t.elem, false);
        }
      }
    case VMap(m) =>
      forall k | k in m
        ensures Shows(MarshalMap(m, t.elem).value.m[k], m[k])
      {
        MarshalShows(m[k], t.elem, false);
      }
    case VPtr(x) => MarshalShows(x, t.elem, asSet);
    case VStruct(_) =>
    case _ => ScalarsShow(v, t, asSet);
  }

  lemma SetsAreOf(elems: seq<Val>, e: Type)
    requires (forall i :: 0 <= i < |elems| ==> HasType(elems[i], e)) && MarshalSet(elems, e).Ok?
    ensures e.TString? || e.TBytes? || e.TInt? || e.TUint?
  {
  }

  // ---- Structs ----

  /** What a field is marshalled from: its value, or what its pointer points to. */
  function Content(v: Val): Val { if v.VPtr? then v.target else v }

  /** Fields that leave no attribute: nil pointers, and zero values with omitempty. */
  predicate Omitted(v: Val, f: Field) { v.VNilPtr? || (f.omitEmpty && IsZero(Content(v))) }

  /** A struct is a map with an attribute for each field that is not omitted, under the
      name in its tag, showing its content; and no others. */
  lemma StructsShow(vals: seq<Val>, t: Type)
    requires t.TStruct? && HasType(VStruct(vals), t) && UniqueNames(t) && MarshalValue(VStruct(vals), t, false).Ok?
    ensures MarshalValue(VStruct(vals), t, false).value.M?
    ensures var m := MarshalValue(VStruct(vals), t, false).value.m;
      && (forall i :: 0 <= i < |vals| ==> (t.fields[i].name in m <==> !Omitted(vals[i], t.fields[i])))
      && (forall i :: 0 <= i < |vals| && t.fields[i].name in m ==> Shows(m[t.fields[i].name], Content(vals[i])))
      && (forall name :: name in m ==> exists i :: 0 <= i < |vals| && t.fields[i].name == name)
  {
    FieldsMarshalled(vals, t, |vals|);
    NamesAreFields(vals, t, |vals|);
    var m := MarshalFields(vals, t, |vals|).value;
    assert MarshalValue(VStruct(vals), t, false) == Ok(M(m));
    forall i | 0 <= i < |vals|
      ensures t.fields[i].name in m <==> !Omitted(vals[i], t.fields[i])
      ensures t.fields[i].name in m ==> Shows(m[t.fields[i].name], Content(vals[i]))
    {
      FieldShows(vals[i], t.fields[i]);
    }
    hide MarshalFields, MarshalField, Shows, Omitted;
  }

  lemma FieldShows(v: Val, f: Field)
    requires HasType(v, f.ty) && MarshalField(v, f).Ok?
    ensures MarshalField(v, f).value.None? <==> Omitted(v, f)
    ensures MarshalField(v, f).value.Some? ==> Shows(MarshalField(v, f).value.value, Content(v))
  {
    if !Omitted(v, f) {
      MarshalShows(Content(v), if v.VPtr? then f.ty.elem else f.ty, f.asSet);
    }
    hide MarshalValue, Shows, IsZero;
  }

  lemma {:induction false} NamesAreFields(vals: seq<Val>, t: Type, n: nat)
    requires t.TStruct? && n <= |vals| && HasType(VStruct(vals), t) && MarshalFields(vals, t, n).Ok?
    ensures forall name :: name in MarshalFields(vals, t, n).value ==> exists i :: 0 <= i < n && t.fields[i].name == name
    decreases n
  {
    hide MarshalField;
    if n > 0 {
      NamesAreFields(vals, t, n - 1);
    }
  }

  /** omitempty leaves out Go's zero values, and empty slices and maps. */
  lemma ZerosAre(v: Val, t: Type)
    requires HasType(v, t)
    ensures IsZero(v) <==> v in {VString(""), VBool(false), VInt(0), VUint(0), VBytes(""), VNilSlice, VSlice([]), VNilMap, VMap(map[]), VNilPtr}
    ensures HasType(Zero(t), t) && (!t.TStruct? ==> IsZero(Zero(t)) && Zero(t) != VSlice([]) && Zero(t) != VMap(map[]))
  {
    ZeroHasType(t);
  }

  lemma {:induction false} ZeroHasType(t: Type)
    ensures HasType(Zero(t), t)
    decreases t
  {
    match t
    case TStruct(fields) =>
      forall i | 0 <= i < |fields|
        ensures HasType(Zero(fields[i].ty), fields[i].ty)
      {
        ZeroHasType(fields[i].ty);
      }
    case _ =>
  }

  /** An element of a number set that is too large keeps its low bits. */
  lemma WrapKeepsLowBits(i: int, n: nat, w: Width)
    ensures FitsInt(WrapInt(i, w), w) && exists q: int :: WrapInt(i, w) == i + q * (2 * Half(w))
    ensures FitsUint(WrapUint(n, w), w) && exists q: int :: WrapUint(n, w) == n + q * (2 * Half(w))
    ensures FitsInt(i, w) ==> WrapInt(i, w) == i
    ensures FitsUint(n, w) ==> WrapUint(n, w) == n
  {
    var m := 2 * Half(w);
    var q := (i + Half(w)) / m;
    assert WrapInt(i, w) == i + (-q) * m;
    var p := n / m;
    assert WrapUint(n, w) == n + (-p) * m;
    if FitsInt(i, w) {
      SmallMod(i + Half(w), m);
    }
    if FitsUint(n, w) {
      SmallMod(n, m);
    }
  }

  // ---- Unmarshal ----

  /** Scalars are read from an attribute of their type only; integers from numerals in the
      range of their type. */
  lemma ScalarsAreRead(av: AttributeValue, w: Width, asSet: bool)
    ensures UnmarshalValue(av, TString, asSet) == (match av case S(s) => Ok(VString(s)) case _ => Err)
    ensures UnmarshalValue(av, TBool, asSet) == (match av case BOOL(b) => Ok(VBool(b)) case _ => Err)
    ensures UnmarshalValue(av, TBytes, asSet) == (match av case B(b) => Ok(VBytes(b)) case _ => Err)
    ensures UnmarshalValue(av, TInt(w), asSet).Ok? <==> av.N? && ParseInt(av.n).Some? && FitsInt(ParseInt(av.n).value, w)
    ensures UnmarshalValue(av, TUint(w), asSet).Ok? <==> av.N? && ParseNat(av.n).Some? && FitsUint(ParseNat(av.n).value, w)
    ensures UnmarshalValue(av, TInt(w), asSet).Ok? ==> UnmarshalValue(av, TInt(w), asSet) == Ok(VInt(ParseInt(av.n).value))
    ensures UnmarshalValue(av, TUint(w), asSet).Ok? ==> UnmarshalValue(av, TUint(w), asSet) == Ok(VUint(ParseNat(av.n).value))
  {
    Narrower(w);
    hide ParseInt, ParseNat;
  }

  lemma Narrower(w: Width)
    ensures forall i :: FitsInt(i, w) ==> FitsInt(i, W64)
    ensures forall n :: FitsUint(n, w) ==> FitsUint(n, W64)
  {
  }

  /** Whatever Unmarshal reads into a pointer to a string, bool, integer or bytes, or into
      one of those, is shown by the attribute. */
  lemma ReadShows(av: AttributeValue, t: Type, asSet: bool)
    requires t.TString? || t.TBool? || t.TBytes? || t.TInt? || t.TUint?
    ensures UnmarshalValue(av, t, asSet).Ok? ==> Shows(av, UnmarshalValue(av, t, asSet).value)
    ensures UnmarshalValue(NULL, TPtr(t), asSet) == Ok(VNilPtr)
    ensures av != NULL && UnmarshalValue(av, t, asSet).Ok? ==> UnmarshalValue(av, TPtr(t), asSet) == Ok(VPtr(UnmarshalValue(av, t, asSet).value))
  {
    ScalarsAreRead(av, W64, asSet);
    hide ParseInt, ParseNat;
  }
}
