/** Marshal and Unmarshal (marshal.go, unmarshal.go) over a universe of Go types:
    strings, bools, sized integers, byte slices, slices, sets, string-keyed maps,
    structs and pointers. */
module Codec {
  import opened Base
  import opened Values

  datatype Width = W8 | W16 | W32 | W64

  /** A type; the fields of a struct carry what their tags say. `TSlice(TUint(W8))`
      is a slice type of bytes other than []byte itself. */
  datatype Type =
    | TString
    | TBool
    | TInt(w: Width)
    | TUint(w: Width)
    | TBytes
    | TSlice(elem: Type)
    | TMap(elem: Type)
    | TStruct(fields: seq<Field>)
    | TPtr(elem: Type)

  datatype Field = Field(name: string, omitEmpty: bool, asSet: bool, ty: Type)

  /** A value; nil and empty []byte are identified. */
  datatype Val =
    | VString(s: string)
    | VBool(b: bool)
    | VInt(i: int)
    | VUint(n: nat)
    | VBytes(bytes: string)
    | VNilSlice
    | VSlice(elems: seq<Val>)
    | VNilMap
    | VMap(m: map<string, Val>)
    | VStruct(vals: seq<Val>)
    | VNilPtr
    | VPtr(target: Val)

  function Half(w: Width): int {
    match w
    case W8 => 0x80
    case W16 => 0x8000
    case W32 => 0x8000_0000
    case W64 => 0x8000_0000_0000_0000
  }

  predicate FitsInt(i: int, w: Width) { -Half(w) <= i < Half(w) }

  predicate FitsUint(n: int, w: Width) { 0 <= n < 2 * Half(w) }

  /** SetInt and SetUint keep the low bits. */
  function WrapInt(i: int, w: Width): int { (i + Half(w)) % (2 * Half(w)) - Half(w) }

  function WrapUint(n: nat, w: Width): nat { n % (2 * Half(w)) }

  predicate HasType(v: Val, t: Type)
    decreases t
  {
    match (t, v)
    case (TString, VString(_)) => true
    case (TBool, VBool(_)) => true
    case (TInt(w), VInt(i)) => FitsInt(i, w)
    case (TUint(w), VUint(n)) => FitsUint(n, w)
    case (TBytes, VBytes(_)) => true
    case (TSlice(_), VNilSlice) => true
    case (TSlice(e), VSlice(elems)) => forall i :: 0 <= i < |elems| ==> HasType(elems[i], e)
    case (TMap(_), VNilMap) => true
    case (TMap(e), VMap(m)) => forall k :: k in m ==> HasType(m[k], e)
    case (TStruct(fields), VStruct(vals)) =>
      |vals| == |fields| && forall i :: 0 <= i < |fields| ==> HasType(vals[i], fields[i].ty)
    case (TPtr(_), VNilPtr) => true
    case (TPtr(e), VPtr(x)) => HasType(x, e)
    case _ => false
  }

  /** No struct has two fields for one attribute. */
  predicate UniqueNames(t: Type)
    decreases t
  {
    match t
    case TSlice(e) => UniqueNames(e)
    case TMap(e) => UniqueNames(e)
    case TPtr(e) => UniqueNames(e)
    case TStruct(fields) =>
      && (forall i, j :: 0 <= i < j < |fields| ==> fields[i].name != fields[j].name)
      && (forall i :: 0 <= i < |fields| ==> UniqueNames(fields[i].ty))
    case _ => true
  }

  function Zero(t: Type): Val
    decreases t
  {
    match t
    case TString => VString("")
    case TBool => VBool(false)
    case TInt(_) => VInt(0)
    case TUint(_) => VUint(0)
    case TBytes => VBytes("")
    case TSlice(_) => VNilSlice
    case TMap(_) => VNilMap
    case TStruct(fields) => VStruct(seq(|fields|, i requires 0 <= i < |fields| => Zero(fields[i].ty)))
    case TPtr(_) => VNilPtr
  }

  /** isZero, for omitempty. */
  predicate IsZero(v: Val) {
    match v
    case VString(s) => s == ""
    case VBool(b) => !b
    case VInt(i) => i == 0
    case VUint(n) => n == 0
    case VBytes(b) => b == ""
    case VNilSlice => true
    case VSlice(elems) => elems == []
    case VNilMap => true
    case VMap(m) => m == map[]
    case VNilPtr => true
    case _ => false
  }

  // ---- Marshal ----

  function MarshalValue(v: Val, t: Type, asSet: bool): Result<AttributeValue>
    requires HasType(v, t)
    decreases t, 2, 0
  {
    match v
    case VString(s) => Ok(S(s))
    case VBool(b) => Ok(BOOL(b))
    case VInt(i) => Ok(N(IntToString(i)))
    case VUint(n) => Ok(N(NatToString(n)))
    case VBytes(b) => Ok(B(b))
    case VNilSlice => Ok(NULL)
    case VSlice(elems) => if asSet then MarshalSet(elems, t.elem) else MarshalList(elems, t.elem)
    case VNilMap => Ok(NULL)
    case VMap(m) => MarshalMap(m, t.elem)
    case VStruct(vals) => (
      match MarshalFields(vals, t, |vals|)
      case Ok(item) => Ok(M(item))
      case Err => Err)
    case VNilPtr => Ok(NULL)
    case VPtr(x) => MarshalValue(x, t.elem, asSet)
  }

  function MarshalList(elems: seq<Val>, e: Type): Result<AttributeValue>
    requires forall i :: 0 <= i < |elems| ==> HasType(elems[i], e)
    decreases e, 3, 0
  {
    if forall i :: 0 <= i < |elems| ==> MarshalValue(elems[i], e, false).Ok?
    then Ok(L(seq(|elems|, i requires 0 <= i < |elems| => MarshalValue(elems[i], e, false).value)))
    else Err
  }

  function SetText(v: Val, e: Type): string
    requires HasType(v, e)
  {
    match v
    case VString(s) => s
    case VBytes(b) => b
    case VInt(i) => IntToString(i)
    case VUint(n) => NatToString(n)
    case _ => ""
  }

  /** marshalSet: SS, BS or NS by the element type. */
  function MarshalSet(elems: seq<Val>, e: Type): Result<AttributeValue>
    requires forall i :: 0 <= i < |elems| ==> HasType(elems[i], e)
  {
    var texts := seq(|elems|, i requires 0 <= i < |elems| => SetText(elems[i], e));
    match e
    case TString => Ok(SS(texts))
    case TBytes => Ok(BS(texts))
    case TInt(_) => Ok(NS(texts))
    case TUint(_) => Ok(NS(texts))
    case _ => Err
  }

  function MarshalMap(m: map<string, Val>, e: Type): Result<AttributeValue>
    requires forall k :: k in m ==> HasType(m[k], e)
    decreases e, 3, 0
  {
    if forall k :: k in m ==> MarshalValue(m[k], e, false).Ok?
    then Ok(M(map k | k in m :: MarshalValue(m[k], e, false).value))
    else Err
  }

  /** What a field contributes: nothing for nil pointers and omitted zero values. */
  function MarshalField(v: Val, f: Field): Result<Option<AttributeValue>>
    requires HasType(v, f.ty)
    decreases f, 3, 0
  {
    if v.VNilPtr? then Ok(None)
    else
      var elem := if v.VPtr? then v.target else v;
      if f.omitEmpty && IsZero(elem) then Ok(None)
      else
        match MarshalValue(elem, if v.VPtr? then f.ty.elem else f.ty, f.asSet)
        case Ok(av) => Ok(Some(av))
        case Err => Err
  }

  /** The first n fields of a struct. */
  function MarshalFields(vals: seq<Val>, t: Type, n: nat): Result<Item>
    requires t.TStruct? && n <= |vals| && HasType(VStruct(vals), t)
    decreases t, 1, n
  {
    if n == 0 then Ok(map[])
    else
      match MarshalFields(vals, t, n - 1)
      case Err => Err
      case Ok(item) =>
        match MarshalField(vals[n - 1], t.fields[n - 1])
        case Err => Err
        case Ok(None) => Ok(item)
        case Ok(Some(av)) => Ok(item[t.fields[n - 1].name := av])
  }

  // ---- Unmarshal, into a zero value ----

  function UnmarshalValue(av: AttributeValue, t: Type, asSet: bool): Result<Val>
    decreases t, 2, 0
  {
    match t
    case TPtr(e) =>
      if av == NULL then Ok(VNilPtr)
      else if e.TPtr? then Err
      else (
        match UnmarshalValue(av, e, asSet)
        case Ok(x) => Ok(VPtr(x))
        case Err => Err)
    case TString => if av.S? then Ok(VString(av.s)) else Err
    case TBool => if av.BOOL? then Ok(VBool(av.flag)) else Err
    case TInt(w) => if av.N? then UnmarshalInt(av.n, w) else Err
    case TUint(w) => if av.N? then UnmarshalUint(av.n, w) else Err
    case TBytes => if av.B? then Ok(VBytes(av.b)) else Err
    case TSlice(e) =>
      if e == TUint(W8) then (if av.B? then Ok(ByteSlice(av.b)) else Err)
      else if asSet then UnmarshalSet(av, e)
      else if av.L? then UnmarshalList(av.l, e)
      else Err
    case TMap(e) => if av.M? then UnmarshalMap(av.m, e) else Err
    case TStruct(_) =>
      if av.M? then
        match UnmarshalFields(av.m, t, |t.fields|)
        case Ok(vals) => Ok(VStruct(vals))
        case Err => Err
      else Err
  }

  function ByteSlice(b: string): Val { VSlice(seq(|b|, i requires 0 <= i < |b| => VUint(b[i] as nat))) }

  function UnmarshalInt(n: string, w: Width): Result<Val> {
    match ParseInt(n)
    case Some(i) => if FitsInt(i, W64) && FitsInt(i, w) then Ok(VInt(i)) else Err
    case None => Err
  }

  function UnmarshalUint(n: string, w: Width): Result<Val> {
    match ParseNat(n)
    case Some(i) => if FitsUint(i, W64) && FitsUint(i, w) then Ok(VUint(i)) else Err
    case None => Err
  }

  function UnmarshalList(l: seq<AttributeValue>, e: Type): Result<Val>
    decreases e, 3, 0
  {
    if forall i :: 0 <= i < |l| ==> UnmarshalValue(l[i], e, false).Ok?
    then Ok(VSlice(seq(|l|, i requires 0 <= i < |l| => UnmarshalValue(l[i], e, false).value)))
    else Err
  }

  function UnmarshalMap(m: Item, e: Type): Result<Val>
    decreases e, 3, 0
  {
    if forall k :: k in m ==> UnmarshalValue(m[k], e, false).Ok?
    then Ok(VMap(map k | k in m :: UnmarshalValue(m[k], e, false).value))
    else Err
  }

  /** One element of an NS; unlike a field, it may be truncated. */
  function UnmarshalNumber(n: string, e: Type): Result<Val> {
    match e
    case TInt(w) => (
      match ParseInt(n)
      case Some(i) => if FitsInt(i, W64) then Ok(VInt(WrapInt(i, w))) else Err
      case None => Err)
    case TUint(w) => (
      match ParseNat(n)
      case Some(i) => if FitsUint(i, W64) then Ok(VUint(WrapUint(i, w))) else Err
      case None => Err)
    case _ => Err
  }

  function UnmarshalSet(av: AttributeValue, e: Type): Result<Val> {
    match av
    case SS(ss) => if e.TString? then Ok(VSlice(seq(|ss|, i requires 0 <= i < |ss| => VString(ss[i])))) else Err
    case NS(ns) =>
      if forall i :: 0 <= i < |ns| ==> UnmarshalNumber(ns[i], e).Ok?
      then Ok(VSlice(seq(|ns|, i requires 0 <= i < |ns| => UnmarshalNumber(ns[i], e).value)))
      else Err
    case BS(bs) =>
      if e.TBytes? then Ok(VSlice(seq(|bs|, i requires 0 <= i < |bs| => VBytes(bs[i]))))
      else if e == TSlice(TUint(W8)) then Ok(VSlice(seq(|bs|, i requires 0 <= i < |bs| => ByteSlice(bs[i]))))
      else Err
    case _ => Err
  }

  function UnmarshalFields(item: Item, t: Type, n: nat): (r: Result<seq<Val>>)
    requires t.TStruct? && n <= |t.fields|
    ensures r.Ok? ==> |r.value| == n
    decreases t, 1, n
  {
    if n == 0 then Ok([])
    else
      match UnmarshalFields(item, t, n - 1)
      case Err => Err
      case Ok(vals) =>
        match UnmarshalField(item, t.fields[n - 1])
        case Ok(v) => Ok(vals + [v])
        case Err => Err
  }

  /** A missing attribute leaves the zero value. */
  function UnmarshalField(item: Item, f: Field): Result<Val>
    decreases f, 3, 0
  {
    if f.name in item then UnmarshalValue(item[f.name], f.ty, f.asSet) else Ok(Zero(f.ty))
  }

  // ---- When a value survives ----

  /** The element types that a set can have. */
  predicate SetElem(e: Type) { e.TString? || e.TBytes? || e.TInt? || (e.TUint? && e.w != W8) }

  /** The value comes back as it was: no nil slice or map, no byte slice of another
      type than []byte, sets only of strings, bytes and integers, no pointer to a
      pointer unless it is nil; and fields as Survives says. */
  predicate RoundTrips(v: Val, t: Type, asSet: bool)
    requires HasType(v, t)
    decreases t, 0
  {
    match v
    case VNilSlice => false
    case VSlice(elems) =>
      t.elem != TUint(W8)
      && (if asSet then SetElem(t.elem) else forall i :: 0 <= i < |elems| ==> RoundTrips(elems[i], t.elem, false))
    case VNilMap => false
    case VMap(m) => forall k :: k in m ==> RoundTrips(m[k], t.elem, false)
    case VStruct(vals) => forall i :: 0 <= i < |vals| ==> Survives(vals[i], t.fields[i])
    case VPtr(x) => !t.elem.TPtr? && RoundTrips(x, t.elem, asSet)
    case _ => true
  }

  /** A field that omitempty drops comes back only if it held the very zero value of
      its type: not a pointer to one, not an empty slice or map that is not nil. */
  predicate Survives(v: Val, f: Field)
    requires HasType(v, f.ty)
    decreases f, 1
  {
    if v.VNilPtr? then true
    else if v.VPtr? then !(f.omitEmpty && IsZero(v.target)) && !f.ty.elem.TPtr? && RoundTrips(v.target, f.ty.elem, f.asSet)
    else if f.omitEmpty && IsZero(v) then v == Zero(f.ty)
    else RoundTrips(v, f.ty, f.asSet)
  }

  predicate ComesBack(v: Val, t: Type, asSet: bool)
    requires HasType(v, t)
  {
    match MarshalValue(v, t, asSet)
    case Ok(av) => UnmarshalValue(av, t, asSet) == Ok(v)
    case Err => false
  }

  predicate FieldComesBack(v: Val, f: Field)
    requires HasType(v, f.ty)
  {
    match MarshalField(v, f)
    case Ok(Some(av)) => UnmarshalValue(av, f.ty, f.asSet) == Ok(v)
    case Ok(None) => v == Zero(f.ty)
    case Err => false
  }

  // ---- Proof ----

  lemma SmallMod(x: int, m: int)
    requires 0 <= x < m
    ensures x % m == x
  {
  }

  lemma IntsComeBack(i: int, w: Width)
    requires FitsInt(i, w)
    ensures UnmarshalInt(IntToString(i), w) == Ok(VInt(i))
    ensures UnmarshalNumber(IntToString(i), TInt(w)) == Ok(VInt(i))
  {
    IntRoundTrip(i);
    SmallMod(i + Half(w), 2 * Half(w));
    assert WrapInt(i, w) == i;
    assert FitsInt(i, W64);
    hide WrapInt, Half, FitsInt, ParseInt;
  }

  lemma UintsComeBack(n: nat, w: Width)
    requires FitsUint(n, w)
    ensures UnmarshalUint(NatToString(n), w) == Ok(VUint(n))
    ensures UnmarshalNumber(NatToString(n), TUint(w)) == Ok(VUint(n))
  {
    NatRoundTrip(n);
    SmallMod(n, 2 * Half(w));
    assert WrapUint(n, w) == n;
    assert FitsUint(n, W64);
    hide WrapUint, Half, FitsUint, ParseNat;
  }

  /** A nil slice, map or pointer, or a pointer to one. */
  predicate Nil(v: Val) { v.VNilSlice? || v.VNilMap? || v.VNilPtr? || (v.VPtr? && Nil(v.target)) }

  /** Nil is what becomes NULL, and nothing else does. */
  lemma {:induction false} NullMeansNil(v: Val, t: Type, asSet: bool)
    requires HasType(v, t)
    ensures MarshalValue(v, t, asSet) == Ok(NULL) <==> Nil(v)
    decreases v
  {
    if v.VPtr? {
      NullMeansNil(v.target, t.elem, asSet);
    }
  }

  lemma ListComesBack(elems: seq<Val>, e: Type)
    requires HasType(VSlice(elems), TSlice(e)) && e != TUint(W8)
    ensures ComesBack(VSlice(elems), TSlice(e), false) <==> forall i :: 0 <= i < |elems| ==> ComesBack(elems[i], e, false)
  {
    var v, t := VSlice(elems), TSlice(e);
    assert forall i :: 0 <= i < |elems| ==> HasType(elems[i], e);
    assert MarshalValue(v, t, false) == MarshalList(elems, e);
    if MarshalList(elems, e).Ok? {
      var l := MarshalList(elems, e).value.l;
      assert UnmarshalValue(L(l), t, false) == UnmarshalList(l, e);
      hide MarshalValue, UnmarshalValue, HasType;
      if UnmarshalList(l, e).Ok? {
        var back := UnmarshalList(l, e).value.elems;
        assert back == elems <==> forall i :: 0 <= i < |elems| ==> back[i] == elems[i];
      }
      if forall i :: 0 <= i < |elems| ==> ComesBack(elems[i], e, false) {
        assert forall i :: 0 <= i < |elems| ==> UnmarshalValue(l[i], e, false) == Ok(elems[i]);
      }
    }
  }

  lemma MapComesBack(m: map<string, Val>, e: Type, asSet: bool)
    requires HasType(VMap(m), TMap(e))
    ensures ComesBack(VMap(m), TMap(e), asSet) <==> forall k :: k in m ==> ComesBack(m[k], e, false)
  {
    MapIs(m, e, asSet);
    hide MarshalValue, UnmarshalValue, HasType;
    if MarshalMap(m, e).Ok? {
      EntriesComeBack(m, e);
    }
  }

  lemma MapIs(m: map<string, Val>, e: Type, asSet: bool)
    requires HasType(VMap(m), TMap(e))
    ensures forall k :: k in m ==> HasType(m[k], e)
    ensures ComesBack(VMap(m), TMap(e), asSet)
         == (MarshalMap(m, e).Ok? && MarshalMap(m, e).value.M? && UnmarshalMap(MarshalMap(m, e).value.m, e) == Ok(VMap(m)))
  {
    hide UnmarshalMap;
    assert MarshalValue(VMap(m), TMap(e), asSet) == MarshalMap(m, e);
  }

  lemma EntriesComeBack(m: map<string, Val>, e: Type)
    requires (forall k :: k in m ==> HasType(m[k], e)) && MarshalMap(m, e).Ok?
    ensures MarshalMap(m, e).value.M?
    ensures UnmarshalMap(MarshalMap(m, e).value.m, e) == Ok(VMap(m)) <==> forall k :: k in m ==> ComesBack(m[k], e, false)
  {
    hide MarshalValue, UnmarshalValue, HasType;
    var item := MarshalMap(m, e).value.m;
    assert item.Keys == m.Keys;
    if UnmarshalMap(item, e).Ok? {
      var back := UnmarshalMap(item, e).value.m;
      assert back.Keys == m.Keys;
      assert back == m <==> forall k :: k in m ==> back[k] == m[k];
    }
    if forall k :: k in m ==> ComesBack(m[k], e, false) {
      assert forall k :: k in m ==> UnmarshalValue(item[k], e, false) == Ok(m[k]);
    }
  }

  lemma SetComesBack(elems: seq<Val>, e: Type)
    requires HasType(VSlice(elems), TSlice(e)) && e != TUint(W8)
    ensures ComesBack(VSlice(elems), TSlice(e), true) <==> SetElem(e)
  {
    var v, t := VSlice(elems), TSlice(e);
    assert forall i :: 0 <= i < |elems| ==> HasType(elems[i], e);
    assert MarshalValue(v, t, true) == MarshalSet(elems, e);
    if SetElem(e) {
      var av := MarshalSet(elems, e).value;
      assert UnmarshalValue(av, t, true) == UnmarshalSet(av, e);
      SetElemsComeBack(elems, e);
    }
  }

  lemma SetElemsComeBack(elems: seq<Val>, e: Type)
    requires SetElem(e) && forall i :: 0 <= i < |elems| ==> HasType(elems[i], e)
    ensures MarshalSet(elems, e).Ok? && UnmarshalSet(MarshalSet(elems, e).value, e) == Ok(VSlice(elems))
  {
    hide UnmarshalNumber, IntToString, NatToString;
    var av := MarshalSet(elems, e).value;
    match e
    case TString =>
      assert UnmarshalSet(av, e).value.elems == elems;
    case TBytes =>
      assert UnmarshalSet(av, e).value.elems == elems;
    case TInt(w) =>
      forall i | 0 <= i < |elems|
        ensures UnmarshalNumber(av.ns[i], e) == Ok(elems[i])
      {
        IntsComeBack(elems[i].i, w);
      }
      assert UnmarshalSet(av, e).value.elems == elems;
    case TUint(w) =>
      forall i | 0 <= i < |elems|
        ensures UnmarshalNumber(av.ns[i], e) == Ok(elems[i])
      {
        UintsComeBack(elems[i].n, w);
      }
      assert UnmarshalSet(av, e).value.elems == elems;
    case _ =>
  }

  lemma PtrComesBack(x: Val, e: Type, asSet: bool)
    requires HasType(VPtr(x), TPtr(e))
    ensures ComesBack(VPtr(x), TPtr(e), asSet) <==> PointeeComesBack(x, e, asSet)
  {
    hide MarshalList, MarshalMap, MarshalSet, MarshalFields;
    assert MarshalValue(VPtr(x), TPtr(e), asSet) == MarshalValue(x, e, asSet);
  }

  predicate PointeeComesBack(x: Val, e: Type, asSet: bool)
    requires HasType(x, e)
  {
    match MarshalValue(x, e, asSet)
    case Ok(av) => UnmarshalValue(av, TPtr(e), asSet) == Ok(VPtr(x))
    case Err => false
  }

  lemma PointeeIff(x: Val, e: Type, asSet: bool)
    requires HasType(x, e) && (ComesBack(x, e, asSet) <==> RoundTrips(x, e, asSet))
    ensures PointeeComesBack(x, e, asSet) <==> !e.TPtr? && RoundTrips(x, e, asSet)
  {
    var r := MarshalValue(x, e, asSet);
    if r == Ok(NULL) {
      NullMeansNil(x, e, asSet);
    }
    hide MarshalValue;
    if r.Ok? {
      PtrUnmarshal(r.value, e, asSet);
      hide UnmarshalValue;
    }
  }

  lemma PtrUnmarshal(av: AttributeValue, e: Type, asSet: bool)
    ensures UnmarshalValue(av, TPtr(e), asSet) == (
      if av == NULL then Ok(VNilPtr)
      else if e.TPtr? then Err
      else match UnmarshalValue(av, e, asSet) case Ok(x) => Ok(VPtr(x)) case Err => Err)
  {
  }

  // ---- Structs ----

  lemma {:induction false} FieldsMarshalled(vals: seq<Val>, t: Type, n: nat)
    requires t.TStruct? && n <= |vals| && HasType(VStruct(vals), t) && UniqueNames(t)
    ensures var r := MarshalFields(vals, t, n);
      && (r.Err? ==> exists i :: 0 <= i < n && MarshalField(vals[i], t.fields[i]).Err?)
      && (r.Ok? ==>
            && (forall i :: 0 <= i < n ==> MarshalField(vals[i], t.fields[i]).Ok?)
            && (forall i :: 0 <= i < n ==> Lookup(r.value, t.fields[i].name) == MarshalField(vals[i], t.fields[i]).value)
            && (forall i :: n <= i < |vals| ==> t.fields[i].name !in r.value))
  {
    hide MarshalField;
    if n > 0 {
      FieldsMarshalled(vals, t, n - 1);
    }
  }

  lemma {:induction false} FieldsUnmarshalled(item: Item, t: Type, n: nat)
    requires t.TStruct? && n <= |t.fields|
    ensures var r := UnmarshalFields(item, t, n);
      && (r.Err? ==> exists i :: 0 <= i < n && UnmarshalField(item, t.fields[i]).Err?)
      && (r.Ok? ==> forall i :: 0 <= i < n ==> UnmarshalField(item, t.fields[i]) == Ok(r.value[i]))
  {
    hide UnmarshalField;
    if n > 0 {
      FieldsUnmarshalled(item, t, n - 1);
    }
  }

  lemma FieldAgrees(v: Val, f: Field, item: Item)
    requires HasType(v, f.ty) && MarshalField(v, f).Ok? && Lookup(item, f.name) == MarshalField(v, f).value
    ensures UnmarshalField(item, f) == Ok(v) <==> FieldComesBack(v, f)
  {
    hide MarshalField;
  }

  lemma StructComesBack(vals: seq<Val>, t: Type, asSet: bool)
    requires t.TStruct? && HasType(VStruct(vals), t) && UniqueNames(t)
    ensures ComesBack(VStruct(vals), t, asSet) <==> forall i :: 0 <= i < |vals| ==> FieldComesBack(vals[i], t.fields[i])
  {
    FieldsMarshalled(vals, t, |vals|);
    StructIs(vals, t, asSet);
    var r := MarshalFields(vals, t, |vals|);
    if r.Ok? {
      FieldsUnmarshalled(r.value, t, |t.fields|);
      forall i | 0 <= i < |vals|
        ensures UnmarshalField(r.value, t.fields[i]) == Ok(vals[i]) <==> FieldComesBack(vals[i], t.fields[i])
      {
        hide MarshalFields, UnmarshalFields, UnmarshalField, FieldComesBack, ComesBack, MarshalField;
        FieldAgrees(vals[i], t.fields[i], r.value);
      }
      hide MarshalFields, UnmarshalFields, UnmarshalField, FieldComesBack, ComesBack;
      var u := UnmarshalFields(r.value, t, |t.fields|);
      if u.Ok? {
        assert u.value == vals <==> forall i :: 0 <= i < |vals| ==> u.value[i] == vals[i];
      }
    } else {
      FailedField(vals, t);
    }
  }

  lemma FailedField(vals: seq<Val>, t: Type)
    requires t.TStruct? && HasType(VStruct(vals), t)
    requires exists i :: 0 <= i < |vals| && MarshalField(vals[i], t.fields[i]).Err?
    ensures exists i :: 0 <= i < |vals| && !FieldComesBack(vals[i], t.fields[i])
  {
    hide MarshalField;
    var i :| 0 <= i < |vals| && MarshalField(vals[i], t.fields[i]).Err?;
    assert !FieldComesBack(vals[i], t.fields[i]);
  }

  lemma StructIs(vals: seq<Val>, t: Type, asSet: bool)
    requires t.TStruct? && HasType(VStruct(vals), t)
    ensures var r := MarshalFields(vals, t, |vals|);
      ComesBack(VStruct(vals), t, asSet) == (r.Ok? && UnmarshalFields(r.value, t, |t.fields|) == Ok(vals))
  {
    hide MarshalFields, UnmarshalFields;
  }

  // ---- The round trip ----

  /** Marshal then Unmarshal is the identity exactly on the values that RoundTrips
      describes. */
  lemma {:induction false} ComesBackIff(v: Val, t: Type, asSet: bool)
    requires HasType(v, t) && UniqueNames(t)
    ensures ComesBack(v, t, asSet) <==> RoundTrips(v, t, asSet)
    decreases t, 2
  {
    match v
    case VInt(i) => IntsComeBack(i, t.w);
    case VUint(n) => UintsComeBack(n, t.w);
    case VSlice(elems) => SliceIff(elems, t.elem, asSet);
    case VMap(m) => MapIff(m, t.elem, asSet);
    case VStruct(vals) => StructIff(vals, t, asSet);
    case VPtr(x) =>
      ComesBackIff(x, t.elem, asSet);
      PtrComesBack(x, t.elem, asSet);
      PointeeIff(x, t.elem, asSet);
    case _ =>
  }

  lemma ByteSlicesAreLost(elems: seq<Val>, asSet: bool)
    requires HasType(VSlice(elems), TSlice(TUint(W8)))
    ensures !ComesBack(VSlice(elems), TSlice(TUint(W8)), asSet)
  {
  }

  lemma SliceIff(elems: seq<Val>, e: Type, asSet: bool)
    requires HasType(VSlice(elems), TSlice(e)) && UniqueNames(e)
    ensures ComesBack(VSlice(elems), TSlice(e), asSet) <==> RoundTrips(VSlice(elems), TSlice(e), asSet)
    decreases e, 3
  {
    if e == TUint(W8) {
      ByteSlicesAreLost(elems, asSet);
    } else if asSet {
      SetComesBack(elems, e);
    } else {
      ListComesBack(elems, e);
      hide ComesBack;
      forall i | 0 <= i < |elems|
        ensures ComesBack(elems[i], e, false) <==> RoundTrips(elems[i], e, false)
      {
        hide RoundTrips;
        ComesBackIff(elems[i], e, false);
      }
    }
  }

  lemma MapIff(m: map<string, Val>, e: Type, asSet: bool)
    requires HasType(VMap(m), TMap(e)) && UniqueNames(e)
    ensures ComesBack(VMap(m), TMap(e), asSet) <==> RoundTrips(VMap(m), TMap(e), asSet)
    decreases e, 3
  {
    MapComesBack(m, e, asSet);
    hide ComesBack;
    forall k | k in m
      ensures ComesBack(m[k], e, false) <==> RoundTrips(m[k], e, false)
    {
      hide RoundTrips;
      ComesBackIff(m[k], e, false);
    }
  }

  lemma StructIff(vals: seq<Val>, t: Type, asSet: bool)
    requires t.TStruct? && HasType(VStruct(vals), t) && UniqueNames(t)
    ensures ComesBack(VStruct(vals), t, asSet) <==> RoundTrips(VStruct(vals), t, asSet)
    decreases t, 1
  {
    StructComesBack(vals, t, asSet);
    hide ComesBack, FieldComesBack, Survives;
    forall i | 0 <= i < |vals|
      ensures FieldComesBack(vals[i], t.fields[i]) <==> Survives(vals[i], t.fields[i])
    {
      hide RoundTrips;
      FieldIff(vals[i], t.fields[i]);
    }
  }

  lemma FieldIff(v: Val, f: Field)
    requires HasType(v, f.ty) && UniqueNames(f.ty)
    ensures FieldComesBack(v, f) <==> Survives(v, f)
    decreases f, 3
  {
    hide MarshalValue, UnmarshalValue, RoundTrips;
    if v.VPtr? {
      if !(f.omitEmpty && IsZero(v.target)) {
        ComesBackIff(v.target, f.ty.elem, f.asSet);
        PointeeIff(v.target, f.ty.elem, f.asSet);
      }
    } else if !v.VNilPtr? && !(f.omitEmpty && IsZero(v)) {
      ComesBackIff(v, f.ty, f.asSet);
    }
  }

  /** For a struct: every field comes back, or the struct does not. */
  lemma MarshalThenUnmarshal(vals: seq<Val>, t: Type)
    requires t.TStruct? && HasType(VStruct(vals), t) && UniqueNames(t)
    ensures var r := MarshalFields(vals, t, |vals|);
      (r.Ok? && UnmarshalFields(r.value, t, |t.fields|) == Ok(vals)) <==> forall i :: 0 <= i < |vals| ==> Survives(vals[i], t.fields[i])
  {
    hide MarshalFields, UnmarshalFields, Survives, ComesBack;
    StructIs(vals, t, false);
    StructIff(vals, t, false);
  }
}
