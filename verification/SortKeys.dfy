/** Which entries a query's sort-key condition lets through (memdb/memdb.go,
    matchesSortKeyCondition), in terms of the key strings that entries are stored under. */
module SortKeys {
  import opened Base
  import opened Values
  import opened Ast
  import opened Store
  import opened Paging
  import opened KeyCondition
  import opened KeyRoundTrip
  import opened Views
  import opened EndToEnd
  import EvalLaws
  import EvalMeaning

  // ---- Key strings ----

  /** Key strings are equal exactly for equal values, and only strings, numbers and bytes
      have one. */
  lemma KeyStringIff(a: AttributeValue, b: AttributeValue)
    ensures KeyString(a) != "" <==> a.S? || a.N? || a.B?
    ensures KeyString(a) != "" ==> (KeyString(a) == KeyString(b) <==> a == b)
  {
    if KeyString(a) != "" && KeyString(a) == KeyString(b) {
      assert KeyString(a)[2..] == KeyString(b)[2..] && KeyString(a)[0] == KeyString(b)[0];
    }
  }

  /** Two items are stored in one place exactly when their key attributes are equal. */
  lemma SameKeyIff(a: Item, b: Item, schema: KeySchema)
    requires ExtractKey(a, schema).Some? && ExtractKey(b, schema).Some?
    ensures schema.hash in a && schema.hash in b && (schema.range.Some? ==> schema.range.value in a && schema.range.value in b)
    ensures ExtractKey(a, schema) == ExtractKey(b, schema) <==>
      a[schema.hash] == b[schema.hash] && (schema.range.Some? ==> a[schema.range.value] == b[schema.range.value])
  {
    KeyStringIff(a[schema.hash], b[schema.hash]);
    if schema.range.Some? {
      KeyStringIff(a[schema.range.value], b[schema.range.value]);
    }
    hide KeyString;
  }

  /** An item has a key exactly when each key attribute is a string, a number or bytes. */
  lemma HasKeyIff(a: Item, schema: KeySchema)
    ensures ExtractKey(a, schema).Some? <==>
      Keyable(Lookup(a, schema.hash)) && (schema.range.Some? ==> Keyable(Lookup(a, schema.range.value)))
  {
    if schema.hash in a {
      KeyStringIff(a[schema.hash], NULL);
    }
    if schema.range.Some? && schema.range.value in a {
      KeyStringIff(a[schema.range.value], NULL);
    }
    hide KeyString;
  }

  predicate Keyable(v: Option<AttributeValue>) { v.Some? && (v.value.S? || v.value.N? || v.value.B?) }

  // ---- Entries and their keys ----

  /** An entry of the query's partition, where entries are stored under their own keys. */
  ghost predicate InPartition(source: Source, parts: KeyParts, ref: Ref) {
    RowsAtHome(source.rows, source.schema) && Views.Stored(source, ref) && ref.key.hash == KeyString(parts.pk)
  }

  /** The condition is on the sort key. */
  predicate OnSortKey(source: Source, parts: KeyParts) { parts.sk.Some? && source.schema.range == Some(parts.sk.value.attr) }

  lemma RangeOf(source: Source, parts: KeyParts, ref: Ref)
    requires InPartition(source, parts, ref) && OnSortKey(source, parts)
    ensures var attr := parts.sk.value.attr;
      attr in ref.item && KeyString(ref.item[attr]) == ref.key.range != ""
    ensures Queried(source, parts, ref) <==> Matches(ref.item, parts.sk, source.schema.range)
  {
    hide KeyString, Matches;
    assert Find(source.rows, ref.key) == Some(ref.item);
    assert ExtractKey(ref.item, source.schema) == Some(ref.key);
    hide Find;
  }

  /** Without a sort-key condition the query goes through the whole partition. */
  lemma WholePartition(source: Source, parts: KeyParts, ref: Ref)
    requires InPartition(source, parts, ref) && parts.sk.None?
    ensures Queried(source, parts, ref)
  {
    hide KeyString, Find;
  }

  // ---- Strings and bytes ----

  function Text(bytes: bool, x: string): AttributeValue { if bytes then B(x) else S(x) }

  function Prefix(bytes: bool): string { if bytes then "B:" else "S:" }

  /** For a string or bytes bound and keys of that type, the condition is about the order
      of key strings, which is that of the values. */
  lemma TextKeys(source: Source, parts: KeyParts, ref: Ref, bytes: bool, x: string)
    requires InPartition(source, parts, ref) && OnSortKey(source, parts)
    requires parts.sk.value.value == Text(bytes, x) && Prefix(bytes) <= ref.key.range
    ensures var (op, k, bound) := (parts.sk.value.op, ref.key.range, KeyString(Text(bytes, x)));
      && (op == Comparing(EQ) ==> (Queried(source, parts, ref) <==> k == bound))
      && (op == Comparing(LT) ==> (Queried(source, parts, ref) <==> Less(k, bound)))
      && (op == Comparing(LE) ==> (Queried(source, parts, ref) <==> Less(k, bound) || k == bound))
      && (op == Comparing(GT) ==> (Queried(source, parts, ref) <==> Less(bound, k)))
      && (op == Comparing(GE) ==> (Queried(source, parts, ref) <==> Less(bound, k) || k == bound))
      && (op == BeginsWith ==> (Queried(source, parts, ref) <==> bound <= k))
  {
    RangeOf(source, parts, ref);
    var av := ref.item[parts.sk.value.attr];
    TextOf(av, bytes);
    var y := if bytes then av.b else av.s;
    TextOrder(bytes, y, x);
    TextMatches(ref.item, parts.sk.value, source.schema.range.value, bytes, y, x);
    hide Matches, KeyString, Less, Queried;
  }

  lemma TextOf(av: AttributeValue, bytes: bool)
    requires Prefix(bytes) <= KeyString(av)
    ensures if bytes then av.B? else av.S?
  {
    assert KeyString(av)[0] == Prefix(bytes)[0];
  }

  lemma TextOrder(bytes: bool, y: string, x: string)
    ensures var (k, bound) := (KeyString(Text(bytes, y)), KeyString(Text(bytes, x)));
      && (k == bound <==> Compare(y, x) == 0) && (Less(k, bound) <==> Compare(y, x) < 0) && (Less(bound, k) <==> Compare(y, x) > 0)
      && (bound <= k <==> x <= y)
  {
    KeyStringIff(Text(bytes, y), Text(bytes, x));
    EvalLaws.StringKeysInOrder(y, x);
    EvalLaws.StringKeysInOrder(x, y);
    CompareFlips(y, x);
    TextPrefix(bytes, y, x);
    hide KeyString, Compare;
  }

  lemma TextPrefix(bytes: bool, y: string, x: string)
    ensures KeyString(Text(bytes, x)) <= KeyString(Text(bytes, y)) <==> x <= y
  {
    var p, k, bound := Prefix(bytes), KeyString(Text(bytes, y)), KeyString(Text(bytes, x));
    assert k == p + y && bound == p + x;
    hide KeyString;
    if x <= y {
      Assoc(p, x, y[|x|..]);
      assert y == x + y[|x|..];
    }
    if bound <= k {
      assert y == k[2..] && x == bound[2..];
    }
  }

  lemma TextMatches(item: Item, c: SortCond, range: string, bytes: bool, y: string, x: string)
    requires c.attr in item && item[c.attr] == Text(bytes, y) && c.value == Text(bytes, x)
    ensures c.op == Comparing(EQ) ==> (Matches(item, Some(c), Some(range)) <==> Compare(y, x) == 0)
    ensures c.op == Comparing(LT) ==> (Matches(item, Some(c), Some(range)) <==> Compare(y, x) < 0)
    ensures c.op == Comparing(LE) ==> (Matches(item, Some(c), Some(range)) <==> Compare(y, x) <= 0)
    ensures c.op == Comparing(GT) ==> (Matches(item, Some(c), Some(range)) <==> Compare(y, x) > 0)
    ensures c.op == Comparing(GE) ==> (Matches(item, Some(c), Some(range)) <==> Compare(y, x) >= 0)
    ensures c.op == BeginsWith ==> (Matches(item, Some(c), Some(range)) <==> x <= y)
  {
    KeyStringIff(item[c.attr], c.value);
    hide KeyString, Compare;
  }

  /** BETWEEN includes both bounds. */
  lemma TextBetween(source: Source, parts: KeyParts, ref: Ref, bytes: bool, lo: string, hi: string)
    requires InPartition(source, parts, ref) && OnSortKey(source, parts) && Prefix(bytes) <= ref.key.range
    requires parts.sk.value.op == Between && parts.sk.value.value == Text(bytes, lo) && parts.sk.value.value2 == Text(bytes, hi)
    ensures Queried(source, parts, ref) <==> !Less(ref.key.range, KeyString(Text(bytes, lo))) && !Less(KeyString(Text(bytes, hi)), ref.key.range)
  {
    RangeOf(source, parts, ref);
    var av := ref.item[parts.sk.value.attr];
    TextOf(av, bytes);
    var y := if bytes then av.b else av.s;
    TextOrder(bytes, y, lo);
    TextOrder(bytes, y, hi);
    hide KeyString, Less, Compare, Queried;
  }

  // ---- Numbers ----

  /** For a number bound and number keys, the condition is about the numbers, although
      entries are sorted by their numerals. */
  lemma NumberKeys(source: Source, parts: KeyParts, ref: Ref, i: int, j: int)
    requires InPartition(source, parts, ref) && OnSortKey(source, parts)
    requires parts.sk.value.value == N(IntToString(j)) && ref.key.range == "N:" + IntToString(i)
    requires -TWO_53 <= i <= TWO_53 && -TWO_53 <= j <= TWO_53
    ensures var op := parts.sk.value.op;
      && (op == Comparing(EQ) ==> (Queried(source, parts, ref) <==> i == j))
      && (op == Comparing(LT) ==> (Queried(source, parts, ref) <==> i < j))
      && (op == Comparing(LE) ==> (Queried(source, parts, ref) <==> i <= j))
      && (op == Comparing(GT) ==> (Queried(source, parts, ref) <==> i > j))
      && (op == Comparing(GE) ==> (Queried(source, parts, ref) <==> i >= j))
      && (op == BeginsWith ==> !Queried(source, parts, ref))
  {
    RangeOf(source, parts, ref);
    var attr := parts.sk.value.attr;
    NumberOf(ref.item[attr], IntToString(i));
    NumberOrder(i, j);
    hide IntToString, KeyNumber, Queried;
  }

  lemma NumberOf(av: AttributeValue, n: string)
    requires KeyString(av) == "N:" + n
    ensures av == N(n)
  {
    KeyStringIff(av, N(n));
  }

  lemma NumberOrder(i: int, j: int)
    requires -TWO_53 <= i <= TWO_53 && -TWO_53 <= j <= TWO_53
    ensures KeyNumber(IntToString(i)) == i && KeyNumber(IntToString(j)) == j
    ensures KeyString(N(IntToString(i))) == KeyString(N(IntToString(j))) <==> i == j
  {
    ParsePrintedFloat(i);
    ParsePrintedFloat(j);
    Float64Exact(i);
    Float64Exact(j);
    IntRoundTrip(i);
    IntRoundTrip(j);
    KeyStringIff(N(IntToString(i)), N(IntToString(j)));
    hide KeyString, IntToString, ParseFloat;
  }

  lemma NumberBetween(source: Source, parts: KeyParts, ref: Ref, i: int, lo: int, hi: int)
    requires InPartition(source, parts, ref) && OnSortKey(source, parts) && ref.key.range == "N:" + IntToString(i)
    requires parts.sk.value.op == Between && parts.sk.value.value == N(IntToString(lo)) && parts.sk.value.value2 == N(IntToString(hi))
    requires -TWO_53 <= i <= TWO_53 && -TWO_53 <= lo <= TWO_53 && -TWO_53 <= hi <= TWO_53
    ensures Queried(source, parts, ref) <==> lo <= i <= hi
  {
    RangeOf(source, parts, ref);
    NumberOf(ref.item[parts.sk.value.attr], IntToString(i));
    NumberOrder(i, lo);
    NumberOrder(i, hi);
    hide IntToString, KeyNumber, Queried, KeyString;
  }

  // ---- Keys of another type than the bound ----

  /** A key of another type is neither below nor above the bound, and so is let through by
      <= and >=; it is not equal to it and does not begin with it. <> lets nothing through. */
  lemma OtherKeys(source: Source, parts: KeyParts, ref: Ref)
    requires InPartition(source, parts, ref) && OnSortKey(source, parts)
    requires KeyString(parts.sk.value.value) != "" && KeyString(parts.sk.value.value)[0] != ref.key.range[0]
    ensures var op := parts.sk.value.op;
      && (op == Comparing(EQ) || op == Comparing(LT) || op == Comparing(GT) || op == BeginsWith ==> !Queried(source, parts, ref))
      && (op == Comparing(LE) || op == Comparing(GE) ==> Queried(source, parts, ref))
  {
    RangeOf(source, parts, ref);
    var av, c := ref.item[parts.sk.value.attr], parts.sk.value.value;
    KeyStringIff(c, av);
    assert !(av.S? && c.S?) && !(av.N? && c.N?) && !(av.B? && c.B?);
    hide KeyString, Queried, Compare;
  }

  lemma NothingDiffers(source: Source, parts: KeyParts, ref: Ref)
    requires InPartition(source, parts, ref) && OnSortKey(source, parts) && parts.sk.value.op == Comparing(NE)
    ensures !Queried(source, parts, ref)
  {
    RangeOf(source, parts, ref);
    hide Queried;
  }

  // ---- From what the client writes ----

  /** The sort methods as texts. */
  lemma SortTexts(attr: string, v: AttributeValue, w: AttributeValue)
    ensures SortText(SortCompare(EQ, attr, v)) == "#" + attr + " = :sk0"
    ensures SortText(SortCompare(LT, attr, v)) == "#" + attr + " < :sk0"
    ensures SortText(SortCompare(LE, attr, v)) == "#" + attr + " <= :sk0"
    ensures SortText(SortCompare(GT, attr, v)) == "#" + attr + " > :sk0"
    ensures SortText(SortCompare(GE, attr, v)) == "#" + attr + " >= :sk0"
    ensures SortText(SortBeginsWith(attr, v)) == "begins_with(#" + attr + ", :sk0)"
    ensures SortText(SortBetween(attr, v, w)) == "#" + attr + " BETWEEN :sk0 AND :sk1"
  {
    var a := "#" + attr;
    assert a + " " + "=" + " :sk0" == a + " = :sk0";
    assert a + " " + "<" + " :sk0" == a + " < :sk0";
    assert a + " " + "<=" + " :sk0" == a + " <= :sk0";
    assert a + " " + ">" + " :sk0" == a + " > :sk0";
    assert a + " " + ">=" + " :sk0" == a + " >= :sk0";
    assert "begins_with(" + a + ", :sk0)" == "begins_with(#" + attr + ", :sk0)";
  }

  /** A query with such a key condition goes through the entries that the lemmas above
      describe, with the operator and the bounds of the method. */
  lemma ClientQueryGoes(t: Table, source: Source, key: KeyCond, req: QueryRequest, ref: Ref)
    requires SourceOf(t, req.index) == Some(source) && key.attr == source.schema.hash && req.keyCondition == KeyText(key) && KeyBinds(key, req.env)
    requires key.sort.NoSort? || (key.sort.attr != key.attr && source.schema.range == Some(key.sort.attr))
    ensures Goes(t, Querying(req), ref) <==> Queried(source, KeyParts(key.val, SortOf(key.sort)), ref)
  {
    KeyConditionRoundTrip(key, req.env, source.schema.range);
    hide KeyText, ParseKeyCondition, Queried, KeyBinds;
  }
}
