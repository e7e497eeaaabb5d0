/** Query and Scan (memdb/memdb.go): which entries a request goes through, in what
    order, and that its pages can be resumed. */
module Views {
  import opened Base
  import opened Values
  import opened Ast
  import opened Sorting
  import opened Store
  import opened Paging
  import opened Parser
  import opened KeyCondition
  import Evaluation
  import Requests
  import Projection

  // ---- Sort-key conditions ----

  function KeyNumber(n: string): int { match ParseFloat(n) case Some(f) => f case None => 0 }

  /** compareKeyValues; values of different types compare as equal. */
  function CompareKeys(a: AttributeValue, b: AttributeValue): int {
    match (a, b)
    case (S(x), S(y)) => Compare(x, y)
    case (N(x), N(y)) => if KeyNumber(x) < KeyNumber(y) then -1 else if KeyNumber(x) > KeyNumber(y) then 1 else 0
    case (B(x), B(y)) => Compare(x, y)
    case _ => 0
  }

  /** matchesSortKeyCondition. */
  predicate Matches(item: Item, cond: Option<SortCond>, range: Option<string>) {
    cond.None? || range.None?
    || (cond.value.attr in item
        && var av, c := item[cond.value.attr], cond.value;
        match c.op
        case Comparing(EQ) => KeyString(av) == KeyString(c.value)
        case Comparing(NE) => false
        case Comparing(op) => Evaluation.Holds(op, CompareKeys(av, c.value))
        case BeginsWith => (av.S? && c.value.S? && c.value.s <= av.s) || (av.B? && c.value.B? && c.value.b <= av.b)
        case Between => CompareKeys(av, c.value) >= 0 && CompareKeys(av, c.value2) <= 0)
  }

  // ---- Entries in order ----

  function RefsOf(rows: Rows, hash: string, ranges: seq<string>): (refs: seq<Ref>)
    requires hash in rows && forall i :: 0 <= i < |ranges| ==> ranges[i] in rows[hash]
    ensures |refs| == |ranges|
    ensures forall i :: 0 <= i < |ranges| ==> refs[i] == Ref(Key.Key(hash, ranges[i]), rows[hash][ranges[i]])
  {
    seq(|ranges|, i requires 0 <= i < |ranges| => Ref(Key.Key(hash, ranges[i]), rows[hash][ranges[i]]))
  }

  function Reverse<T>(s: seq<T>): (r: seq<T>)
    ensures |r| == |s| && forall i :: 0 <= i < |s| ==> r[i] == s[|s| - 1 - i]
  {
    seq(|s|, i requires 0 <= i < |s| => s[|s| - 1 - i])
  }

  /** The entries of one partition. */
  ghost function PartitionRefs(rows: Rows, hash: string, ascending: bool): seq<Ref> {
    if hash !in rows then []
    else
      var sorted := RefsOf(rows, hash, SortedKeys(rows[hash].Keys));
      if ascending then sorted else Reverse(sorted)
  }

  ghost function RefsIn(rows: Rows, hashes: seq<string>): seq<Ref> {
    if hashes == [] then [] else RefsIn(rows, hashes[..|hashes| - 1]) + PartitionRefs(rows, hashes[|hashes| - 1], true)
  }

  /** All entries, by hash key and then by range key. */
  ghost function TableRefs(rows: Rows): seq<Ref> { RefsIn(rows, SortedKeys(rows.Keys)) }

  // ---- Start keys ----

  /** buildLastEvaluatedKey. */
  function KeyAttributes(item: Item, schema: KeySchema): Item {
    (if schema.hash in item then map[schema.hash := item[schema.hash]] else map[])
    + (if schema.range.Some? && schema.range.value in item then map[schema.range.value := item[schema.range.value]] else map[])
  }

  function StartRange(start: Item, range: Option<string>): string {
    if range.Some? && range.value in start then KeyString(start[range.value]) else "_"
  }

  function StartHash(start: Item, hash: string): string { if hash in start then KeyString(start[hash]) else "" }

  // ---- Requests ----

  datatype QueryRequest = QueryRequest(
    index: string, keyCondition: string, filter: string, projection: string, env: Env, ascending: bool, start: Item, limit: nat)

  datatype ScanRequest = ScanRequest(index: string, filter: string, projection: string, env: Env, start: Item, limit: nat)

  datatype Source = Source(rows: Rows, schema: KeySchema)

  function SourceOf(t: Table, index: string): Option<Source> {
    if index == "" then Some(Source(t.items, t.schema.key))
    else if index in t.gsis && index in t.schema.gsis then Some(Source(t.gsis[index], t.schema.gsis[index]))
    else None
  }

  /** The view of a query; `tableKey` is what LastEvaluatedKey is made of. */
  ghost function QueryView(source: Source, tableKey: KeySchema, parts: KeyParts, req: QueryRequest): View {
    var hash := KeyString(parts.pk);
    View(PartitionRefs(source.rows, hash, req.ascending),
         item => Matches(item, parts.sk, source.schema.range),
         item => Requests.EvalCondition(req.filter, req.env, item),
         start => Key.Key(hash, StartRange(start, source.schema.range)),
         item => KeyAttributes(item, tableKey))
  }

  ghost function ScanView(source: Source, req: ScanRequest): View {
    View(TableRefs(source.rows),
         item => true,
         item => Requests.EvalCondition(req.filter, req.env, item),
         start => Key.Key(StartHash(start, source.schema.hash), StartRange(start, source.schema.range)),
         item => KeyAttributes(item, source.schema))
  }

  function ProjectAll(items: seq<Item>, projection: string, names: map<string, string>): (projected: seq<Item>)
    ensures |projected| == |items|
    ensures forall i :: 0 <= i < |items| ==> projected[i] == Projection.Projected(items[i], projection, names)
  {
    seq(|items|, i requires 0 <= i < |items| => Projection.Projected(items[i], projection, names))
  }

  /** The projection is applied to what is returned; LastEvaluatedKey is made before. */
  function ProjectPage(page: Result<Page>, projection: string, names: map<string, string>): Result<Page> {
    match page
    case Ok(p) => Ok(p.(items := ProjectAll(p.items, projection, names)))
    case Err => Err
  }

  ghost function QueryPage(t: Table, req: QueryRequest): Result<Page> {
    match SourceOf(t, req.index)
    case None => Err
    case Some(source) =>
      match ParseKeyCondition(req.keyCondition, req.env, source.schema.hash, source.schema.range)
      case Err => Err
      case Ok(parts) =>
        ProjectPage(PageOf(QueryView(source, t.schema.key, parts, req), req.start, req.limit), req.projection, req.env.names)
  }

  ghost function ScanPage(t: Table, req: ScanRequest): Result<Page> {
    match SourceOf(t, req.index)
    case None => Err
    case Some(source) => ProjectPage(PageOf(ScanView(source, req), req.start, req.limit), req.projection, req.env.names)
  }

  // ---- What is in the order, and that it is one ----

  predicate KeyLess(a: Key, b: Key) { Less(a.hash, b.hash) || (a.hash == b.hash && Less(a.range, b.range)) }

  ghost predicate Ordered(refs: seq<Ref>, ascending: bool) {
    forall i, j :: 0 <= i < j < |refs| ==> if ascending then KeyLess(refs[i].key, refs[j].key) else KeyLess(refs[j].key, refs[i].key)
  }

  lemma PartitionIsExact(rows: Rows, hash: string, ascending: bool)
    ensures var refs := PartitionRefs(rows, hash, ascending);
      && Ordered(refs, ascending)
      && forall ref :: ref in refs <==> ref.key.hash == hash && Find(rows, ref.key) == Some(ref.item)
  {
    hide Less;
    if hash in rows {
      var ranges := SortedKeys(rows[hash].Keys);
      var sorted := RefsOf(rows, hash, ranges);
      forall ref
        ensures ref in sorted <==> ref.key.hash == hash && Find(rows, ref.key) == Some(ref.item)
      {
        if ref.key.hash == hash && Find(rows, ref.key) == Some(ref.item) {
          var i :| 0 <= i < |ranges| && ranges[i] == ref.key.range;
          assert sorted[i] == ref;
        }
      }
      ReverseKeeps(sorted);
    }
  }

  lemma ReverseKeeps<T>(s: seq<T>)
    ensures forall x :: x in Reverse(s) <==> x in s
  {
    forall x | x in s
      ensures x in Reverse(s)
    {
      var i :| 0 <= i < |s| && s[i] == x;
      assert Reverse(s)[|s| - 1 - i] == x;
    }
  }

  lemma {:induction false} RefsInAreExact(rows: Rows, hashes: seq<string>)
    requires StrictlySorted(hashes)
    ensures Ordered(RefsIn(rows, hashes), true)
    ensures forall ref :: ref in RefsIn(rows, hashes) <==> ref.key.hash in hashes && Find(rows, ref.key) == Some(ref.item)
  {
    hide Less, PartitionRefs, Find, KeyLess, Ordered;
    if hashes == [] {
      NothingIsOrdered();
    } else {
      var front, last := hashes[..|hashes| - 1], hashes[|hashes| - 1];
      RefsInAreExact(rows, front);
      PartitionIsExact(rows, last, true);
      assert hashes == front + [last];
      var a: seq<Ref>, b: seq<Ref> := RefsIn(rows, front), PartitionRefs(rows, last, true);
      forall x, y | x in a && y in b
        ensures KeyLess(x.key, y.key)
      {
        FrontIsLess(hashes, x.key, y.key);
      }
      OrderedConcat(a, b);
    }
  }

  lemma NothingIsOrdered()
    ensures Ordered([], true)
  {
  }

  lemma FrontIsLess(hashes: seq<string>, x: Key, y: Key)
    requires StrictlySorted(hashes) && hashes != [] && x.hash in hashes[..|hashes| - 1] && y.hash == hashes[|hashes| - 1]
    ensures KeyLess(x, y)
  {
    hide Less;
    var m :| 0 <= m < |hashes| - 1 && hashes[..|hashes| - 1][m] == x.hash;
    assert Less(hashes[m], hashes[|hashes| - 1]);
  }

  lemma OrderedConcat(a: seq<Ref>, b: seq<Ref>)
    requires Ordered(a, true) && Ordered(b, true) && forall x, y :: x in a && y in b ==> KeyLess(x.key, y.key)
    ensures Ordered(a + b, true)
  {
    hide KeyLess;
    var c := a + b;
    forall i, j | 0 <= i < j < |c|
      ensures KeyLess(c[i].key, c[j].key)
    {
      assert i < |a| ==> c[i] == a[i] && c[i] in a;
      assert i >= |a| ==> c[i] == b[i - |a|];
      assert j >= |a| ==> c[j] == b[j - |a|] && c[j] in b;
    }
  }

  lemma TableIsExact(rows: Rows)
    ensures Ordered(TableRefs(rows), true)
    ensures forall ref :: ref in TableRefs(rows) <==> Find(rows, ref.key) == Some(ref.item)
  {
    RefsInAreExact(rows, SortedKeys(rows.Keys));
  }

  lemma KeyLessIsStrict(a: Key)
    ensures !KeyLess(a, a)
  {
    Irreflexive(a.hash);
    Irreflexive(a.range);
  }

  lemma OrderedIsDistinct(refs: seq<Ref>, ascending: bool)
    requires Ordered(refs, ascending)
    ensures forall i, j :: 0 <= i < j < |refs| ==> refs[i].key != refs[j].key
  {
    hide KeyLess;
    forall i, j | 0 <= i < j < |refs|
      ensures refs[i].key != refs[j].key
    {
      KeyLessIsStrict(refs[i].key);
    }
  }

  // ---- What is selected ----

  function ItemsOf(refs: seq<Ref>): (items: seq<Item>)
    ensures |items| == |refs| && forall i :: 0 <= i < |refs| ==> items[i] == refs[i].item
  {
    seq(|refs|, i requires 0 <= i < |refs| => refs[i].item)
  }

  /** The entries that satisfy a test, in order. */
  function Passing(refs: seq<Ref>, test: Item -> bool): seq<Ref> { Candidates(refs, test) }

  lemma {:induction false} PassingIsExact(refs: seq<Ref>, test: Item -> bool, ascending: bool)
    requires Ordered(refs, ascending)
    ensures Ordered(Passing(refs, test), ascending)
    ensures forall ref :: ref in Passing(refs, test) <==> ref in refs && test(ref.item)
  {
    hide KeyLess;
    if refs != [] {
      PassingIsExact(refs[1..], test, ascending);
      assert refs == [refs[0]] + refs[1..];
      var rest := Passing(refs[1..], test);
      forall i | 0 <= i < |rest|
        ensures if ascending then KeyLess(refs[0].key, rest[i].key) else KeyLess(rest[i].key, refs[0].key)
      {
        assert rest[i] in refs[1..];
        var j :| 0 <= j < |refs[1..]| && refs[1..][j] == rest[i];
        assert refs[j + 1] == rest[i];
      }
    }
  }

  lemma {:induction false} FilteredIsPassing(cands: seq<Ref>, filter: Item -> Result<bool>)
    ensures Filtered(cands, filter).Err? <==> exists i :: 0 <= i < |cands| && filter(cands[i].item).Err?
    ensures Filtered(cands, filter).Ok? ==> Filtered(cands, filter).value == ItemsOf(Passing(cands, item => filter(item) == Ok(true)))
  {
    if cands != [] {
      FilteredIsPassing(cands[1..], filter);
      assert forall i :: 0 < i < |cands| ==> cands[i] == cands[1..][i - 1];
      if i :| 0 <= i < |cands| && filter(cands[i].item).Err? {
        assert i == 0 || filter(cands[1..][i - 1].item).Err?;
      }
    }
  }

  /** An entry that a query goes through. */
  ghost predicate Queried(source: Source, parts: KeyParts, ref: Ref) {
    Find(source.rows, ref.key) == Some(ref.item) && ref.key.hash == KeyString(parts.pk) && Matches(ref.item, parts.sk, source.schema.range)
  }

  ghost predicate Stored(source: Source, ref: Ref) { Find(source.rows, ref.key) == Some(ref.item) }

  /** The unlimited query: the entries of the partition that match the sort-key
      condition and the filter, each once, in strict order of their key strings; an
      error exactly when the filter cannot be evaluated on one that matches. */
  lemma QueryIsExact(source: Source, tableKey: KeySchema, parts: KeyParts, req: QueryRequest) returns (sel: seq<Ref>)
    ensures Ordered(sel, req.ascending)
    ensures forall ref :: ref in sel <==>
      Queried(source, parts, ref) && Requests.EvalCondition(req.filter, req.env, ref.item) == Ok(true)
    ensures var all := Everything(QueryView(source, tableKey, parts, req), map[]);
      && (all.Ok? ==> all.value == ItemsOf(sel))
      && (all.Err? <==> exists ref :: Queried(source, parts, ref) && Requests.EvalCondition(req.filter, req.env, ref.item).Err?)
  {
    hide Matches, Requests.EvalCondition, PartitionRefs, Candidates, Find, KeyLess, Filtered;
    var v := QueryView(source, tableKey, parts, req);
    PartitionIsExact(source.rows, KeyString(parts.pk), req.ascending);
    sel := Selected(v, req.ascending);
  }

  lemma ScanIsExact(source: Source, req: ScanRequest) returns (sel: seq<Ref>)
    ensures Ordered(sel, true)
    ensures forall ref :: ref in sel <==> Stored(source, ref) && Requests.EvalCondition(req.filter, req.env, ref.item) == Ok(true)
    ensures var all := Everything(ScanView(source, req), map[]);
      && (all.Ok? ==> all.value == ItemsOf(sel))
      && (all.Err? <==> exists ref :: Stored(source, ref) && Requests.EvalCondition(req.filter, req.env, ref.item).Err?)
  {
    hide Requests.EvalCondition, TableRefs, Candidates, Find, KeyLess, Filtered;
    var v := ScanView(source, req);
    TableIsExact(source.rows);
    sel := Selected(v, true);
  }

  /** What a view selects when nothing limits it. */
  lemma Selected(v: View, ascending: bool) returns (sel: seq<Ref>)
    requires Ordered(v.refs, ascending)
    ensures Ordered(sel, ascending)
    ensures forall ref :: ref in sel <==> ref in v.refs && v.wanted(ref.item) && v.filter(ref.item) == Ok(true)
    ensures Everything(v, map[]).Ok? ==> Everything(v, map[]).value == ItemsOf(sel)
    ensures Everything(v, map[]).Err? <==> exists ref :: ref in v.refs && v.wanted(ref.item) && v.filter(ref.item).Err?
  {
    hide Candidates, KeyLess, Filtered, Ordered;
    PassingIsExact(v.refs, v.wanted, ascending);
    var cands := Passing(v.refs, v.wanted);
    var test := item => v.filter(item) == Ok(true);
    PassingIsExact(cands, test, ascending);
    FilteredIsPassing(cands, v.filter);
    sel := Passing(cands, test);
    assert v.refs[0..] == v.refs;
    if ref :| ref in v.refs && v.wanted(ref.item) && v.filter(ref.item).Err? {
      var i :| 0 <= i < |cands| && cands[i] == ref;
    }
    if i :| 0 <= i < |cands| && v.filter(cands[i].item).Err? {
      assert cands[i] in cands;
    }
  }

  // ---- Which views can be resumed ----

  ghost predicate RowsAtHome(rows: Rows, schema: KeySchema) {
    forall k :: Find(rows, k).Some? ==> ExtractKey(Find(rows, k).value, schema) == Some(k)
  }

  lemma KeyLeadsBack(item: Item, schema: KeySchema, k: Key)
    requires ExtractKey(item, schema) == Some(k)
    ensures var start := KeyAttributes(item, schema);
      start != map[] && StartHash(start, schema.hash) == k.hash && StartRange(start, schema.range) == k.range
  {
    var start := KeyAttributes(item, schema);
    assert schema.hash in start;
  }

  /** A scan of a table or an index whose entries sit at their own keys. */
  lemma ScanIsResumable(source: Source, req: ScanRequest)
    requires RowsAtHome(source.rows, source.schema)
    ensures Resumable(ScanView(source, req))
  {
    hide ExtractKey, Find, KeyAttributes, StartHash, StartRange, TableRefs, Requests.EvalCondition, KeyLess;
    var v := ScanView(source, req);
    TableIsExact(source.rows);
    OrderedIsDistinct(v.refs, true);
    forall i | 0 <= i < |v.refs|
      ensures v.keyOf(v.refs[i].item) != map[] && v.startOf(v.keyOf(v.refs[i].item)) == v.refs[i].key
    {
      assert v.refs[i] in v.refs;
      KeyLeadsBack(v.refs[i].item, source.schema, v.refs[i].key);
    }
  }

  /** The range attribute of the source is among the table's key attributes, so that
      LastEvaluatedKey carries it; or there is none. */
  predicate CarriesRange(schema: KeySchema, tableKey: KeySchema) {
    schema.range.None? || schema.range.value == tableKey.hash || schema.range == tableKey.range
  }

  lemma RangeLeadsBack(item: Item, schema: KeySchema, tableKey: KeySchema, k: Key)
    requires ExtractKey(item, schema) == Some(k) && tableKey.hash in item && CarriesRange(schema, tableKey)
    ensures var start := KeyAttributes(item, tableKey); start != map[] && StartRange(start, schema.range) == k.range
  {
    var start := KeyAttributes(item, tableKey);
    assert tableKey.hash in start;
  }

  /** A query of the table itself, or of an index whose range attribute is one of the
      table's key attributes. */
  lemma QueryIsResumable(source: Source, tableKey: KeySchema, parts: KeyParts, req: QueryRequest)
    requires RowsAtHome(source.rows, source.schema) && CarriesRange(source.schema, tableKey)
    requires forall k :: Find(source.rows, k).Some? ==> tableKey.hash in Find(source.rows, k).value
    ensures Resumable(QueryView(source, tableKey, parts, req))
  {
    hide ExtractKey, Find, KeyAttributes, StartRange, PartitionRefs, Requests.EvalCondition, KeyLess, Matches, CarriesRange;
    var v := QueryView(source, tableKey, parts, req);
    PartitionIsExact(source.rows, KeyString(parts.pk), req.ascending);
    OrderedIsDistinct(v.refs, req.ascending);
    forall i | 0 <= i < |v.refs|
      ensures v.keyOf(v.refs[i].item) != map[] && v.startOf(v.keyOf(v.refs[i].item)) == v.refs[i].key
    {
      assert v.refs[i] in v.refs;
      RangeLeadsBack(v.refs[i].item, source.schema, tableKey, v.refs[i].key);
    }
  }

  lemma {:induction false} NowhereIsZero(refs: seq<Ref>, k: Key)
    requires forall i :: 0 <= i < |refs| ==> refs[i].key != k
    ensures Position(refs, k) == 0
  {
    if refs != [] {
      NowhereIsZero(refs[1..], k);
    }
  }

  /** On any other index a query cannot be resumed: every LastEvaluatedKey leads to
      the first page again. */
  lemma OtherIndexesStartOver(source: Source, tableKey: KeySchema, parts: KeyParts, req: QueryRequest, item: Item, limit: nat)
    requires RowsAtHome(source.rows, source.schema) && !CarriesRange(source.schema, tableKey)
    ensures var v := QueryView(source, tableKey, parts, req);
      PageOf(v, v.keyOf(item), limit) == PageOf(v, map[], limit)
  {
    hide Find, PartitionRefs, Requests.EvalCondition, KeyLess, Matches, Filtered, Candidates;
    var v := QueryView(source, tableKey, parts, req);
    PartitionIsExact(source.rows, KeyString(parts.pk), req.ascending);
    var k := v.startOf(v.keyOf(item));
    assert k.range == "_" by { RangeIsLost(item, source.schema, tableKey); }
    forall i | 0 <= i < |v.refs|
      ensures v.refs[i].key != k
    {
      assert v.refs[i] in v.refs;
      RangeIsPrefixed(v.refs[i].item, source.schema, v.refs[i].key);
    }
    NowhereIsZero(v.refs, k);
  }

  lemma RangeIsLost(item: Item, schema: KeySchema, tableKey: KeySchema)
    requires !CarriesRange(schema, tableKey)
    ensures StartRange(KeyAttributes(item, tableKey), schema.range) == "_"
  {
  }

  lemma RangeIsPrefixed(item: Item, schema: KeySchema, k: Key)
    requires ExtractKey(item, schema) == Some(k) && schema.range.Some?
    ensures k.range != "_"
  {
  }

  // ---- The theorems for tables and indexes ----

  /** Base table, items at their own keys: following LastEvaluatedKey with any
      positive limits, up or down, gives exactly the unlimited query. */
  lemma QueryPagesRebuildTheWhole(t: Table, parts: KeyParts, req: QueryRequest, limits: nat -> nat)
    requires AtHome(t) && forall n :: limits(n) > 0
    ensures var v := QueryView(Source(t.items, t.schema.key), t.schema.key, parts, req);
      Follow(v, map[], limits, 0) == Everything(v, map[])
  {
    var source := Source(t.items, t.schema.key);
    assert RowsAtHome(source.rows, source.schema) by {
      forall k | Find(source.rows, k).Some?
        ensures ExtractKey(Find(source.rows, k).value, source.schema) == Some(k)
      {
        assert Get(t, k).Some?;
      }
    }
    assert forall k :: Find(source.rows, k).Some? ==> t.schema.key.hash in Find(source.rows, k).value;
    hide Resumable, Follow, Everything, QueryView;
    QueryIsResumable(source, t.schema.key, parts, req);
    PagesRebuildTheWhole(QueryView(source, t.schema.key, parts, req), map[], limits, 0);
  }

  /** Scan of the table, or of any index in a sound state. */
  lemma ScanPagesRebuildTheWhole(t: Table, source: Source, req: ScanRequest, limits: nat -> nat)
    requires Sound(t) && AtHome(t) && SourceOf(t, req.index) == Some(source) && forall n :: limits(n) > 0
    ensures Follow(ScanView(source, req), map[], limits, 0) == Everything(ScanView(source, req), map[])
  {
    SourceIsAtHome(t, req.index);
    hide Resumable, Follow, Everything, ScanView, RowsAtHome, Sound, AtHome;
    ScanIsResumable(source, req);
    PagesRebuildTheWhole(ScanView(source, req), map[], limits, 0);
  }

  lemma SourceIsAtHome(t: Table, index: string)
    requires Sound(t) && AtHome(t) && SourceOf(t, index).Some?
    ensures RowsAtHome(SourceOf(t, index).value.rows, SourceOf(t, index).value.schema)
  {
    hide ExtractKey, Find, NoEmptyMaps, InBase;
    var source := SourceOf(t, index).value;
    if index == "" {
      forall k | Find(source.rows, k).Some?
        ensures ExtractKey(Find(source.rows, k).value, source.schema) == Some(k)
      {
        assert Get(t, k).Some?;
      }
    } else {
      assert SoundIndex(t, t.gsis[index], t.schema.gsis[index]);
    }
  }

  /** Query of an index in a sound state whose range attribute the table's key has. */
  lemma IndexQueryPagesRebuildTheWhole(t: Table, source: Source, parts: KeyParts, req: QueryRequest, limits: nat -> nat)
    requires Sound(t) && AtHome(t) && SourceOf(t, req.index) == Some(source) && CarriesRange(source.schema, t.schema.key)
    requires forall n :: limits(n) > 0
    ensures var v := QueryView(source, t.schema.key, parts, req);
      Follow(v, map[], limits, 0) == Everything(v, map[])
  {
    SourceIsAtHome(t, req.index);
    EntriesHaveTheTablesKey(t, req.index);
    hide Resumable, Follow, Everything, QueryView, RowsAtHome, Sound, AtHome, CarriesRange, Find;
    QueryIsResumable(source, t.schema.key, parts, req);
    PagesRebuildTheWhole(QueryView(source, t.schema.key, parts, req), map[], limits, 0);
  }

  lemma EntriesHaveTheTablesKey(t: Table, index: string)
    requires Sound(t) && AtHome(t) && SourceOf(t, index).Some?
    ensures forall k :: Find(SourceOf(t, index).value.rows, k).Some? ==> t.schema.key.hash in Find(SourceOf(t, index).value.rows, k).value
  {
    hide Find, NoEmptyMaps;
    var source := SourceOf(t, index).value;
    forall k | Find(source.rows, k).Some?
      ensures t.schema.key.hash in Find(source.rows, k).value
    {
      if index == "" {
        assert Get(t, k).Some?;
      } else {
        assert SoundIndex(t, t.gsis[index], t.schema.gsis[index]);
        var b :| Get(t, b) == Some(Find(source.rows, k).value);
        assert Get(t, b).Some?;
      }
    }
  }
}
