/** Query and Scan from the client's call to the table (query.go, scan.go against
    memdb/memdb.go): pages, filters, projections and limits together. */
module EndToEnd {
  import opened Base
  import opened Values
  import opened Store
  import opened Paging
  import opened KeyCondition
  import opened Views
  import opened QueryScan
  import opened Client
  import opened Backend
  import Parser
  import Requests
  import Projection

  datatype Reading = Querying(query: QueryRequest) | Scanning(scan: ScanRequest)

  function IndexOf(reading: Reading): string { match reading case Querying(q) => q.index case Scanning(s) => s.index }

  function ProjectionOf(reading: Reading): string { match reading case Querying(q) => q.projection case Scanning(s) => s.projection }

  function FilterOf(reading: Reading): string { match reading case Querying(q) => q.filter case Scanning(s) => s.filter }

  function EnvOf(reading: Reading): Parser.Env { match reading case Querying(q) => q.env case Scanning(s) => s.env }

  /** Whether keys come in ascending order. */
  predicate Upwards(reading: Reading) { reading.Querying? ==> reading.query.ascending }

  function PartsOf(source: Source, req: QueryRequest): Result<KeyParts> {
    ParseKeyCondition(req.keyCondition, req.env, source.schema.hash, source.schema.range)
  }

  /** The view that all pages of a reading are pages of; an error for an index that there
      is not or a key condition that cannot be read. */
  ghost function ViewOf(t: Table, reading: Reading): Result<View> {
    match SourceOf(t, IndexOf(reading))
    case None => Err
    case Some(source) =>
      match reading
      case Scanning(req) => Ok(ScanView(source, req))
      case Querying(req) =>
        match PartsOf(source, req)
        case Err => Err
        case Ok(parts) => Ok(QueryView(source, t.schema.key, parts, req))
  }

  /** An entry of the table or index that the reading goes through. */
  ghost predicate Goes(t: Table, reading: Reading, ref: Ref) {
    var source := SourceOf(t, IndexOf(reading));
    && source.Some?
    && match reading
       case Scanning(_) => Views.Stored(source.value, ref)
       case Querying(req) => PartsOf(source.value, req).Ok? && Queried(source.value, PartsOf(source.value, req).value, ref)
  }

  /** Decoding what a projection leaves of an item. */
  function Projecting<T>(decode: Item -> Result<T>, reading: Reading): Item -> Result<T> {
    item => decode(Projection.Projected(item, ProjectionOf(reading), EnvOf(reading).names))
  }

  function Filtering(reading: Reading): Item -> Result<bool> {
    item => Requests.EvalCondition(FilterOf(reading), EnvOf(reading), item)
  }

  function Wanted(limit: nat): Left { if limit == 0 then None else Some(limit) }

  // ---- Pages of one reading ----

  function Page(page: Result<Paging.Page>, reading: Reading): Result<Paging.Page> {
    ProjectPage(page, ProjectionOf(reading), EnvOf(reading).names)
  }

  /** One request: ExclusiveStartKey and Limit are all that changes between them. */
  method Ask(td: TableData, reading: Reading, start: Item, limit: nat) returns (r: Result<Paging.Page>)
    requires td.Valid()
    ensures match ViewOf(td.Value(), reading)
            case Err => r == Err
            case Ok(v) => r == Page(PageOf(v, start, limit), reading)
  {
    hide PageOf, ProjectPage, QueryView, ScanView, NoEmptyMaps;
    match reading
    case Querying(req) =>
      r := Query(td, req.(start := start, limit := limit));
      QueryOfPage(td.Value(), req, start, limit);
    case Scanning(req) =>
      r := Scan(td, req.(start := start, limit := limit));
      ScanOfPage(td.Value(), req, start, limit);
  }

  lemma QueryOfPage(t: Table, req: QueryRequest, start: Item, limit: nat)
    ensures QueryPage(t, req.(start := start, limit := limit)) ==
      match ViewOf(t, Querying(req)) case Err => Err case Ok(v) => Page(PageOf(v, start, limit), Querying(req))
  {
    hide PageOf, ProjectPage, PartitionRefs, Matches, StartRange, KeyAttributes, Requests.EvalCondition, ParseKeyCondition;
    if SourceOf(t, req.index).Some? {
      var source := SourceOf(t, req.index).value;
      if PartsOf(source, req).Ok? {
        var parts := PartsOf(source, req).value;
        SameView(QueryView(source, t.schema.key, parts, req.(start := start, limit := limit)), QueryView(source, t.schema.key, parts, req), start, limit);
      }
    }
  }

  lemma ScanOfPage(t: Table, req: ScanRequest, start: Item, limit: nat)
    ensures ScanPage(t, req.(start := start, limit := limit)) ==
      match ViewOf(t, Scanning(req)) case Err => Err case Ok(v) => Page(PageOf(v, start, limit), Scanning(req))
  {
    hide PageOf, ProjectPage, TableRefs, StartRange, StartHash, KeyAttributes, Requests.EvalCondition;
    if SourceOf(t, req.index).Some? {
      var source := SourceOf(t, req.index).value;
      SameView(ScanView(source, req.(start := start, limit := limit)), ScanView(source, req), start, limit);
    }
  }

  lemma {:induction false} DecodeProjected<T>(items: seq<Item>, decode: Item -> Result<T>, reading: Reading)
    ensures DecodeAll(ProjectAll(items, ProjectionOf(reading), EnvOf(reading).names), decode) == DecodeAll(items, Projecting(decode, reading))
  {
    hide Projection.Projected;
    var projected := ProjectAll(items, ProjectionOf(reading), EnvOf(reading).names);
    if items != [] {
      assert projected[1..] == ProjectAll(items[1..], ProjectionOf(reading), EnvOf(reading).names);
      DecodeProjected(items[1..], decode, reading);
    }
  }

  // ---- Which readings can be resumed ----

  /** The state of the table, and for a query of an index its schema, let every
      LastEvaluatedKey lead on. */
  ghost predicate CanResume(t: Table, reading: Reading) {
    && Sound(t) && AtHome(t)
    && (reading.Querying? && SourceOf(t, IndexOf(reading)).Some? ==>
          CarriesRange(SourceOf(t, IndexOf(reading)).value.schema, t.schema.key))
  }

  lemma ViewResumes(t: Table, reading: Reading)
    requires CanResume(t, reading) && ViewOf(t, reading).Ok?
    ensures Resumable(ViewOf(t, reading).value)
  {
    hide Resumable, QueryView, ScanView, RowsAtHome, Sound, AtHome, CarriesRange, Find, ParseKeyCondition;
    var source := SourceOf(t, IndexOf(reading)).value;
    SourceIsAtHome(t, IndexOf(reading));
    match reading
    case Scanning(req) =>
      ScanIsResumable(source, req);
    case Querying(req) =>
      EntriesHaveTheTablesKey(t, req.index);
      QueryIsResumable(source, t.schema.key, PartsOf(source, req).value, req);
  }

  // ---- The client's loops ----

  /** The loop of Query and of Scan, whose page limit shrinks to what is missing. */
  method FetchItems<T>(td: TableData, reading: Reading, decode: Item -> Result<T>, limit: nat) returns (r: Result<seq<T>>)
    requires td.Valid() && CanResume(td.Value(), reading)
    ensures match ViewOf(td.Value(), reading)
            case Err => r == Err
            case Ok(v) => r == Hits(Coming(v, map[]), v.filter, Projecting(decode, reading), Wanted(limit))
  {
    hide Hits, Coming, PageOf, Resumable, Filtered, DecodeAll, From, ViewOf, CanResume, Projecting;
    var results := [];
    var start, pageLimit := map[], limit;
    ghost var view := ViewOf(td.Value(), reading);
    if view.Ok? {
      ViewResumes(td.Value(), reading);
    }
    ghost var reader := Projecting(decode, reading);
    ghost var all := if view.Ok? then Hits(Coming(view.value, map[]), view.value.filter, reader, Wanted(limit)) else Err;
    BehindNothing(all);
    while true
      invariant limit > 0 ==> |results| < limit && pageLimit == limit - |results|
      invariant limit == 0 ==> pageLimit == 0
      invariant view.Err? ==> all == Err
      invariant view.Ok? ==> all == Behind(results, Hits(Coming(view.value, start), view.value.filter, reader, if limit == 0 then None else Some(limit - |results|)))
      decreases if view.Ok? then |view.value.refs| - From(view.value, start) else 0
    {
      var page := Ask(td, reading, start, pageLimit);
      if page.Err? {
        if view.Ok? {
          var cut, rest := PageCut(view.value, start, pageLimit);
          HitsOverCut(cut, rest, view.value.filter, reader, if limit == 0 then None else Some(limit - |results|));
        }
        return Err;
      }
      ghost var v := view.value;
      ghost var left: Left := if limit == 0 then None else Some(limit - |results|);
      ghost var cut, rest := PageCut(v, start, pageLimit);
      HitsOverCut(cut, rest, v.filter, reader, left);
      var decoded := Decode(page.value.items, decode);
      DecodeProjected(PageOf(v, start, pageLimit).value.items, decode, reading);
      if decoded.Err? {
        return Err;
      }
      BehindTwice(results, decoded.value, Hits(rest, v.filter, reader, Minus(left, |decoded.value|)));
      results := results + decoded.value;
      if limit > 0 && |results| >= limit {
        NoMoreHits(rest, v.filter, reader, results);
        return Ok(results);
      }
      if page.value.last == map[] {
        NothingComing(v.filter, reader, Minus(left, |decoded.value|), results);
        return Ok(results);
      }
      start := page.value.last;
      if limit > 0 {
        pageLimit := limit - |results|;
      }
    }
  }

  /** What that is in terms of the table: the entries that the reading goes through, in
      strict order of their keys. The call fails exactly when one of them is in trouble
      before enough of them have passed the filter; otherwise it returns the first that
      pass, projected and decoded. */
  lemma ClientReadIsExact<T>(t: Table, reading: Reading, decode: Item -> Result<T>, limit: nat) returns (cands: seq<Ref>)
    requires ViewOf(t, reading).Ok?
    ensures Ordered(cands, Upwards(reading)) && forall ref :: ref in cands <==> Goes(t, reading, ref)
    ensures var v := ViewOf(t, reading).value;
      var r := Hits(Coming(v, map[]), v.filter, Projecting(decode, reading), Wanted(limit));
      && (r.Err? <==> exists i: nat :: i < |cands| && TroubleAt(cands, Filtering(reading), Projecting(decode, reading), Wanted(limit), i))
      && (r.Ok? ==>
            var sel := PassingOf(cands, Filtering(reading));
            && |r.value| == (if 0 < limit < |sel| then limit else |sel|)
            && forall i :: 0 <= i < |r.value| ==> Projecting(decode, reading)(sel[i].item) == Ok(r.value[i]))
  {
    hide Goes, ViewOf, Ordered, TroubleAt, PassingOf, Hits, Coming, Projecting, Filtering;
    cands := Goers(t, reading);
    var v := ViewOf(t, reading).value;
    SameFilter(t, reading);
    SameHits(cands, v.filter, Filtering(reading), Projecting(decode, reading), Wanted(limit));
    HitsErrIff(cands, Filtering(reading), Projecting(decode, reading), Wanted(limit));
    if Hits(cands, Filtering(reading), Projecting(decode, reading), Wanted(limit)).Ok? {
      HitsAreFirst(cands, Filtering(reading), Projecting(decode, reading), Wanted(limit));
    }
  }

  lemma Goers(t: Table, reading: Reading) returns (cands: seq<Ref>)
    requires ViewOf(t, reading).Ok?
    ensures Ordered(cands, Upwards(reading)) && cands == Coming(ViewOf(t, reading).value, map[])
    ensures forall ref :: ref in cands <==> Goes(t, reading, ref)
  {
    hide Find, Matches, PartitionRefs, TableRefs, Ordered, Candidates, ParseKeyCondition;
    var source := SourceOf(t, IndexOf(reading)).value;
    var v := ViewOf(t, reading).value;
    assert v.refs[0..] == v.refs;
    cands := Coming(v, map[]);
    match reading
    case Querying(req) =>
      PartitionIsExact(source.rows, KeyString(PartsOf(source, req).value.pk), req.ascending);
      PassingIsExact(v.refs, v.wanted, req.ascending);
    case Scanning(req) =>
      TableIsExact(source.rows);
      PassingIsExact(v.refs, v.wanted, true);
  }

  lemma SameFilter(t: Table, reading: Reading)
    requires ViewOf(t, reading).Ok?
    ensures forall item :: ViewOf(t, reading).value.filter(item) == Filtering(reading)(item)
  {
    hide Requests.EvalCondition, PartitionRefs, TableRefs, ParseKeyCondition, Matches;
  }

  lemma {:induction false} SameHits<T>(cands: seq<Ref>, a: Item -> Result<bool>, b: Item -> Result<bool>, decode: Item -> Result<T>, left: Left)
    requires forall item :: a(item) == b(item)
    ensures Hits(cands, a, decode, left) == Hits(cands, b, decode, left)
    decreases |cands|
  {
    if cands != [] && left != Some(0) {
      if a(cands[0].item).Ok? {
        SameHits(cands[1..], a, b, decode, if a(cands[0].item).value then Minus(left, 1) else left);
      }
    }
  }
}
