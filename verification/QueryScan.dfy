/** Query and Scan of memdb/memdb.go with their loops. */
module QueryScan {
  import opened Base
  import opened Values
  import opened Sorting
  import opened Store
  import opened Paging
  import Parser
  import KeyCondition
  import opened Views
  import Projection
  import Requests
  import opened Backend

  /** Reversing the sorted keys for a descending query. */
  method ReverseRefs(refs: seq<Ref>) returns (out: seq<Ref>)
    ensures out == Reverse(refs)
  {
    out := refs;
    var i, j := 0, |refs| - 1;
    while i < j
      invariant 0 <= i <= |refs| && j == |refs| - 1 - i && i <= j + 1 && |out| == |refs|
      invariant forall k :: 0 <= k < i ==> out[k] == refs[|refs| - 1 - k] && out[|refs| - 1 - k] == refs[k]
      invariant forall k :: i <= k <= j ==> out[k] == refs[k]
    {
      out := out[i := out[j]][j := out[i]];
      i, j := i + 1, j - 1;
    }
  }

  method PartitionInOrder(rows: Rows, hash: string, ascending: bool) returns (refs: seq<Ref>)
    ensures refs == PartitionRefs(rows, hash, ascending)
  {
    if hash !in rows {
      return [];
    }
    var keys := SortedKeysOf(rows[hash].Keys);
    refs := RefsOf(rows, hash, keys);
    if !ascending {
      refs := ReverseRefs(refs);
    }
  }

  method TableInOrder(rows: Rows) returns (refs: seq<Ref>)
    ensures refs == TableRefs(rows)
  {
    var hashes := SortedKeysOf(rows.Keys);
    refs := [];
    for i := 0 to |hashes|
      invariant refs == RefsIn(rows, hashes[..i])
    {
      hide PartitionRefs, RefsIn;
      var part := PartitionInOrder(rows, hashes[i], true);
      RefsInSnoc(rows, hashes, i);
      refs := refs + part;
    }
    assert hashes[..|hashes|] == hashes;
  }

  lemma RefsInSnoc(rows: Rows, hashes: seq<string>, i: nat)
    requires i < |hashes|
    ensures RefsIn(rows, hashes[..i + 1]) == RefsIn(rows, hashes[..i]) + PartitionRefs(rows, hashes[i], true)
  {
    hide PartitionRefs;
    assert hashes[..i + 1][..i] == hashes[..i];
  }

  /** The position behind the start key. */
  method FindStart(refs: seq<Ref>, k: Key) returns (startIdx: nat)
    ensures startIdx == Position(refs, k)
  {
    for i := 0 to |refs|
      invariant forall j :: 0 <= j < i ==> refs[j].key != k
    {
      if refs[i].key == k {
        FirstPosition(refs, k, i);
        return i + 1;
      }
    }
    NowhereIsZero(refs, k);
    startIdx := 0;
  }

  lemma {:induction false} FirstPosition(refs: seq<Ref>, k: Key, i: nat)
    requires i < |refs| && refs[i].key == k && forall j :: 0 <= j < i ==> refs[j].key != k
    ensures Position(refs, k) == i + 1
  {
    if i > 0 {
      FirstPosition(refs[1..], k, i - 1);
    }
  }

  /** The entries behind the start that the sort-key condition lets through. */
  method Collect(refs: seq<Ref>, wanted: Item -> bool) returns (candidates: seq<Ref>)
    ensures candidates == Candidates(refs, wanted)
  {
    candidates := [];
    assert refs[0..] == refs;
    for i := 0 to |refs|
      invariant candidates + Candidates(refs[i..], wanted) == Candidates(refs, wanted)
    {
      CandidatesStep(refs, wanted, i);
      if wanted(refs[i].item) {
        Assoc(candidates, [refs[i]], Candidates(refs[i + 1..], wanted));
        candidates := candidates + [refs[i]];
      }
    }
    assert candidates + [] == candidates;
  }

  lemma CandidatesStep(refs: seq<Ref>, wanted: Item -> bool, i: nat)
    requires i < |refs|
    ensures Candidates(refs[i..], wanted) == (if wanted(refs[i].item) then [refs[i]] + Candidates(refs[i + 1..], wanted) else Candidates(refs[i + 1..], wanted))
  {
    assert refs[i..][1..] == refs[i + 1..];
    assert [] + Candidates(refs[i + 1..], wanted) == Candidates(refs[i + 1..], wanted);
  }

  method ApplyFilter(candidates: seq<Ref>, filter: string, env: Parser.Env) returns (r: Result<seq<Item>>)
    ensures r == Filtered(candidates, item => Requests.EvalCondition(filter, env, item))
  {
    hide Requests.EvalCondition;
    var test := item => Requests.EvalCondition(filter, env, item);
    var items := [];
    assert candidates[0..] == candidates;
    BehindNothing(Filtered(candidates, test));
    for i := 0 to |candidates|
      invariant Behind(items, Filtered(candidates[i..], test)) == Filtered(candidates, test)
    {
      FilteredStep(candidates, test, i);
      var matched := EvalConditionText(filter, env, candidates[i].item);
      if matched.Err? {
        return Err;
      }
      var one := if matched.value then [candidates[i].item] else [];
      BehindTwice(items, one, Filtered(candidates[i + 1..], test));
      items := items + one;
    }
    r := Ok(items);
    assert items + [] == items;
  }

  lemma FilteredStep(cands: seq<Ref>, filter: Item -> Result<bool>, i: nat)
    requires i < |cands|
    ensures Filtered(cands[i..], filter) ==
      match filter(cands[i].item)
      case Err => Err
      case Ok(pass) => Behind(if pass then [cands[i].item] else [], Filtered(cands[i + 1..], filter))
  {
    assert cands[i..][1..] == cands[i + 1..];
  }

  /** From the ordered entries to the page: start key, sort-key condition, limit,
      filter, LastEvaluatedKey. */
  method BuildPage(v: View, filter: string, env: Parser.Env, start: Item, limit: nat) returns (r: Result<Page>)
    requires v.filter == (item => Requests.EvalCondition(filter, env, item))
    ensures r == PageOf(v, start, limit)
  {
    hide Requests.EvalCondition, Filtered, Candidates, Position;
    var startIdx := 0;
    if start != map[] {
      startIdx := FindStart(v.refs, v.startOf(start));
    }
    var candidates := Collect(v.refs[startIdx..], v.wanted);
    var hasMore := false;
    if limit > 0 && |candidates| > limit {
      candidates := candidates[..limit];
      hasMore := true;
    }
    var items := ApplyFilter(candidates, filter, env);
    if items.Err? {
      return Err;
    }
    var last := map[];
    if hasMore {
      last := v.keyOf(candidates[|candidates| - 1].item);
    }
    r := Ok(Page(items.value, |candidates|, last));
  }

  /** projectItem on each item that is returned. */
  method ProjectItems(page: Result<Page>, projection: string, names: map<string, string>) returns (r: Result<Page>)
    ensures r == ProjectPage(page, projection, names)
  {
    hide Projection.Projected;
    if page.Err? {
      return Err;
    }
    var resultItems := [];
    for i := 0 to |page.value.items|
      invariant resultItems == ProjectAll(page.value.items, projection, names)[..i]
    {
      var item := Projection.ProjectItem(page.value.items[i], projection, names);
      resultItems := resultItems + [item];
    }
    assert resultItems == ProjectAll(page.value.items, projection, names);
    r := Ok(page.value.(items := resultItems));
  }

  method Query(td: TableData, req: QueryRequest) returns (r: Result<Page>)
    requires td.Valid()
    ensures r == QueryPage(td.Value(), req)
  {
    hide Requests.EvalCondition, KeyCondition.ParseKeyCondition, PageOf, ProjectPage, PartitionRefs, Matches, StartRange, KeyAttributes, NoEmptyMaps;
    var rows, schema := td.items, td.schema.key;
    if req.index != "" {
      if req.index !in td.gsis {
        return Err;
      }
      rows, schema := td.gsis[req.index], td.schema.gsis[req.index];
    }
    var parts := KeyCondition.ParseKeyConditionText(req.keyCondition, req.env, schema.hash, schema.range);
    if parts.Err? {
      return Err;
    }
    var hash, sk, range, tableKey := KeyString(parts.value.pk), parts.value.sk, schema.range, td.schema.key;
    var refs := PartitionInOrder(rows, hash, req.ascending);
    var v := View(refs,
                  item => Matches(item, sk, range),
                  item => Requests.EvalCondition(req.filter, req.env, item),
                  start => Key.Key(hash, StartRange(start, range)),
                  item => KeyAttributes(item, tableKey));
    var page := BuildPage(v, req.filter, req.env, req.start, req.limit);
    r := ProjectItems(page, req.projection, req.env.names);
    SameView(v, QueryView(Source(rows, schema), tableKey, parts.value, req), req.start, req.limit);
  }

  method Scan(td: TableData, req: ScanRequest) returns (r: Result<Page>)
    requires td.Valid()
    ensures r == ScanPage(td.Value(), req)
  {
    hide Requests.EvalCondition, PageOf, ProjectPage, TableRefs, StartRange, StartHash, KeyAttributes, NoEmptyMaps;
    var rows, schema := td.items, td.schema.key;
    if req.index != "" {
      if req.index !in td.gsis {
        return Err;
      }
      rows, schema := td.gsis[req.index], td.schema.gsis[req.index];
    }
    var refs := TableInOrder(rows);
    var v := View(refs,
                  item => true,
                  item => Requests.EvalCondition(req.filter, req.env, item),
                  start => Key.Key(StartHash(start, schema.hash), StartRange(start, schema.range)),
                  item => KeyAttributes(item, schema));
    var page := BuildPage(v, req.filter, req.env, req.start, req.limit);
    r := ProjectItems(page, req.projection, req.env.names);
    SameView(v, ScanView(Source(rows, schema), req), req.start, req.limit);
  }

  // ---- Views with equal parts give equal pages ----

  ghost predicate Alike(v: View, w: View) {
    && v.refs == w.refs
    && forall item :: v.wanted(item) == w.wanted(item) && v.filter(item) == w.filter(item)
                      && v.startOf(item) == w.startOf(item) && v.keyOf(item) == w.keyOf(item)
  }

  lemma SameView(v: View, w: View, start: Item, limit: nat)
    requires Alike(v, w)
    ensures PageOf(v, start, limit) == PageOf(w, start, limit)
  {
    hide Filtered, Coming, Alike;
    SameComing(v, w, start);
    var cands := Coming(v, start);
    AlikeMeans(v, w);
    SameFiltered(cands, v.filter, w.filter);
    if limit > 0 && |cands| > limit {
      SameFiltered(cands[..limit], v.filter, w.filter);
    }
  }

  lemma AlikeMeans(v: View, w: View)
    requires Alike(v, w)
    ensures v.refs == w.refs
    ensures forall item :: v.wanted(item) == w.wanted(item)
    ensures forall item :: v.filter(item) == w.filter(item)
    ensures forall item :: v.startOf(item) == w.startOf(item)
    ensures forall item :: v.keyOf(item) == w.keyOf(item)
  {
  }

  lemma SameComing(v: View, w: View, start: Item)
    requires Alike(v, w)
    ensures Coming(v, start) == Coming(w, start)
  {
    hide Candidates, Alike, From;
    AlikeMeans(v, w);
    SameFrom(v, w, start);
    SameCandidates(v.refs[From(v, start)..], v.wanted, w.wanted);
  }

  lemma SameFrom(v: View, w: View, start: Item)
    requires Alike(v, w)
    ensures From(v, start) == From(w, start)
  {
    hide Position;
    assert v.startOf(start) == w.startOf(start);
  }

  lemma {:induction false} SameCandidates(refs: seq<Ref>, a: Item -> bool, b: Item -> bool)
    requires forall item :: a(item) == b(item)
    ensures Candidates(refs, a) == Candidates(refs, b)
  {
    if refs != [] {
      SameCandidates(refs[1..], a, b);
    }
  }

  lemma {:induction false} SameFiltered(cands: seq<Ref>, a: Item -> Result<bool>, b: Item -> Result<bool>)
    requires forall item :: a(item) == b(item)
    ensures Filtered(cands, a) == Filtered(cands, b)
  {
    if cands != [] {
      SameFiltered(cands[1..], a, b);
    }
  }
}
